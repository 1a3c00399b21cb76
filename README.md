# django-jam model generation, in Dafny

django-jam describes a Django REST Framework project for a JavaScript client.
It produces two nested JSON documents:

- an **API tree**: nested dicts from the API prefix's path segments down to
  the leaf string `'CRUD'` under each route name;
- a **model map**: for each Django model, its attribute fields and its
  forward relations, with the options worth sending to the client.

This project models the two producers of these documents and proves what
they promise.

- `Generator` / `DRFGenerator` (jam/generator.py):
  - `find_api_and_models` walks the router registry.
  - `process_field`, `process_attribute` and `process_relationship` describe
    each serializer field.
  - `generate`, `process_app` and `process_model` describe every installed
    model that backs an endpoint.
  - `extract_options` and `has_option` choose which field options are kept.
- The `jam_generate` management command
  (jam/management/commands/jam_generate.py) is a simpler variant:
  - `dump_models` fills the command's `models` dict.
  - `get_api` builds the API tree from every registered route.
- `get_related_name` (jam/utils.py and a copy in the command) finds the
  reverse accessor name that a forward relation declares.

Modules, one per file:

| file | module | what it holds |
|---|---|---|
| values.dfy | `Values` | Python values and Python `==`, option bags, the exceptions raised, and a `Result` type usable with `:-` |
| reflection.dfy | `Reflection` | Django and DRF metadata as plain data: fields, relations, models, app configs, serializer fields, router registrations |
| ordered.dfy | `Ordered` | the dict that a `d[k] = f(v)` loop over an ordered dict builds, with or without an exception |
| utils.dfy | `Utils` | `get_related_name` |
| api_tree.dfy | `ApiTree` | the API tree, the `setdefault` walk, `split('/')`, and prefix slash stripping |
| options.dfy | `Options` | `extract_options` and `has_option` |
| schema.dfy | `Schema` | the relation descriptor that both `process_model`s build |
| endpoints.dfy | `Endpoints` | `DRFGenerator` |
| generator.dfy | `Generator` | `generate`, `process_app` and `process_model` |
| command.dfy | `Command` | the management command, as a class whose `models` field its methods update |

The model follows the code as written, including these quirks:

- `process_relationship` puts `'many': True` into the outer `related` dict,
  not into the field's own options.
- When no forward relation has the field's name, its search loop ends on the
  last forward relation. When the model has no forward relation at all,
  `related_info` is never bound and the call fails (`UnboundRelation`).
- The per-endpoint record spells its key `'relattionships'`.
- A prefix of `'/'` is indexed after it becomes empty, which raises
  IndexError (`PrefixIndex`). An empty `get_api` prefix fails the same way.
  An empty `find_api_and_models` prefix raises ValueError (`InvalidPrefix`).
- A route name is one key of the tree, even when it contains `'/'`.
- `generate` copies only `plural` (element 0 of `[name, single]`) into the
  model entry.
- A repeated model `__name__` raises TypeError in `generate`, and only after
  that model's fields have been read. In the command it silently replaces the
  earlier entry.

`find_api_and_models` keeps two kinds of key in one `models` dict: the
`single` strings and the model classes. They are modelled as two maps,
`records` and `names`. A string never equals a model class, so the two never
collide.

## Model

| member | source | states |
|---|---|---|
| Options.NoneEqual | jam/generator.py:123-126 | the defaults loop returns true exactly when no element of the defaults equals the value |
| Options.HasOption | jam/generator.py:120-126 | false exactly when the value equals the default or, for a tuple default, one of its elements (Python `==`, so `True == 1`) |
| Options.AsList | jam/generator.py:110-111 | a list or tuple `choices` becomes a list of the same elements in the same order, and a string becomes the list of its characters; anything else cannot be iterated and raises |
| Options.Emit | jam/generator.py:95-117 | a declaration contributes a value exactly when the field has the attribute, the value is not a default, is not callable and (after coercion) is encodable; `choices` is contributed as its list form; it raises only for a non-iterable `choices` |
| Options.ExtractOptions | jam/generator.py:91-118 | the loop computes the ordered fold of the declarations' contributions, returning the `choices` exception as soon as it occurs |
| Options.ExtractFails | jam/generator.py:91-118 | extraction fails exactly when some declaration's contribution fails |
| Options.ExtractErrorKind | jam/generator.py:110-111 | the only exception extraction raises is the non-iterable `choices` one |
| Options.ExtractSound | jam/generator.py:98-117 | every key of the bag is the output name of a declaration that contributes exactly the stored value, so defaults, callables, unencodable values and absent attributes never appear |
| Options.ExtractComplete | jam/generator.py:98-117 | a declaration that contributes a value, with no later declaration of the same key writing one, has that value in the bag under its output name |
| Utils.FirstRelatedName | jam/utils.py:7-15 | no related object mirrors the field (same field identity): None; otherwise the first one that does decides, with `'+'` reported as None |
| Utils.RelatedNameIsNone | jam/utils.py:7-15 | the result is None exactly when nothing matches, or when the first match has no related name or has `'+'` |
| Utils.OnlyFirstMatchConsulted | jam/utils.py:9-14 | replacing every related object after the first match leaves the result unchanged |
| ApiTree.Split | jam/generator.py:158 | `split('/')` yields at least one piece, and no piece contains `'/'` |
| ApiTree.JoinSplit | jam/generator.py:158 | joining the pieces of a split with `'/'` gives back the string |
| ApiTree.SplitJoin | jam/generator.py:158 | splitting the join of pieces without `'/'` gives back the pieces |
| ApiTree.StripSlashes | jam/generator.py:142-145 | the prefix `''` or `'/'` raises IndexError; otherwise one leading and one trailing `'/'` are removed and nothing else changes |
| ApiTree.InsertOkIff | jam/generator.py:157-160 | the `setdefault` walk succeeds exactly when no `'CRUD'` leaf lies on the path |
| ApiTree.InsertSpine | jam/generator.py:157-159 | after the walk, every prefix of the path leads to a dict |
| ApiTree.InsertNodes | jam/generator.py:155-159 | after the walk, every dict is either one that was there before or one on the path |
| ApiTree.InsertLeaves | jam/generator.py:157-160 | after the walk, the `'CRUD'` leaves are the new one at path + name plus every earlier leaf not at or below that position; existing subtrees are kept |
| ApiTree.EmptyShaped | jam/generator.py:136 | the empty tree holds no route and no dict below its root |
| ApiTree.InsertShaped | jam/generator.py:155-160 | adding a route to a tree whose `'CRUD'` leaves are exactly prefix + each route name so far, and whose dicts all lie on the prefix, never fails; afterwards the leaves are exactly prefix + each of those names and the new one, and still no dict lies off the prefix |
| ApiTree.RouteNameNotSplit | jam/generator.py:160 | for every tree, path and name, the walk puts `'CRUD'` directly under the path at the name, `'/'` and all; a name containing `'/'` creates no other new leaf below the path |
| Schema.RelationBase | jam/generator.py:56-67 | the relation descriptor has `type` = the related model's name, `relatedName` exactly when that name is truthy, `many: True` exactly when the relation is to-many, and no other key |
| Endpoints.DrfPrefix | jam/generator.py:139-145 | the first truthy prefix source is used and stripped; when none is truthy, ValueError is raised |
| Endpoints.NonDefaultOptions | jam/generator.py:189-198 | the option loop keeps each listed attribute the field has, under its own name, exactly when its value differs from the listed default |
| Endpoints.FirstNamed | jam/generator.py:220-223 | the first forward relation with the field's name, or none when no name matches |
| Endpoints.FindRelation | jam/generator.py:219-224 | the search loop yields the first forward relation with the field's name, else the last forward relation, and fails when there are none |
| Endpoints.RelationOpts | jam/generator.py:209-230 | the field's options carry `type` = related model name, `relatedName` exactly when truthy, never `many`, and besides those exactly the non-default listed attributes with their values |
| Endpoints.WithRelationship | jam/generator.py:231-233 | the field's options are stored under its name, `'many'` is set to True in the outer dict for a to-many relation, and every other key is kept |
| Endpoints.ProcessAttribute | jam/generator.py:179-199 | `attrs[field_name]` becomes the non-default options and nothing else changes |
| Endpoints.ProcessRelationship | jam/generator.py:201-233 | without forward relations the call fails; otherwise `related` is updated as `WithRelationship` with the selected relation |
| Endpoints.ProcessField | jam/generator.py:171-177 | a field named `id` changes nothing; a resource-related field goes to the relationships, any other field to the attributes |
| Endpoints.ProcessFields | jam/generator.py:153-156 | the field loop computes the ordered fold of `process_field` and fails exactly when a relation field meets a model without forward relations |
| Endpoints.AttrsOfKeys | jam/generator.py:171-199 | the attributes dict has a key exactly for each attribute field name |
| Endpoints.AttrsOfLast | jam/generator.py:171-199 | an attribute field holds the options its last occurrence wrote |
| Endpoints.RelatedOfKeys | jam/generator.py:171-233 | the relationships dict has a key for each relation field name, plus `'many'` exactly when some relation field resolves to a to-many relation |
| Endpoints.RelatedOfLast | jam/generator.py:201-233 | a relation field holds the options of the relation selected for it, when nothing later overwrites that entry |
| Endpoints.RelatedOfMany | jam/generator.py:231-232 | when some relation is to-many and no relation field is called `many`, the dict holds `'many': True` |
| Endpoints.FindApiAndModels | jam/generator.py:130-169 | the method computes the prefix, then the ordered fold of the registry loop |
| Endpoints.CollectErrorSticks | jam/generator.py:146-168 | once a registration has raised, later registrations do not change the outcome |
| Endpoints.CollectShaped | jam/generator.py:146-160 | the tree has `'CRUD'` exactly at prefix + name for every non-excluded, model-backed registration, its only dicts are along the prefix, and with no such registration it is the empty dict; excluded and model-less ones add nothing |
| Endpoints.CollectRecordKeys | jam/generator.py:161-167 | the records are stored exactly under the `single` names of the kept registrations |
| Endpoints.CollectRecords | jam/generator.py:161-167 | each kept registration's record holds its route name, its attributes and its relationships |
| Endpoints.CollectNameKeys | jam/generator.py:168 | `models[model]` is set exactly for the models that back a kept registration |
| Endpoints.CollectNames | jam/generator.py:168 | a model maps to `[name, single]` of the last kept registration it backs |
| Endpoints.RegisterOutcome | jam/generator.py:146-168 | after successful earlier registrations, a registration fails exactly when it is kept and has an unresolvable relation field or a repeated `single`, and it raises that exception |
| Endpoints.CollectOutcome | jam/generator.py:146-168 | the registry loop succeeds exactly when no kept registration fails, and the first failing one decides the exception; the tree walk itself never fails |
| Generator.AttributeBag | jam/generator.py:42-55 | a field's bag fails exactly when extraction fails, has `type: 'char'`, and otherwise holds exactly the options the field declarations contribute |
| Generator.RelationBag | jam/generator.py:56-81 | a relation's bag fails exactly when extraction fails, keeps every key of the relation descriptor, and otherwise holds exactly the contributed options |
| Generator.RelationMerged | jam/generator.py:68-81 | updating the relation descriptor with the extracted options overwrites none of its keys |
| Generator.EntryFor | jam/generator.py:39-81 | a model's entry fails exactly when some field's or relation's bag fails; otherwise it has the given plural, a bag under every field name and relation name, and each name holds the bag of its last occurrence |
| Generator.DescribeFields | jam/generator.py:41-55 | the attribute loop computes the fallible ordered fold of the field bags |
| Generator.DescribeRelations | jam/generator.py:56-81 | the relation loop computes the fallible ordered fold of the relation bags |
| Generator.ProcessModel | jam/generator.py:38-89 | the model is described, then a name already in `processed_models` raises TypeError; otherwise the entry is stored under `__name__` |
| Generator.ProcessApp | jam/generator.py:32-36 | the app's models that back an endpoint are processed in order, and the first exception stops the loop |
| Generator.ProcessApps | jam/generator.py:21-23 | the included apps (every app when none are named) are processed in order |
| Generator.Generate | jam/generator.py:18-27 | the endpoints are found first, then the models are processed, and the result pairs the API tree with the processed models |
| Generator.ProcessAllAppend | jam/generator.py:21-36 | processing two runs of models one after the other is processing their concatenation |
| Generator.GenerateStep | jam/generator.py:21-23 | one app of the loop contributes its backed models only when it is included |
| Generator.BackedMembers | jam/generator.py:33-36 | `process_app` handles exactly the app's models that are keys of the endpoint map, each with its `[name, single]` |
| Generator.ProcessableMembers | jam/generator.py:21-36 | `generate` handles exactly the backed models of the included apps |
| Generator.ProcessAllKeys | jam/generator.py:82-89 | a successful run adds exactly the processed models' `__name__`s and keeps the earlier entries |
| Generator.ProcessAllEntries | jam/generator.py:82-89 | after a successful run, each processed model's `__name__` holds that model's description |
| Generator.ProcessAllOk | jam/generator.py:82-89 | the model loop succeeds exactly when every processed model can be described, no name was already present, and no two processed models share a `__name__` |
| Generator.ProcessAllSound | jam/generator.py:82-84 | a successful loop means every model was describable and all names were distinct and new |
| Generator.ProcessAllComplete | jam/generator.py:82-84 | describable models with distinct new names make the loop succeed |
| Generator.ProcessAllErr | jam/generator.py:38-84 | the loop raises only the `choices` exception or TypeError for the `__name__` of one of the processed models |
| Command.DefaultBag | jam/management/commands/jam_generate.py:58-60 | a field's attributes hold `default` exactly when the field declares one, with that value, and nothing else |
| Command.DescribeFields | jam/management/commands/jam_generate.py:57-60 | the field loop builds the ordered-dict fold of the default bags |
| Command.DescribeRelations | jam/management/commands/jam_generate.py:61-72 | the relation loop builds the ordered-dict fold of the relation descriptors |
| Command.Command.constructor | jam/management/commands/jam_generate.py:28 | a new command holds an empty `models` dict |
| Command.Command.ProcessModel | jam/management/commands/jam_generate.py:54-77 | `models[__name__]` becomes the model's description, replacing an earlier model with that name without an error, and nothing else changes |
| Command.Command.ProcessApp | jam/management/commands/jam_generate.py:50-52 | every model of the app is stored in order over the existing `models` |
| Command.Command.DumpModels | jam/management/commands/jam_generate.py:42-46 | `models` is reset and then holds the descriptions of the selected apps' models, a later model overriding an earlier one with the same name |
| Command.Command.GetApi | jam/management/commands/jam_generate.py:92-105 | the prefix `''` or `'/'` raises IndexError; otherwise the tree holds `'CRUD'` exactly at stripped prefix + name for every registered route, unfiltered, its only dicts are along the prefix, and an empty registry gives the empty dict |
| Command.DumpStep | jam/management/commands/jam_generate.py:44-46 | an app adds its models to the dump exactly when its name is selected |
| Command.ListedMembers | jam/management/commands/jam_generate.py:44-52 | the models dumped are exactly those of the selected apps, each under its `__name__` |
| Command.DumpedModels | jam/management/commands/jam_generate.py:42-77 | after `dump_models`, the keys are exactly the selected apps' model names, and each holds the description of the last model with that name |
| Ordered.Tabulate | jam/management/commands/jam_generate.py:57-72 | the dict built by a `d[k] = f(v)` loop has exactly the keys of the sequence, and each key holds `f` of its last occurrence |
| Ordered.TabulateAppend | jam/management/commands/jam_generate.py:44-52 | running two loops in turn is the same as letting the second dict override the first |
| Ordered.TabulateOk | jam/generator.py:41-81 | the same loop, when computing a value can raise, fails exactly when some entry fails, with that entry's exception; otherwise it builds the same dict |

## Left out

- Output: `export`, `dump_api`, the output file names and `json.dumps(..., sort_keys=True)` are I/O and formatting.
- The command line: `add_arguments` and `handle` are CLI plumbing.
- `get_router` and `import_string` import a module by name. The registry is an input sequence of route name, optional model, readable serializer fields, and `single`.
- Django and DRF reflection is input data, not behaviour:
  - `apps.get_app_configs`, `get_field_info` and `_meta.related_objects`;
  - `serializer_class()._readable_fields` and the `ResourceRelatedField` test;
  - `settings.API_PREFIX` and `JAM_ENDPOINT_EXCLUDE`.
- `callable(val)` and `DjangoJSONEncoder.encode` are foreign calls. They are the function-valued parameters of `Options.Host`.
- Options.AsList: an iterable `choices` value is a list or a tuple; any other ordered iterable, such as a `model_utils.Choices`, must be given as a tuple. A `VObject` (a dict, a set or another iterable object) is treated as not iterable.
- Values.PyEq: Python `==` is modelled only for the value kinds used here. These are None, booleans, integers, strings, lists, tuples, the `NOT_PROVIDED` and `empty` sentinels, and opaque objects compared by identity. Floats and other types are out of scope.
- `extract_options` unpacks each entry with `name, default = name`. A two-character option name would unpack into characters. No option list here has a two-character name, so the lists are given already unpacked.
- Dicts are values passed in and returned. The aliasing of a caller's dict (`attrs`, `related`, `processed_models`) is not modelled, because nothing else holds a reference to them during a call.
- Command.Command.GetApi is a method of the class that does not touch `models`.
- Command.Command.constructor: a Python `Command` has no `models` attribute until `dump_models` sets it to `{}` (jam/management/commands/jam_generate.py:43). The model gives the new object that empty dict at once, and `DumpModels` resets it as the source does.
- Endpoints.DrfPrefix: when the call argument and the configured prefix are both falsy and the project has no `settings.API_PREFIX` at all, the source raises AttributeError (jam/generator.py:139). The model treats a missing setting as a falsy one and reports InvalidPrefix.
- Nothing models the class instance of `Generator`. Its only fields are the configured prefix and the JSON encoder: the prefix is a `PrefixSources` input and the encoder is part of `Host`.
- Model names are not qualified by app, and route names are not split on `'/'`. The code does neither: it raises or overwrites on a repeated name, and it uses a route name as a single key.
