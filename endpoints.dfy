/** `DRFGenerator` (jam/generator.py:129-233): walks the router registry,
    builds the API tree and, per endpoint, the serializer-derived
    attribute and relationship bags. */
module Endpoints {
  import opened Values
  import opened Reflection
  import opened Utils
  import opened ApiTree

  /** The option list of `process_attribute`: attribute name and default
      (a bare name defaults to None). */
  const AttributeOptionNames: seq<(string, Value)> := [
    ("label", VNone),
    ("read_only", VBool(false)),
    ("required", VBool(false)),
    ("allow_blank", VBool(true)),
    ("default", VEmpty),
    ("max_length", VNone),
    ("choices", VNone)
  ]

  /** The option list of `process_relationship`. */
  const RelationshipOptionNames: seq<(string, Value)> := [
    ("label", VNone),
    ("read_only", VBool(false)),
    ("required", VBool(false)),
    ("allow_blank", VBool(true)),
    ("default", VEmpty)
  ]

  /** A value of the `related` dict: a field's option bag, or the stray
      `True` that a to-many relation writes under the key 'many'. */
  datatype RelatedValue = RelBag(bag: Bag) | RelTrue

  /** The list `[name, single]` stored under a model. */
  datatype Names = Names(plural: string, single: string)

  /** The dict stored under `single`; its relationship key is spelled
      'relattionships' in the source. */
  datatype Record = Record(plural: string, attributes: map<string, Bag>, relattionships: map<string, RelatedValue>)

  /** The result of `find_api_and_models`. Its `models` dict holds two kinds
      of keys, `single` strings and model classes, which never compare
      equal; they are kept here as two maps. */
  datatype Endpoints = Endpoints(api: Tree, records: map<string, Record>, names: map<ModelClass, Names>)

  /** Where the prefix may come from: the call's `api_prefix`, the
      generator's own `api_prefix`, and `settings.API_PREFIX`. */
  datatype PrefixSources = PrefixSources(argument: Option<string>, configured: Option<string>, setting: Option<string>)

  /** `api_prefix or self.api_prefix or settings.API_PREFIX`, rejected with
      ValueError when falsy, then stripped of one leading and one
      trailing '/'. */
  function DrfPrefix(src: PrefixSources): (r: Result<string>)
    ensures r == Err(InvalidPrefix) <==> !Truthy(src.argument) && !Truthy(src.configured) && !Truthy(src.setting)
    ensures Truthy(src.argument) ==> r == StripSlashes(src.argument.value)
    ensures !Truthy(src.argument) && Truthy(src.configured) ==> r == StripSlashes(src.configured.value)
    ensures !Truthy(src.argument) && !Truthy(src.configured) && Truthy(src.setting) ==> r == StripSlashes(src.setting.value)
  {
    var chosen := if Truthy(src.argument) then src.argument
                  else if Truthy(src.configured) then src.configured
                  else src.setting;
    if !Truthy(chosen) then Err(InvalidPrefix) else StripSlashes(chosen.value)
  }

  /** The bag the option loops of `process_attribute` and
      `process_relationship` build: each listed attribute the field has,
      under its own name, unless it equals its default. */
  function NonDefault(decls: seq<(string, Value)>, attrs: map<string, Value>): Bag
  {
    map k | k in attrs && (exists i | 0 <= i < |decls| :: decls[i].0 == k && !PyEq(attrs[k], decls[i].1)) :: attrs[k]
  }

  /** The option loop itself. */
  method NonDefaultOptions(decls: seq<(string, Value)>, attrs: map<string, Value>) returns (opts: Bag)
    ensures opts == NonDefault(decls, attrs)
  {
    opts := map[];
    var i := 0;
    while i < |decls|
      invariant 0 <= i <= |decls|
      invariant opts == NonDefault(decls[..i], attrs)
    {
      var (name, default) := decls[i];
      if name in attrs {
        var val := attrs[name];
        if !PyEq(val, default) {
          opts := opts[name := val];
        }
      }
      assert decls[..i + 1][..i] == decls[..i] && decls[..i + 1][i] == decls[i];
      i := i + 1;
    }
    assert decls[..i] == decls;
  }

  /** The index of the first forward relation called `name`, if any. */
  function FirstNamed(rels: seq<(string, RelationInfo)>, name: string): (r: Option<nat>)
    ensures r.None? <==> forall i :: 0 <= i < |rels| ==> rels[i].0 != name
    ensures r.Some? ==> r.value < |rels| && rels[r.value].0 == name && forall j :: 0 <= j < r.value ==> rels[j].0 != name
  {
    if rels == [] then None
    else if rels[0].0 == name then Some(0)
    else match FirstNamed(rels[1..], name)
      case None => None
      case Some(i) => Some(i + 1)
  }

  /** The `related_info` left bound after the search loop of
      `process_relationship`: the first forward relation with the field's
      name or, since the loop only breaks on a match, the last one. */
  function Selected(rels: seq<(string, RelationInfo)>, name: string): RelationInfo
    requires rels != []
  {
    match FirstNamed(rels, name)
    case Some(i) => rels[i].1
    case None => rels[|rels| - 1].1
  }

  /** The search loop: fails (UnboundLocalError) only when the model has
      no forward relation at all. */
  method FindRelation(rels: seq<(string, RelationInfo)>, name: string) returns (r: Result<RelationInfo>)
    ensures rels == [] ==> r == Err(UnboundRelation)
    ensures rels != [] ==> r == Ok(Selected(rels, name))
  {
    if rels == [] {
      return Err(UnboundRelation);
    }
    var i := 0;
    while i < |rels| - 1 && rels[i].0 != name
      invariant 0 <= i < |rels|
      invariant forall j :: 0 <= j < i ==> rels[j].0 != name
    {
      i := i + 1;
    }
    return Ok(rels[i].1);
  }

  /** The `opts` dict `process_relationship` stores for a field. */
  function RelationOpts(field: SerializerField, info: RelationInfo): (opts: Bag)
    ensures "type" in opts && opts["type"] == VStr(info.relatedModel.name)
    ensures "relatedName" in opts <==> Truthy(GetRelatedName(info.relatedModel, info.modelField))
    ensures "relatedName" in opts ==> opts["relatedName"] == VStr(GetRelatedName(info.relatedModel, info.modelField).value)
    ensures "many" !in opts
    ensures forall k :: k in opts && k != "type" && k != "relatedName" ==>
      k in NonDefault(RelationshipOptionNames, field.attrs) && opts[k] == field.attrs[k]
    ensures forall k :: k in NonDefault(RelationshipOptionNames, field.attrs) ==> k in opts && opts[k] == field.attrs[k]
  {
    var base := NonDefault(RelationshipOptionNames, field.attrs);
    assert "many" !in base && "relatedName" !in base && "type" !in base;
    var typed := base["type" := VStr(info.relatedModel.name)];
    var relatedName := GetRelatedName(info.relatedModel, info.modelField);
    if Truthy(relatedName) then typed["relatedName" := VStr(relatedName.value)] else typed
  }

  /** The `related` dict after `process_relationship` with relation `info`:
      'many' is set to True in `related` itself, not in the field's bag,
      and the field's bag is written last. */
  function WithRelationship(related: map<string, RelatedValue>, field: SerializerField, info: RelationInfo): (r: map<string, RelatedValue>)
    ensures r.Keys == related.Keys + {field.fieldName} + (if info.toMany then {"many"} else {})
    ensures r[field.fieldName] == RelBag(RelationOpts(field, info))
    ensures info.toMany && field.fieldName != "many" ==> r["many"] == RelTrue
    ensures forall k :: k in related && k != field.fieldName && (k == "many" ==> !info.toMany) ==> r[k] == related[k]
  {
    var flagged := if info.toMany then related["many" := RelTrue] else related;
    flagged[field.fieldName := RelBag(RelationOpts(field, info))]
  }

  predicate IsAttribute(f: SerializerField)
  {
    f.fieldName != "id" && !f.isResourceRelated
  }

  predicate IsRelationship(f: SerializerField)
  {
    f.fieldName != "id" && f.isResourceRelated
  }

  /** `process_attribute`: `attrs[field.field_name] = opts`. */
  method ProcessAttribute(field: SerializerField, attrs: map<string, Bag>) returns (attrs': map<string, Bag>)
    ensures attrs' == attrs[field.fieldName := NonDefault(AttributeOptionNames, field.attrs)]
  {
    var opts := NonDefaultOptions(AttributeOptionNames, field.attrs);
    attrs' := attrs[field.fieldName := opts];
  }

  /** `process_relationship`. */
  method ProcessRelationship(field: SerializerField, model: ModelClass, related: map<string, RelatedValue>)
    returns (r: Result<map<string, RelatedValue>>)
    ensures model.forwardRelations == [] ==> r == Err(UnboundRelation)
    ensures model.forwardRelations != [] ==>
      r == Ok(WithRelationship(related, field, Selected(model.forwardRelations, field.fieldName)))
  {
    var opts := NonDefaultOptions(RelationshipOptionNames, field.attrs);
    var found := FindRelation(model.forwardRelations, field.fieldName);
    if found.Err? {
      return Err(found.error);
    }
    var info := found.value;
    assert "many" !in opts && "relatedName" !in opts;
    opts := opts["type" := VStr(info.relatedModel.name)];
    var relatedName := GetRelatedName(info.relatedModel, info.modelField);
    if Truthy(relatedName) {
      opts := opts["relatedName" := VStr(relatedName.value)];
    }
    var related' := related;
    if info.toMany {
      related' := related'["many" := RelTrue];
    }
    related' := related'[field.fieldName := RelBag(opts)];
    return Ok(related');
  }

  /** `process_field`: `id` is skipped, a `ResourceRelatedField` goes to
      the relationships, any other field to the attributes. */
  method ProcessField(field: SerializerField, model: ModelClass, attrs: map<string, Bag>, related: map<string, RelatedValue>)
    returns (r: Result<(map<string, Bag>, map<string, RelatedValue>)>)
    ensures field.fieldName == "id" ==> r == Ok((attrs, related))
    ensures IsAttribute(field) ==> r == Ok((attrs[field.fieldName := NonDefault(AttributeOptionNames, field.attrs)], related))
    ensures IsRelationship(field) && model.forwardRelations == [] ==> r == Err(UnboundRelation)
    ensures IsRelationship(field) && model.forwardRelations != [] ==>
      r == Ok((attrs, WithRelationship(related, field, Selected(model.forwardRelations, field.fieldName))))
  {
    if field.fieldName == "id" {
      return Ok((attrs, related));
    }
    if field.isResourceRelated {
      var related' :- ProcessRelationship(field, model, related);
      return Ok((attrs, related'));
    } else {
      var attrs' := ProcessAttribute(field, attrs);
      return Ok((attrs', related));
    }
  }

  /** The attribute dict after processing `fields` in order. */
  function AttrsOf(fields: seq<SerializerField>): map<string, Bag>
    decreases |fields|
  {
    if fields == [] then map[]
    else
      var prev := AttrsOf(fields[..|fields| - 1]);
      var f := fields[|fields| - 1];
      if IsAttribute(f) then prev[f.fieldName := NonDefault(AttributeOptionNames, f.attrs)] else prev
  }

  /** The relationship dict after processing `fields` in order against the
      model's forward relations `rels`. */
  function RelatedOf(fields: seq<SerializerField>, rels: seq<(string, RelationInfo)>): map<string, RelatedValue>
    decreases |fields|
  {
    if fields == [] then map[]
    else
      var prev := RelatedOf(fields[..|fields| - 1], rels);
      var f := fields[|fields| - 1];
      if IsRelationship(f) && rels != [] then WithRelationship(prev, f, Selected(rels, f.fieldName)) else prev
  }

  /** The outcome of the field loop: the UnboundLocalError of a relation
      field on a model without forward relations, or both dicts. */
  function FieldsResult(fields: seq<SerializerField>, model: ModelClass): Result<(map<string, Bag>, map<string, RelatedValue>)>
  {
    if model.forwardRelations == [] && exists i :: 0 <= i < |fields| && IsRelationship(fields[i]) then Err(UnboundRelation)
    else Ok((AttrsOf(fields), RelatedOf(fields, model.forwardRelations)))
  }

  /** The field loop of `find_api_and_models`: start from empty dicts and
      `process_field` each readable field in order. */
  method ProcessFields(fields: seq<SerializerField>, model: ModelClass)
    returns (r: Result<(map<string, Bag>, map<string, RelatedValue>)>)
    ensures r == FieldsResult(fields, model)
  {
    var attrs: map<string, Bag> := map[];
    var related: map<string, RelatedValue> := map[];
    var i := 0;
    while i < |fields|
      invariant 0 <= i <= |fields|
      invariant model.forwardRelations == [] ==> forall j :: 0 <= j < i ==> !IsRelationship(fields[j])
      invariant attrs == AttrsOf(fields[..i])
      invariant related == RelatedOf(fields[..i], model.forwardRelations)
    {
      var f := fields[i];
      assert fields[..i + 1][..i] == fields[..i] && fields[..i + 1][i] == f;
      var step := ProcessField(f, model, attrs, related);
      if step.Err? {
        return Err(step.error);
      }
      attrs, related := step.value.0, step.value.1;
      i := i + 1;
    }
    assert fields[..i] == fields;
    return Ok((attrs, related));
  }

  /** The names of the attribute fields among `fields`. */
  ghost function AttrNames(fields: seq<SerializerField>): set<string>
  {
    set i | 0 <= i < |fields| && IsAttribute(fields[i]) :: fields[i].fieldName
  }

  lemma AttrNamesSnoc(fields: seq<SerializerField>)
    requires fields != []
    ensures AttrNames(fields) == AttrNames(fields[..|fields| - 1]) +
      (if IsAttribute(fields[|fields| - 1]) then {fields[|fields| - 1].fieldName} else {})
  {
    var init := fields[..|fields| - 1];
    forall n | n in AttrNames(fields) ensures n in AttrNames(init) || n == fields[|fields| - 1].fieldName {
      var i :| 0 <= i < |fields| && IsAttribute(fields[i]) && fields[i].fieldName == n;
      if i < |init| { assert init[i] == fields[i]; }
    }
    forall n | n in AttrNames(init) ensures n in AttrNames(fields) {
      var i :| 0 <= i < |init| && IsAttribute(init[i]) && init[i].fieldName == n;
      assert fields[i] == init[i];
    }
  }

  /** The attribute dict has a key exactly for each attribute field name. */
  lemma {:induction false} AttrsOfKeys(fields: seq<SerializerField>)
    ensures AttrsOf(fields).Keys == AttrNames(fields)
    decreases |fields|
  {
    if fields != [] {
      AttrsOfKeys(fields[..|fields| - 1]);
      AttrNamesSnoc(fields);
    }
  }

  /** No later attribute field has the same name as field `i`. */
  ghost predicate LastAttribute(fields: seq<SerializerField>, i: int)
  {
    0 <= i < |fields| &&
    forall j :: i < j < |fields| && IsAttribute(fields[j]) ==> fields[j].fieldName != fields[i].fieldName
  }

  /** An attribute field's bag is the one its last occurrence wrote. */
  lemma {:induction false} AttrsOfLast(fields: seq<SerializerField>, i: int)
    requires LastAttribute(fields, i) && IsAttribute(fields[i])
    ensures fields[i].fieldName in AttrsOf(fields)
    ensures AttrsOf(fields)[fields[i].fieldName] == NonDefault(AttributeOptionNames, fields[i].attrs)
    decreases |fields|
  {
    if i < |fields| - 1 {
      var init := fields[..|fields| - 1];
      assert init[i] == fields[i];
      assert LastAttribute(init, i) by {
        forall j | i < j < |init| && IsAttribute(init[j]) ensures init[j].fieldName != init[i].fieldName {
          assert init[j] == fields[j];
        }
      }
      AttrsOfLast(init, i);
    }
  }

  /** Some relation field resolves to a to-many relation. */
  ghost predicate ManyFlagged(fields: seq<SerializerField>, rels: seq<(string, RelationInfo)>)
  {
    rels != [] && exists i :: 0 <= i < |fields| && IsRelationship(fields[i]) && Selected(rels, fields[i].fieldName).toMany
  }

  lemma ManyFlaggedSnoc(fields: seq<SerializerField>, rels: seq<(string, RelationInfo)>)
    requires fields != [] && rels != []
    ensures ManyFlagged(fields, rels) <==> (ManyFlagged(fields[..|fields| - 1], rels) ||
      (IsRelationship(fields[|fields| - 1]) && Selected(rels, fields[|fields| - 1].fieldName).toMany))
  {
    var init := fields[..|fields| - 1];
    if ManyFlagged(fields, rels) {
      var i :| 0 <= i < |fields| && IsRelationship(fields[i]) && Selected(rels, fields[i].fieldName).toMany;
      if i < |init| { assert init[i] == fields[i]; }
    }
    if ManyFlagged(init, rels) {
      var i :| 0 <= i < |init| && IsRelationship(init[i]) && Selected(rels, init[i].fieldName).toMany;
      assert fields[i] == init[i];
    }
  }

  /** The names of the relation fields among `fields`. */
  ghost function RelNames(fields: seq<SerializerField>): set<string>
  {
    set i | 0 <= i < |fields| && IsRelationship(fields[i]) :: fields[i].fieldName
  }

  lemma RelNamesSnoc(fields: seq<SerializerField>)
    requires fields != []
    ensures RelNames(fields) == RelNames(fields[..|fields| - 1]) +
      (if IsRelationship(fields[|fields| - 1]) then {fields[|fields| - 1].fieldName} else {})
  {
    var init := fields[..|fields| - 1];
    forall n | n in RelNames(fields) ensures n in RelNames(init) || n == fields[|fields| - 1].fieldName {
      var i :| 0 <= i < |fields| && IsRelationship(fields[i]) && fields[i].fieldName == n;
      if i < |init| { assert init[i] == fields[i]; }
    }
    forall n | n in RelNames(init) ensures n in RelNames(fields) {
      var i :| 0 <= i < |init| && IsRelationship(init[i]) && init[i].fieldName == n;
      assert fields[i] == init[i];
    }
  }

  /** The relationship dict has a key for each relation field name, and the
      stray 'many' key when some relation is to-many. */
  lemma {:induction false} RelatedOfKeys(fields: seq<SerializerField>, rels: seq<(string, RelationInfo)>)
    requires rels != []
    ensures RelatedOf(fields, rels).Keys == RelNames(fields) + (if ManyFlagged(fields, rels) then {"many"} else {})
    decreases |fields|
  {
    if fields != [] {
      RelatedOfKeys(fields[..|fields| - 1], rels);
      RelNamesSnoc(fields);
      ManyFlaggedSnoc(fields, rels);
    }
  }

  /** Nothing written after relation field `i` overwrites its entry: no later
      relation field has its name, and if that name is 'many', no later
      relation is to-many. */
  ghost predicate LastRelationship(fields: seq<SerializerField>, rels: seq<(string, RelationInfo)>, i: int)
  {
    && rels != []
    && 0 <= i < |fields|
    && forall j :: i < j < |fields| && IsRelationship(fields[j]) ==>
         fields[j].fieldName != fields[i].fieldName &&
         (fields[i].fieldName == "many" ==> !Selected(rels, fields[j].fieldName).toMany)
  }

  /** A relation field's bag is the one its last write stored: the
      non-default options, the related type and the reverse name of the
      forward relation it resolved to. */
  lemma {:induction false} RelatedOfLast(fields: seq<SerializerField>, rels: seq<(string, RelationInfo)>, i: int)
    requires LastRelationship(fields, rels, i) && IsRelationship(fields[i])
    ensures fields[i].fieldName in RelatedOf(fields, rels)
    ensures RelatedOf(fields, rels)[fields[i].fieldName] == RelBag(RelationOpts(fields[i], Selected(rels, fields[i].fieldName)))
    decreases |fields|
  {
    if i < |fields| - 1 {
      var init := fields[..|fields| - 1];
      assert init[i] == fields[i];
      assert LastRelationship(init, rels, i) by {
        forall j | i < j < |init| && IsRelationship(init[j])
          ensures init[j].fieldName != init[i].fieldName &&
            (init[i].fieldName == "many" ==> !Selected(rels, init[j].fieldName).toMany)
        {
          assert init[j] == fields[j];
        }
      }
      RelatedOfLast(init, rels, i);
    }
  }

  /** When some relation is to-many and no relation field is itself called
      'many', the relationship dict holds `'many': True`. */
  lemma {:induction false} RelatedOfMany(fields: seq<SerializerField>, rels: seq<(string, RelationInfo)>)
    requires ManyFlagged(fields, rels)
    requires forall i :: 0 <= i < |fields| && IsRelationship(fields[i]) ==> fields[i].fieldName != "many"
    ensures "many" in RelatedOf(fields, rels) && RelatedOf(fields, rels)["many"] == RelTrue
    decreases |fields|
  {
    var init := fields[..|fields| - 1];
    var f := fields[|fields| - 1];
    if !(IsRelationship(f) && Selected(rels, f.fieldName).toMany) {
      var i :| 0 <= i < |fields| && IsRelationship(fields[i]) && Selected(rels, fields[i].fieldName).toMany;
      assert i < |init| && init[i] == fields[i];
      assert ManyFlagged(init, rels);
      forall j | 0 <= j < |init| && IsRelationship(init[j]) ensures init[j].fieldName != "many" {
        assert init[j] == fields[j];
      }
      RelatedOfMany(init, rels);
    }
  }

  /** A registration `find_api_and_models` processes: not excluded by
      JAM_ENDPOINT_EXCLUDE, and its viewset has a queryset model. */
  predicate Kept(reg: Registration, exclude: seq<string>)
  {
    reg.name !in exclude && reg.model.Some?
  }

  /** The dict stored under a kept registration's `single`. */
  function RecordOf(reg: Registration): Record
    requires reg.model.Some?
  {
    Record(reg.name, AttrsOf(reg.fields), RelatedOf(reg.fields, reg.model.value.forwardRelations))
  }

  /** One iteration of the registry loop. */
  function Register(segs: seq<string>, e: Endpoints, reg: Registration, exclude: seq<string>): Result<Endpoints>
  {
    if !Kept(reg, exclude) then Ok(e)
    else
      var dicts :- FieldsResult(reg.fields, reg.model.value);
      var api :- Insert(e.api, segs, reg.name);
      if reg.single in e.records then Err(DuplicateEndpoint(reg.name))
      else Ok(Endpoints(api,
                        e.records[reg.single := Record(reg.name, dicts.0, dicts.1)],
                        e.names[reg.model.value := Names(reg.name, reg.single)]))
  }

  /** The registry loop over `regs`, from an empty API and empty models. */
  function Collect(segs: seq<string>, regs: seq<Registration>, exclude: seq<string>): Result<Endpoints>
    decreases |regs|
  {
    if regs == [] then Ok(Endpoints(Node(map[]), map[], map[]))
    else
      var e :- Collect(segs, regs[..|regs| - 1], exclude);
      Register(segs, e, regs[|regs| - 1], exclude)
  }

  /** `find_api_and_models(api_prefix)` over the router's registry. */
  function FindSpec(src: PrefixSources, registry: seq<Registration>, exclude: seq<string>): Result<Endpoints>
  {
    var prefix :- DrfPrefix(src);
    Collect(Split(prefix), registry, exclude)
  }

  lemma {:induction false} CollectErrorSticks(segs: seq<string>, regs: seq<Registration>, exclude: seq<string>, n: nat)
    requires n <= |regs|
    requires Collect(segs, regs[..n], exclude).Err?
    ensures Collect(segs, regs, exclude) == Collect(segs, regs[..n], exclude)
    decreases |regs| - n
  {
    if n < |regs| {
      assert regs[..n + 1][..n] == regs[..n];
      CollectErrorSticks(segs, regs, exclude, n + 1);
    } else {
      assert regs[..n] == regs;
    }
  }

  /** `find_api_and_models` itself. */
  method FindApiAndModels(src: PrefixSources, registry: seq<Registration>, exclude: seq<string>) returns (r: Result<Endpoints>)
    ensures r == FindSpec(src, registry, exclude)
  {
    var prefix :- DrfPrefix(src);
    var segs := Split(prefix);
    var api := Node(map[]);
    var records: map<string, Record> := map[];
    var names: map<ModelClass, Names> := map[];
    var i := 0;
    while i < |registry|
      invariant 0 <= i <= |registry|
      invariant Collect(segs, registry[..i], exclude) == Ok(Endpoints(api, records, names))
    {
      var reg := registry[i];
      assert registry[..i + 1][..i] == registry[..i] && registry[..i + 1][i] == reg;
      if reg.name !in exclude && reg.model.Some? {
        var model := reg.model.value;
        var dicts := ProcessFields(reg.fields, model);
        if dicts.Err? {
          CollectErrorSticks(segs, registry, exclude, i + 1);
          return Err(dicts.error);
        }
        var walked := Insert(api, segs, reg.name);
        if walked.Err? {
          CollectErrorSticks(segs, registry, exclude, i + 1);
          return Err(walked.error);
        }
        api := walked.value;
        if reg.single in records {
          CollectErrorSticks(segs, registry, exclude, i + 1);
          return Err(DuplicateEndpoint(reg.name));
        }
        records := records[reg.single := Record(reg.name, dicts.value.0, dicts.value.1)];
        names := names[model := Names(reg.name, reg.single)];
      }
      i := i + 1;
    }
    assert registry[..i] == registry;
    return Ok(Endpoints(api, records, names));
  }

  /** The route names of the kept registrations. */
  ghost function KeptNames(regs: seq<Registration>, exclude: seq<string>): set<string>
  {
    set i | 0 <= i < |regs| && Kept(regs[i], exclude) :: regs[i].name
  }

  lemma KeptNamesSnoc(regs: seq<Registration>, exclude: seq<string>)
    requires regs != []
    ensures KeptNames(regs, exclude) == KeptNames(regs[..|regs| - 1], exclude) +
      (if Kept(regs[|regs| - 1], exclude) then {regs[|regs| - 1].name} else {})
  {
    var init := regs[..|regs| - 1];
    forall n | n in KeptNames(regs, exclude) ensures n in KeptNames(init, exclude) || n == regs[|regs| - 1].name {
      var i :| 0 <= i < |regs| && Kept(regs[i], exclude) && regs[i].name == n;
      if i < |init| { assert init[i] == regs[i]; }
    }
    forall n | n in KeptNames(init, exclude) ensures n in KeptNames(regs, exclude) {
      var i :| 0 <= i < |init| && Kept(init[i], exclude) && init[i].name == n;
      assert regs[i] == init[i];
    }
  }

  /** The `single` names of the kept registrations. */
  ghost function KeptSingles(regs: seq<Registration>, exclude: seq<string>): set<string>
  {
    set i | 0 <= i < |regs| && Kept(regs[i], exclude) :: regs[i].single
  }

  lemma KeptSinglesSnoc(regs: seq<Registration>, exclude: seq<string>)
    requires regs != []
    ensures KeptSingles(regs, exclude) == KeptSingles(regs[..|regs| - 1], exclude) +
      (if Kept(regs[|regs| - 1], exclude) then {regs[|regs| - 1].single} else {})
  {
    var init := regs[..|regs| - 1];
    forall n | n in KeptSingles(regs, exclude) ensures n in KeptSingles(init, exclude) || n == regs[|regs| - 1].single {
      var i :| 0 <= i < |regs| && Kept(regs[i], exclude) && regs[i].single == n;
      if i < |init| { assert init[i] == regs[i]; }
    }
    forall n | n in KeptSingles(init, exclude) ensures n in KeptSingles(regs, exclude) {
      var i :| 0 <= i < |init| && Kept(init[i], exclude) && init[i].single == n;
      assert regs[i] == init[i];
    }
  }

  /** The API tree holds 'CRUD' exactly at prefix + name for each kept
      registration's name, the prefix leading through dicts. */
  lemma {:induction false} CollectShaped(segs: seq<string>, regs: seq<Registration>, exclude: seq<string>)
    requires Collect(segs, regs, exclude).Ok?
    ensures Shaped(Collect(segs, regs, exclude).value.api, segs, KeptNames(regs, exclude))
    decreases |regs|
  {
    if regs == [] {
      EmptyShaped(segs);
    } else {
      var init := regs[..|regs| - 1];
      var reg := regs[|regs| - 1];
      CollectShaped(segs, init, exclude);
      KeptNamesSnoc(regs, exclude);
      if Kept(reg, exclude) {
        InsertShaped(Collect(segs, init, exclude).value.api, segs, KeptNames(init, exclude), reg.name);
      }
    }
  }

  /** The records are stored exactly under the kept registrations'
      `single` names. */
  lemma {:induction false} CollectRecordKeys(segs: seq<string>, regs: seq<Registration>, exclude: seq<string>)
    requires Collect(segs, regs, exclude).Ok?
    ensures Collect(segs, regs, exclude).value.records.Keys == KeptSingles(regs, exclude)
    decreases |regs|
  {
    if regs != [] {
      CollectRecordKeys(segs, regs[..|regs| - 1], exclude);
      KeptSinglesSnoc(regs, exclude);
    }
  }

  /** Each kept registration has its record under its `single`: a later
      registration with the same `single` would have failed. */
  lemma {:induction false} CollectRecords(segs: seq<string>, regs: seq<Registration>, exclude: seq<string>, i: int)
    requires Collect(segs, regs, exclude).Ok?
    requires 0 <= i < |regs| && Kept(regs[i], exclude)
    ensures regs[i].single in Collect(segs, regs, exclude).value.records
    ensures Collect(segs, regs, exclude).value.records[regs[i].single] == RecordOf(regs[i])
    decreases |regs|
  {
    var init := regs[..|regs| - 1];
    var reg := regs[|regs| - 1];
    if i < |init| {
      assert init[i] == regs[i];
      CollectRecords(segs, init, exclude, i);
      assert Kept(reg, exclude) ==> reg.single !in Collect(segs, init, exclude).value.records;
    }
  }

  /** No later kept registration uses the same model as registration `i`. */
  ghost predicate LastBacking(regs: seq<Registration>, exclude: seq<string>, i: int)
  {
    0 <= i < |regs| &&
    forall j :: i < j < |regs| && Kept(regs[j], exclude) ==> regs[j].model != regs[i].model
  }

  /** A kept registration that is the last one backed by its model gives
      that model's `[name, single]` pair. */
  lemma {:induction false} CollectNames(segs: seq<string>, regs: seq<Registration>, exclude: seq<string>, i: int)
    requires Collect(segs, regs, exclude).Ok?
    requires LastBacking(regs, exclude, i) && Kept(regs[i], exclude)
    ensures regs[i].model.value in Collect(segs, regs, exclude).value.names
    ensures Collect(segs, regs, exclude).value.names[regs[i].model.value] == Names(regs[i].name, regs[i].single)
    decreases |regs|
  {
    var init := regs[..|regs| - 1];
    if i < |init| {
      assert init[i] == regs[i];
      assert LastBacking(init, exclude, i) by {
        forall j | i < j < |init| && Kept(init[j], exclude) ensures init[j].model != init[i].model {
          assert init[j] == regs[j];
        }
      }
      CollectNames(segs, init, exclude, i);
    }
  }

  /** The models backing the kept registrations. */
  ghost function KeptModels(regs: seq<Registration>, exclude: seq<string>): set<ModelClass>
  {
    set i | 0 <= i < |regs| && Kept(regs[i], exclude) :: regs[i].model.value
  }

  lemma KeptModelsSnoc(regs: seq<Registration>, exclude: seq<string>)
    requires regs != []
    ensures KeptModels(regs, exclude) == KeptModels(regs[..|regs|-1], exclude)
      + (if Kept(regs[|regs|-1], exclude) then {regs[|regs|-1].model.value} else {})
  {
    var init := regs[..|regs|-1];
    forall m | m in KeptModels(regs, exclude) ensures m in KeptModels(init, exclude) || m == regs[|regs|-1].model.value {
      var i :| 0 <= i < |regs| && Kept(regs[i], exclude) && regs[i].model.value == m;
      if i < |init| { assert init[i] == regs[i]; }
    }
    forall m | m in KeptModels(init, exclude) ensures m in KeptModels(regs, exclude) {
      var i :| 0 <= i < |init| && Kept(init[i], exclude) && init[i].model.value == m;
      assert regs[i] == init[i];
    }
  }

  /** `models` has one entry per model behind a kept registration. */
  lemma {:induction false} CollectNameKeys(segs: seq<string>, regs: seq<Registration>, exclude: seq<string>)
    requires Collect(segs, regs, exclude).Ok?
    ensures Collect(segs, regs, exclude).value.names.Keys == KeptModels(regs, exclude)
    decreases |regs|
  {
    if regs != [] {
      CollectNameKeys(segs, regs[..|regs|-1], exclude);
      KeptModelsSnoc(regs, exclude);
    }
  }

  /** Registration `i` is kept and fails: one of its relation fields has no
      forward relation to resolve to, or an earlier kept registration has
      the same `single`. */
  ghost predicate Bad(regs: seq<Registration>, exclude: seq<string>, i: int)
  {
    && 0 <= i < |regs|
    && Kept(regs[i], exclude)
    && (FieldsResult(regs[i].fields, regs[i].model.value).Err? || regs[i].single in KeptSingles(regs[..i], exclude))
  }

  /** The exception a failing registration raises. */
  function ErrorAt(reg: Registration): Error
    requires reg.model.Some?
  {
    if FieldsResult(reg.fields, reg.model.value).Err? then UnboundRelation else DuplicateEndpoint(reg.name)
  }

  /** Processing the last registration after a successful loop over the
      others: it fails exactly when it is bad, with its own exception. */
  lemma RegisterOutcome(segs: seq<string>, regs: seq<Registration>, exclude: seq<string>)
    requires regs != [] && Collect(segs, regs[..|regs| - 1], exclude).Ok?
    ensures Collect(segs, regs, exclude).Ok? <==> !Bad(regs, exclude, |regs| - 1)
    ensures Bad(regs, exclude, |regs| - 1) ==> Collect(segs, regs, exclude) == Err(ErrorAt(regs[|regs| - 1]))
  {
    var init := regs[..|regs| - 1];
    var reg := regs[|regs| - 1];
    var e := Collect(segs, init, exclude).value;
    CollectRecordKeys(segs, init, exclude);
    if Kept(reg, exclude) {
      CollectShaped(segs, init, exclude);
      InsertShaped(e.api, segs, KeptNames(init, exclude), reg.name);
    }
  }

  /** The registry loop succeeds exactly when no registration fails, and
      the first failing registration decides the exception. The walk into
      the API tree never fails. */
  lemma {:induction false} CollectOutcome(segs: seq<string>, regs: seq<Registration>, exclude: seq<string>)
    ensures Collect(segs, regs, exclude).Ok? <==> forall i :: 0 <= i < |regs| ==> !Bad(regs, exclude, i)
    ensures forall i :: Bad(regs, exclude, i) && (forall j :: 0 <= j < i ==> !Bad(regs, exclude, j)) ==>
      Collect(segs, regs, exclude) == Err(ErrorAt(regs[i]))
    decreases |regs|
  {
    if regs != [] {
      var n := |regs| - 1;
      var init := regs[..n];
      CollectOutcome(segs, init, exclude);
      forall i | 0 <= i < n ensures Bad(init, exclude, i) <==> Bad(regs, exclude, i) {
        assert init[..i] == regs[..i] && init[i] == regs[i];
      }
      if Collect(segs, init, exclude).Ok? {
        RegisterOutcome(segs, regs, exclude);
      } else {
        var k :| 0 <= k < n && Bad(init, exclude, k);
        assert Bad(regs, exclude, k);
      }
    }
  }
}
