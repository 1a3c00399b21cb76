/** `Generator.generate`, `process_app` and `process_model`
    (jam/generator.py:13-89): one model description per installed model
    that an endpoint is backed by. */
module Generator {
  import opened Values
  import opened Reflection
  import opened Ordered
  import opened Options
  import opened Schema
  import opened ApiTree
  import opened Endpoints

  /** The dict `process_model` stores under a model's `__name__`. */
  datatype ModelEntry = ModelEntry(plural: string, attributes: map<string, Bag>, relationships: map<string, Bag>)

  /** `{'api': api, 'models': processed_models}`. */
  datatype Generated = Generated(api: Tree, models: map<string, ModelEntry>)

  /** No two declarations write the same key. */
  predicate DistinctKeys(decls: seq<Decl>)
  {
    forall i, j :: 0 <= i < j < |decls| ==> Key(decls[i]) != Key(decls[j])
  }

  /** With distinct keys, every declaration that contributes a value leaves
      it in the bag. */
  lemma ExtractExact(decls: seq<Decl>, attrs: map<string, Value>, host: Host)
    requires DistinctKeys(decls) && ExtractSpec(decls, attrs, host).Ok?
    ensures forall i :: 0 <= i < |decls| && Emit(decls[i], attrs, host).Ok? && Emit(decls[i], attrs, host).value.Some? ==>
      Key(decls[i]) in ExtractSpec(decls, attrs, host).value &&
      ExtractSpec(decls, attrs, host).value[Key(decls[i])] == Emit(decls[i], attrs, host).value.value
  {
    forall i | 0 <= i < |decls| && Emit(decls[i], attrs, host).Ok? && Emit(decls[i], attrs, host).value.Some?
      ensures Key(decls[i]) in ExtractSpec(decls, attrs, host).value &&
        ExtractSpec(decls, attrs, host).value[Key(decls[i])] == Emit(decls[i], attrs, host).value.value
    {
      ExtractComplete(decls, attrs, host, i);
    }
  }

  lemma FieldDeclKeys()
    ensures DistinctKeys(FieldDecls)
    ensures forall i :: 0 <= i < |FieldDecls| ==> Key(FieldDecls[i]) != "type"
  {
  }

  lemma RelationDeclKeys()
    ensures DistinctKeys(RelationDecls)
    ensures forall i :: 0 <= i < |RelationDecls| ==> Key(RelationDecls[i]) !in {"type", "relatedName", "many"}
  {
  }

  /** `attrs[field_name]`: the extracted options of a model field with
      `'type': 'char'` added. */
  function AttributeBag(f: ModelField, host: Host): (r: Result<Bag>)
    ensures r.Err? <==> exists i :: 0 <= i < |FieldDecls| && Emit(FieldDecls[i], f.Attrs(), host).Err?
    ensures r.Err? ==> r.error == ChoicesNotIterable
    ensures r.Ok? ==> "type" in r.value && r.value["type"] == VStr("char")
    ensures r.Ok? ==> forall k :: k in r.value && k != "type" ==>
      exists i :: 0 <= i < |FieldDecls| && Key(FieldDecls[i]) == k &&
        Emit(FieldDecls[i], f.Attrs(), host) == Ok(Some(r.value[k]))
    ensures r.Ok? ==> forall i :: (0 <= i < |FieldDecls| && Emit(FieldDecls[i], f.Attrs(), host).Ok? &&
      Emit(FieldDecls[i], f.Attrs(), host).value.Some?) ==>
        Key(FieldDecls[i]) in r.value && r.value[Key(FieldDecls[i])] == Emit(FieldDecls[i], f.Attrs(), host).value.value
  {
    ExtractFails(FieldDecls, f.Attrs(), host);
    match ExtractSpec(FieldDecls, f.Attrs(), host)
    case Err(e) =>
      ExtractErrorKind(FieldDecls, f.Attrs(), host);
      Err(e)
    case Ok(opts) =>
      ExtractSound(FieldDecls, f.Attrs(), host);
      FieldDeclKeys();
      ExtractExact(FieldDecls, f.Attrs(), host);
      Ok(opts["type" := VStr("char")])
  }

  /** `related[field_name]`: the relation descriptor updated with the
      extracted options of the relation's model field. The two never share
      a key, so the descriptor survives the update. */
  function RelationBag(info: RelationInfo, host: Host): (r: Result<Bag>)
    ensures r.Err? <==> exists i :: 0 <= i < |RelationDecls| && Emit(RelationDecls[i], info.modelField.Attrs(), host).Err?
    ensures r.Err? ==> r.error == ChoicesNotIterable
    ensures r.Ok? ==> forall k :: k in RelationBase(info) ==> k in r.value && r.value[k] == RelationBase(info)[k]
    ensures r.Ok? ==> forall k :: k in r.value && k !in RelationBase(info) ==>
      exists i :: 0 <= i < |RelationDecls| && Key(RelationDecls[i]) == k &&
        Emit(RelationDecls[i], info.modelField.Attrs(), host) == Ok(Some(r.value[k]))
    ensures r.Ok? ==> forall i :: (0 <= i < |RelationDecls| && Emit(RelationDecls[i], info.modelField.Attrs(), host).Ok? &&
      Emit(RelationDecls[i], info.modelField.Attrs(), host).value.Some?) ==>
        Key(RelationDecls[i]) in r.value &&
        r.value[Key(RelationDecls[i])] == Emit(RelationDecls[i], info.modelField.Attrs(), host).value.value
  {
    ExtractFails(RelationDecls, info.modelField.Attrs(), host);
    match ExtractSpec(RelationDecls, info.modelField.Attrs(), host)
    case Err(e) =>
      ExtractErrorKind(RelationDecls, info.modelField.Attrs(), host);
      Err(e)
    case Ok(opts) =>
      RelationMerged(info, host);
      Ok(RelationBase(info) + opts)
  }

  /** The options extracted for a relation never touch the keys of its
      descriptor. */
  lemma RelationMerged(info: RelationInfo, host: Host)
    requires ExtractSpec(RelationDecls, info.modelField.Attrs(), host).Ok?
    ensures var opts := ExtractSpec(RelationDecls, info.modelField.Attrs(), host).value;
      && (forall k :: k in RelationBase(info) ==> k in RelationBase(info) + opts && (RelationBase(info) + opts)[k] == RelationBase(info)[k])
      && (forall k :: k in RelationBase(info) + opts && k !in RelationBase(info) ==>
            exists i :: 0 <= i < |RelationDecls| && Key(RelationDecls[i]) == k &&
              Emit(RelationDecls[i], info.modelField.Attrs(), host) == Ok(Some((RelationBase(info) + opts)[k])))
      && (forall i :: (0 <= i < |RelationDecls| && Emit(RelationDecls[i], info.modelField.Attrs(), host).Ok? &&
            Emit(RelationDecls[i], info.modelField.Attrs(), host).value.Some?) ==>
              Key(RelationDecls[i]) in RelationBase(info) + opts &&
              (RelationBase(info) + opts)[Key(RelationDecls[i])] == Emit(RelationDecls[i], info.modelField.Attrs(), host).value.value)
  {
    var attrs := info.modelField.Attrs();
    var opts := ExtractSpec(RelationDecls, attrs, host).value;
    var base := RelationBase(info);
    OptionsAvoidBase(info, host);
    Merge(base, opts);
    ExtractSound(RelationDecls, attrs, host);
    RelationDeclKeys();
    ExtractExact(RelationDecls, attrs, host);
  }

  lemma OptionsAvoidBase(info: RelationInfo, host: Host)
    requires ExtractSpec(RelationDecls, info.modelField.Attrs(), host).Ok?
    ensures forall k :: k in ExtractSpec(RelationDecls, info.modelField.Attrs(), host).value ==> k !in RelationBase(info)
  {
    RelationDeclKeys();
    KeysAvoid(RelationDecls, info.modelField.Attrs(), host, {"type", "relatedName", "many"});
  }

  /** Options are only ever stored under their declarations' keys. */
  lemma KeysAvoid(decls: seq<Decl>, attrs: map<string, Value>, host: Host, avoid: set<string>)
    requires ExtractSpec(decls, attrs, host).Ok?
    requires forall i :: 0 <= i < |decls| ==> Key(decls[i]) !in avoid
    ensures forall k :: k in ExtractSpec(decls, attrs, host).value ==> k !in avoid
  {
    ExtractSound(decls, attrs, host);
  }

  /** `dict.update` with keys that the dict does not have yet. */
  lemma Merge(base: Bag, opts: Bag)
    requires forall k :: k in opts ==> k !in base
    ensures forall k :: k in base ==> k in base + opts && (base + opts)[k] == base[k]
    ensures forall k :: k in opts ==> k in base + opts && (base + opts)[k] == opts[k]
    ensures forall k :: k in base + opts ==> k in base || k in opts
  {
  }

  function AttributeMaker(host: Host): ModelField -> Result<Bag>
  {
    f => AttributeBag(f, host)
  }

  function RelationMaker(host: Host): RelationInfo -> Result<Bag>
  {
    info => RelationBag(info, host)
  }

  /** The description of one model, or the exception its field loops raise. */
  function EntryFor(model: ModelClass, names: Names, host: Host): (r: Result<ModelEntry>)
    ensures r.Ok? <==>
      (forall i :: 0 <= i < |model.fields| ==> AttributeBag(model.fields[i].1, host).Ok?) &&
      (forall i :: 0 <= i < |model.forwardRelations| ==> RelationBag(model.forwardRelations[i].1, host).Ok?)
    ensures r.Err? ==> r.error == ChoicesNotIterable
    ensures r.Ok? ==> r.value.plural == names.plural
    ensures r.Ok? ==> r.value.attributes.Keys == KeysOf(model.fields)
    ensures r.Ok? ==> forall i :: IsLast(model.fields, i) ==>
      AttributeBag(model.fields[i].1, host) == Ok(r.value.attributes[model.fields[i].0])
    ensures r.Ok? ==> r.value.relationships.Keys == KeysOf(model.forwardRelations)
    ensures r.Ok? ==> forall i :: IsLast(model.forwardRelations, i) ==>
      RelationBag(model.forwardRelations[i].1, host) == Ok(r.value.relationships[model.forwardRelations[i].0])
  {
    var attrs :- TabulateOk(model.fields, AttributeMaker(host));
    var related :- TabulateOk(model.forwardRelations, RelationMaker(host));
    Ok(ModelEntry(names.plural, attrs, related))
  }

  /** `process_model` on the dict `processed_models`: a second model with
      the same `__name__` raises TypeError, after its fields were read. */
  function ProcessModelSpec(model: ModelClass, names: Names, processed: map<string, ModelEntry>, host: Host): Result<map<string, ModelEntry>>
  {
    var entry :- EntryFor(model, names, host);
    if model.name in processed then Err(DuplicateModelName(model.name)) else Ok(processed[model.name := entry])
  }

  /** The field loop of `process_model`. */
  method DescribeFields(fields: seq<(string, ModelField)>, host: Host) returns (r: Result<map<string, Bag>>)
    ensures r == TabulateOk(fields, AttributeMaker(host))
  {
    var attrs: map<string, Bag> := map[];
    var i := 0;
    while i < |fields|
      invariant 0 <= i <= |fields|
      invariant TabulateOk(fields[..i], AttributeMaker(host)) == Ok(attrs)
    {
      var (name, field) := fields[i];
      var opts := ExtractOptions(FieldDecls, field.Attrs(), host);
      assert AttributeMaker(host)(field) == if opts.Err? then Err(opts.error) else Ok(opts.value["type" := VStr("char")]);
      TabulateOkSnoc(fields, i, AttributeMaker(host));
      if opts.Err? {
        TabulateOkErrorSticks(fields, AttributeMaker(host), i + 1);
        return Err(opts.error);
      }
      attrs := attrs[name := opts.value["type" := VStr("char")]];
      i := i + 1;
    }
    assert fields[..i] == fields;
    return Ok(attrs);
  }

  /** The forward-relation loop of `process_model`. */
  method DescribeRelations(rels: seq<(string, RelationInfo)>, host: Host) returns (r: Result<map<string, Bag>>)
    ensures r == TabulateOk(rels, RelationMaker(host))
  {
    var related: map<string, Bag> := map[];
    var i := 0;
    while i < |rels|
      invariant 0 <= i <= |rels|
      invariant TabulateOk(rels[..i], RelationMaker(host)) == Ok(related)
    {
      var (name, info) := rels[i];
      var opts := ExtractOptions(RelationDecls, info.modelField.Attrs(), host);
      assert RelationMaker(host)(info) == if opts.Err? then Err(opts.error) else Ok(RelationBase(info) + opts.value);
      TabulateOkSnoc(rels, i, RelationMaker(host));
      if opts.Err? {
        TabulateOkErrorSticks(rels, RelationMaker(host), i + 1);
        return Err(opts.error);
      }
      related := related[name := RelationBase(info) + opts.value];
      i := i + 1;
    }
    assert rels[..i] == rels;
    return Ok(related);
  }

  /** `process_model` itself. */
  method ProcessModel(model: ModelClass, names: Names, processed: map<string, ModelEntry>, host: Host)
    returns (r: Result<map<string, ModelEntry>>)
    ensures r == ProcessModelSpec(model, names, processed, host)
  {
    var attrs :- DescribeFields(model.fields, host);
    var related :- DescribeRelations(model.forwardRelations, host);
    if model.name in processed {
      return Err(DuplicateModelName(model.name));
    }
    return Ok(processed[model.name := ModelEntry(names.plural, attrs, related)]);
  }

  /** `process_model` over a sequence of (model, names) pairs, in order. */
  function ProcessAllSpec(ms: seq<(ModelClass, Names)>, processed: map<string, ModelEntry>, host: Host): Result<map<string, ModelEntry>>
    decreases |ms|
  {
    if ms == [] then Ok(processed)
    else
      var next :- ProcessModelSpec(ms[0].0, ms[0].1, processed, host);
      ProcessAllSpec(ms[1..], next, host)
  }

  /** The models of an app that `process_app` hands on, with their names:
      those some endpoint is backed by, in the app's order. */
  function Backed(models: seq<ModelClass>, names: map<ModelClass, Names>): seq<(ModelClass, Names)>
    decreases |models|
  {
    if models == [] then []
    else (if models[0] in names then [(models[0], names[models[0]])] else []) + Backed(models[1..], names)
  }

  /** `not included_apps or cfg.name in included_apps`. */
  predicate Eligible(cfg: AppConfig, included: seq<string>)
  {
    included == [] || cfg.name in included
  }

  /** Every (model, names) pair `generate` processes, in order. */
  function Processable(apps: seq<AppConfig>, included: seq<string>, names: map<ModelClass, Names>): seq<(ModelClass, Names)>
    decreases |apps|
  {
    if apps == [] then []
    else (if Eligible(apps[0], included) then Backed(apps[0].models, names) else []) + Processable(apps[1..], included, names)
  }

  /** `generate(included_apps, api_prefix)` on the DRF generator. */
  function GenerateSpec(included: seq<string>, apps: seq<AppConfig>, src: PrefixSources, registry: seq<Registration>,
                        exclude: seq<string>, host: Host): Result<Generated>
  {
    var e :- FindSpec(src, registry, exclude);
    var models :- ProcessAllSpec(Processable(apps, included, e.names), map[], host);
    Ok(Generated(e.api, models))
  }

  /** Processing `a` and then `b` is processing `a + b`. */
  lemma {:induction false} ProcessAllAppend(a: seq<(ModelClass, Names)>, b: seq<(ModelClass, Names)>, processed: map<string, ModelEntry>, host: Host)
    ensures ProcessAllSpec(a + b, processed, host) ==
      match ProcessAllSpec(a, processed, host)
      case Err(e) => Err(e)
      case Ok(next) => ProcessAllSpec(b, next, host)
    decreases |a|
  {
    if a == [] {
      assert a + b == b;
    } else {
      assert (a + b)[0] == a[0] && (a + b)[1..] == a[1..] + b;
      var step := ProcessModelSpec(a[0].0, a[0].1, processed, host);
      if step.Ok? {
        ProcessAllAppend(a[1..], b, step.value, host);
      }
    }
  }

  /** `process_app`: `process_model` for each model of the app that an
      endpoint is backed by. */
  method ProcessApp(app: AppConfig, names: map<ModelClass, Names>, processed: map<string, ModelEntry>, host: Host)
    returns (r: Result<map<string, ModelEntry>>)
    ensures r == ProcessAllSpec(Backed(app.models, names), processed, host)
  {
    var current := processed;
    var i := 0;
    while i < |app.models|
      invariant 0 <= i <= |app.models|
      invariant ProcessAllSpec(Backed(app.models, names), processed, host) ==
        ProcessAllSpec(Backed(app.models[i..], names), current, host)
    {
      var model := app.models[i];
      assert app.models[i..][0] == model && app.models[i..][1..] == app.models[i + 1..];
      if model in names {
        var rest := Backed(app.models[i + 1..], names);
        assert Backed(app.models[i..], names) == [(model, names[model])] + rest;
        assert ([(model, names[model])] + rest)[1..] == rest;
        var step := ProcessModel(model, names[model], current, host);
        if step.Err? {
          return Err(step.error);
        }
        current := step.value;
      } else {
        assert Backed(app.models[i..], names) == Backed(app.models[i + 1..], names);
      }
      i := i + 1;
    }
    return Ok(current);
  }

  /** The app loop of `generate`: `process_app` for each included app
      (every app when none are named). */
  method ProcessApps(included: seq<string>, apps: seq<AppConfig>, names: map<ModelClass, Names>, host: Host)
    returns (r: Result<map<string, ModelEntry>>)
    ensures r == ProcessAllSpec(Processable(apps, included, names), map[], host)
  {
    var processed: map<string, ModelEntry> := map[];
    var i := 0;
    while i < |apps|
      invariant 0 <= i <= |apps|
      invariant ProcessAllSpec(Processable(apps, included, names), map[], host) ==
        ProcessAllSpec(Processable(apps[i..], included, names), processed, host)
    {
      var cfg := apps[i];
      GenerateStep(apps, i, included, names, processed, host);
      if included == [] || cfg.name in included {
        var step := ProcessApp(cfg, names, processed, host);
        if step.Err? {
          return Err(step.error);
        }
        processed := step.value;
      }
      i := i + 1;
    }
    assert apps[i..] == [];
    return Ok(processed);
  }

  /** `generate`: find the endpoints, then describe the models of the
      included apps. */
  method Generate(included: seq<string>, apps: seq<AppConfig>, src: PrefixSources, registry: seq<Registration>,
                  exclude: seq<string>, host: Host) returns (r: Result<Generated>)
    ensures r == GenerateSpec(included, apps, src, registry, exclude, host)
  {
    var e :- FindApiAndModels(src, registry, exclude);
    var processed :- ProcessApps(included, apps, e.names, host);
    return Ok(Generated(e.api, processed));
  }

  /** One more app of `generate`'s loop: its backed models when it is
      eligible, then the remaining apps. */
  lemma GenerateStep(apps: seq<AppConfig>, i: nat, included: seq<string>, names: map<ModelClass, Names>,
                     processed: map<string, ModelEntry>, host: Host)
    requires i < |apps|
    ensures ProcessAllSpec(Processable(apps[i..], included, names), processed, host) ==
      if Eligible(apps[i], included) then
        match ProcessAllSpec(Backed(apps[i].models, names), processed, host)
        case Err(e) => Err(e)
        case Ok(next) => ProcessAllSpec(Processable(apps[i + 1..], included, names), next, host)
      else ProcessAllSpec(Processable(apps[i + 1..], included, names), processed, host)
  {
    assert apps[i..][0] == apps[i] && apps[i..][1..] == apps[i + 1..];
    var rest := Processable(apps[i + 1..], included, names);
    if Eligible(apps[i], included) {
      ProcessAllAppend(Backed(apps[i].models, names), rest, processed, host);
    } else {
      assert Processable(apps[i..], included, names) == rest;
    }
  }

  /** The models `process_app` hands on are exactly the app's models that
      back an endpoint, each with its `[name, single]`. */
  lemma {:induction false} BackedMembers(models: seq<ModelClass>, names: map<ModelClass, Names>)
    ensures forall x :: x in Backed(models, names) <==> x.0 in models && x.0 in names && x.1 == names[x.0]
    decreases |models|
  {
    if models != [] {
      BackedMembers(models[1..], names);
      assert forall m :: m in models <==> m == models[0] || m in models[1..];
    }
  }

  /** `generate` processes exactly the backed models of the eligible apps. */
  lemma {:induction false} ProcessableMembers(apps: seq<AppConfig>, included: seq<string>, names: map<ModelClass, Names>)
    ensures forall x :: x in Processable(apps, included, names) <==>
      (exists i :: 0 <= i < |apps| && Eligible(apps[i], included) && x.0 in apps[i].models) && x.0 in names && x.1 == names[x.0]
    decreases |apps|
  {
    if apps != [] {
      ProcessableMembers(apps[1..], included, names);
      BackedMembers(apps[0].models, names);
      forall x ensures x in Processable(apps, included, names) <==>
        (exists i :: 0 <= i < |apps| && Eligible(apps[i], included) && x.0 in apps[i].models) && x.0 in names && x.1 == names[x.0]
      {
        if exists i :: 0 <= i < |apps| && Eligible(apps[i], included) && x.0 in apps[i].models {
          var i :| 0 <= i < |apps| && Eligible(apps[i], included) && x.0 in apps[i].models;
          if i > 0 { assert apps[1..][i - 1] == apps[i]; }
        }
        if exists i :: 0 <= i < |apps| - 1 && Eligible(apps[1..][i], included) && x.0 in apps[1..][i].models {
          var i :| 0 <= i < |apps| - 1 && Eligible(apps[1..][i], included) && x.0 in apps[1..][i].models;
          assert apps[i + 1] == apps[1..][i];
        }
      }
    }
  }

  /** The `__name__`s of the processed models. */
  function ModelNames(ms: seq<(ModelClass, Names)>): set<string>
    decreases |ms|
  {
    if ms == [] then {} else {ms[0].0.name} + ModelNames(ms[1..])
  }

  /** No two processed models share a `__name__`. */
  ghost predicate NamesDistinct(ms: seq<(ModelClass, Names)>)
  {
    forall i, j :: 0 <= i < j < |ms| ==> ms[i].0.name != ms[j].0.name
  }

  /** A successful run adds the processed models' `__name__`s as keys and
      keeps what was there. */
  lemma {:induction false} ProcessAllKeys(ms: seq<(ModelClass, Names)>, processed: map<string, ModelEntry>, host: Host)
    requires ProcessAllSpec(ms, processed, host).Ok?
    ensures ProcessAllSpec(ms, processed, host).value.Keys == processed.Keys + ModelNames(ms)
    ensures forall k :: k in processed ==> ProcessAllSpec(ms, processed, host).value[k] == processed[k]
    decreases |ms|
  {
    if ms != [] {
      var next := ProcessModelSpec(ms[0].0, ms[0].1, processed, host).value;
      ProcessAllKeys(ms[1..], next, host);
    }
  }

  /** A successful run stores, under each processed model's `__name__`, the
      description of that model. */
  lemma {:induction false} ProcessAllEntries(ms: seq<(ModelClass, Names)>, processed: map<string, ModelEntry>, host: Host)
    requires ProcessAllSpec(ms, processed, host).Ok?
    ensures forall i :: 0 <= i < |ms| ==>
      && EntryFor(ms[i].0, ms[i].1, host).Ok?
      && ms[i].0.name in ProcessAllSpec(ms, processed, host).value
      && ProcessAllSpec(ms, processed, host).value[ms[i].0.name] == EntryFor(ms[i].0, ms[i].1, host).value
    decreases |ms|
  {
    if ms != [] {
      var next := ProcessModelSpec(ms[0].0, ms[0].1, processed, host).value;
      ProcessAllEntries(ms[1..], next, host);
      ProcessAllKeys(ms[1..], next, host);
      forall i | 1 <= i < |ms| ensures ms[1..][i - 1] == ms[i] { }
    }
  }

  /** Every processed model's fields can be described and its `__name__`
      is not among the entries before the loop. */
  ghost predicate AllFresh(ms: seq<(ModelClass, Names)>, processed: map<string, ModelEntry>, host: Host)
  {
    forall i :: 0 <= i < |ms| ==> EntryFor(ms[i].0, ms[i].1, host).Ok? && ms[i].0.name !in processed
  }

  /** `generate`'s model loop succeeds exactly when every processed model's
      fields can be described and no two processed models (nor a model and
      an earlier entry) share a `__name__`. */
  lemma ProcessAllOk(ms: seq<(ModelClass, Names)>, processed: map<string, ModelEntry>, host: Host)
    ensures ProcessAllSpec(ms, processed, host).Ok? <==>
      (forall i :: 0 <= i < |ms| ==> EntryFor(ms[i].0, ms[i].1, host).Ok? && ms[i].0.name !in processed) &&
      NamesDistinct(ms)
  {
    if ProcessAllSpec(ms, processed, host).Ok? {
      ProcessAllSound(ms, processed, host);
    } else if AllFresh(ms, processed, host) && NamesDistinct(ms) {
      ProcessAllComplete(ms, processed, host);
    }
  }

  lemma {:induction false} ProcessAllSound(ms: seq<(ModelClass, Names)>, processed: map<string, ModelEntry>, host: Host)
    requires ProcessAllSpec(ms, processed, host).Ok?
    ensures AllFresh(ms, processed, host) && NamesDistinct(ms)
    decreases |ms|
  {
    if ms != [] {
      var rest := ms[1..];
      var next := ProcessModelSpec(ms[0].0, ms[0].1, processed, host).value;
      ProcessAllSound(rest, next, host);
      forall i | 0 <= i < |ms| ensures EntryFor(ms[i].0, ms[i].1, host).Ok? && ms[i].0.name !in processed {
        if i > 0 { assert ms[i] == rest[i - 1]; }
      }
      forall i, j | 0 <= i < j < |ms| ensures ms[i].0.name != ms[j].0.name {
        assert ms[j] == rest[j - 1];
        if i > 0 { assert ms[i] == rest[i - 1]; }
        else { assert rest[j - 1].0.name !in next; }
      }
    }
  }

  lemma {:induction false} ProcessAllComplete(ms: seq<(ModelClass, Names)>, processed: map<string, ModelEntry>, host: Host)
    requires AllFresh(ms, processed, host) && NamesDistinct(ms)
    ensures ProcessAllSpec(ms, processed, host).Ok?
    decreases |ms|
  {
    if ms != [] {
      var rest := ms[1..];
      assert EntryFor(ms[0].0, ms[0].1, host).Ok? && ms[0].0.name !in processed;
      var next := ProcessModelSpec(ms[0].0, ms[0].1, processed, host).value;
      forall i | 0 <= i < |rest| ensures EntryFor(rest[i].0, rest[i].1, host).Ok? && rest[i].0.name !in next {
        assert rest[i] == ms[i + 1];
      }
      forall i, j | 0 <= i < j < |rest| ensures rest[i].0.name != rest[j].0.name {
        assert ms[i + 1] == rest[i] && ms[j + 1] == rest[j];
      }
      ProcessAllComplete(rest, next, host);
    }
  }

  /** The model loop only raises the `choices` error or a duplicate
      `__name__` of one of the processed models. */
  lemma {:induction false} ProcessAllErr(ms: seq<(ModelClass, Names)>, processed: map<string, ModelEntry>, host: Host)
    requires ProcessAllSpec(ms, processed, host).Err?
    ensures ProcessAllSpec(ms, processed, host).error == ChoicesNotIterable ||
      exists i :: 0 <= i < |ms| && ProcessAllSpec(ms, processed, host).error == DuplicateModelName(ms[i].0.name)
    decreases |ms|
  {
    var x := ms[0];
    var rest := ms[1..];
    var step := ProcessModelSpec(x.0, x.1, processed, host);
    if step.Ok? {
      ProcessAllErr(rest, step.value, host);
      var err := ProcessAllSpec(ms, processed, host);
      if err.error != ChoicesNotIterable {
        var i :| 0 <= i < |rest| && err.error == DuplicateModelName(rest[i].0.name);
        assert ms[i + 1] == rest[i];
      }
    }
  }
}
