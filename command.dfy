/** The `jam_generate` management command
    (jam/management/commands/jam_generate.py): a simpler model dump kept in
    the command's `models` dict, and the API tree of every registered
    route. */
module Command {
  import opened Values
  import opened Reflection
  import opened Ordered
  import opened Schema
  import opened ApiTree
  import opened Utils

  /** The dict the command stores under a model's `__name__`. */
  datatype CommandEntry = CommandEntry(attributes: map<string, Bag>, relationships: map<string, Bag>)

  /** `attrs[field_name]`: `{'default': field.default}` when the field
      declares a default, `{}` otherwise. */
  function DefaultBag(f: ModelField): (b: Bag)
    ensures "default" in b <==> !PyEq(f.default, VNotProvided)
    ensures "default" in b ==> b["default"] == f.default
    ensures b.Keys <= {"default"}
  {
    if PyEq(f.default, VNotProvided) then map[] else map["default" := f.default]
  }

  /** What `process_model` stores for a model. */
  function EntryOf(m: ModelClass): CommandEntry
  {
    CommandEntry(Tabulate(m.fields, DefaultBag), Tabulate(m.forwardRelations, RelationBase))
  }

  /** The models of an app paired with their `__name__`. */
  function Named(ms: seq<ModelClass>): (r: seq<(string, ModelClass)>)
    ensures |r| == |ms| && forall i :: 0 <= i < |ms| ==> r[i] == (ms[i].name, ms[i])
  {
    seq(|ms|, i requires 0 <= i < |ms| => (ms[i].name, ms[i]))
  }

  /** `cfg.name in options['apps']`. */
  predicate IsSelectedApp(cfg: AppConfig, selected: seq<string>)
  {
    cfg.name in selected
  }

  /** Every model `dump_models` processes, with its name, in order. */
  function Listed(apps: seq<AppConfig>, selected: seq<string>): seq<(string, ModelClass)>
    decreases |apps|
  {
    if apps == [] then []
    else
      var last := apps[|apps| - 1];
      Listed(apps[..|apps| - 1], selected) + (if IsSelectedApp(last, selected) then Named(last.models) else [])
  }

  /** Every route name in the registry. */
  ghost function RouteNames(registry: seq<Registration>): set<string>
  {
    set i | 0 <= i < |registry| :: registry[i].name
  }

  /** The field loop of `process_model`. */
  method DescribeFields(fields: seq<(string, ModelField)>) returns (attrs: map<string, Bag>)
    ensures attrs == Tabulate(fields, DefaultBag)
  {
    attrs := map[];
    var i := 0;
    while i < |fields|
      invariant 0 <= i <= |fields|
      invariant attrs == Tabulate(fields[..i], DefaultBag)
    {
      var (name, field) := fields[i];
      var bag: Bag := map[];
      if !PyEq(field.default, VNotProvided) {
        bag := bag["default" := field.default];
      }
      TabulateSnoc(fields, i, DefaultBag);
      attrs := attrs[name := bag];
      i := i + 1;
    }
    assert fields[..i] == fields;
  }

  /** The forward-relation loop of `process_model`. */
  method DescribeRelations(rels: seq<(string, RelationInfo)>) returns (related: map<string, Bag>)
    ensures related == Tabulate(rels, RelationBase)
  {
    related := map[];
    var i := 0;
    while i < |rels|
      invariant 0 <= i <= |rels|
      invariant related == Tabulate(rels[..i], RelationBase)
    {
      var (name, info) := rels[i];
      var bag: Bag := map["type" := VStr(info.relatedModel.name)];
      var relatedName := GetRelatedName(info.relatedModel, info.modelField);
      if Truthy(relatedName) {
        bag := bag["relatedName" := VStr(relatedName.value)];
      }
      if info.toMany {
        bag := bag["many" := VBool(true)];
      }
      TabulateSnoc(rels, i, RelationBase);
      related := related[name := bag];
      i := i + 1;
    }
    assert rels[..i] == rels;
  }

  class Command {
    var models: map<string, CommandEntry>

    constructor()
      ensures models == map[]
    {
      models := map[];
    }

    /** `process_model`: describe the model's fields and forward relations
        and store the description under its `__name__`, replacing any
        earlier model with that name. */
    method ProcessModel(m: ModelClass)
      modifies this
      ensures models == old(models)[m.name := EntryOf(m)]
    {
      var attrs := DescribeFields(m.fields);
      var related := DescribeRelations(m.forwardRelations);
      models := models[m.name := CommandEntry(attrs, related)];
    }

    /** `process_app`: every model of the app, in order. */
    method ProcessApp(app: AppConfig)
      modifies this
      ensures models == old(models) + Tabulate(Named(app.models), EntryOf)
    {
      ghost var start := models;
      ghost var named := Named(app.models);
      var i := 0;
      while i < |app.models|
        invariant 0 <= i <= |app.models|
        invariant models == start + Tabulate(named[..i], EntryOf)
      {
        var m := app.models[i];
        ghost var before := Tabulate(named[..i], EntryOf);
        TabulateSnoc(named, i, EntryOf);
        OverrideUpdate(start, before, m.name, EntryOf(m));
        ProcessModel(m);
        i := i + 1;
      }
      assert named[..i] == named;
    }

    /** `dump_models`: reset `models`, then process every selected app. */
    method DumpModels(apps: seq<AppConfig>, selected: seq<string>)
      modifies this
      ensures models == Tabulate(Listed(apps, selected), EntryOf)
    {
      models := map[];
      var i := 0;
      while i < |apps|
        invariant 0 <= i <= |apps|
        invariant models == Tabulate(Listed(apps[..i], selected), EntryOf)
      {
        var cfg := apps[i];
        DumpStep(apps, selected, i);
        if cfg.name in selected {
          ProcessApp(cfg);
        }
        i := i + 1;
      }
      assert apps[..i] == apps;
    }

    /** `get_api`: strip the prefix, then put 'CRUD' under it for every
        registered route, excluded or model-less ones included. */
    method GetApi(prefix: string, registry: seq<Registration>) returns (r: Result<Tree>)
      ensures r.Err? <==> prefix == "" || prefix == "/"
      ensures r.Err? ==> r.error == PrefixIndex
      ensures r.Ok? ==> Shaped(r.value, Split(StripSlashes(prefix).value), RouteNames(registry))
    {
      var stripped :- StripSlashes(prefix);
      var segs := Split(stripped);
      var api := Node(map[]);
      EmptyShaped(segs);
      var i := 0;
      while i < |registry|
        invariant 0 <= i <= |registry|
        invariant Shaped(api, segs, RouteNames(registry[..i]))
      {
        var name := registry[i].name;
        InsertShaped(api, segs, RouteNames(registry[..i]), name);
        RouteNamesSnoc(registry, i);
        api := Insert(api, segs, name).value;
        i := i + 1;
      }
      assert registry[..i] == registry;
      return Ok(api);
    }
  }

  lemma ListedSnoc(apps: seq<AppConfig>, selected: seq<string>, i: nat)
    requires i < |apps|
    ensures Listed(apps[..i + 1], selected) ==
      Listed(apps[..i], selected) + (if IsSelectedApp(apps[i], selected) then Named(apps[i].models) else [])
  {
    assert apps[..i + 1][..i] == apps[..i] && apps[..i + 1][i] == apps[i];
  }

  /** What one more app adds to the dump: its models when it is selected,
      nothing otherwise. */
  lemma DumpStep(apps: seq<AppConfig>, selected: seq<string>, i: nat)
    requires i < |apps|
    ensures Tabulate(Listed(apps[..i + 1], selected), EntryOf) ==
      if apps[i].name in selected
      then Tabulate(Listed(apps[..i], selected), EntryOf) + Tabulate(Named(apps[i].models), EntryOf)
      else Tabulate(Listed(apps[..i], selected), EntryOf)
  {
    var listed := Listed(apps[..i], selected);
    ListedSnoc(apps, selected, i);
    if apps[i].name in selected {
      TabulateAppend(listed, Named(apps[i].models), EntryOf);
    } else {
      assert listed + [] == listed;
    }
  }

  lemma RouteNamesSnoc(registry: seq<Registration>, i: nat)
    requires i < |registry|
    ensures RouteNames(registry[..i + 1]) == RouteNames(registry[..i]) + {registry[i].name}
  {
    var pre := registry[..i + 1];
    forall n | n in RouteNames(pre) ensures n in RouteNames(registry[..i]) + {registry[i].name} {
      var k :| 0 <= k < |pre| && pre[k].name == n;
      if k < i { assert registry[..i][k] == pre[k]; }
    }
    forall n | n in RouteNames(registry[..i]) ensures n in RouteNames(pre) {
      var k :| 0 <= k < i && registry[..i][k].name == n;
      assert pre[k] == registry[..i][k];
    }
    assert pre[i] == registry[i];
  }

  /** `dump_models` describes exactly the models of the selected apps,
      by `__name__`. */
  lemma {:induction false} ListedMembers(apps: seq<AppConfig>, selected: seq<string>)
    ensures forall p: (string, ModelClass) :: p in Listed(apps, selected) <==>
      p.0 == p.1.name && exists i :: 0 <= i < |apps| && IsSelectedApp(apps[i], selected) && p.1 in apps[i].models
    decreases |apps|
  {
    if apps != [] {
      var init := apps[..|apps| - 1];
      var last := apps[|apps| - 1];
      ListedMembers(init, selected);
      assert forall p: (string, ModelClass) :: p in Named(last.models) <==> p.0 == p.1.name && p.1 in last.models by {
        forall p: (string, ModelClass) | p.1 in last.models && p.0 == p.1.name ensures p in Named(last.models) {
          var k :| 0 <= k < |last.models| && last.models[k] == p.1;
          assert Named(last.models)[k] == p;
        }
      }
      forall p: (string, ModelClass) ensures p in Listed(apps, selected) <==>
        p.0 == p.1.name && exists i :: 0 <= i < |apps| && IsSelectedApp(apps[i], selected) && p.1 in apps[i].models
      {
        if exists i :: 0 <= i < |apps| && IsSelectedApp(apps[i], selected) && p.1 in apps[i].models {
          var i :| 0 <= i < |apps| && IsSelectedApp(apps[i], selected) && p.1 in apps[i].models;
          if i < |init| { assert init[i] == apps[i]; }
        }
        if exists i :: 0 <= i < |init| && IsSelectedApp(init[i], selected) && p.1 in init[i].models {
          var i :| 0 <= i < |init| && IsSelectedApp(init[i], selected) && p.1 in init[i].models;
          assert apps[i] == init[i];
        }
      }
    }
  }

  /** After `dump_models`, each selected app's model is described under its
      `__name__`, a later model with the same name replacing an earlier
      one, and nothing else is described. */
  lemma DumpedModels(apps: seq<AppConfig>, selected: seq<string>)
    ensures forall n :: n in Tabulate(Listed(apps, selected), EntryOf) <==>
      exists i, m :: 0 <= i < |apps| && IsSelectedApp(apps[i], selected) && m in apps[i].models && m.name == n
    ensures forall k :: IsLast(Listed(apps, selected), k) ==>
      Tabulate(Listed(apps, selected), EntryOf)[Listed(apps, selected)[k].0] == EntryOf(Listed(apps, selected)[k].1)
  {
    var l := Listed(apps, selected);
    ListedMembers(apps, selected);
    forall n ensures n in Tabulate(l, EntryOf) <==>
      exists i, m :: 0 <= i < |apps| && IsSelectedApp(apps[i], selected) && m in apps[i].models && m.name == n
    {
      if n in KeysOf(l) {
        var k :| 0 <= k < |l| && l[k].0 == n;
        assert l[k] in l;
      }
      if exists i, m :: 0 <= i < |apps| && IsSelectedApp(apps[i], selected) && m in apps[i].models && m.name == n {
        var i, m :| 0 <= i < |apps| && IsSelectedApp(apps[i], selected) && m in apps[i].models && m.name == n;
        assert (n, m) in l;
        var k :| 0 <= k < |l| && l[k] == (n, m);
        assert n in KeysOf(l);
      }
    }
  }
}
