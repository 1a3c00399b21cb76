/** `Generator.extract_options` and `Generator.has_option`
    (jam/generator.py:91-126): the minimal bag of a field's interesting
    properties. */
module Options {
  import opened Values

  /** The two foreign calls extraction makes: `callable(v)`, and whether
      `DjangoJSONEncoder().encode(v)` returns instead of raising. */
  datatype Host = Host(isCallable: Value -> bool, encodes: Value -> bool)

  /** One declared entry: the attribute read from the field, the key it is
      written under when that differs (`(('verbose_name', 'label'), None)`),
      and the declared default; a tuple default declares several. */
  datatype Decl = Decl(name: string, outName: Option<string>, default: Value)

  /** The key `opts` gets for a declaration (`transformed`). */
  function Key(d: Decl): string
  {
    if d.outName.Some? then d.outName.value else d.name
  }

  /** The list `process_model` passes for each model field. */
  const FieldDecls: seq<Decl> := [
    Decl("verbose_name", Some("label"), VNone),
    Decl("read_only", Some("readOnly"), VBool(false)),
    Decl("required", None, VBool(false)),
    Decl("blank", None, VBool(true)),
    Decl("null", None, VBool(true)),
    Decl("default", None, VNotProvided),
    Decl("max_length", Some("maxLength"), VNone),
    Decl("choices", None, VList([]))
  ]

  /** The list `process_model` passes for each forward relation's field. */
  const RelationDecls: seq<Decl> := [
    Decl("verbose_name", Some("label"), VNone),
    Decl("read_only", Some("readOnly"), VBool(false)),
    Decl("required", None, VBool(false)),
    Decl("blank", None, VBool(true)),
    Decl("null", None, VBool(true)),
    Decl("default", None, VNotProvided),
    Decl("choices", None, VList([]))
  ]

  /** `if not isinstance(default, tuple): default = (default,)`. */
  function DefaultsOf(default: Value): seq<Value>
  {
    if default.VTuple? then default.items else [default]
  }

  /** The loop of `has_option`: true unless some element equals `v`. */
  function NoneEqual(v: Value, ds: seq<Value>): (r: bool)
    ensures r <==> forall i :: 0 <= i < |ds| ==> !PyEq(v, ds[i])
  {
    if ds == [] then true
    else if PyEq(v, ds[0]) then false
    else NoneEqual(v, ds[1..])
  }

  /** `has_option(field, value, default)`: false exactly when the value
      equals the default or, for a tuple default, one of its elements. */
  function HasOption(v: Value, default: Value): (r: bool)
    ensures !default.VTuple? ==> (r <==> !PyEq(v, default))
    ensures default.VTuple? ==> (r <==> forall i :: 0 <= i < |default.items| ==> !PyEq(v, default.items[i]))
  {
    NoneEqual(v, DefaultsOf(default))
  }

  /** `[x for x in val]`: lists and tuples keep their elements in order, a
      string gives its characters; anything else is not iterable. */
  function AsList(v: Value): (r: Result<Value>)
    ensures r.Err? <==> !(v.VList? || v.VTuple? || v.VStr?)
    ensures r.Err? ==> r.error == ChoicesNotIterable
    ensures r.Ok? ==> r.value.VList?
    ensures v.VList? || v.VTuple? ==> r == Ok(VList(v.items))
    ensures v.VStr? ==>
      (|r.value.items| == |v.s| && forall i :: 0 <= i < |v.s| ==> r.value.items[i] == VStr([v.s[i]]))
  {
    match v
    case VList(xs) => Ok(VList(xs))
    case VTuple(xs) => Ok(VList(xs))
    case VStr(s) => Ok(VList(seq(|s|, i requires 0 <= i < |s| => VStr([s[i]]))))
    case _ => Err(ChoicesNotIterable)
  }

  /** What one declaration contributes: nothing (`Ok(None)`), a value for
      its key (`Ok(Some(v))`), or the TypeError of coercing `choices`. */
  function Emit(d: Decl, attrs: map<string, Value>, host: Host): (r: Result<Option<Value>>)
    ensures r.Ok? && r.value.Some? ==>
      && d.name in attrs
      && HasOption(attrs[d.name], d.default)
      && !host.isCallable(attrs[d.name])
      && host.encodes(r.value.value)
      && (d.name == "choices" ==> AsList(attrs[d.name]) == Ok(r.value.value))
      && (d.name != "choices" ==> r.value.value == attrs[d.name])
    ensures r.Err? <==>
      && d.name == "choices" && d.name in attrs
      && HasOption(attrs[d.name], d.default)
      && !host.isCallable(attrs[d.name])
      && AsList(attrs[d.name]).Err?
    ensures r.Err? ==> r.error == ChoicesNotIterable
    ensures
      && d.name in attrs
      && HasOption(attrs[d.name], d.default)
      && !host.isCallable(attrs[d.name])
      && (d.name == "choices" ==> AsList(attrs[d.name]).Ok?)
      && host.encodes(if d.name == "choices" then AsList(attrs[d.name]).value else attrs[d.name])
      ==> r.Ok? && r.value.Some?
  {
    if d.name !in attrs then Ok(None)
    else
      var val := attrs[d.name];
      if !HasOption(val, d.default) || host.isCallable(val) then Ok(None)
      else
        var coerced := if d.name == "choices" then AsList(val) else Ok(val);
        match coerced
        case Err(e) => Err(e)
        case Ok(v) => if host.encodes(v) then Ok(Some(v)) else Ok(None)
  }

  /** The bag `extract_options(decls, field)` returns: the declarations'
      contributions written in declaration order, a later write to the same
      key replacing an earlier one. */
  function ExtractSpec(decls: seq<Decl>, attrs: map<string, Value>, host: Host): Result<Bag>
    decreases |decls|
  {
    if decls == [] then Ok(map[])
    else
      match ExtractSpec(decls[..|decls| - 1], attrs, host)
      case Err(e) => Err(e)
      case Ok(opts) =>
        var d := decls[|decls| - 1];
        match Emit(d, attrs, host)
        case Err(e) => Err(e)
        case Ok(None) => Ok(opts)
        case Ok(Some(v)) => Ok(opts[Key(d) := v])
  }

  /** An error in a prefix of the declarations is the final outcome. */
  lemma {:induction false} ExtractErrorSticks(decls: seq<Decl>, n: nat, attrs: map<string, Value>, host: Host)
    requires n <= |decls|
    requires ExtractSpec(decls[..n], attrs, host).Err?
    ensures ExtractSpec(decls, attrs, host) == ExtractSpec(decls[..n], attrs, host)
    decreases |decls| - n
  {
    if n < |decls| {
      assert decls[..n + 1][..n] == decls[..n];
      ExtractErrorSticks(decls, n + 1, attrs, host);
    } else {
      assert decls[..n] == decls;
    }
  }

  /** `extract_options` itself: the loop over the declarations. */
  method ExtractOptions(decls: seq<Decl>, attrs: map<string, Value>, host: Host) returns (r: Result<Bag>)
    ensures r == ExtractSpec(decls, attrs, host)
  {
    var opts: Bag := map[];
    var i := 0;
    while i < |decls|
      invariant 0 <= i <= |decls|
      invariant ExtractSpec(decls[..i], attrs, host) == Ok(opts)
    {
      var d := decls[i];
      assert decls[..i + 1][..i] == decls[..i] && decls[..i + 1][i] == d;
      if d.name in attrs {
        var val := attrs[d.name];
        if HasOption(val, d.default) && !host.isCallable(val) {
          if d.name == "choices" {
            var listed := AsList(val);
            if listed.Err? {
              ExtractErrorSticks(decls, i + 1, attrs, host);
              return Err(listed.error);
            }
            val := listed.value;
          }
          if host.encodes(val) {
            opts := opts[Key(d) := val];
          }
        }
      }
      i := i + 1;
    }
    assert decls[..i] == decls;
    return Ok(opts);
  }

  /** Extraction fails exactly when some declaration's contribution does,
      which can only be a `choices` value that cannot be iterated. */
  lemma {:induction false} ExtractFails(decls: seq<Decl>, attrs: map<string, Value>, host: Host)
    ensures ExtractSpec(decls, attrs, host).Err? <==> exists i :: 0 <= i < |decls| && Emit(decls[i], attrs, host).Err?
    decreases |decls|
  {
    if decls != [] {
      var init := decls[..|decls| - 1];
      ExtractFails(init, attrs, host);
      if exists i :: 0 <= i < |init| && Emit(init[i], attrs, host).Err? {
        var i :| 0 <= i < |init| && Emit(init[i], attrs, host).Err?;
        assert decls[i] == init[i];
      }
      if exists i :: 0 <= i < |decls| && Emit(decls[i], attrs, host).Err? {
        var i :| 0 <= i < |decls| && Emit(decls[i], attrs, host).Err?;
        if i < |init| { assert init[i] == decls[i]; }
      }
    }
  }

  /** The only exception extraction raises is the `choices` one. */
  lemma {:induction false} ExtractErrorKind(decls: seq<Decl>, attrs: map<string, Value>, host: Host)
    requires ExtractSpec(decls, attrs, host).Err?
    ensures ExtractSpec(decls, attrs, host).error == ChoicesNotIterable
    decreases |decls|
  {
    var init := decls[..|decls| - 1];
    if ExtractSpec(init, attrs, host).Err? {
      ExtractErrorKind(init, attrs, host);
    }
  }

  /** Soundness: every key of the bag was written by a declaration with
      that key, and holds what that declaration contributes (so a present,
      non-default, non-callable, encodable value, `choices` as a list). */
  lemma {:induction false} ExtractSound(decls: seq<Decl>, attrs: map<string, Value>, host: Host)
    requires ExtractSpec(decls, attrs, host).Ok?
    ensures forall k :: k in ExtractSpec(decls, attrs, host).value ==>
      exists i :: 0 <= i < |decls| && Key(decls[i]) == k &&
        Emit(decls[i], attrs, host) == Ok(Some(ExtractSpec(decls, attrs, host).value[k]))
    decreases |decls|
  {
    if decls != [] {
      var init := decls[..|decls| - 1];
      var d := decls[|decls| - 1];
      ExtractSound(init, attrs, host);
      var opts := ExtractSpec(decls, attrs, host).value;
      var prev := ExtractSpec(init, attrs, host).value;
      forall k | k in opts
        ensures exists i :: 0 <= i < |decls| && Key(decls[i]) == k && Emit(decls[i], attrs, host) == Ok(Some(opts[k]))
      {
        if Emit(d, attrs, host).value.Some? && k == Key(d) {
          assert Key(decls[|decls| - 1]) == k;
        } else {
          assert k in prev && opts[k] == prev[k];
          var i :| 0 <= i < |init| && Key(init[i]) == k && Emit(init[i], attrs, host) == Ok(Some(prev[k]));
          assert decls[i] == init[i];
        }
      }
    }
  }

  /** Completeness: a declaration that contributes a value, with no later
      declaration contributing to the same key, leaves that value in the bag. */
  lemma {:induction false} ExtractComplete(decls: seq<Decl>, attrs: map<string, Value>, host: Host, i: int)
    requires ExtractSpec(decls, attrs, host).Ok?
    requires 0 <= i < |decls| && Emit(decls[i], attrs, host).Ok? && Emit(decls[i], attrs, host).value.Some?
    requires forall j :: i < j < |decls| && Key(decls[j]) == Key(decls[i]) ==> Emit(decls[j], attrs, host) == Ok(None)
    ensures Key(decls[i]) in ExtractSpec(decls, attrs, host).value
    ensures ExtractSpec(decls, attrs, host).value[Key(decls[i])] == Emit(decls[i], attrs, host).value.value
    decreases |decls|
  {
    var init := decls[..|decls| - 1];
    if i < |decls| - 1 {
      assert init[i] == decls[i];
      forall j | i < j < |init| && Key(init[j]) == Key(init[i])
        ensures Emit(init[j], attrs, host) == Ok(None)
      {
        assert init[j] == decls[j];
      }
      ExtractComplete(init, attrs, host, i);
    }
  }
}
