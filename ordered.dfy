/** Ordered dictionaries read as sequences of (key, value) pairs, and the
    dict that a loop of `d[key] = f(value)` assignments builds from one. */
module Ordered {
  import opened Values

  function KeysOf<T>(s: seq<(string, T)>): set<string>
  {
    set i | 0 <= i < |s| :: s[i].0
  }

  /** Entry `i` is the last one with its key, so its assignment is the one that stays. */
  ghost predicate IsLast<T>(s: seq<(string, T)>, i: int)
  {
    0 <= i < |s| && forall j :: i < j < |s| ==> s[j].0 != s[i].0
  }

  /** The dict built by `for k, v in s: d[k] = f(v)` from an empty dict. */
  function Tabulate<T, U>(s: seq<(string, T)>, f: T -> U): (d: map<string, U>)
    ensures d.Keys == KeysOf(s)
    ensures forall i :: IsLast(s, i) ==> d[s[i].0] == f(s[i].1)
    decreases |s|
  {
    if s == [] then map[]
    else
      var d0 := Tabulate(s[..|s| - 1], f);
      assert forall i :: IsLast(s, i) && i < |s| - 1 ==> IsLast(s[..|s| - 1], i);
      KeysOfSnoc(s);
      d0[s[|s| - 1].0 := f(s[|s| - 1].1)]
  }

  lemma KeysOfSnoc<T>(s: seq<(string, T)>)
    requires |s| > 0
    ensures KeysOf(s) == KeysOf(s[..|s| - 1]) + {s[|s| - 1].0}
  {
    var init := s[..|s| - 1];
    forall k | k in KeysOf(s) ensures k in KeysOf(init) + {s[|s| - 1].0} {
      var i :| 0 <= i < |s| && s[i].0 == k;
      if i < |s| - 1 { assert init[i] == s[i]; }
    }
    forall k | k in KeysOf(init) ensures k in KeysOf(s) {
      var i :| 0 <= i < |init| && init[i].0 == k;
      assert s[i] == init[i];
    }
  }

  /** One more assignment: the dict of a longer prefix. */
  lemma TabulateSnoc<T, U>(s: seq<(string, T)>, n: nat, f: T -> U)
    requires n < |s|
    ensures Tabulate(s[..n + 1], f) == Tabulate(s[..n], f)[s[n].0 := f(s[n].1)]
  {
    assert s[..n + 1][..n] == s[..n];
  }

  /** Overriding then assigning is assigning in the overriding dict. */
  lemma OverrideUpdate<U>(a: map<string, U>, b: map<string, U>, k: string, v: U)
    ensures (a + b)[k := v] == a + b[k := v]
  {
  }

  /** Running the assignments of `a` and then those of `b` is the same as
      building each dict alone and letting `b` override `a`. */
  lemma {:induction false} TabulateAppend<T, U>(a: seq<(string, T)>, b: seq<(string, T)>, f: T -> U)
    ensures Tabulate(a + b, f) == Tabulate(a, f) + Tabulate(b, f)
    decreases |b|
  {
    if b == [] {
      assert a + b == a;
    } else {
      var b0 := b[..|b| - 1];
      assert (a + b)[..|a + b| - 1] == a + b0;
      assert (a + b)[|a + b| - 1] == b[|b| - 1];
      TabulateAppend(a, b0, f);
      var last := b[|b| - 1];
      assert Tabulate(b, f) == Tabulate(b0, f)[last.0 := f(last.1)];
      OverrideUpdate(Tabulate(a, f), Tabulate(b0, f), last.0, f(last.1));
    }
  }

  /** The same loop when computing a value can raise: the first failing
      entry's exception escapes, otherwise the dict is built as by
      `Tabulate`. */
  function TabulateOk<T, U>(s: seq<(string, T)>, f: T -> Result<U>): (r: Result<map<string, U>>)
    ensures r.Ok? <==> forall i :: 0 <= i < |s| ==> f(s[i].1).Ok?
    ensures r.Err? ==> exists i :: 0 <= i < |s| && f(s[i].1) == Err(r.error)
    ensures r.Ok? ==> r.value.Keys == KeysOf(s)
    ensures r.Ok? ==> forall i :: IsLast(s, i) ==> f(s[i].1) == Ok(r.value[s[i].0])
    decreases |s|
  {
    if s == [] then Ok(map[])
    else
      var init := s[..|s| - 1];
      var last := s[|s| - 1];
      AllOkSnoc(s, init, f);
      match TabulateOk(init, f)
      case Err(e) => Err(e)
      case Ok(d0) =>
        match f(last.1)
        case Err(e) => Err(e)
        case Ok(v) =>
          TabulateOkStep(s, init, f, d0, v);
          KeysOfSnoc(s);
          Ok(d0[last.0 := v])
  }

  /** Every entry of `s` succeeds exactly when every entry but the last does and the last does. */
  lemma AllOkSnoc<T, U>(s: seq<(string, T)>, init: seq<(string, T)>, f: T -> Result<U>)
    requires |s| > 0 && init == s[..|s| - 1]
    ensures (forall i :: 0 <= i < |s| ==> f(s[i].1).Ok?) <==>
      (forall i :: 0 <= i < |init| ==> f(init[i].1).Ok?) && f(s[|s| - 1].1).Ok?
  {
    if forall i :: 0 <= i < |init| ==> f(init[i].1).Ok? {
      forall i | 0 <= i < |init| ensures f(s[i].1).Ok? {
        assert init[i] == s[i];
      }
    }
  }

  /** The values built so far stay faithful to `f` after one more assignment. */
  lemma TabulateOkStep<T, U>(s: seq<(string, T)>, init: seq<(string, T)>, f: T -> Result<U>, d0: map<string, U>, v: U)
    requires |s| > 0 && init == s[..|s| - 1]
    requires d0.Keys == KeysOf(init)
    requires forall i :: IsLast(init, i) ==> f(init[i].1) == Ok(d0[init[i].0])
    requires f(s[|s| - 1].1) == Ok(v)
    ensures forall i :: IsLast(s, i) ==> f(s[i].1) == Ok(d0[s[|s| - 1].0 := v][s[i].0])
  {
    forall i | IsLast(s, i) ensures f(s[i].1) == Ok(d0[s[|s| - 1].0 := v][s[i].0]) {
      if i < |s| - 1 {
        assert init[i] == s[i];
        assert IsLast(init, i) by {
          forall j | i < j < |init| ensures init[j].0 != init[i].0 {
            assert init[j] == s[j];
          }
        }
        assert s[i].0 != s[|s| - 1].0;
        assert f(s[i].1) == Ok(d0[s[i].0]);
      }
    }
  }

  /** One more entry of the fallible loop. */
  lemma TabulateOkSnoc<T, U>(s: seq<(string, T)>, n: nat, f: T -> Result<U>)
    requires n < |s| && TabulateOk(s[..n], f).Ok?
    ensures f(s[n].1).Err? ==> TabulateOk(s[..n + 1], f) == Err(f(s[n].1).error)
    ensures f(s[n].1).Ok? ==> TabulateOk(s[..n + 1], f) == Ok(TabulateOk(s[..n], f).value[s[n].0 := f(s[n].1).value])
  {
    assert s[..n + 1][..n] == s[..n] && s[..n + 1][n] == s[n];
  }

  /** An exception in a prefix of the entries is the loop's outcome. */
  lemma {:induction false} TabulateOkErrorSticks<T, U>(s: seq<(string, T)>, f: T -> Result<U>, n: nat)
    requires n <= |s| && TabulateOk(s[..n], f).Err?
    ensures TabulateOk(s, f) == TabulateOk(s[..n], f)
    decreases |s| - n
  {
    if n < |s| {
      assert s[..n + 1][..n] == s[..n];
      TabulateOkErrorSticks(s, f, n + 1);
    } else {
      assert s[..n] == s;
    }
  }
}
