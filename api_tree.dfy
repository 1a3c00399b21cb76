/** The API document: nested dicts from path segment to sub-dict, with the
    string 'CRUD' at each route, and the prefix handling both generators
    share (jam/generator.py:139-160, jam/management/commands/jam_generate.py:95-104). */
module ApiTree {
  import opened Values

  /** A dict of segments (`Node`) or the leaf string 'CRUD'. */
  datatype Tree = Crud | Node(children: map<string, Tree>)

  /** The subtree reached by following `path` from `t`, if any. */
  function Lookup(t: Tree, path: seq<string>): Option<Tree>
    decreases |path|
  {
    if path == [] then Some(t)
    else match t
      case Crud => None
      case Node(m) => if path[0] in m then Lookup(m[path[0]], path[1..]) else None
  }

  predicate IsCrudAt(t: Tree, path: seq<string>)
  {
    Lookup(t, path) == Some(Crud)
  }

  /** A dict sits at `path`. */
  predicate IsNodeAt(t: Tree, path: seq<string>)
  {
    Lookup(t, path).Some? && Lookup(t, path).value.Node?
  }

  /** `prefix.split('/')`: the pieces between separators, empty ones included. */
  function Split(s: string): (parts: seq<string>)
    ensures |parts| >= 1
    ensures forall i :: 0 <= i < |parts| ==> '/' !in parts[i]
  {
    if s == [] then [""]
    else
      var rest := Split(s[1..]);
      if s[0] == '/' then [""] + rest
      else [[s[0]] + rest[0]] + rest[1..]
  }

  /** `'/'.join(parts)`, the inverse of `Split`. */
  function Join(parts: seq<string>): string
    requires |parts| >= 1
  {
    if |parts| == 1 then parts[0] else parts[0] + "/" + Join(parts[1..])
  }

  lemma {:induction false} JoinSplit(s: string)
    ensures Join(Split(s)) == s
  {
    if s != [] {
      JoinSplit(s[1..]);
      var rest := Split(s[1..]);
      if s[0] == '/' {
        assert Split(s)[1..] == rest;
      } else {
        var parts := Split(s);
        assert parts[1..] == rest[1..];
        if |rest| == 1 {
          assert Join(parts) == [s[0]] + rest[0];
        } else {
          assert Join(parts) == [s[0]] + rest[0] + "/" + Join(rest[1..]);
        }
      }
    }
  }

  lemma {:induction false} SplitPrefixed(a: string, t: string)
    requires '/' !in a
    ensures Split(a + t) == [a + Split(t)[0]] + Split(t)[1..]
    decreases |a|
  {
    var st := Split(t);
    if a != [] {
      assert (a + t)[0] == a[0] && a[0] != '/';
      assert (a + t)[1..] == a[1..] + t;
      SplitPrefixed(a[1..], t);
      var rest := Split(a[1..] + t);
      assert rest[0] == a[1..] + st[0] && rest[1..] == st[1..];
      assert Split(a + t) == [[a[0]] + rest[0]] + rest[1..];
      assert [a[0]] + (a[1..] + st[0]) == a + st[0];
    } else {
      assert a + t == t;
      assert a + st[0] == st[0];
      assert st == [st[0]] + st[1..];
    }
  }

  lemma {:induction false} SplitJoin(parts: seq<string>)
    requires |parts| >= 1
    requires forall i :: 0 <= i < |parts| ==> '/' !in parts[i]
    ensures Split(Join(parts)) == parts
  {
    if |parts| == 1 {
      SplitPrefixed(parts[0], "");
      assert parts[0] + "" == parts[0];
    } else {
      SplitJoin(parts[1..]);
      var tail := "/" + Join(parts[1..]);
      SplitPrefixed(parts[0], tail);
      assert tail[0] == '/' && tail[1..] == Join(parts[1..]);
      assert Split(tail) == [""] + parts[1..];
      assert Split(tail)[0] == "" && Split(tail)[1..] == parts[1..];
      assert parts[0] + "" == parts[0];
      assert [parts[0]] + parts[1..] == parts;
      assert parts[0] + "/" + Join(parts[1..]) == parts[0] + tail;
    }
  }

  /** `if prefix[0] == '/': prefix = prefix[1:]` then
      `if prefix[-1] == '/': prefix = prefix[:-1]`: one leading and one
      trailing separator go, nothing else changes; indexing an empty
      string (the prefix '' or '/') raises IndexError. */
  function StripSlashes(p: string): (r: Result<string>)
    ensures r.Err? <==> p == "" || p == "/"
    ensures r.Err? ==> r.error == PrefixIndex
    ensures r.Ok? ==>
      p == (if p[0] == '/' then "/" else "") + r.value + (if p[|p| - 1] == '/' then "/" else "")
  {
    if p == [] then Err(PrefixIndex)
    else
      var p1 := if p[0] == '/' then p[1..] else p;
      if p1 == [] then Err(PrefixIndex)
      else if p1[|p1| - 1] == '/' then Ok(p1[..|p1| - 1])
      else Ok(p1)
  }

  /** The walk `cur = api; for part in path: cur = cur.setdefault(part, {})`
      followed by `cur[name] = 'CRUD'`. Meeting the string 'CRUD' on the
      way raises (a str has neither setdefault nor item assignment). */
  function Insert(t: Tree, path: seq<string>, name: string): Result<Tree>
    decreases |path|
  {
    match t
    case Crud => Err(RouteClash)
    case Node(m) =>
      if path == [] then Ok(Node(m[name := Crud]))
      else
        var child := if path[0] in m then m[path[0]] else Node(map[]);
        match Insert(child, path[1..], name)
        case Err(e) => Err(e)
        case Ok(c) => Ok(Node(m[path[0] := c]))
  }

  lemma EmptyHasNoCrud(q: seq<string>)
    ensures !IsCrudAt(Node(map[]), q)
  {
  }

  /** The walk succeeds exactly when no 'CRUD' leaf sits on it. */
  lemma {:induction false} InsertOkIff(t: Tree, path: seq<string>, name: string)
    ensures Insert(t, path, name).Ok? <==> forall k :: 0 <= k <= |path| ==> !IsCrudAt(t, path[..k])
    decreases |path|
  {
    if t.Crud? {
      assert IsCrudAt(t, path[..0]);
    } else if path != [] {
      var m := t.children;
      var child := if path[0] in m then m[path[0]] else Node(map[]);
      InsertOkIff(child, path[1..], name);
      forall k | 1 <= k <= |path|
        ensures IsCrudAt(t, path[..k]) <==> IsCrudAt(child, path[1..][..k - 1])
      {
        assert path[..k][1..] == path[1..][..k - 1];
        if path[0] !in m { EmptyHasNoCrud(path[1..][..k - 1]); }
      }
      if forall k :: 0 <= k <= |path| - 1 ==> !IsCrudAt(child, path[1..][..k]) {
        forall k | 0 <= k <= |path| ensures !IsCrudAt(t, path[..k]) {
          if k >= 1 { assert !IsCrudAt(child, path[1..][..k - 1]); }
        }
      } else {
        var k :| 0 <= k <= |path| - 1 && IsCrudAt(child, path[1..][..k]);
        assert IsCrudAt(t, path[..k + 1]);
      }
    }
  }

  /** After the walk, every segment of the path leads to a dict. */
  lemma {:induction false} InsertSpine(t: Tree, path: seq<string>, name: string)
    requires Insert(t, path, name).Ok?
    ensures forall k :: 0 <= k <= |path| ==>
      Lookup(Insert(t, path, name).value, path[..k]).Some? &&
      Lookup(Insert(t, path, name).value, path[..k]).value.Node?
    decreases |path|
  {
    if path != [] {
      var m := t.children;
      var child := if path[0] in m then m[path[0]] else Node(map[]);
      InsertSpine(child, path[1..], name);
      var c := Insert(child, path[1..], name).value;
      forall k | 1 <= k <= |path|
        ensures Lookup(Insert(t, path, name).value, path[..k]) == Lookup(c, path[1..][..k - 1])
      {
        assert path[..k][1..] == path[1..][..k - 1];
      }
    }
  }

  /** Leaves after the walk: the new leaf, and every earlier leaf except
      those it replaced (the ones at or below its own position). */
  lemma {:induction false} InsertLeaves(t: Tree, path: seq<string>, name: string)
    requires Insert(t, path, name).Ok?
    ensures forall q :: IsCrudAt(Insert(t, path, name).value, q) <==>
      (IsCrudAt(t, q) && !(path + [name] <= q)) || q == path + [name]
    decreases |path|
  {
    var t' := Insert(t, path, name).value;
    var m := t.children;
    if path == [] {
      assert path + [name] == [name];
      var m' := m[name := Crud];
      assert t' == Node(m');
      forall q ensures IsCrudAt(t', q) <==> (IsCrudAt(t, q) && !([name] <= q)) || q == [name] {
        if q != [] && q[0] == name {
          assert [name] <= q;
          assert Lookup(t', q) == Lookup(Crud, q[1..]);
          assert q == [name] <==> q[1..] == [];
        } else if q != [] {
          assert !([name] <= q);
          assert q != [name];
          assert Lookup(t', q) == Lookup(t, q);
        }
      }
    } else {
      var child := if path[0] in m then m[path[0]] else Node(map[]);
      var full := path + [name];
      InsertLeaves(child, path[1..], name);
      assert full[1..] == path[1..] + [name];
      var c := Insert(child, path[1..], name).value;
      assert t' == Node(m[path[0] := c]);
      forall q ensures IsCrudAt(t', q) <==> (IsCrudAt(t, q) && !(full <= q)) || q == full {
        if q != [] && q[0] == path[0] {
          if path[0] !in m { EmptyHasNoCrud(q[1..]); }
          assert Lookup(t', q) == Lookup(c, q[1..]);
          assert IsCrudAt(t, q) <==> IsCrudAt(child, q[1..]);
          assert full <= q <==> full[1..] <= q[1..];
          assert q == full <==> q[1..] == full[1..];
        } else if q != [] {
          assert full[0] == path[0];
          assert !(full <= q);
          assert q != full;
          assert Lookup(t', q) == Lookup(t, q);
        }
      }
    }
  }

  /** Dicts after the walk: those that were there, and the ones on the path. */
  lemma {:induction false} InsertNodes(t: Tree, path: seq<string>, name: string)
    requires Insert(t, path, name).Ok?
    ensures forall q :: IsNodeAt(Insert(t, path, name).value, q) ==> IsNodeAt(t, q) || q <= path
    decreases |path|
  {
    var t' := Insert(t, path, name).value;
    var m := t.children;
    if path == [] {
      forall q ensures IsNodeAt(t', q) ==> IsNodeAt(t, q) || q <= path {
        if q != [] && q[0] == name {
          assert Lookup(t', q) == Lookup(Crud, q[1..]);
        } else if q != [] {
          assert Lookup(t', q) == Lookup(t, q);
        }
      }
    } else {
      var child := if path[0] in m then m[path[0]] else Node(map[]);
      InsertNodes(child, path[1..], name);
      var c := Insert(child, path[1..], name).value;
      assert t' == Node(m[path[0] := c]);
      forall q ensures IsNodeAt(t', q) ==> IsNodeAt(t, q) || q <= path {
        if q != [] && q[0] == path[0] {
          assert Lookup(t', q) == Lookup(c, q[1..]);
          assert IsNodeAt(t', q) ==> IsNodeAt(c, q[1..]);
          if q[1..] <= path[1..] {
            assert q == [path[0]] + q[1..] && path == [path[0]] + path[1..];
            PrefixCons(path[0], q[1..], path[1..]);
          } else if path[0] in m {
            assert Lookup(t, q) == Lookup(child, q[1..]);
          } else if q[1..] != [] {
            assert !IsNodeAt(child, q[1..]);
          }
        } else if q != [] {
          assert Lookup(t', q) == Lookup(t, q);
        }
      }
    }
  }

  lemma PrefixCons(x: string, a: seq<string>, b: seq<string>)
    requires a <= b
    ensures [x] + a <= [x] + b
  {
    assert ([x] + b)[..|[x] + a|] == [x] + b[..|a|];
  }

  /** The shape both generators keep: the prefix segments lead to dicts,
      the 'CRUD' leaves are exactly the given route names directly below
      the last prefix segment, no dict lies off the prefix path, and with
      no route the document is still the empty dict. */
  ghost predicate Shaped(t: Tree, segs: seq<string>, names: set<string>)
  {
    && (names == {} ==> t == Node(map[]))
    && (forall k :: 0 <= k <= |segs| ==> !IsCrudAt(t, segs[..k]))
    && (forall q :: IsNodeAt(t, q) && q != [] ==> q <= segs)
    && forall q :: IsCrudAt(t, q) <==> |q| == |segs| + 1 && q[..|segs|] == segs && q[|segs|] in names
  }

  lemma EmptyShaped(segs: seq<string>)
    ensures Shaped(Node(map[]), segs, {})
  {
    forall q ensures !IsCrudAt(Node(map[]), q) { EmptyHasNoCrud(q); }
  }

  /** Adding one route to a shaped tree never fails and keeps it shaped. */
  lemma InsertShaped(t: Tree, segs: seq<string>, names: set<string>, name: string)
    requires Shaped(t, segs, names)
    ensures Insert(t, segs, name).Ok?
    ensures Shaped(Insert(t, segs, name).value, segs, names + {name})
  {
    InsertOkIff(t, segs, name);
    InsertSpine(t, segs, name);
    InsertLeaves(t, segs, name);
    InsertNodes(t, segs, name);
    var t' := Insert(t, segs, name).value;
    forall q ensures IsCrudAt(t', q) <==> |q| == |segs| + 1 && q[..|segs|] == segs && q[|segs|] in names + {name} {
      if |q| == |segs| + 1 && q[..|segs|] == segs {
        assert segs + [name] <= q <==> q == segs + [name];
        assert q == segs + [name] <==> q[|segs|] == name;
      }
    }
  }

  /** Route names are single keys: whatever the name holds, '/' included,
      its 'CRUD' leaf sits directly below the path. */
  lemma RouteNameNotSplit(t: Tree, path: seq<string>, name: string)
    requires Insert(t, path, name).Ok?
    ensures IsCrudAt(Insert(t, path, name).value, path + [name])
    ensures '/' in name ==> forall q :: IsCrudAt(Insert(t, path, name).value, q) && |q| > |path| && q[..|path|] == path && !IsCrudAt(t, q) ==> q == path + [name]
  {
    InsertLeaves(t, path, name);
  }
}
