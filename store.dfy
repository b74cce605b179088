/**
 * The realtime database both scripts talk to, held in memory: a tree of
 * leaves addressed by paths of keys. `set()` replaces the whole subtree at a
 * path, and `get()` returns what hangs under a path: nothing, one leaf value,
 * or an object whose children are leaves or further subtrees.
 */
module Store {
  import opened Text

  /** A database location, one key per segment: `/csidata/realtime/7` is ["csidata", "realtime", "7"]. */
  type Path = seq<string>

  /** A stored leaf: a string, a floating-point number or an integer. */
  datatype Value = Text(s: string) | Number(x: real) | Integer(n: int)

  predicate IsPrefix(p: Path, q: Path)
  {
    |p| <= |q| && q[..|p|] == p
  }

  /** Two locations one of which contains the other. */
  predicate Related(p: Path, q: Path)
  {
    IsPrefix(p, q) || IsPrefix(q, p)
  }

  /** Every leaf of the tree is a leaf: no stored path lies inside another. */
  predicate IsTree(data: map<Path, Value>)
  {
    forall p, q :: p in data && q in data && p != q ==> !IsPrefix(p, q)
  }

  /** The data with the location `path` emptied: the subtree below it is gone, and so
      is any leaf above it, which can no longer be a leaf once something is put there. */
  function Clear(data: map<Path, Value>, path: Path): (r: map<Path, Value>)
    ensures forall q :: q in r <==> q in data && !Related(q, path)
    ensures forall q :: q in r ==> r[q] == data[q]
  {
    map q | q in data && !Related(q, path) :: data[q]
  }

  /** `db.reference(path).set(v)` for a leaf value. */
  function Put(data: map<Path, Value>, path: Path, v: Value): map<Path, Value>
  {
    Clear(data, path)[path := v]
  }

  /** `set` of a leaf stores the value at the path, keeps every location unrelated to the
      path with its value, and keeps nothing else. */
  lemma PutSpec(data: map<Path, Value>, path: Path, v: Value)
    ensures var r := Put(data, path, v);
      && path in r && r[path] == v
      && (forall q :: q in r && q != path ==> q in data && !Related(q, path) && r[q] == data[q])
      && (forall q :: q in data && !Related(q, path) ==> q in r && r[q] == data[q])
  {
  }

  /** Writing a leaf keeps the store a tree. */
  lemma PutTree(data: map<Path, Value>, path: Path, v: Value)
    requires IsTree(data)
    ensures IsTree(Put(data, path, v))
  {
  }

  /** One child of an object snapshot: a leaf value, or a nested object. */
  datatype Node = Leaf(v: Value) | Branch

  /** What `db.reference(path).get()` returns. */
  datatype Snapshot = Null | Scalar(v: Value) | Object(children: map<string, Node>)

  /** The names of the children of `path`. */
  function ChildNames(data: map<Path, Value>, path: Path): (names: set<string>)
    ensures forall c :: c in names <==> exists q :: q in data && IsPrefix(path + [c], q)
  {
    var names := set q | q in data && |q| > |path| && q[..|path|] == path :: q[|path|];
    forall c ensures c in names <==> exists q :: q in data && IsPrefix(path + [c], q) {
      if c in names {
        var q :| q in data && |q| > |path| && q[..|path|] == path && q[|path|] == c;
        assert q[..|path| + 1] == path + [c];
      }
      if exists q :: q in data && IsPrefix(path + [c], q) {
        var q :| q in data && IsPrefix(path + [c], q);
        assert q[..|path|] == (path + [c])[..|path|] == path;
        assert q[|path|] == (path + [c])[|path|];
      }
    }
    names
  }

  /** The snapshot read at `path`. */
  function Read(data: map<Path, Value>, path: Path): (s: Snapshot)
    ensures s.Null? <==> path !in data && ChildNames(data, path) == {}
    ensures s.Scalar? <==> path in data
    ensures s.Object? ==> s.children.Keys == ChildNames(data, path)
    ensures s.Object? ==> forall c :: c in s.children && path + [c] in data ==>
                            s.children[c] == Leaf(data[path + [c]])
  {
    if path in data then Scalar(data[path])
    else
      var names := ChildNames(data, path);
      if names == {} then Null
      else Object(map c | c in names :: if path + [c] in data then Leaf(data[path + [c]]) else Branch)
  }

  /** Two maps that agree on everything at or below `path` read the same snapshot there. */
  lemma ReadSameBelow(d1: map<Path, Value>, d2: map<Path, Value>, path: Path)
    requires forall q :: IsPrefix(path, q) ==> (q in d1 <==> q in d2)
    requires forall q :: IsPrefix(path, q) && q in d1 ==> d1[q] == d2[q]
    ensures Read(d1, path) == Read(d2, path)
  {
    assert IsPrefix(path, path);
    assert ChildNames(d1, path) == ChildNames(d2, path) by {
      forall c ensures (exists q :: q in d1 && IsPrefix(path + [c], q)) ==> (exists q :: q in d2 && IsPrefix(path + [c], q)) {
        if exists q :: q in d1 && IsPrefix(path + [c], q) {
          var q :| q in d1 && IsPrefix(path + [c], q);
          assert q[..|path|] == (path + [c])[..|path|];
          assert IsPrefix(path, q);
        }
      }
      forall c ensures (exists q :: q in d2 && IsPrefix(path + [c], q)) ==> (exists q :: q in d1 && IsPrefix(path + [c], q)) {
        if exists q :: q in d2 && IsPrefix(path + [c], q) {
          var q :| q in d2 && IsPrefix(path + [c], q);
          assert q[..|path|] == (path + [c])[..|path|];
          assert IsPrefix(path, q);
        }
      }
    }
    forall c ensures IsPrefix(path, path + [c]) {
    }
  }

  /** The database object the scripts reach through `db.reference(...)`. */
  class Database {
    var data: map<Path, Value>

    constructor ()
      ensures data == map[]
    {
      data := map[];
    }

    /** `db.reference(path).set(v)` with a leaf value. */
    method Set(path: Path, v: Value)
      modifies this
      ensures data == Put(old(data), path, v)
    {
      data := Put(data, path, v);
    }

    /** `db.reference(path).set({k: v, ...})`: the subtree at `path` becomes exactly these children. */
    method SetChildren(path: Path, children: seq<(string, Value)>)
      modifies this
      ensures data == PutAll(Clear(old(data), path), path, children)
    {
      var d := Clear(data, path);
      var i := 0;
      while i < |children|
        invariant 0 <= i <= |children|
        invariant d == PutAll(Clear(data, path), path, children[..i])
      {
        assert children[..i + 1] == children[..i] + [children[i]];
        d := d[path + [children[i].0] := children[i].1];
        i := i + 1;
      }
      assert children[..|children|] == children;
      data := d;
    }

    /** `db.reference(path).get()`. */
    method Get(path: Path) returns (s: Snapshot)
      ensures s == Read(data, path)
    {
      s := Read(data, path);
    }
  }

  /** The children written one after another below an emptied `path`. */
  function PutAll(data: map<Path, Value>, path: Path, children: seq<(string, Value)>): map<Path, Value>
  {
    if |children| == 0 then data
    else
      var last := children[|children| - 1];
      PutAll(data, path, children[..|children| - 1])[path + [last.0] := last.1]
  }

  /** A location none of the children is written to keeps what it held. */
  lemma {:induction false} PutAllFrame(data: map<Path, Value>, path: Path, children: seq<(string, Value)>, q: Path)
    requires forall k :: 0 <= k < |children| ==> q != path + [children[k].0]
    ensures q in PutAll(data, path, children) <==> q in data
    ensures q in data ==> PutAll(data, path, children)[q] == data[q]
  {
    if |children| > 0 {
      PutAllFrame(data, path, children[..|children| - 1], q);
    }
  }
}
