/**
  The array operations the drag handlers rely on: `findIndex` and `find` by
  id, `splice(i, 0, x)`, and `arrayMove` from the sortable drag-and-drop
  library, which removes the element at `from` and inserts it at `to`.
 */
module ArrayOps {
  import opened Wrappers
  import opened Types

  /** `todos.some(t => t.id === id)`. */
  predicate HasId(ts: seq<Todo>, id: string) {
    exists i :: 0 <= i < |ts| && ts[i].id == id
  }

  /** `todos.findIndex(t => t.id === id)`: the first index with the id, or -1. */
  function FindIndex(ts: seq<Todo>, id: string): (r: int)
    ensures -1 <= r < |ts|
    ensures r == -1 <==> !HasId(ts, id)
    ensures r >= 0 ==> ts[r].id == id && forall j :: 0 <= j < r ==> ts[j].id != id
  {
    if ts == [] then -1
    else if ts[0].id == id then 0
    else
      var k := FindIndex(ts[1..], id);
      assert forall j :: 1 <= j < |ts| ==> ts[j] == ts[1..][j - 1];
      if k == -1 then -1 else k + 1
  }

  /** `todos.find(t => t.id === id)`: the first todo with the id. */
  function Find(ts: seq<Todo>, id: string): (r: Option<Todo>)
    ensures r.None? <==> !HasId(ts, id)
    ensures r.Some? ==> r.value == ts[FindIndex(ts, id)]
  {
    var k := FindIndex(ts, id);
    if k == -1 then None else Some(ts[k])
  }

  /** `s.splice(i, 0, x)` on a copy, for `i >= 0`: an index past the end inserts at the end. */
  function InsertAt<T>(s: seq<T>, i: nat, x: T): (r: seq<T>)
    ensures |r| == |s| + 1
    ensures multiset(r) == multiset(s) + multiset{x}
  {
    var k := if i < |s| then i else |s|;
    assert s == s[..k] + s[k..];
    s[..k] + [x] + s[k..]
  }

  /** Where `splice` puts `x`, and what happens around it. */
  lemma InsertAtSpec<T>(s: seq<T>, i: nat, x: T)
    ensures var k := if i < |s| then i else |s|;
      && InsertAt(s, i, x)[k] == x
      && InsertAt(s, i, x)[..k] == s[..k]
      && InsertAt(s, i, x)[k + 1..] == s[k..]
  {
  }

  /** `arrayMove(s, from, to)`: the element at `from` taken out and put back at `to`. */
  function ArrayMove<T>(s: seq<T>, from: nat, to: nat): (r: seq<T>)
    requires from < |s| && to < |s|
    ensures |r| == |s|
    ensures r[to] == s[from]
  {
    var rest := s[..from] + s[from + 1..];
    rest[..to] + [s[from]] + rest[to..]
  }

  /** Moving is a permutation: nothing is lost or duplicated. */
  lemma ArrayMovePermutes<T>(s: seq<T>, from: nat, to: nat)
    requires from < |s| && to < |s|
    ensures multiset(ArrayMove(s, from, to)) == multiset(s)
  {
    var rest := s[..from] + s[from + 1..];
    assert s == s[..from] + [s[from]] + s[from + 1..];
    assert multiset(s) == multiset(s[..from]) + multiset{s[from]} + multiset(s[from + 1..]);
    assert multiset(rest) == multiset(s[..from]) + multiset(s[from + 1..]);
    assert rest == rest[..to] + rest[to..];
    assert multiset(rest) == multiset(rest[..to]) + multiset(rest[to..]);
    var r := ArrayMove(s, from, to);
    assert r == rest[..to] + [s[from]] + rest[to..];
    assert multiset(r) == multiset(rest[..to]) + multiset{s[from]} + multiset(rest[to..]);
    assert multiset(r) == multiset(rest) + multiset{s[from]};
  }

  /** Moving an element to where it already is changes nothing. */
  lemma ArrayMoveSame<T>(s: seq<T>, i: nat)
    requires i < |s|
    ensures ArrayMove(s, i, i) == s
  {
    var rest := s[..i] + s[i + 1..];
    assert rest[..i] == s[..i];
    assert rest[i..] == s[i + 1..];
    assert s == s[..i] + [s[i]] + s[i + 1..];
  }

  /** Moving back undoes a move. */
  lemma ArrayMoveBack<T>(s: seq<T>, from: nat, to: nat)
    requires from < |s| && to < |s|
    ensures ArrayMove(ArrayMove(s, from, to), to, from) == s
  {
    var r := ArrayMove(s, from, to);
    var rest := s[..from] + s[from + 1..];
    assert r == rest[..to] + [s[from]] + rest[to..];
    var rest2 := r[..to] + r[to + 1..];
    assert r[..to] == rest[..to];
    assert r[to + 1..] == rest[to..];
    assert rest2 == rest;
    assert rest[..from] == s[..from];
    assert rest[from..] == s[from + 1..];
    assert s == s[..from] + [s[from]] + s[from + 1..];
  }

  /** The index in the original array of the element a move puts at `k`. */
  function MoveSource(from: nat, to: nat, k: nat): nat {
    if k == to then from
    else if from < to && from <= k < to then k + 1
    else if to < from && to < k <= from then k - 1
    else k
  }

  /** Every element after a move comes from the index `MoveSource` gives. */
  lemma ArrayMoveAt<T>(s: seq<T>, from: nat, to: nat, k: nat)
    requires from < |s| && to < |s| && k < |s|
    ensures MoveSource(from, to, k) < |s|
    ensures ArrayMove(s, from, to)[k] == s[MoveSource(from, to, k)]
  {
    var rest := s[..from] + s[from + 1..];
    var r := ArrayMove(s, from, to);
    assert forall j :: 0 <= j < |rest| ==> rest[j] == if j < from then s[j] else s[j + 1];
    if k < to {
      assert r[k] == rest[k];
    } else if k > to {
      assert r[k] == rest[k - 1];
    }
  }

  /** Moving commutes with taking the ids. */
  lemma IdsArrayMove(ts: seq<Todo>, from: nat, to: nat)
    requires from < |ts| && to < |ts|
    ensures Ids(ArrayMove(ts, from, to)) == ArrayMove(Ids(ts), from, to)
  {
    var a := Ids(ArrayMove(ts, from, to));
    var b := ArrayMove(Ids(ts), from, to);
    forall k | 0 <= k < |a|
      ensures a[k] == b[k]
    {
      ArrayMoveAt(ts, from, to, k);
      ArrayMoveAt(Ids(ts), from, to, k);
    }
  }

  /** The ids after a move are a permutation of the ids before. */
  lemma MovedIdsPermute(ts: seq<Todo>, from: nat, to: nat)
    requires from < |ts| && to < |ts|
    ensures multiset(Ids(ArrayMove(ts, from, to))) == multiset(Ids(ts))
  {
    IdsArrayMove(ts, from, to);
    ArrayMovePermutes(Ids(ts), from, to);
  }
}
