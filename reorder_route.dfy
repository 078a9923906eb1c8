/**
  The `/api/todos/reorder` route: for each position `i` of `todoIds` it adds
  `todoIds[i]` to the sorted set `key` with score `i`. It validates nothing
  and always answers success.
 */
module ReorderRoute {
  import opened Storage

  /** The set after the first `n` commands `zadd(key, i, ids[i])`. */
  function ScoresAfter(z: ZSet, ids: seq<string>, n: nat): ZSet
    requires n <= |ids|
  {
    if n == 0 then z else ScoresAfter(z, ids, n - 1)[ids[n - 1] := n - 1]
  }

  /** The set after the whole loop. */
  function Reordered(z: ZSet, ids: seq<string>): ZSet {
    ScoresAfter(z, ids, |ids|)
  }

  /** POST: one `zadd` per position; the response is always success. */
  method Post(store: Store, key: string, todoIds: seq<string>) returns (success: bool)
    modifies store
    ensures success
    ensures todoIds == [] ==> store.zsets == old(store.zsets)
    ensures todoIds != [] ==> store.zsets == old(store.zsets)[key := Reordered(ZSetOf(old(store.zsets), key), todoIds)]
    ensures store.tabs == old(store.tabs)
  {
    ghost var z0 := ZSetOf(store.zsets, key);
    for i := 0 to |todoIds|
      invariant i == 0 ==> store.zsets == old(store.zsets)
      invariant i > 0 ==> store.zsets == old(store.zsets)[key := ScoresAfter(z0, todoIds, i)]
      invariant store.tabs == old(store.tabs)
    {
      store.ZAdd(key, i, todoIds[i]);
    }
    success := true;
  }

  /**
    After the first `n` commands, an id listed among them has the index of its
    last occurrence as its score (the last index wins).
   */
  lemma {:induction false} ListedScore(z: ZSet, ids: seq<string>, n: nat, m: string)
    requires n <= |ids| && m in ids[..n]
    ensures var r := ScoresAfter(z, ids, n);
      m in r && 0 <= r[m] < n && ids[r[m]] == m && forall j :: r[m] < j < n ==> ids[j] != m
  {
    if ids[n - 1] != m {
      assert ids[..n] == ids[..n - 1] + [ids[n - 1]];
      ListedScore(z, ids, n - 1, m);
    }
  }

  /** Members not among the first `n` ids keep their membership and their score. */
  lemma {:induction false} UnlistedKept(z: ZSet, ids: seq<string>, n: nat, m: string)
    requires n <= |ids| && m !in ids[..n]
    ensures var r := ScoresAfter(z, ids, n);
      (m in r <==> m in z) && (m in z ==> r[m] == z[m])
  {
    if n > 0 {
      assert ids[..n] == ids[..n - 1] + [ids[n - 1]];
      UnlistedKept(z, ids, n - 1, m);
    }
  }

  /** The members afterwards: the old ones and the listed ones (listed ids that were not members are inserted). */
  lemma {:induction false} ReorderedMembers(z: ZSet, ids: seq<string>, n: nat)
    requires n <= |ids|
    ensures ScoresAfter(z, ids, n).Keys == z.Keys + set j | 0 <= j < n :: ids[j]
  {
    if n > 0 {
      ReorderedMembers(z, ids, n - 1);
    }
  }

  /** Running the same reorder twice leaves the set as running it once. */
  lemma ReorderIdempotent(z: ZSet, ids: seq<string>)
    ensures Reordered(Reordered(z, ids), ids) == Reordered(z, ids)
  {
    var once := Reordered(z, ids);
    var twice := Reordered(once, ids);
    ReorderedMembers(z, ids, |ids|);
    ReorderedMembers(once, ids, |ids|);
    assert ids[..|ids|] == ids;
    forall m | m in twice
      ensures m in once && twice[m] == once[m]
    {
      if m in ids {
        ListedScore(once, ids, |ids|, m);
        ListedScore(z, ids, |ids|, m);
        LastIndexUnique(ids, twice[m], once[m], m);
      } else {
        UnlistedKept(once, ids, |ids|, m);
      }
    }
    assert twice.Keys == once.Keys;
  }

  /** Two indices of `m` after which `m` does not occur again are the same index. */
  lemma LastIndexUnique(ids: seq<string>, a: int, b: int, m: string)
    requires 0 <= a < |ids| && 0 <= b < |ids| && ids[a] == m && ids[b] == m
    requires forall j :: a < j < |ids| ==> ids[j] != m
    requires forall j :: b < j < |ids| ==> ids[j] != m
    ensures a == b
  {
  }

  predicate Distinct(ids: seq<string>) {
    forall i, j :: 0 <= i < j < |ids| ==> ids[i] != ids[j]
  }

  /** Reading `z` by ascending score gives exactly `ids`: its members are the ids and their scores increase along `ids`. */
  predicate ReadsAs(z: ZSet, ids: seq<string>) {
    && z.Keys == (set j | 0 <= j < |ids| :: ids[j])
    && (forall j :: 0 <= j < |ids| ==> ids[j] in z)
    && (forall i, j :: 0 <= i < j < |ids| ==> z[ids[i]] < z[ids[j]])
  }

  /** When `ids` lists each current member exactly once, reading the set by score afterwards gives `ids`. */
  lemma PermutationReadsAs(z: ZSet, ids: seq<string>)
    requires Distinct(ids) && z.Keys == (set j | 0 <= j < |ids| :: ids[j])
    ensures ReadsAs(Reordered(z, ids), ids)
    ensures forall j :: 0 <= j < |ids| ==> Reordered(z, ids)[ids[j]] == j
  {
    var r := Reordered(z, ids);
    ReorderedMembers(z, ids, |ids|);
    assert ids[..|ids|] == ids;
    forall j | 0 <= j < |ids|
      ensures ids[j] in r && r[ids[j]] == j
    {
      ListedScore(z, ids, |ids|, ids[j]);
    }
  }
}
