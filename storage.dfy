/**
  The key-value store the API routes talk to: the JSON value kept under the
  `tabs` key, and sorted sets that map each member to its score. A pipeline
  is modelled as its commands run one after the other.
 */
module Storage {
  import opened Wrappers
  import opened Types

  /** A sorted set: each member with its score. */
  type ZSet = map<string, int>

  /** The sorted set under `key`; a missing key reads as the empty set. */
  function ZSetOf(zsets: map<string, ZSet>, key: string): (z: ZSet)
    ensures key in zsets ==> z == zsets[key]
    ensures key !in zsets ==> z == map[]
  {
    if key in zsets then zsets[key] else map[]
  }

  /** `zadd key score member` on the value of all sorted sets: adds the member or updates its score. */
  function ZAdded(zsets: map<string, ZSet>, key: string, score: int, member: string): (r: map<string, ZSet>)
    ensures ZSetOf(r, key) == ZSetOf(zsets, key)[member := score]
    ensures forall k :: k != key ==> ZSetOf(r, k) == ZSetOf(zsets, k)
  {
    zsets[key := ZSetOf(zsets, key)[member := score]]
  }

  /** `zrem key member` on the value of all sorted sets: removes the member if present. */
  function ZRemoved(zsets: map<string, ZSet>, key: string, member: string): (r: map<string, ZSet>)
    ensures ZSetOf(r, key) == ZSetOf(zsets, key) - {member}
    ensures forall k :: k != key ==> ZSetOf(r, k) == ZSetOf(zsets, k)
  {
    zsets[key := ZSetOf(zsets, key) - {member}]
  }

  class Store {
    /** The value under the `tabs` key, `None` when the key is absent. */
    var tabs: Option<seq<Tab>>
    /** The sorted sets, by key. */
    var zsets: map<string, ZSet>

    constructor ()
      ensures tabs == None && zsets == map[]
    {
      tabs := None;
      zsets := map[];
    }

    /** `set("tabs", value)`. */
    method SetTabs(value: seq<Tab>)
      modifies this
      ensures tabs == Some(value)
      ensures zsets == old(zsets)
    {
      tabs := Some(value);
    }

    /** `zadd(key, { score, member })`. */
    method ZAdd(key: string, score: int, member: string)
      modifies this
      ensures zsets == ZAdded(old(zsets), key, score, member)
      ensures tabs == old(tabs)
    {
      zsets := ZAdded(zsets, key, score, member);
    }

    /** `zrem(key, member)`. */
    method ZRem(key: string, member: string)
      modifies this
      ensures zsets == ZRemoved(old(zsets), key, member)
      ensures tabs == old(tabs)
    {
      zsets := ZRemoved(zsets, key, member);
    }
  }
}
