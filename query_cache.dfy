/**
  The client-side query cache: the collection cached under each query key,
  the queries in the order they were created (the order in which
  `getQueriesData` lists them), and the keys marked stale. A query can exist
  before its data has arrived.
 */
module QueryCache {
  import opened Wrappers
  import opened Types
  import opened QueryKeys

  predicate DistinctKeys(ks: seq<QueryKey>) {
    forall i, j :: 0 <= i < j < |ks| ==> ks[i] != ks[j]
  }

  class Cache {
    /** The queries, in creation order. */
    var order: seq<QueryKey>
    /** The data of the queries that have some. */
    var data: map<QueryKey, Collection>
    /** The keys invalidated so far. */
    var invalidated: set<QueryKey>

    ghost predicate Valid()
      reads this
    {
      DistinctKeys(order) && forall k :: k in data ==> k in order
    }

    constructor ()
      ensures Valid() && order == [] && data == map[] && invalidated == {}
    {
      order := [];
      data := map[];
      invalidated := {};
    }

    /** `getQueryData(key)`: `undefined` when the query is absent or has no data yet. */
    function GetQueryData(key: QueryKey): (r: Option<Collection>)
      reads this
      ensures r.Some? <==> key in data
      ensures r.Some? ==> r.value == data[key]
    {
      if key in data then Some(data[key]) else None
    }

    /** `setQueryData(key, value)`: creates the query if it does not exist. */
    method SetQueryData(key: QueryKey, value: Collection)
      requires Valid()
      modifies this
      ensures Valid()
      ensures data == old(data)[key := value]
      ensures order == if key in old(order) then old(order) else old(order) + [key]
      ensures invalidated == old(invalidated)
    {
      if key !in order {
        order := order + [key];
      }
      data := data[key := value];
    }

    /** `invalidateQueries({ queryKey: key })`: marks the key stale; the data stays until refetched. */
    method InvalidateQueries(key: QueryKey)
      modifies this
      ensures invalidated == old(invalidated) + {key}
      ensures data == old(data) && order == old(order)
    {
      invalidated := invalidated + {key};
    }
  }
}
