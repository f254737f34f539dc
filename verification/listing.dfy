/**
  The listing order of the course stores: `find().sort({ createdAt: -1 })`
  returns every stored record, newest first. Records are kept in maps from
  id to record; the order among records with equal timestamps is whatever
  the database returns, so only the descending order is promised.
 */
module Listing {
  import Seqs

  /** Every id of `ids` is stored in `m`. */
  ghost predicate AllStored<V>(m: map<nat, V>, ids: seq<nat>)
  {
    forall k :: 0 <= k < |ids| ==> ids[k] in m
  }

  /** The records named by `ids` appear newest first. */
  ghost predicate NewestFirst<V>(m: map<nat, V>, ids: seq<nat>, stamp: V -> int)
    requires AllStored(m, ids)
  {
    forall k, l :: 0 <= k < l < |ids| ==> stamp(m[ids[k]]) >= stamp(m[ids[l]])
  }

  /** Inserts `id` into a newest-first list, after every record at least as new. */
  function Insert<V>(m: map<nat, V>, ids: seq<nat>, id: nat, stamp: V -> int): (r: seq<nat>)
    requires id in m && AllStored(m, ids) && NewestFirst(m, ids, stamp)
    ensures AllStored(m, r) && NewestFirst(m, r, stamp)
    ensures |r| == |ids| + 1
    ensures forall x :: x in r <==> x in ids || x == id
    ensures Seqs.NoDuplicates(ids) && id !in ids ==> Seqs.NoDuplicates(r)
  {
    if |ids| == 0 then [id]
    else if stamp(m[ids[0]]) < stamp(m[id]) then [id] + ids
    else
      var rest := Insert(m, ids[1..], id, stamp);
      HeadBeforeRest(m, ids, id, stamp, rest);
      [ids[0]] + rest
  }

  /** The head of a newest-first list stays ahead of everything inserted behind it. */
  lemma HeadBeforeRest<V>(m: map<nat, V>, ids: seq<nat>, id: nat, stamp: V -> int, rest: seq<nat>)
    requires |ids| > 0 && id in m && AllStored(m, ids) && NewestFirst(m, ids, stamp)
    requires stamp(m[ids[0]]) >= stamp(m[id])
    requires AllStored(m, rest)
    requires forall x :: x in rest <==> x in ids[1..] || x == id
    ensures forall l :: 0 <= l < |rest| ==> stamp(m[ids[0]]) >= stamp(m[rest[l]])
    ensures Seqs.NoDuplicates(ids) && id !in ids ==> ids[0] !in rest
  {
    forall l | 0 <= l < |rest|
      ensures stamp(m[ids[0]]) >= stamp(m[rest[l]])
    {
      if rest[l] != id {
        assert rest[l] in ids[1..];
        var j :| 0 <= j < |ids[1..]| && ids[1..][j] == rest[l];
        assert ids[j + 1] == rest[l];
      }
    }
  }

  /**
    The ids of all records of `m`, each exactly once, ordered so that the
    records' stamps never increase along the list.
   */
  method SortedIds<V>(m: map<nat, V>, stamp: V -> int) returns (ids: seq<nat>)
    ensures |ids| == |m.Keys|
    ensures Seqs.NoDuplicates(ids)
    ensures AllStored(m, ids)
    ensures forall id :: id in m ==> id in ids
    ensures NewestFirst(m, ids, stamp)
  {
    var todo := m.Keys;
    ids := [];
    while todo != {}
      invariant todo <= m.Keys
      invariant AllStored(m, ids) && NewestFirst(m, ids, stamp)
      invariant Seqs.NoDuplicates(ids)
      invariant forall x :: x in ids ==> x !in todo
      invariant forall id :: id in m && id !in todo ==> id in ids
      invariant |ids| + |todo| == |m.Keys|
      decreases |todo|
    {
      var id :| id in todo;
      ids := Insert(m, ids, id, stamp);
      todo := todo - {id};
    }
  }

  /** The records named by `ids`, in that order. */
  function Records<V>(m: map<nat, V>, ids: seq<nat>): (r: seq<V>)
    requires AllStored(m, ids)
    ensures |r| == |ids|
    ensures forall k :: 0 <= k < |ids| ==> r[k] == m[ids[k]]
  {
    seq(|ids|, k requires 0 <= k < |ids| => m[ids[k]])
  }
}
