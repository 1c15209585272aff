/** Index queries over a table, as the backend issues them through
    `ctx.db.query(table).withIndex(...)`: the documents an equality on the
    index selects, in `_creationTime` order (ascending by default, newest
    first under `.order("desc")`). Ids are positions, so creation order is
    id order. */
module Queries {
  import opened Schema

  /** The documents of `table[lo..]` that `keep` selects, newest first. */
  function NewestFirst<T>(table: seq<T>, keep: T -> bool, lo: nat): (r: seq<Doc<T>>)
    requires lo <= |table|
    ensures forall k :: 0 <= k < |r| ==> lo <= r[k].id < |table| && table[r[k].id] == r[k].value && keep(r[k].value)
    ensures forall k, l :: 0 <= k < l < |r| ==> r[k].id > r[l].id
    ensures forall i :: lo <= i < |table| && keep(table[i]) ==> Doc(i, table[i]) in r
    decreases |table| - lo
  {
    if lo == |table| then []
    else
      var newer := NewestFirst(table, keep, lo + 1);
      if keep(table[lo]) then newer + [Doc(lo, table[lo])] else newer
  }

  /** The documents of `table[..hi]` that `keep` selects, oldest first. */
  function OldestFirst<T>(table: seq<T>, keep: T -> bool, hi: nat): (r: seq<Doc<T>>)
    requires hi <= |table|
    ensures forall k :: 0 <= k < |r| ==> r[k].id < hi && table[r[k].id] == r[k].value && keep(r[k].value)
    ensures forall k, l :: 0 <= k < l < |r| ==> r[k].id < r[l].id
    ensures forall i :: 0 <= i < hi && keep(table[i]) ==> Doc(i, table[i]) in r
    decreases hi
  {
    if hi == 0 then []
    else
      var older := OldestFirst(table, keep, hi - 1);
      if keep(table[hi - 1]) then older + [Doc(hi - 1, table[hi - 1])] else older
  }

  /** The first `limit` documents of a query result, as `.take(limit)`. */
  function Take<T>(docs: seq<T>, limit: nat): (r: seq<T>)
    ensures |r| == if |docs| < limit then |docs| else limit
    ensures r == docs[..|r|]
  {
    if |docs| <= limit then docs else docs[..limit]
  }

  /** Taking the first `limit` of a newest-first result drops only documents
      older than every one kept. */
  lemma TakeDropsOnlyOlder<T>(docs: seq<Doc<T>>, limit: nat, d: Doc<T>)
    requires limit > 0
    requires forall k, l :: 0 <= k < l < |docs| ==> docs[k].id > docs[l].id
    requires d in docs
    ensures var r := Take(docs, limit);
      d in r || (|r| == limit && d.id < r[limit - 1].id)
  {
    var r := Take(docs, limit);
    var p :| 0 <= p < |docs| && docs[p] == d;
    if p < |r| {
      assert r[p] == d;
    } else {
      assert r[limit - 1] == docs[limit - 1];
    }
  }

  /** The k-th of strictly increasing naturals is at least k. */
  lemma {:induction false} IncreasingGrows(ids: seq<nat>, k: nat)
    requires forall i, j :: 0 <= i < j < |ids| ==> ids[i] < ids[j]
    requires k < |ids|
    ensures ids[k] >= k
  {
    if k > 0 {
      IncreasingGrows(ids, k - 1);
      assert ids[k - 1] < ids[k];
    }
  }

  /** A filter that keeps everything returns the whole table, in order. */
  lemma {:induction false} OldestFirstKeepsAll<T>(table: seq<T>, keep: T -> bool, hi: nat)
    requires hi <= |table|
    requires forall k :: 0 <= k < hi ==> keep(table[k])
    ensures |OldestFirst(table, keep, hi)| == hi
    ensures forall k :: 0 <= k < hi ==> OldestFirst(table, keep, hi)[k] == Doc(k, table[k])
    decreases hi
  {
    if hi > 0 {
      OldestFirstKeepsAll(table, keep, hi - 1);
      var older := OldestFirst(table, keep, hi - 1);
      assert OldestFirst(table, keep, hi) == older + [Doc(hi - 1, table[hi - 1])];
    }
  }
}
