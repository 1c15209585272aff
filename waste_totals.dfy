/** Sums over waste entries, as rewards.ts and ai.ts compute them with
    left-to-right `reduce` folds starting from 0. */
module WasteTotals {
  import opened Schema
  import opened Queries

  /** The entries logged by `uid`, in table order (the `by_user` index query):
      each of the user's entries as often as the table holds it, no other. */
  function EntriesOf(entries: seq<WasteEntry>, uid: UserId): (r: seq<WasteEntry>)
    ensures |r| <= |entries|
    ensures forall e :: e in r <==> e in entries && e.userId == uid
    ensures forall e :: multiset(r)[e] == if e.userId == uid then multiset(entries)[e] else 0
  {
    if entries == [] then []
    else
      var last := entries[|entries| - 1];
      var before := EntriesOf(entries[..|entries| - 1], uid);
      assert entries == entries[..|entries| - 1] + [last];
      if last.userId == uid then before + [last] else before
  }

  /** `EntriesOf` is the `by_user` index scan: the values of the documents
      `OldestFirst` selects, in the same order. */
  lemma {:induction false} EntriesOfIsIndexScan(entries: seq<WasteEntry>, uid: UserId, keep: WasteEntry -> bool, hi: nat)
    requires hi <= |entries|
    requires forall e :: keep(e) == (e.userId == uid)
    ensures |EntriesOf(entries[..hi], uid)| == |OldestFirst(entries, keep, hi)|
    ensures forall k :: 0 <= k < |EntriesOf(entries[..hi], uid)| ==>
              EntriesOf(entries[..hi], uid)[k] == OldestFirst(entries, keep, hi)[k].value
    decreases hi
  {
    if hi > 0 {
      EntriesOfIsIndexScan(entries, uid, keep, hi - 1);
      assert entries[..hi][..hi - 1] == entries[..hi - 1];
      assert entries[..hi][hi - 1] == entries[hi - 1];
    }
  }

  /** The left fold of the weights from 0 (rewards.ts and ai.ts reduce). */
  function TotalWeight(entries: seq<WasteEntry>): real
  {
    if entries == [] then 0.0 else TotalWeight(entries[..|entries| - 1]) + entries[|entries| - 1].weight
  }

  /** The left fold of the points from 0. */
  function TotalPoints(entries: seq<WasteEntry>): int
  {
    if entries == [] then 0 else TotalPoints(entries[..|entries| - 1]) + entries[|entries| - 1].points
  }

  /** The left fold of the CO2 savings from 0. */
  function TotalCo2Saved(entries: seq<WasteEntry>): real
  {
    if entries == [] then 0.0 else TotalCo2Saved(entries[..|entries| - 1]) + entries[|entries| - 1].co2Saved
  }

  /** The weight total of a concatenation is the sum of the totals: the
      fold's result does not depend on how the entries are split. */
  lemma {:induction false} TotalWeightAppend(a: seq<WasteEntry>, b: seq<WasteEntry>)
    ensures TotalWeight(a + b) == TotalWeight(a) + TotalWeight(b)
    decreases |b|
  {
    if b == [] {
      assert a + b == a;
    } else {
      var b' := b[..|b| - 1];
      assert (a + b)[..|a + b| - 1] == a + b';
      assert (a + b)[|a + b| - 1] == b[|b| - 1];
      TotalWeightAppend(a, b');
    }
  }

  lemma {:induction false} TotalPointsAppend(a: seq<WasteEntry>, b: seq<WasteEntry>)
    ensures TotalPoints(a + b) == TotalPoints(a) + TotalPoints(b)
    decreases |b|
  {
    if b == [] {
      assert a + b == a;
    } else {
      var b' := b[..|b| - 1];
      assert (a + b)[..|a + b| - 1] == a + b';
      assert (a + b)[|a + b| - 1] == b[|b| - 1];
      TotalPointsAppend(a, b');
    }
  }

  lemma {:induction false} TotalCo2SavedAppend(a: seq<WasteEntry>, b: seq<WasteEntry>)
    ensures TotalCo2Saved(a + b) == TotalCo2Saved(a) + TotalCo2Saved(b)
    decreases |b|
  {
    if b == [] {
      assert a + b == a;
    } else {
      var b' := b[..|b| - 1];
      assert (a + b)[..|a + b| - 1] == a + b';
      assert (a + b)[|a + b| - 1] == b[|b| - 1];
      TotalCo2SavedAppend(a, b');
    }
  }

  /** When no weight is negative, the weight total is at least 0 and at
      least any single entry's weight. */
  lemma {:induction false} TotalWeightBounds(entries: seq<WasteEntry>)
    requires forall e :: e in entries ==> e.weight >= 0.0
    ensures TotalWeight(entries) >= 0.0
    ensures forall e :: e in entries ==> e.weight <= TotalWeight(entries)
  {
    if entries != [] {
      var before := entries[..|entries| - 1];
      assert forall e :: e in before ==> e in entries;
      TotalWeightBounds(before);
      assert forall e :: e in entries ==> e in before || e == entries[|entries| - 1];
    }
  }
}
