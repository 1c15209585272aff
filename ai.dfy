/** ai.ts: recording verified training samples, the per-type sample counts,
    and the insights built from a user's waste entries. */
module Ai {
  import opened Schema
  import opened WasteTotals

  /** trainClassifier: an authenticated caller adds one verified sample with
      no prediction and no features. */
  method TrainClassifier(db: Store, caller: Option<UserId>, imageId: StorageId, actualType: WasteType)
    returns (r: Result<bool>)
    modifies db`classifierData
    ensures caller.None? ==> r == Err(NotAuthenticated) && db.classifierData == old(db.classifierData)
    ensures caller.Some? ==>
      && r == Ok(true)
      && db.classifierData == old(db.classifierData) + [ClassifierSample(imageId, actualType, None, None, [], true)]
  {
    if caller.None? {
      return Err(NotAuthenticated);
    }
    db.classifierData := db.classifierData + [ClassifierSample(imageId, actualType, None, None, [], true)];
    r := Ok(true);
  }

  /** How many samples are labelled `t`. */
  function CountOfType(data: seq<ClassifierSample>, t: WasteType): (n: nat)
    ensures n <= |data|
    ensures n > 0 <==> exists i :: 0 <= i < |data| && data[i].actualType == t
  {
    if data == [] then 0
    else
      var before := data[..|data| - 1];
      assert forall i :: 0 <= i < |before| ==> before[i] == data[i];
      CountOfType(before, t) + (if data[|data| - 1].actualType == t then 1 else 0)
  }

  /** Every sample has exactly one label, so the six counts add up to the
      number of samples. */
  lemma {:induction false} CountsSumToTotal(data: seq<ClassifierSample>)
    ensures CountOfType(data, WasteType.Plastic) + CountOfType(data, WasteType.Organic)
            + CountOfType(data, WasteType.Paper) + CountOfType(data, WasteType.Glass)
            + CountOfType(data, WasteType.Metal) + CountOfType(data, Electronic) == |data|
  {
    if data != [] {
      CountsSumToTotal(data[..|data| - 1]);
    }
  }

  datatype ClassifierStats = ClassifierStats(totalSamples: nat, byType: map<WasteType, nat>, accuracy: real)

  /** getClassifierStats: the number of samples, one count per label that
      occurs (labels without samples are absent), and a simulated accuracy,
      a random value in [0.85, 0.95). */
  method GetClassifierStats(db: Store) returns (stats: ClassifierStats)
    ensures stats.totalSamples == |db.classifierData|
    ensures forall t :: t in stats.byType <==> CountOfType(db.classifierData, t) > 0
    ensures forall t :: t in stats.byType ==> stats.byType[t] == CountOfType(db.classifierData, t)
    ensures 0.85 <= stats.accuracy < 0.95
  {
    var trainingData := db.classifierData;
    var random: real :| 0.0 <= random < 1.0;
    var accuracy := 0.85 + random * 0.1;
    var byType: map<WasteType, nat> := map[];
    for i := 0 to |trainingData|
      invariant forall t :: t in byType <==> CountOfType(trainingData[..i], t) > 0
      invariant forall t :: t in byType ==> byType[t] == CountOfType(trainingData[..i], t)
    {
      var t := trainingData[i].actualType;
      assert trainingData[..i + 1][..i] == trainingData[..i];
      byType := byType[t := (if t in byType then byType[t] else 0) + 1];
    }
    assert trainingData[..|trainingData|] == trainingData;
    stats := ClassifierStats(|trainingData|, byType, accuracy);
  }

  /** How many entries have waste type `t`. */
  function Tally(entries: seq<WasteEntry>, t: WasteType): (n: nat)
    ensures n <= |entries|
    ensures n > 0 <==> exists i :: 0 <= i < |entries| && entries[i].wasteType == t
  {
    if entries == [] then 0
    else
      var before := entries[..|entries| - 1];
      assert forall i :: 0 <= i < |before| ==> before[i] == entries[i];
      Tally(before, t) + (if entries[|entries| - 1].wasteType == t then 1 else 0)
  }

  /** The position of the first entry of type `t`. */
  function FirstIndex(entries: seq<WasteEntry>, t: WasteType): (i: nat)
    requires exists j :: 0 <= j < |entries| && entries[j].wasteType == t
    ensures i < |entries| && entries[i].wasteType == t
    ensures forall j :: 0 <= j < i ==> entries[j].wasteType != t
  {
    var before := entries[..|entries| - 1];
    assert forall j :: 0 <= j < |before| ==> before[j] == entries[j];
    if exists j :: 0 <= j < |before| && before[j].wasteType == t then FirstIndex(before, t)
    else |entries| - 1
  }

  /** The waste types in the order they first occur: the key order of the
      counting object the insights build. */
  function FirstSeen(entries: seq<WasteEntry>): (r: seq<WasteType>)
    ensures forall k, l :: 0 <= k < l < |r| ==> r[k] != r[l]
    ensures forall t :: t in r <==> exists i :: 0 <= i < |entries| && entries[i].wasteType == t
    ensures forall k :: 0 <= k < |r| ==> exists i :: 0 <= i < |entries| && entries[i].wasteType == r[k]
  {
    if entries == [] then []
    else
      var before := entries[..|entries| - 1];
      var t := entries[|entries| - 1].wasteType;
      assert forall i :: 0 <= i < |before| ==> before[i] == entries[i];
      if t in FirstSeen(before) then FirstSeen(before) else FirstSeen(before) + [t]
  }

  /** FirstSeen lists types by their first occurrence. */
  lemma {:induction false} FirstSeenOrder(entries: seq<WasteEntry>, k: nat, l: nat)
    requires k < l < |FirstSeen(entries)|
    ensures FirstIndex(entries, FirstSeen(entries)[k]) < FirstIndex(entries, FirstSeen(entries)[l])
  {
    var before := entries[..|entries| - 1];
    var t := entries[|entries| - 1].wasteType;
    var seen := FirstSeen(before);
    assert forall i :: 0 <= i < |before| ==> before[i] == entries[i];
    var u, w := FirstSeen(entries)[k], FirstSeen(entries)[l];
    assert FirstSeen(entries)[..|seen|] == seen;
    assert u == seen[k];
    SameFirstIndex(entries, u);
    if l < |seen| {
      assert w == seen[l];
      SameFirstIndex(entries, w);
      FirstSeenOrder(before, k, l);
    } else {
      assert w == t && t !in seen;
    }
  }

  /** A type that already occurs before the last entry keeps its first index. */
  lemma SameFirstIndex(entries: seq<WasteEntry>, t: WasteType)
    requires entries != []
    requires exists j :: 0 <= j < |entries| - 1 && entries[j].wasteType == t
    ensures FirstIndex(entries, t) == FirstIndex(entries[..|entries| - 1], t)
  {
    var before := entries[..|entries| - 1];
    assert forall j :: 0 <= j < |before| ==> before[j] == entries[j];
  }

  /** The position of the first type in `order` with the largest tally: the
      head of a stable sort by descending count. */
  function BestIndex(order: seq<WasteType>, entries: seq<WasteEntry>): (b: nat)
    requires order != []
    ensures b < |order|
    ensures forall k :: 0 <= k < |order| ==> Tally(entries, order[k]) <= Tally(entries, order[b])
    ensures forall k :: 0 <= k < b ==> Tally(entries, order[k]) < Tally(entries, order[b])
  {
    if |order| == 1 then 0
    else
      var before := order[..|order| - 1];
      var b := BestIndex(before, entries);
      assert forall k :: 0 <= k < |before| ==> before[k] == order[k];
      if Tally(entries, order[|order| - 1]) > Tally(entries, order[b]) then |order| - 1 else b
  }

  /** `top` occurs in `entries`, is logged at least as often as every other
      type, and appears before every other type logged equally often. */
  ghost predicate IsMostLogged(entries: seq<WasteEntry>, top: WasteType)
  {
    && (exists i :: 0 <= i < |entries| && entries[i].wasteType == top)
    && (forall u :: Tally(entries, u) <= Tally(entries, top))
    && (forall u :: u != top && Tally(entries, u) == Tally(entries, top) ==>
          (exists i :: 0 <= i < |entries| && entries[i].wasteType == u) &&
          FirstIndex(entries, top) < FirstIndex(entries, u))
  }

  /** topWasteType: "plastic" when there are no entries; otherwise the head
      of the keys sorted by descending tally. */
  function TopWasteType(entries: seq<WasteEntry>): WasteType
  {
    var order := FirstSeen(entries);
    if order == [] then WasteType.Plastic else order[BestIndex(order, entries)]
  }

  /** "plastic" exactly when there are no entries; otherwise the top type is
      logged at least as often as every other type, and of the types logged
      equally often it is the one that appears first in `entries`. */
  lemma TopWasteTypeIsMostLogged(entries: seq<WasteEntry>)
    ensures entries == [] ==> TopWasteType(entries) == WasteType.Plastic
    ensures entries != [] ==> IsMostLogged(entries, TopWasteType(entries))
  {
    var order := FirstSeen(entries);
    if entries != [] {
      assert entries[0].wasteType in order;
      BestIsMostLogged(entries, order, BestIndex(order, entries));
    }
  }

  /** The head of the sorted keys is logged at least as often as every type,
      and any other type logged equally often appears later in `entries`. */
  lemma BestIsMostLogged(entries: seq<WasteEntry>, order: seq<WasteType>, b: nat)
    requires order == FirstSeen(entries) && order != [] && b == BestIndex(order, entries)
    ensures exists i :: 0 <= i < |entries| && entries[i].wasteType == order[b]
    ensures forall u :: Tally(entries, u) <= Tally(entries, order[b])
    ensures forall u :: u != order[b] && Tally(entries, u) == Tally(entries, order[b]) ==>
              FirstIndex(entries, order[b]) < FirstIndex(entries, u)
  {
    forall u ensures Tally(entries, u) <= Tally(entries, order[b]) {
      TopBeatsAll(entries, order, b, u);
    }
    forall u | u != order[b] && Tally(entries, u) == Tally(entries, order[b])
      ensures FirstIndex(entries, order[b]) < FirstIndex(entries, u)
    {
      TopSeenFirst(entries, order, b, u);
    }
  }

  lemma TopBeatsAll(entries: seq<WasteEntry>, order: seq<WasteType>, b: nat, u: WasteType)
    requires order == FirstSeen(entries) && order != [] && b == BestIndex(order, entries)
    ensures Tally(entries, u) <= Tally(entries, order[b])
  {
    if Tally(entries, u) > 0 {
      assert u in order;
      var k :| 0 <= k < |order| && order[k] == u;
    }
  }

  lemma TopSeenFirst(entries: seq<WasteEntry>, order: seq<WasteType>, b: nat, u: WasteType)
    requires order == FirstSeen(entries) && order != [] && b == BestIndex(order, entries)
    requires u != order[b] && Tally(entries, u) == Tally(entries, order[b])
    ensures exists i :: 0 <= i < |entries| && entries[i].wasteType == u
    ensures FirstIndex(entries, order[b]) < FirstIndex(entries, u)
  {
    assert Tally(entries, order[b]) > 0;
    assert u in order;
    var k :| 0 <= k < |order| && order[k] == u;
    assert k != b;
    assert b < k;
    FirstSeenOrder(entries, b, k);
  }

  /** One line of the insights list. The numeric lines carry the amounts
      that the source prints with one decimal. */
  datatype Insight =
    | Note(text: string)
    | WeightLogged(kg: real)
    | Co2Saved(kg: real)
    | MostLogged(wasteType: WasteType)

  datatype Insights = Insights(insights: seq<Insight>, tips: seq<string>)

  const StarterInsights: seq<Insight> := [
    Note("Start logging your waste to get personalized insights!"),
    Note("Every small action counts towards a greener planet.")
  ]

  const StarterTips: seq<string> := [
    "Try to reduce plastic usage by using reusable bags",
    "Compost organic waste to create nutrient-rich soil"
  ]

  const Tips: seq<string> := [
    "Consider reducing single-use plastics to lower your environmental impact",
    "Organic waste can be composted to create valuable fertilizer",
    "Recycling paper saves trees and reduces landfill waste"
  ]

  /** generateInsights over the user's entries: two fixed insights and two
      fixed tips when there are none; otherwise the weight and CO2 totals,
      the most logged type and three fixed tips. */
  function GenerateInsights(entries: seq<WasteEntry>): (r: Insights)
    ensures entries == [] ==> r.insights == StarterInsights && r.tips == StarterTips
    ensures entries != [] ==> |r.insights| == 3 && r.tips == Tips
    ensures entries != [] ==>
      && r.insights[0] == WeightLogged(TotalWeight(entries))
      && r.insights[1] == Co2Saved(TotalCo2Saved(entries))
      && r.insights[2] == MostLogged(TopWasteType(entries))
  {
    if entries == [] then Insights(StarterInsights, StarterTips)
    else
      Insights([WeightLogged(TotalWeight(entries)), Co2Saved(TotalCo2Saved(entries)), MostLogged(TopWasteType(entries))], Tips)
  }

  /** The third insight names the most logged type, and of the types
      logged equally often the one that appears first in `entries`. */
  lemma InsightsNameMostLogged(entries: seq<WasteEntry>)
    requires entries != []
    ensures GenerateInsights(entries).insights[2].MostLogged?
    ensures IsMostLogged(entries, GenerateInsights(entries).insights[2].wasteType)
  {
    TopWasteTypeIsMostLogged(entries);
  }

  /** Logging more entries adds their weight and CO2 to the first two insights. */
  lemma InsightsAccumulate(a: seq<WasteEntry>, b: seq<WasteEntry>)
    requires a != [] && b != []
    ensures GenerateInsights(a + b).insights[0].kg == GenerateInsights(a).insights[0].kg + GenerateInsights(b).insights[0].kg
    ensures GenerateInsights(a + b).insights[1].kg == GenerateInsights(a).insights[1].kg + GenerateInsights(b).insights[1].kg
  {
    TotalWeightAppend(a, b);
    TotalCo2SavedAppend(a, b);
  }
}
