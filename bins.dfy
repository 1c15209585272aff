/** bins.ts: the fill-level status of a collection bin, its update, and the
    seeding of the bins table. */
module Bins {
  import opened Schema

  /** The fill level as a percentage of capacity. */
  function Percentage(level: real, capacity: real): real
    requires capacity > 0.0
  {
    level / capacity * 100.0
  }

  /** The status updateBinLevel derives from a level: full from 90% up,
      warning from 75% up, normal below; never maintenance. */
  function StatusFor(level: real, capacity: real): (s: BinStatus)
    requires capacity > 0.0
    ensures s != Maintenance
    ensures s == Full <==> Percentage(level, capacity) >= 90.0
    ensures s == Warning <==> 75.0 <= Percentage(level, capacity) < 90.0
    ensures s == Normal <==> Percentage(level, capacity) < 75.0
  {
    var p := Percentage(level, capacity);
    if p >= 90.0 then Full else if p >= 75.0 then Warning else Normal
  }

  /** The same thresholds stated on the level itself, without division. */
  lemma StatusThresholdsInLevels(level: real, capacity: real)
    requires capacity > 0.0
    ensures StatusFor(level, capacity) == Full <==> 10.0 * level >= 9.0 * capacity
    ensures StatusFor(level, capacity) == Warning <==> 4.0 * level >= 3.0 * capacity && 10.0 * level < 9.0 * capacity
    ensures StatusFor(level, capacity) == Normal <==> 4.0 * level < 3.0 * capacity
  {
    var p := Percentage(level, capacity);
    assert p * capacity == 100.0 * level;
    PercentageOrder(p, level, capacity, 90.0);
    PercentageOrder(p, level, capacity, 75.0);
  }

  lemma PercentageOrder(p: real, level: real, capacity: real, bound: real)
    requires capacity > 0.0 && p * capacity == 100.0 * level
    ensures p >= bound <==> 100.0 * level >= bound * capacity
  {
    if p >= bound {
      assert p * capacity >= bound * capacity;
    } else {
      assert p * capacity < bound * capacity;
    }
  }

  function Rank(s: BinStatus): nat
  {
    match s
    case Normal => 0
    case Warning => 1
    case Full => 2
    case Maintenance => 3
  }

  /** Filling a bin never lowers its derived status. */
  lemma StatusMonotone(lower: real, higher: real, capacity: real)
    requires capacity > 0.0 && lower <= higher
    ensures Rank(StatusFor(lower, capacity)) <= Rank(StatusFor(higher, capacity))
  {
    StatusThresholdsInLevels(lower, capacity);
    StatusThresholdsInLevels(higher, capacity);
  }

  /** A level at or beyond capacity is full: the percentage is not clamped. */
  lemma OverfilledIsFull(level: real, capacity: real)
    requires capacity > 0.0 && level >= capacity
    ensures StatusFor(level, capacity) == Full
  {
    StatusThresholdsInLevels(level, capacity);
  }

  datatype LevelReport = LevelReport(status: BinStatus, percentage: real)

  /** updateBinLevel: a missing bin fails and changes nothing; otherwise the
      bin's level and status are patched (a maintenance status is overwritten
      too) and every other field and every other bin is left as it was. */
  method UpdateBinLevel(db: Store, binId: nat, currentLevel: real) returns (r: Result<LevelReport>)
    requires binId < |db.bins| ==> db.bins[binId].capacity > 0.0
    modifies db`bins
    ensures binId >= |old(db.bins)| ==> r == Err(BinNotFound) && db.bins == old(db.bins)
    ensures binId < |old(db.bins)| ==>
      var bin := old(db.bins)[binId];
      && r == Ok(LevelReport(StatusFor(currentLevel, bin.capacity), Percentage(currentLevel, bin.capacity)))
      && db.bins == old(db.bins)[binId := bin.(currentLevel := currentLevel, status := r.value.status)]
  {
    if binId >= |db.bins| {
      return Err(BinNotFound);
    }
    var bin := db.bins[binId];
    var percentage := currentLevel / bin.capacity * 100.0;
    var status := Normal;
    if percentage >= 90.0 {
      status := Full;
    } else if percentage >= 75.0 {
      status := Warning;
    }
    db.bins := db.bins[binId := bin.(currentLevel := currentLevel, status := status)];
    r := Ok(LevelReport(status, percentage));
  }

  const Locations: seq<string> := [
    "Main Street Park",
    "Community Center",
    "Shopping Mall",
    "Residential Area A",
    "Residential Area B",
    "School Campus"
  ]

  /** The kinds of bin seeded at every location: all but electronic. */
  const SeededTypes: seq<WasteType> := [WasteType.Plastic, WasteType.Organic, WasteType.Paper, WasteType.Glass, WasteType.Metal]

  /** Seven days in milliseconds. */
  const Week: real := 604800000.0

  /** The characters JavaScript's `\s` matches. */
  predicate IsSpace(c: char)
  {
    || c == '\t' || c == '\n' || c == '\U{000B}' || c == '\U{000C}' || c == '\r' || c == ' '
    || c == '\U{00A0}' || c == '\U{1680}' || ('\U{2000}' <= c <= '\U{200A}')
    || c == '\U{2028}' || c == '\U{2029}' || c == '\U{202F}' || c == '\U{205F}'
    || c == '\U{3000}' || c == '\U{FEFF}'
  }

  predicate NoSpace(s: string)
  {
    forall i :: 0 <= i < |s| ==> !IsSpace(s[i])
  }

  /** The rest of `s` after its leading run of whitespace. */
  function DropSpaces(s: string): (r: string)
    ensures exists k :: 0 <= k <= |s| && r == s[k..] && forall i :: 0 <= i < k ==> IsSpace(s[i])
    ensures r == [] || !IsSpace(r[0])
  {
    if s != [] && IsSpace(s[0]) then
      var r := DropSpaces(s[1..]);
      assert exists k :: 0 <= k <= |s| && r == s[k..] && forall i :: 0 <= i < k ==> IsSpace(s[i]) by {
        var k :| 0 <= k <= |s[1..]| && r == s[1..][k..] && forall i :: 0 <= i < k ==> IsSpace(s[1..][i]);
        assert s[1..][k..] == s[k + 1..];
        assert forall i :: 0 <= i < k + 1 ==> IsSpace(s[i]) by {
          forall i | 0 <= i < k + 1 ensures IsSpace(s[i]) {
            if i > 0 {
              assert s[i] == s[1..][i - 1];
            }
          }
        }
      }
      r
    else
      assert s == s[0..];
      s
  }

  /** `s.replace(/\s+/g, '_')`: every maximal run of whitespace becomes one
      underscore, so no whitespace is left and the string never grows. */
  function Underscored(s: string): (r: string)
    ensures NoSpace(r)
    ensures |r| <= |s|
    ensures r == [] <==> s == []
    decreases |s|
  {
    if s == [] then []
    else if IsSpace(s[0]) then "_" + Underscored(DropSpaces(s[1..]))
    else [s[0]] + Underscored(s[1..])
  }

  /** The sensor id of a seeded bin: no whitespace, the underscored location,
      then an underscore followed by the waste type's name. */
  function SensorId(location: string, t: WasteType): (id: string)
    ensures NoSpace(id)
    ensures |id| > |WasteTypeName(t)|
    ensures id[..|id| - |WasteTypeName(t)| - 1] == Underscored(location)
    ensures id[|id| - |WasteTypeName(t)| - 1..] == "_" + WasteTypeName(t)
  {
    var prefix, suffix := Underscored(location), "_" + WasteTypeName(t);
    TypeNameHasNoSpace(t);
    NoSpaceConcat(prefix, suffix);
    assert (prefix + suffix)[..|prefix|] == prefix;
    assert (prefix + suffix)[|prefix|..] == suffix;
    prefix + suffix
  }

  lemma NoSpaceConcat(a: string, b: string)
    requires NoSpace(a) && b != [] && !IsSpace(b[0]) && NoSpace(b[1..])
    ensures NoSpace(a + b)
  {
    forall i | 0 <= i < |a + b| ensures !IsSpace((a + b)[i]) {
      if i > |a| {
        assert (a + b)[i] == b[1..][i - |a| - 1];
      }
    }
  }

  lemma TypeNameHasNoSpace(t: WasteType)
    ensures NoSpace(WasteTypeName(t))
  {
    match t
    case Plastic =>
    case Organic =>
    case Paper =>
    case Glass =>
    case Metal =>
    case Electronic =>
  }

  lemma {:induction false} UnderscoredKeeps(w: string)
    requires NoSpace(w)
    ensures Underscored(w) == w
    decreases |w|
  {
    if w != [] {
      UnderscoredKeeps(w[1..]);
    }
  }

  /** Replacing the whitespace runs a second time changes nothing. */
  lemma UnderscoredIdempotent(s: string)
    ensures Underscored(Underscored(s)) == Underscored(s)
  {
    UnderscoredKeeps(Underscored(s));
  }

  /** A run of whitespace is dropped up to the first character after it. */
  lemma {:induction false} DropSpacesRun(w: string, b: string)
    requires forall i :: 0 <= i < |w| ==> IsSpace(w[i])
    requires b == [] || !IsSpace(b[0])
    ensures DropSpaces(w + b) == b
    decreases |w|
  {
    if w != [] {
      assert (w + b)[1..] == w[1..] + b;
      DropSpacesRun(w[1..], b);
    } else {
      assert w + b == b;
    }
  }

  /** A maximal run of whitespace of any length and kind after a word
      becomes one underscore. */
  lemma {:induction false} UnderscoredRun(a: string, w: string, b: string)
    requires NoSpace(a) && |w| > 0 && forall i :: 0 <= i < |w| ==> IsSpace(w[i])
    requires b == [] || !IsSpace(b[0])
    ensures Underscored(a + w + b) == a + "_" + Underscored(b)
    decreases |a|
  {
    if a == [] {
      assert a + w + b == w + b;
      assert (w + b)[1..] == w[1..] + b;
      DropSpacesRun(w[1..], b);
    } else {
      assert (a + w + b)[1..] == a[1..] + w + b;
      UnderscoredRun(a[1..], w, b);
    }
  }

  lemma UnderscoredTwoWords(s: string, a: string, b: string)
    requires NoSpace(a) && NoSpace(b) && b != [] && s == a + " " + b
    ensures Underscored(s) == a + "_" + b
  {
    UnderscoredRun(a, " ", b);
    UnderscoredKeeps(b);
  }

  lemma UnderscoredThreeWords(s: string, a: string, b: string, c: string)
    requires NoSpace(a) && NoSpace(b) && NoSpace(c) && b != [] && c != [] && s == a + " " + b + " " + c
    ensures Underscored(s) == a + "_" + b + "_" + c
  {
    assert s == a + " " + (b + " " + c);
    UnderscoredRun(a, " ", b + " " + c);
    UnderscoredTwoWords(b + " " + c, b, c);
  }

  /** The location part of the seeded sensor ids. */
  const UnderscoredLocations: seq<string> := [
    "Main_Street_Park",
    "Community_Center",
    "Shopping_Mall",
    "Residential_Area_A",
    "Residential_Area_B",
    "School_Campus"
  ]

  /** The sensor id of the seeded bin for location k and type t in full,
      such as "Main_Street_Park_plastic". */
  lemma SeededSensorId(k: nat, t: nat)
    requires k < |Locations| && t < |SeededTypes|
    ensures SensorId(Locations[k], SeededTypes[t]) == UnderscoredLocations[k] + "_" + WasteTypeName(SeededTypes[t])
  {
    SeededLocationUnderscored(k, Locations[k]);
  }

  lemma SeededLocationUnderscored(k: nat, s: string)
    requires k < |Locations| && s == Locations[k]
    ensures Underscored(s) == UnderscoredLocations[k]
  {
    if k == 0 {
      LocationUnderscored0(s);
    } else if k == 1 {
      LocationUnderscored1(s);
    } else if k == 2 {
      LocationUnderscored2(s);
    } else if k == 3 {
      LocationUnderscored3(s);
    } else if k == 4 {
      LocationUnderscored4(s);
    } else {
      LocationUnderscored5(s);
    }
  }

  // One lemma per seeded location: the solver does not split a string
  // literal into its words by itself, and one lemma for all six locations
  // exceeds the resource limit, so each names its own words.

  lemma LocationUnderscored0(s: string)
    requires s == "Main Street Park"
    ensures Underscored(s) == "Main_Street_Park"
  {
    var a, b, c := "Main", "Street", "Park";
    assert NoSpace(a) && NoSpace(b) && NoSpace(c);
    assert s == a + " " + b + " " + c;
    UnderscoredThreeWords(s, a, b, c);
    assert a + "_" + b + "_" + c == "Main_Street_Park";
  }

  lemma LocationUnderscored1(s: string)
    requires s == "Community Center"
    ensures Underscored(s) == "Community_Center"
  {
    var a, b := "Community", "Center";
    assert NoSpace(a) && NoSpace(b);
    assert s == a + " " + b;
    UnderscoredTwoWords(s, a, b);
    assert a + "_" + b == "Community_Center";
  }

  lemma LocationUnderscored2(s: string)
    requires s == "Shopping Mall"
    ensures Underscored(s) == "Shopping_Mall"
  {
    var a, b := "Shopping", "Mall";
    assert NoSpace(a) && NoSpace(b);
    assert s == a + " " + b;
    UnderscoredTwoWords(s, a, b);
    assert a + "_" + b == "Shopping_Mall";
  }

  lemma LocationUnderscored3(s: string)
    requires s == "Residential Area A"
    ensures Underscored(s) == "Residential_Area_A"
  {
    var a, b, c := "Residential", "Area", "A";
    assert NoSpace(a) && NoSpace(b) && NoSpace(c);
    assert s == a + " " + b + " " + c;
    UnderscoredThreeWords(s, a, b, c);
    assert a + "_" + b + "_" + c == "Residential_Area_A";
  }

  lemma LocationUnderscored4(s: string)
    requires s == "Residential Area B"
    ensures Underscored(s) == "Residential_Area_B"
  {
    var a, b, c := "Residential", "Area", "B";
    assert NoSpace(a) && NoSpace(b) && NoSpace(c);
    assert s == a + " " + b + " " + c;
    UnderscoredThreeWords(s, a, b, c);
    assert a + "_" + b + "_" + c == "Residential_Area_B";
  }

  lemma LocationUnderscored5(s: string)
    requires s == "School Campus"
    ensures Underscored(s) == "School_Campus"
  {
    var a, b := "School", "Campus";
    assert NoSpace(a) && NoSpace(b);
    assert s == a + " " + b;
    UnderscoredTwoWords(s, a, b);
    assert a + "_" + b == "School_Campus";
  }

  predicate NoUnderscore(s: string)
  {
    forall i :: 0 <= i < |s| ==> s[i] != '_'
  }

  /** An id `a_n` whose suffix `n` has no underscore determines both parts. */
  lemma SplitAtLastUnderscore(a: string, n: string, b: string, m: string)
    requires NoUnderscore(n) && NoUnderscore(m) && a + "_" + n == b + "_" + m
    ensures a == b && n == m
  {
    var s := a + "_" + n;
    assert s[|a|] == '_' && s[|b|] == '_';
    assert forall i :: |a| < i < |s| ==> s[i] == n[i - |a| - 1];
    assert forall i :: |b| < i < |s| ==> s[i] == m[i - |b| - 1];
    assert |a| == |b|;
    assert a == s[..|a|] == b;
    assert n == s[|a| + 1..] == m;
  }

  lemma WasteTypeNameInjective(t: WasteType, u: WasteType)
    ensures NoUnderscore(WasteTypeName(t))
    ensures WasteTypeName(t) == WasteTypeName(u) ==> t == u
  {
  }

  lemma UnderscoredLocationsDistinct()
    ensures forall k, l :: 0 <= k < l < |UnderscoredLocations| ==> UnderscoredLocations[k] != UnderscoredLocations[l]
  {
  }

  /** Locations that underscore differently, or different kinds, give
      different sensor ids. */
  lemma SensorIdsDiffer(lk: string, tt: WasteType, ll: string, tu: WasteType)
    requires Underscored(lk) != Underscored(ll) || tt != tu
    ensures SensorId(lk, tt) != SensorId(ll, tu)
  {
    var a, n, b, m := Underscored(lk), WasteTypeName(tt), Underscored(ll), WasteTypeName(tu);
    WasteTypeNameInjective(tt, tu);
    WasteTypeNameInjective(tu, tt);
    assert SensorId(lk, tt) == a + "_" + n && SensorId(ll, tu) == b + "_" + m;
    if a + "_" + n == b + "_" + m {
      SplitAtLastUnderscore(a, n, b, m);
    }
  }

  /** Seeded sensor ids of different (location, kind) pairs differ. */
  lemma SensorIdsDistinct(k: nat, t: nat, l: nat, u: nat)
    requires k < |Locations| && l < |Locations| && t < |SeededTypes| && u < |SeededTypes|
    requires k != l || t != u
    ensures SensorId(Locations[k], SeededTypes[t]) != SensorId(Locations[l], SeededTypes[u])
  {
    if k != l {
      SeededLocationsUnderscoreApart(k, l);
    }
    assert t != u ==> SeededTypes[t] != SeededTypes[u];
    SensorIdsDiffer(Locations[k], SeededTypes[t], Locations[l], SeededTypes[u]);
  }

  lemma SeededLocationsUnderscoreApart(k: nat, l: nat)
    requires k < |Locations| && l < |Locations| && k != l
    ensures Underscored(Locations[k]) != Underscored(Locations[l])
  {
    SeededLocationUnderscored(k, Locations[k]);
    SeededLocationUnderscored(l, Locations[l]);
    UnderscoredLocationsDistinct();
  }

  /** The 30 seeded sensor ids are pairwise distinct. */
  lemma SeededSensorIdsDistinct(i: nat, j: nat)
    requires i < |Locations| * |SeededTypes| && j < |Locations| * |SeededTypes| && i != j
    ensures SensorId(Locations[i / 5], SeededTypes[i % 5]) != SensorId(Locations[j / 5], SeededTypes[j % 5])
  {
    assert i == i / 5 * 5 + i % 5 && j == j / 5 * 5 + j % 5;
    SensorIdsDistinct(i / 5, i % 5, j / 5, j % 5);
  }

  /** What one seeded bin looks like. */
  ghost predicate SeededBin(b: Bin, location: string, t: WasteType, now: real)
  {
    && b.location == location
    && b.wasteType == t
    && b.capacity == 100.0
    && 0.0 <= b.currentLevel < 60.0
    && b.currentLevel == b.currentLevel.Floor as real
    && now - Week < b.lastCollection <= now
    && b.sensorId == SensorId(location, t)
    && b.status == Normal
  }

  /** A seeded bin's status is the one updateBinLevel would derive. */
  lemma SeededStatusIsDerived(b: Bin, location: string, t: WasteType, now: real)
    requires SeededBin(b, location, t, now)
    ensures b.status == StatusFor(b.currentLevel, b.capacity)
  {
    StatusThresholdsInLevels(b.currentLevel, b.capacity);
  }

  /** initializeBins: a no-op when any bin exists; otherwise one bin per
      location and seeded kind, location by location. The initial level and
      the last collection time are random in the source: here any value in
      the same bounds. */
  method InitializeBins(db: Store, now: real)
    modifies db`bins
    ensures |old(db.bins)| > 0 ==> db.bins == old(db.bins)
    ensures |old(db.bins)| == 0 ==>
      && |db.bins| == |Locations| * |SeededTypes|
      && forall i :: 0 <= i < |db.bins| ==> SeededBin(db.bins[i], Locations[i / 5], SeededTypes[i % 5], now)
  {
    if |db.bins| > 0 {
      return;
    }
    SeedBins(db, Locations, SeededTypes, now);
  }

  /** The nested loops of initializeBins over the given locations and kinds. */
  method SeedBins(db: Store, locations: seq<string>, wasteTypes: seq<WasteType>, now: real)
    requires |db.bins| == 0 && |locations| == 6 && |wasteTypes| == 5
    modifies db`bins
    ensures |db.bins| == 30
    ensures forall i :: 0 <= i < |db.bins| ==> SeededBin(db.bins[i], locations[i / 5], wasteTypes[i % 5], now)
  {
    for li := 0 to |locations|
      invariant |db.bins| == li * 5
      invariant forall i :: 0 <= i < |db.bins| ==> SeededBin(db.bins[i], locations[i / 5], wasteTypes[i % 5], now)
    {
      for ti := 0 to |wasteTypes|
        invariant |db.bins| == li * 5 + ti
        invariant forall i :: 0 <= i < |db.bins| ==> SeededBin(db.bins[i], locations[i / 5], wasteTypes[i % 5], now)
      {
        var location, wasteType := locations[li], wasteTypes[ti];
        var level: int :| 0 <= level < 60;
        var elapsed: real :| 0.0 <= elapsed < Week;
        var bin := Bin(location, wasteType, 100.0, level as real, now - elapsed, SensorId(location, wasteType), Normal);
        assert (li * 5 + ti) / 5 == li && (li * 5 + ti) % 5 == ti;
        db.bins := db.bins + [bin];
      }
    }
  }
}
