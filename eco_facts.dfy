/** ecoFacts.ts: a random fact for an optional audience and category, and the
    one-time seeding of the fact table. */
module EcoFacts {
  import opened Schema
  import opened Queries

  /** Whether a fact passes the optional audience and category filters. */
  predicate Matches(f: EcoFact, forChildren: Option<bool>, category: Option<FactCategory>)
  {
    && (forChildren.None? || f.forChildren == forChildren.value)
    && (category.None? || f.category == category.value)
  }

  /** The facts getRandomEcoFact chooses from. Each of its four branches
      (audience index then category filter, audience index, category index,
      whole table) reads in creation order, because within one index key the
      index orders by creation time. */
  function Candidates(facts: seq<EcoFact>, forChildren: Option<bool>, category: Option<FactCategory>)
    : (r: seq<Doc<EcoFact>>)
    ensures forall k :: 0 <= k < |r| ==>
              r[k].id < |facts| && facts[r[k].id] == r[k].value && Matches(r[k].value, forChildren, category)
    ensures forall i :: 0 <= i < |facts| && Matches(facts[i], forChildren, category) ==> Doc(i, facts[i]) in r
    ensures forall k, l :: 0 <= k < l < |r| ==> r[k].id < r[l].id
  {
    if forChildren.Some? && category.Some? then
      OldestFirst(facts, (f: EcoFact) => f.forChildren == forChildren.value && f.category == category.value, |facts|)
    else if forChildren.Some? then
      OldestFirst(facts, (f: EcoFact) => f.forChildren == forChildren.value, |facts|)
    else if category.Some? then
      OldestFirst(facts, (f: EcoFact) => f.category == category.value, |facts|)
    else
      OldestFirst(facts, (f: EcoFact) => true, |facts|)
  }

  /** Without filters every fact is a candidate, in table order. */
  lemma NoFilterIsWholeTable(facts: seq<EcoFact>)
    ensures |Candidates(facts, None, None)| == |facts|
    ensures forall k :: 0 <= k < |facts| ==> Candidates(facts, None, None)[k] == Doc(k, facts[k])
  {
    OldestFirstKeepsAll(facts, (f: EcoFact) => true, |facts|);
  }

  /** getRandomEcoFact: null exactly when no fact passes the filters;
      otherwise some fact that passes them (which one is a random choice). */
  method GetRandomEcoFact(db: Store, forChildren: Option<bool>, category: Option<FactCategory>)
    returns (r: Option<Doc<EcoFact>>)
    ensures r.None? <==> forall i :: 0 <= i < |db.ecoFacts| ==> !Matches(db.ecoFacts[i], forChildren, category)
    ensures r.Some? ==>
      && r.value in Candidates(db.ecoFacts, forChildren, category)
      && r.value.id < |db.ecoFacts|
      && db.ecoFacts[r.value.id] == r.value.value
      && Matches(r.value.value, forChildren, category)
  {
    var facts := Candidates(db.ecoFacts, forChildren, category);
    if |facts| == 0 {
      return None;
    }
    var pick :| 0 <= pick < |facts|;
    r := Some(facts[pick]);
  }

  /** The twelve facts initializeEcoFacts inserts, in order: five for adults,
      then seven for children. */
  const SeedFacts: seq<EcoFact> := [
    EcoFact("Recycling one aluminum can saves enough energy to power a TV for 3 hours", FactCategory.Metal, false, "\U{26A1}"),
    EcoFact("It takes 450 years for a plastic bottle to decompose in a landfill", FactCategory.Plastic, false, "\U{1F37E}"),
    EcoFact("Composting organic waste can reduce methane emissions by up to 50%", FactCategory.Organic, false, "\U{1F331}"),
    EcoFact("Recycling one ton of paper saves 17 trees and 7,000 gallons of water", FactCategory.Paper, false, "\U{1F333}"),
    EcoFact("Glass can be recycled infinitely without losing quality", FactCategory.Glass, false, "\U{267B}\U{FE0F}"),
    EcoFact("Recycling 1 plastic bottle saves enough energy to power a light bulb for 3 hours! \U{1F4A1}",
            FactCategory.Plastic, true, "\U{1F4A1}"),
    EcoFact("Banana peels and apple cores can become super soil for plants! \U{1F34C}\U{1F34E}",
            FactCategory.Organic, true, "\U{1F331}"),
    EcoFact("Old newspapers can become new books and notebooks! \U{1F4DA}", FactCategory.Paper, true, "\U{1F4DA}"),
    EcoFact("Glass jars can be melted and made into new jars forever! \U{2728}", FactCategory.Glass, true, "\U{2728}"),
    EcoFact("Aluminum cans can become new cans in just 60 days! \U{1F964}", FactCategory.Metal, true, "\U{1F964}"),
    EcoFact("Every piece of trash you sort helps save animals and their homes! \U{1F43B}",
            General, true, "\U{1F43B}"),
    EcoFact("When you recycle, you're like a superhero saving the planet! \U{1F9B8}\U{200D}\U{2640}\U{FE0F}",
            General, true, "\U{1F9B8}\U{200D}\U{2640}\U{FE0F}")
  ]

  /** initializeEcoFacts: nothing when any fact exists; otherwise the twelve
      facts, inserted in listed order. */
  method InitializeEcoFacts(db: Store) returns (message: string)
    modifies db`ecoFacts
    ensures |old(db.ecoFacts)| > 0 ==>
      message == "Eco facts already initialized" && db.ecoFacts == old(db.ecoFacts)
    ensures |old(db.ecoFacts)| == 0 ==>
      message == "Eco facts initialized successfully" && db.ecoFacts == SeedFacts
  {
    if |db.ecoFacts| > 0 {
      return "Eco facts already initialized";
    }
    var facts := SeedFacts;
    for i := 0 to |facts|
      invariant db.ecoFacts == facts[..i]
    {
      db.ecoFacts := db.ecoFacts + [facts[i]];
    }
    assert facts[..|facts|] == facts;
    message := "Eco facts initialized successfully";
  }

  /** The seeded table's audiences: the first five facts are for adults, the
      other seven for children. */
  lemma SeedAudiences()
    ensures |SeedFacts| == 12
    ensures forall i :: 0 <= i < |SeedFacts| ==> (SeedFacts[i].forChildren <==> 5 <= i)
  {
  }

  /** In the seeded table every material has exactly one fact per audience,
      and the general facts are for children only. */
  lemma SeedCategories(forChildren: bool, c: FactCategory)
    ensures c != General ==>
      exists i :: 0 <= i < |SeedFacts| && Matches(SeedFacts[i], Some(forChildren), Some(c))
    ensures c != General ==>
      forall i, j ::
        0 <= i < |SeedFacts| && 0 <= j < |SeedFacts| &&
        Matches(SeedFacts[i], Some(forChildren), Some(c)) && Matches(SeedFacts[j], Some(forChildren), Some(c))
        ==> i == j
    ensures forall i :: 0 <= i < |SeedFacts| && SeedFacts[i].category == General ==> SeedFacts[i].forChildren
  {
    var f := SeedFacts;
    assert f[0].category == FactCategory.Metal && f[1].category == FactCategory.Plastic && f[2].category == FactCategory.Organic;
    assert f[3].category == FactCategory.Paper && f[4].category == FactCategory.Glass;
    assert f[5].category == FactCategory.Plastic && f[6].category == FactCategory.Organic && f[7].category == FactCategory.Paper;
    assert f[8].category == FactCategory.Glass && f[9].category == FactCategory.Metal;
    assert f[10].category == General && f[11].category == General;
    SeedAudiences();
    if c != General {
      var adult, child := AdultIndex(c), ChildIndex(c);
      assert Matches(f[if forChildren then child else adult], Some(forChildren), Some(c));
    }
  }

  function AdultIndex(c: FactCategory): nat
  {
    match c
    case Metal => 0
    case Plastic => 1
    case Organic => 2
    case Paper => 3
    case Glass => 4
    case General => 0
  }

  function ChildIndex(c: FactCategory): nat
  {
    match c
    case Plastic => 5
    case Organic => 6
    case Paper => 7
    case Glass => 8
    case Metal => 9
    case General => 10
  }

  /** Where general facts are for children only, asking for a general fact
      for adults finds nothing, so getRandomEcoFact returns null. */
  lemma NoGeneralFactForAdults(facts: seq<EcoFact>)
    requires forall i :: 0 <= i < |facts| && facts[i].category == General ==> facts[i].forChildren
    ensures Candidates(facts, Some(false), Some(General)) == []
  {
    var r := Candidates(facts, Some(false), Some(General));
    assert |r| == 0 || !Matches(r[0].value, Some(false), Some(General));
  }

  /** Once seeded, an adult asking for a general fact gets null. */
  lemma SeededHasNoGeneralFactForAdults()
    ensures Candidates(SeedFacts, Some(false), Some(General)) == []
  {
    SeedCategories(false, General);
    NoGeneralFactForAdults(SeedFacts);
  }
}
