/**
 * The fetch orchestration without its I/O: synthetic records, the per-item precedence merge
 * with fallback to a hardcoded baseline, and the status each source ends with.
 */
module Sources {
  import opened Common

  // ---------------------------------------------------------------------------
  // Synthetic records

  /** One generated value: `draw` is a Math.random() value, so the base moves by at most 5%. */
  function Perturb(basePrice: real, draw: real): real {
    basePrice + (draw - 0.5) * (basePrice * 0.1)
  }

  /**
   * generateMockHistory(basePrice, months): one point per month, oldest first, the j-th point
   * `months - 1 - j` months back and perturbed by the j-th random draw.
   */
  function MockHistory(basePrice: real, months: nat, draw: nat -> real): seq<HistoryPoint> {
    seq(months, j requires 0 <= j < months => HistoryPoint(months - 1 - j, Perturb(basePrice, draw(j))))
  }

  function Abs(x: real): real { if x < 0.0 then -x else x }

  lemma PerturbBound(basePrice: real, draw: real)
    requires 0.0 <= draw < 1.0
    ensures Abs(Perturb(basePrice, draw) - basePrice) <= Abs(basePrice) / 20.0
  {
    var a := Abs(basePrice);
    var d := draw - 0.5;
    assert Perturb(basePrice, draw) - basePrice == d * basePrice * 0.1;
    assert a >= 0.0 && 0.5 - d > 0.0 && 0.5 + d >= 0.0;
    ProductNonNegative(0.5 - d, a);
    ProductNonNegative(0.5 + d, a);
    assert -0.5 * a <= d * a <= 0.5 * a;
    if basePrice < 0.0 {
      assert d * basePrice == -(d * a);
    }
  }

  lemma ProductNonNegative(x: real, y: real)
    requires x >= 0.0 && y >= 0.0
    ensures x * y >= 0.0
  {
  }

  /**
   * A generated history has exactly `months` points in ascending month order ending with the
   * current month, each within 5% of the base price.
   */
  lemma MockHistoryShape(basePrice: real, months: nat, draw: nat -> real)
    requires forall j :: 0.0 <= draw(j) < 1.0
    ensures var h := MockHistory(basePrice, months, draw);
      && |h| == months
      && (forall j :: 0 <= j < months ==> h[j].monthsAgo == months - 1 - j)
      && (months > 0 ==> h[months - 1].monthsAgo == 0)
      && (forall j :: 0 <= j < months ==> Abs(h[j].value - basePrice) <= Abs(basePrice) / 20.0)
  {
    var h := MockHistory(basePrice, months, draw);
    forall j | 0 <= j < months ensures Abs(h[j].value - basePrice) <= Abs(basePrice) / 20.0 {
      PerturbBound(basePrice, draw(j));
    }
  }

  /** The loop of generateMockHistory: `i` counts down from `months - 1`, one push per month. */
  method GenerateMockHistory(basePrice: real, months: nat, draw: nat -> real) returns (history: seq<HistoryPoint>)
    ensures history == MockHistory(basePrice, months, draw)
  {
    history := [];
    var i := months;
    while i > 0
      invariant 0 <= i <= months && |history| == months - i
      invariant forall j :: 0 <= j < |history| ==> history[j] == HistoryPoint(months - 1 - j, Perturb(basePrice, draw(j)))
    {
      history := history + [HistoryPoint(i - 1, Perturb(basePrice, draw(months - i)))];
      i := i - 1;
    }
  }

  /** The hardcoded fallback of one item: a price pair, or a yearly percentage. */
  datatype Fallback =
    | Price(name: string, current: real, previous: real, origin: Source)
    | Yearly(name: string, yearlyChange: real, origin: Source)
  {
    predicate Usable() { Price? ==> previous != 0.0 }
  }

  /** fetchMockData(name, current, previous, source) without latency and rounding. */
  function MockRecord(name: string, currentPrice: real, previousPrice: real, source: Source, draw: nat -> real): PriceRecord
    requires previousPrice != 0.0
  {
    var change := currentPrice - previousPrice;
    PriceRecord(name, currentPrice, previousPrice, change, change / previousPrice * 100.0, source,
                MockHistory(currentPrice, MockMonths, draw))
  }

  /** fetchMockYearlyData(name, yearlyChange, source) without latency. */
  function MockYearlyRecord(name: string, yearlyChange: real, source: Source, draw: nat -> real): PriceRecord {
    PriceRecord(name, yearlyChange, 0.0, yearlyChange, 100.0, source, MockHistory(yearlyChange, MockMonths, draw))
  }

  function MockOf(f: Fallback, draw: nat -> real): PriceRecord
    requires f.Usable()
  {
    match f
    case Price(name, current, previous, origin) => MockRecord(name, current, previous, origin, draw)
    case Yearly(name, yearlyChange, origin) => MockYearlyRecord(name, yearlyChange, origin, draw)
  }

  /** A synthetic price record keeps change and percent change consistent with its prices. */
  lemma MockRecordConsistent(name: string, currentPrice: real, previousPrice: real, source: Source, draw: nat -> real)
    requires previousPrice != 0.0
    ensures var r := MockRecord(name, currentPrice, previousPrice, source, draw);
      && r.current == currentPrice && r.previous == previousPrice && r.source == source
      && r.change == r.current - r.previous
      && r.percentChange * r.previous == r.change * 100.0
      && |r.history| == MockMonths
  {
  }

  /**
   * A synthetic yearly record always reports a previous value of 0 and a 100% change, whatever
   * the yearly percentage: a quirk of the source that the model keeps.
   */
  lemma MockYearlyQuirk(name: string, yearlyChange: real, source: Source, draw: nat -> real)
    ensures var r := MockYearlyRecord(name, yearlyChange, source, draw);
      && r.current == yearlyChange && r.change == yearlyChange
      && r.previous == 0.0 && r.percentChange == 100.0
      && |r.history| == MockMonths
  {
  }

  // ---------------------------------------------------------------------------
  // Precedence merge

  /** How one snapshot entry is obtained: the (source, source-side key) pairs to try, in order, then the fallback. */
  datatype Rule = Rule(key: string, precedence: seq<(Source, string)>, fallback: Fallback)

  /** The regular items, as the object literal of fetchAllPriceData lists them. */
  const ItemRules: seq<Rule> := [
    Rule("egg", [(BLS, "eggs")], Price("eggs", 3.29, 3.34, BLS)),
    Rule("milk", [(BLS, "milk")], Price("milk", 4.15, 4.07, BLS)),
    Rule("bread", [(BLS, "bread")], Price("bread", 2.89, 2.91, BLS)),
    Rule("gas", [(EIA, "gasoline")], Price("gasoline", 3.45, 3.33, EIA)),
    Rule("chicken", [(USDA, "chicken"), (BLS, "chicken")], Price("chicken", 2.89, 2.72, USDA)),
    Rule("coffee", [(BLS, "coffee")], Price("coffee", 8.75, 8.30, BLS)),
    Rule("cheese", [(BLS, "cheese")], Price("cheese", 6.49, 6.15, BLS))
  ]

  /** The yearly items: apparel only. */
  const YearlyRules: seq<Rule> := [
    Rule("apparel", [(BLS, "apparel")], Yearly("apparel", 4.2, BLS))
  ]

  predicate UsableRules(rules: seq<Rule>) {
    forall i :: 0 <= i < |rules| ==> rules[i].fallback.Usable()
  }

  function Keys(rules: seq<Rule>): set<string> {
    set i | 0 <= i < |rules| :: rules[i].key
  }

  predicate DistinctKeys(rules: seq<Rule>) {
    forall i, j :: 0 <= i < j < |rules| ==> rules[i].key != rules[j].key
  }

  /** How the three real sources settled: a fulfilled source's item map, or None when it was rejected. */
  datatype Settled = Settled(bls: Option<Items>, eia: Option<Items>, usda: Option<Items>) {
    function Of(s: Source): Option<Items> {
      match s
      case BLS => bls
      case EIA => eia
      case USDA => usda
    }
  }

  /** All three sources rejected. */
  const AllFailed: Settled := Settled(None, None, None)

  /** The results the merge reads from a source: its map when fulfilled, `{}` when rejected. */
  function ResultsOf(settled: Settled, s: Source): Items {
    settled.Of(s).GetOr(map[])
  }

  function Lookup(settled: Settled, s: Source, key: string): Option<PriceRecord> {
    if key in ResultsOf(settled, s) then Some(ResultsOf(settled, s)[key]) else None
  }

  /** `a || b || ...` over the candidates: the first one a source produced. */
  function FirstAvailable(settled: Settled, precedence: seq<(Source, string)>): Option<PriceRecord>
    decreases |precedence|
  {
    if precedence == [] then None
    else
      match Lookup(settled, precedence[0].0, precedence[0].1)
      case Some(r) => Some(r)
      case None => FirstAvailable(settled, precedence[1..])
  }

  /** One entry of the merged snapshot: the first available source, else the synthetic fallback. */
  function Resolve(settled: Settled, rule: Rule, draw: string -> nat -> real): PriceRecord
    requires rule.fallback.Usable()
  {
    match FirstAvailable(settled, rule.precedence)
    case Some(r) => r
    case None => MockOf(rule.fallback, draw(rule.key))
  }

  /** The object literal of the live branch, entry by entry. */
  function Merge(settled: Settled, rules: seq<Rule>, draw: string -> nat -> real): Items
    requires UsableRules(rules)
    decreases |rules|
  {
    if rules == [] then map[]
    else
      var last := rules[|rules| - 1];
      Merge(settled, rules[..|rules| - 1], draw)[last.key := Resolve(settled, last, draw)]
  }

  /** The object literal of the testing branch: every entry synthetic. */
  function MockAll(rules: seq<Rule>, draw: string -> nat -> real): Items
    requires UsableRules(rules)
    decreases |rules|
  {
    if rules == [] then map[]
    else
      var last := rules[|rules| - 1];
      MockAll(rules[..|rules| - 1], draw)[last.key := MockOf(last.fallback, draw(last.key))]
  }

  /**
   * The candidate chosen is the earliest one a source produced; there is none exactly when no
   * source produced any candidate.
   */
  lemma {:induction false} FirstAvailableIsEarliest(settled: Settled, precedence: seq<(Source, string)>)
    ensures FirstAvailable(settled, precedence).None? <==>
      forall j :: 0 <= j < |precedence| ==> Lookup(settled, precedence[j].0, precedence[j].1).None?
    ensures forall j ::
              0 <= j < |precedence| && Lookup(settled, precedence[j].0, precedence[j].1).Some? &&
              (forall i :: 0 <= i < j ==> Lookup(settled, precedence[i].0, precedence[i].1).None?) ==>
                FirstAvailable(settled, precedence) == Lookup(settled, precedence[j].0, precedence[j].1)
    decreases |precedence|
  {
    if precedence != [] {
      var tail := precedence[1..];
      FirstAvailableIsEarliest(settled, tail);
      forall j | 0 <= j < |tail| ensures tail[j] == precedence[j + 1] { }
    }
  }

  /** Every rule contributes its key, and nothing else is added. */
  lemma {:induction false} MergeKeys(settled: Settled, rules: seq<Rule>, draw: string -> nat -> real)
    requires UsableRules(rules)
    ensures Merge(settled, rules, draw).Keys == Keys(rules)
    ensures MockAll(rules, draw).Keys == Keys(rules)
    decreases |rules|
  {
    if rules != [] {
      var init := rules[..|rules| - 1];
      MergeKeys(settled, init, draw);
      assert Keys(rules) == Keys(init) + {rules[|rules| - 1].key} by {
        forall k | k in Keys(rules) ensures k in Keys(init) + {rules[|rules| - 1].key} {
          var i :| 0 <= i < |rules| && rules[i].key == k;
          if i < |rules| - 1 { assert init[i].key == k; }
        }
      }
    }
  }

  /** With distinct keys, each rule's entry is what that rule resolves to (or its synthetic record). */
  lemma {:induction false} MergeAt(settled: Settled, rules: seq<Rule>, draw: string -> nat -> real, i: int)
    requires UsableRules(rules) && DistinctKeys(rules) && 0 <= i < |rules|
    ensures rules[i].key in Merge(settled, rules, draw) && Merge(settled, rules, draw)[rules[i].key] == Resolve(settled, rules[i], draw)
    ensures rules[i].key in MockAll(rules, draw) && MockAll(rules, draw)[rules[i].key] == MockOf(rules[i].fallback, draw(rules[i].key))
    decreases |rules|
  {
    if i < |rules| - 1 {
      MergeAt(settled, rules[..|rules| - 1], draw, i);
    }
  }

  lemma RulesWellFormed()
    ensures UsableRules(ItemRules) && DistinctKeys(ItemRules)
    ensures UsableRules(YearlyRules) && DistinctKeys(YearlyRules)
    ensures Keys(ItemRules) == {"egg", "milk", "bread", "gas", "chicken", "coffee", "cheese"}
    ensures Keys(YearlyRules) == {"apparel"}
  {
    assert ItemRules[0].key == "egg" && ItemRules[1].key == "milk" && ItemRules[2].key == "bread";
    assert ItemRules[3].key == "gas" && ItemRules[4].key == "chicken" && ItemRules[5].key == "coffee";
    assert ItemRules[6].key == "cheese" && YearlyRules[0].key == "apparel";
  }

  /**
   * Every entry comes from the first source in its rule's precedence list that produced it.
   */
  lemma MergeEntryOrigin(settled: Settled, rules: seq<Rule>, draw: string -> nat -> real, i: int, j: int)
    requires UsableRules(rules) && DistinctKeys(rules) && 0 <= i < |rules|
    requires 0 <= j < |rules[i].precedence|
    requires Lookup(settled, rules[i].precedence[j].0, rules[i].precedence[j].1).Some?
    requires forall k :: 0 <= k < j ==> Lookup(settled, rules[i].precedence[k].0, rules[i].precedence[k].1).None?
    ensures var items := Merge(settled, rules, draw);
      rules[i].key in items && Some(items[rules[i].key]) == Lookup(settled, rules[i].precedence[j].0, rules[i].precedence[j].1)
  {
    MergeAt(settled, rules, draw, i);
    FirstAvailableIsEarliest(settled, rules[i].precedence);
  }

  /** An entry that no source produced is the synthetic record of its hardcoded baseline. */
  lemma MergeEntryFallback(settled: Settled, rules: seq<Rule>, draw: string -> nat -> real, i: int)
    requires UsableRules(rules) && DistinctKeys(rules) && 0 <= i < |rules|
    requires forall k :: 0 <= k < |rules[i].precedence| ==> Lookup(settled, rules[i].precedence[k].0, rules[i].precedence[k].1).None?
    ensures var items := Merge(settled, rules, draw);
      rules[i].key in items && items[rules[i].key] == MockOf(rules[i].fallback, draw(rules[i].key))
  {
    MergeAt(settled, rules, draw, i);
    FirstAvailableIsEarliest(settled, rules[i].precedence);
  }

  /** The regular items of a live refresh: whatever sources fail, all seven are there. */
  function LiveItems(settled: Settled, draw: string -> nat -> real): (items: Items)
    ensures items.Keys == {"egg", "milk", "bread", "gas", "chicken", "coffee", "cheese"}
  {
    RulesWellFormed();
    MergeKeys(settled, ItemRules, draw);
    Merge(settled, ItemRules, draw)
  }

  /** The yearly items of a live refresh: whatever sources fail, apparel is there. */
  function LiveYearlyItems(settled: Settled, draw: string -> nat -> real): (items: Items)
    ensures items.Keys == {"apparel"}
  {
    RulesWellFormed();
    MergeKeys(settled, YearlyRules, draw);
    Merge(settled, YearlyRules, draw)
  }

  /** Chicken is taken from USDA, else from BLS, else from its baseline (2.89 against 2.72, credited to USDA). */
  lemma ChickenPrecedence(settled: Settled, draw: string -> nat -> real)
    ensures "chicken" in LiveItems(settled, draw)
    ensures var chicken := LiveItems(settled, draw)["chicken"];
      && ("chicken" in ResultsOf(settled, USDA) ==> chicken == ResultsOf(settled, USDA)["chicken"])
      && ("chicken" !in ResultsOf(settled, USDA) && "chicken" in ResultsOf(settled, BLS) ==> chicken == ResultsOf(settled, BLS)["chicken"])
      && ("chicken" !in ResultsOf(settled, USDA) && "chicken" !in ResultsOf(settled, BLS) ==>
            chicken == MockRecord("chicken", 2.89, 2.72, USDA, draw("chicken")))
  {
    RulesWellFormed();
    var rule := ItemRules[4];
    assert rule.key == "chicken" && rule.precedence == [(USDA, "chicken"), (BLS, "chicken")];
    if "chicken" in ResultsOf(settled, USDA) {
      MergeEntryOrigin(settled, ItemRules, draw, 4, 0);
    } else if "chicken" in ResultsOf(settled, BLS) {
      MergeEntryOrigin(settled, ItemRules, draw, 4, 1);
    } else {
      MergeEntryFallback(settled, ItemRules, draw, 4);
    }
  }

  /**
   * When every source is rejected, or fulfilled without the item, each entry of a live refresh
   * is the synthetic record of its baseline: exactly what the testing branch produces.
   */
  lemma {:induction false} NothingProducedIsBaseline(settled: Settled, rules: seq<Rule>, draw: string -> nat -> real)
    requires UsableRules(rules)
    requires forall i, j :: 0 <= i < |rules| && 0 <= j < |rules[i].precedence| ==>
      Lookup(settled, rules[i].precedence[j].0, rules[i].precedence[j].1).None?
    ensures Merge(settled, rules, draw) == MockAll(rules, draw)
    decreases |rules|
  {
    if rules != [] {
      var last := rules[|rules| - 1];
      NothingProducedIsBaseline(settled, rules[..|rules| - 1], draw);
      FirstAvailableIsEarliest(settled, last.precedence);
    }
  }

  /** The testing branch yields the same entries as a live refresh in which all sources failed. */
  lemma TestingEqualsAllFailed(draw: string -> nat -> real)
    ensures LiveItems(AllFailed, draw) == MockAll(ItemRules, draw)
    ensures LiveYearlyItems(AllFailed, draw) == MockAll(YearlyRules, draw)
  {
    RulesWellFormed();
    NothingProducedIsBaseline(AllFailed, ItemRules, draw);
    NothingProducedIsBaseline(AllFailed, YearlyRules, draw);
  }

  /** The regular items of the testing branch. */
  function TestingItems(draw: string -> nat -> real): (items: Items)
    ensures items.Keys == {"egg", "milk", "bread", "gas", "chicken", "coffee", "cheese"}
  {
    RulesWellFormed();
    MergeKeys(AllFailed, ItemRules, draw);
    MockAll(ItemRules, draw)
  }

  /** The yearly items of the testing branch. */
  function TestingYearlyItems(draw: string -> nat -> real): (items: Items)
    ensures items.Keys == {"apparel"}
  {
    RulesWellFormed();
    MergeKeys(AllFailed, YearlyRules, draw);
    MockAll(YearlyRules, draw)
  }

  /** Every synthetic entry carries a 12-month history. */
  lemma {:induction false} MockAllHistories(rules: seq<Rule>, draw: string -> nat -> real)
    requires UsableRules(rules)
    ensures forall k :: k in MockAll(rules, draw) ==> |MockAll(rules, draw)[k].history| == MockMonths
    decreases |rules|
  {
    if rules != [] {
      MockAllHistories(rules[..|rules| - 1], draw);
    }
  }

  // ---------------------------------------------------------------------------
  // Source statuses

  /** The status a settled source ends with in the live branch. */
  function SettledStatus(result: Option<Items>): Status {
    if result.Some? then Success else Error
  }

  /**
   * The status each source ends a refresh with: error for all after an exception; in testing
   * mode the forced status for all (the deferred update fires while the synthetic records are
   * still being generated); otherwise success or error per source.
   */
  function FinalStatus(testing: bool, forceErrors: bool, settled: Settled, failed: bool, s: Source): Status {
    if failed then Error
    else if testing then (if forceErrors then Error else Success)
    else SettledStatus(settled.Of(s))
  }

  /** The status map a refresh leaves behind. */
  function FinalStatuses(testing: bool, forceErrors: bool, settled: Settled, failed: bool): map<Source, Status> {
    map[BLS := FinalStatus(testing, forceErrors, settled, failed, BLS),
        EIA := FinalStatus(testing, forceErrors, settled, failed, EIA),
        USDA := FinalStatus(testing, forceErrors, settled, failed, USDA)]
  }

  /** In a live refresh each source's status depends on that source alone. */
  lemma StatusesIndependent(settled: Settled, settled': Settled, s: Source)
    requires settled.Of(s).Some? <==> settled'.Of(s).Some?
    ensures FinalStatus(false, false, settled, false, s) == FinalStatus(false, false, settled', false, s)
    ensures FinalStatus(false, false, settled, false, s) == Success <==> settled.Of(s).Some?
    ensures FinalStatus(false, false, settled, false, s) == Error <==> settled.Of(s).None?
  {
  }

  /** On the exception path every source ends in error, in either mode and however the sources settled. */
  lemma FailureMarksAllError(testing: bool, forceErrors: bool, settled: Settled)
    ensures FinalStatuses(testing, forceErrors, settled, true) == map[BLS := Error, EIA := Error, USDA := Error]
  {
  }

  /** In testing mode the sources' own results are ignored: every source gets the forced status. */
  lemma TestingStatuses(forceErrors: bool, settled: Settled)
    ensures FinalStatuses(true, forceErrors, settled, false) ==
      var st := if forceErrors then Error else Success; map[BLS := st, EIA := st, USDA := st]
  {
  }

  /**
   * A refresh in testing mode without forced errors: seven items and one yearly item, every
   * history twelve points long, every source reported healthy.
   */
  lemma TestingScenario(settled: Settled, draw: string -> nat -> real)
    ensures |TestingItems(draw)| == 7 && |TestingYearlyItems(draw)| == 1
    ensures forall k :: k in TestingItems(draw) ==> |TestingItems(draw)[k].history| == MockMonths
    ensures forall k :: k in TestingYearlyItems(draw) ==> |TestingYearlyItems(draw)[k].history| == MockMonths
    ensures forall s :: FinalStatus(true, false, settled, false, s) == Success
  {
    RulesWellFormed();
    MockAllHistories(ItemRules, draw);
    MockAllHistories(YearlyRules, draw);
    ItemKeyCount();
    assert |TestingItems(draw).Keys| == 7;
  }

  lemma ItemKeyCount()
    ensures |{"egg", "milk", "bread", "gas", "chicken", "coffee", "cheese"}| == 7
  {
    var a: set<string> := {"egg", "milk", "bread"};
    assert |a| == 3;
    var b := a + {"gas"};
    assert "gas" !in a;
    var c := b + {"chicken"};
    assert "chicken" !in b;
    var d := c + {"coffee"};
    assert "coffee" !in c;
    var e := d + {"cheese"};
    assert "cheese" !in d;
    assert e == {"egg", "milk", "bread", "gas", "chicken", "coffee", "cheese"};
  }

  /**
   * A live refresh in which all three sources are rejected: every entry is its synthetic
   * baseline record and every source is reported in error.
   */
  lemma AllFailedScenario(draw: string -> nat -> real)
    ensures LiveItems(AllFailed, draw) == TestingItems(draw)
    ensures LiveYearlyItems(AllFailed, draw) == TestingYearlyItems(draw)
    ensures forall s :: FinalStatus(false, false, AllFailed, false, s) == Error
  {
    TestingEqualsAllFailed(draw);
  }
}
