/**
 * The three risk-factor scorers behind the parameter panels (parameters_ui.py):
 * impact extent (products per category, averaged, clamped), the information-rate
 * chart and the policy strength, the `values` object they store into, and the
 * two time-range globals with their unit conversion.
 *
 * The scorers read the rows `display_results` returns (`ParametersLogic.Selection`).
 */
module ParametersUi {
  import opened Wrappers
  import opened Seqs
  import opened ParametersLogic
  import SharedFunctions

  // ----- the severity lists of the three panels -----

  const ImpactSeverities: seq<Severity> :=
    [Severity("None", 0.0, "#bababa"), Severity("Low", 0.3, SharedFunctions.Low),
     Severity("Medium", 0.6, SharedFunctions.Medium), Severity("High", 1.0, SharedFunctions.High),
     Severity("Critical", 2.0, SharedFunctions.Critical)]

  const InformationSeverities: seq<Severity> :=
    [Severity("Low", 1.0, SharedFunctions.Low), Severity("Medium", 2.0, SharedFunctions.Medium),
     Severity("High", 3.0, SharedFunctions.High)]

  const PolicySeverities: seq<Severity> :=
    [Severity("None", 1.0, "#bababa"), Severity("Low", 0.75, SharedFunctions.Low),
     Severity("Medium", 0.45, SharedFunctions.Medium), Severity("High", 0.1, SharedFunctions.High)]

  /** Every value a severity list offers lies in `[lo, hi]`. */
  predicate ValuesWithin(severityList: seq<Severity>, lo: real, hi: real)
  {
    forall i :: 0 <= i < |severityList| ==> lo <= severityList[i].value <= hi
  }

  /** The values a severity list offers, in order. */
  function SeverityValues(severityList: seq<Severity>): (r: seq<real>)
    ensures |r| == |severityList| && forall i :: 0 <= i < |r| ==> r[i] == severityList[i].value
  {
    seq(|severityList|, i requires 0 <= i < |severityList| => severityList[i].value)
  }

  /** Every row's score is a value the severity list offers, as the panel's buttons give. */
  predicate RowsFrom(rv: seq<Selection>, severityList: seq<Severity>)
  {
    forall i :: 0 <= i < |rv| ==> rv[i].severityValue in SeverityValues(severityList)
  }

  /** Rows drawn from a list whose values lie in `[lo, hi]` have scores in `[lo, hi]`. */
  lemma RowsWithin(rv: seq<Selection>, severityList: seq<Severity>, lo: real, hi: real)
    requires RowsFrom(rv, severityList) && ValuesWithin(severityList, lo, hi)
    ensures forall i :: 0 <= i < |rv| ==> lo <= rv[i].severityValue <= hi
  {
    forall i | 0 <= i < |rv| ensures lo <= rv[i].severityValue <= hi {
      var j :| 0 <= j < |severityList| && SeverityValues(severityList)[j] == rv[i].severityValue;
    }
  }

  /** The panels' scores: impact in [0, 2], policy in [0.1, 1]. */
  lemma SeverityRanges()
    ensures ValuesWithin(ImpactSeverities, 0.0, 2.0)
    ensures ValuesWithin(PolicySeverities, 0.1, 1.0)
    ensures ValuesWithin(InformationSeverities, 1.0, 3.0)
  {
  }

  // ----- impact extent -----

  /** The category column of the rows, in order. */
  function ItemsOf(rv: seq<Selection>): (r: seq<string>)
    ensures |r| == |rv|
    ensures forall i :: 0 <= i < |rv| ==> r[i] == rv[i].item
  {
    if rv == [] then [] else ItemsOf(rv[..|rv| - 1]) + [rv[|rv| - 1].item]
  }

  /** The score column of the rows of category `c`, in order: `category_scores[c]`. */
  function ScoresOf(rv: seq<Selection>, c: string): (r: seq<real>)
    ensures |r| <= |rv|
  {
    if rv == [] then []
    else ScoresOf(rv[..|rv| - 1], c) + (if rv[|rv| - 1].item == c then [rv[|rv| - 1].severityValue] else [])
  }

  /** The keys of `category_scores`, in the order a dict remembers them. */
  function Categories(rv: seq<Selection>): seq<string>
  {
    Dedup(ItemsOf(rv))
  }

  /** The product of the scores of the `k`-th category. */
  function CategoryProduct(rv: seq<Selection>, k: nat): real
    requires k < |Categories(rv)|
  {
    Product(ScoresOf(rv, Categories(rv)[k]))
  }

  /** `multiplied_scores`, one product per category. */
  function CategoryProducts(rv: seq<Selection>): (r: seq<real>)
    ensures |r| == |Categories(rv)|
  {
    seq(|Categories(rv)|, k requires 0 <= k < |Categories(rv)| => CategoryProduct(rv, k))
  }

  /** `sum(s) / len(s) if s else 0`. */
  function Average(s: seq<real>): real
  {
    if s == [] then 0.0 else Sum(s) / |s| as real
  }

  /** The average of the per-category products, 0 for no rows (before the clamp). */
  function ImpactExtent(rv: seq<Selection>): real
  {
    Average(CategoryProducts(rv))
  }

  /** `min(impactExtent, 1)`: the value stored. */
  function Clamped(x: real): (r: real)
    ensures r <= 1.0 && r <= x
    ensures r == x || r == 1.0
  {
    if x <= 1.0 then x else 1.0
  }

  lemma ItemsOfSnoc(rv: seq<Selection>, s: Selection)
    ensures ItemsOf(rv + [s]) == ItemsOf(rv) + [s.item]
  {
    assert (rv + [s])[..|rv + [s]| - 1] == rv;
  }

  lemma ScoresOfSnoc(rv: seq<Selection>, s: Selection, c: string)
    ensures ScoresOf(rv + [s], c) == ScoresOf(rv, c) + (if s.item == c then [s.severityValue] else [])
  {
    assert (rv + [s])[..|rv + [s]| - 1] == rv;
  }

  /** Category `c` collects exactly as many scores as there are rows of `c`. */
  lemma {:induction false} ScoresOfLength(rv: seq<Selection>, c: string)
    ensures |ScoresOf(rv, c)| == Count(ItemsOf(rv), c)
  {
    if rv != [] {
      ScoresOfLength(rv[..|rv| - 1], c);
      assert ItemsOf(rv)[..|rv| - 1] == ItemsOf(rv[..|rv| - 1]);
    }
  }

  /** Every score in a category's list comes from a row of that category. */
  lemma {:induction false} ScoresOfMembers(rv: seq<Selection>, c: string, x: real)
    requires x in ScoresOf(rv, c)
    ensures exists i :: 0 <= i < |rv| && rv[i].item == c && rv[i].severityValue == x
  {
    var init, last := rv[..|rv| - 1], rv[|rv| - 1];
    if x in ScoresOf(init, c) {
      ScoresOfMembers(init, c, x);
      var i :| 0 <= i < |init| && init[i].item == c && init[i].severityValue == x;
      assert rv[i] == init[i];
    } else {
      assert rv[|rv| - 1].item == c && rv[|rv| - 1].severityValue == x;
    }
  }

  /** Total number of scores collected over the given categories. */
  function GroupSizes(cats: seq<string>, rv: seq<Selection>): nat
  {
    if cats == [] then 0 else GroupSizes(cats[..|cats| - 1], rv) + |ScoresOf(rv, cats[|cats| - 1])|
  }

  lemma {:induction false} GroupSizesAreCounts(cats: seq<string>, rv: seq<Selection>)
    ensures GroupSizes(cats, rv) == SumCounts(cats, ItemsOf(rv))
  {
    if cats != [] {
      GroupSizesAreCounts(cats[..|cats| - 1], rv);
      ScoresOfLength(rv, cats[|cats| - 1]);
    }
  }

  /** The grouping loses no row and counts none twice. */
  lemma GroupingCoversRows(rv: seq<Selection>)
    ensures GroupSizes(Categories(rv), rv) == |rv|
  {
    GroupSizesAreCounts(Categories(rv), rv);
    CountsOfDedupSum(ItemsOf(rv));
  }

  /** With non-negative scores every category product is non-negative. */
  lemma CategoryProductNonNegative(rv: seq<Selection>, k: nat)
    requires forall i :: 0 <= i < |rv| ==> rv[i].severityValue >= 0.0
    requires k < |Categories(rv)|
    ensures CategoryProduct(rv, k) >= 0.0
  {
    var c := Categories(rv)[k];
    var s := ScoresOf(rv, c);
    forall j | 0 <= j < |s|
      ensures s[j] >= 0.0
    {
      ScoresOfMembers(rv, c, s[j]);
    }
    ProductNonNegative(s);
  }

  /** The average of non-negative numbers is non-negative. */
  lemma AverageNonNegative(s: seq<real>)
    requires forall i :: 0 <= i < |s| ==> s[i] >= 0.0
    ensures Average(s) >= 0.0
  {
    SumNonNegative(s);
  }

  /** With non-negative scores the extent is non-negative. */
  lemma ImpactExtentNonNegative(rv: seq<Selection>)
    requires forall i :: 0 <= i < |rv| ==> rv[i].severityValue >= 0.0
    ensures ImpactExtent(rv) >= 0.0
  {
    var products := CategoryProducts(rv);
    forall k | 0 <= k < |products|
      ensures products[k] >= 0.0
    {
      CategoryProductNonNegative(rv, k);
    }
    AverageNonNegative(products);
  }

  /** The value `update_impact_layout` stores lies in [0, 1]. */
  lemma StoredImpactInUnit(rv: seq<Selection>)
    requires forall i :: 0 <= i < |rv| ==> rv[i].severityValue >= 0.0
    ensures 0.0 <= Clamped(ImpactExtent(rv)) <= 1.0
  {
    ImpactExtentNonNegative(rv);
  }

  lemma NoRowsNoImpact()
    ensures ImpactExtent([]) == 0.0
  {
    assert ItemsOf([]) == [];
  }

  /** Category of each row of a two-panel, two-category selection, as the impact panel yields it. */
  function TwoByTwo(x: string, y: string, a: real, b: real, c: real, d: real): seq<Selection>
  {
    [Selection(1, x, "", a), Selection(1, y, "", b), Selection(2, x, "", c), Selection(2, y, "", d)]
  }

  lemma TwoByTwoGroups(x: string, y: string, a: real, b: real, c: real, d: real)
    requires x != y
    ensures Categories(TwoByTwo(x, y, a, b, c, d)) == [x, y]
    ensures ScoresOf(TwoByTwo(x, y, a, b, c, d), x) == [a, c]
    ensures ScoresOf(TwoByTwo(x, y, a, b, c, d), y) == [b, d]
  {
    var rv := TwoByTwo(x, y, a, b, c, d);
    var r1, r2, r3 := rv[..1], rv[..2], rv[..3];
    assert r1 == [] + [rv[0]] && r2 == r1 + [rv[1]] && r3 == r2 + [rv[2]] && rv == r3 + [rv[3]];
    assert ItemsOf(rv) == [x, y, x, y] by {
      ItemsOfSnoc([], rv[0]);
      ItemsOfSnoc(r1, rv[1]);
      ItemsOfSnoc(r2, rv[2]);
      ItemsOfSnoc(r3, rv[3]);
    }
    DedupRepeat(x, y);
    ScoresOfFour(rv, x);
    ScoresOfFour(rv, y);
  }

  lemma ScoresOfFour(rv: seq<Selection>, z: string)
    requires |rv| == 4
    ensures ScoresOf(rv, z)
         == (if rv[0].item == z then [rv[0].severityValue] else [])
          + (if rv[1].item == z then [rv[1].severityValue] else [])
          + (if rv[2].item == z then [rv[2].severityValue] else [])
          + (if rv[3].item == z then [rv[3].severityValue] else [])
  {
    var r1, r2, r3 := rv[..1], rv[..2], rv[..3];
    assert r1 == [] + [rv[0]] && r2 == r1 + [rv[1]] && r3 == r2 + [rv[2]] && rv == r3 + [rv[3]];
    ScoresOfSnoc([], rv[0], z);
    ScoresOfSnoc(r1, rv[1], z);
    ScoresOfSnoc(r2, rv[2], z);
    ScoresOfSnoc(r3, rv[3], z);
  }

  /**
   * With every category rated once by each panel, the extent is the mean of the
   * per-category products: `(a·c + b·d) / 2`.
   */
  lemma TwoByTwoExtent(x: string, y: string, a: real, b: real, c: real, d: real)
    requires x != y
    ensures ImpactExtent(TwoByTwo(x, y, a, b, c, d)) == (a * c + b * d) / 2.0
  {
    var rv := TwoByTwo(x, y, a, b, c, d);
    TwoByTwoGroups(x, y, a, b, c, d);
    ProductOfTwo(a, c);
    ProductOfTwo(b, d);
    var products := CategoryProducts(rv);
    assert products[0] == a * c;
    assert products[1] == b * d;
    SumOfTwo(products);
  }

  /** Operational (Medium 0.6, High 1) and Safety (High 1, Low 0.3) give (0.6 + 0.3) / 2 = 0.45. */
  lemma ImpactExample()
    ensures ImpactExtent(TwoByTwo("Operational", "Safety", 0.6, 1.0, 1.0, 0.3)) == 0.45
  {
    TwoByTwoExtent("Operational", "Safety", 0.6, 1.0, 1.0, 0.3);
  }

  /** `order` and `m` are the key order and the lists of `category_scores` after the rows `rv`. */
  ghost predicate Grouped(order: seq<string>, m: map<string, seq<real>>, rv: seq<Selection>)
  {
    && order == Categories(rv)
    && (forall c :: c in m <==> c in order)
    && (forall c :: c in m ==> m[c] == ScoresOf(rv, c))
  }

  /** One `category_scores[category].append(score)` keeps the grouping exact. */
  lemma GroupedSnoc(order: seq<string>, m: map<string, seq<real>>, rv: seq<Selection>, row: Selection)
    requires Grouped(order, m, rv)
    ensures row.item in m ==> Grouped(order, m[row.item := m[row.item] + [row.severityValue]], rv + [row])
    ensures row.item !in m ==> Grouped(order + [row.item], m[row.item := [row.severityValue]], rv + [row])
  {
    ItemsOfSnoc(rv, row);
    DedupSnoc(ItemsOf(rv), row.item);
    DedupFacts(ItemsOf(rv));
    var x := row.item;
    var m' := if x in m then m[x := m[x] + [row.severityValue]] else m[x := [row.severityValue]];
    var order' := if x in m then order else order + [x];
    forall c | c in m'
      ensures m'[c] == ScoresOf(rv + [row], c)
    {
      ScoresOfSnoc(rv, row, c);
      if c == x && x !in m {
        ScoresOfLength(rv, x);
      }
    }
    forall c
      ensures c in m' <==> c in order'
    {
      assert c in m' <==> c in m || c == x;
      assert c in order + [x] <==> c in order || c == x;
    }
    assert order' == Categories(rv + [row]);
    assert Grouped(order', m', rv + [row]);
  }

  /** The `k`-th list of a grouping multiplies out to the `k`-th category product. */
  lemma GroupedLookup(order: seq<string>, m: map<string, seq<real>>, rv: seq<Selection>, k: nat)
    requires Grouped(order, m, rv) && k < |order|
    ensures order[k] in m && Product(m[order[k]]) == CategoryProduct(rv, k)
  {
  }

  /** `category_scores` after the grouping loop: its keys in first-seen order and its lists. */
  method GroupScores(returnValue: seq<Selection>) returns (order: seq<string>, categoryScores: map<string, seq<real>>)
    ensures Grouped(order, categoryScores, returnValue)
  {
    order := [];
    categoryScores := map[];
    assert returnValue[..0] == [];
    for j := 0 to |returnValue|
      invariant Grouped(order, categoryScores, returnValue[..j])
    {
      var row := returnValue[j];
      PrefixSnoc(returnValue, j);
      GroupedSnoc(order, categoryScores, returnValue[..j], row);
      if row.item in categoryScores {
        categoryScores := categoryScores[row.item := categoryScores[row.item] + [row.severityValue]];
      } else {
        order := order + [row.item];
        categoryScores := categoryScores[row.item := [row.severityValue]];
      }
    }
    assert returnValue[..|returnValue|] == returnValue;
  }

  /** `product *= score` over one list. */
  method MultiplyScores(scores: seq<real>) returns (product: real)
    ensures product == Product(scores)
  {
    product := 1.0;
    for m := 0 to |scores|
      invariant product == Product(scores[..m])
    {
      PrefixSnoc(scores, m);
      ProductSnoc(scores[..m], scores[m]);
      product := product * scores[m];
    }
    assert scores[..|scores|] == scores;
  }

  lemma ProductsSnoc(rv: seq<Selection>, s: seq<real>, p: real)
    requires |s| < |Categories(rv)|
    requires forall i :: 0 <= i < |s| ==> s[i] == CategoryProduct(rv, i)
    requires p == CategoryProduct(rv, |s|)
    ensures forall i :: 0 <= i < |s + [p]| ==> (s + [p])[i] == CategoryProduct(rv, i)
  {
  }

  lemma ProductsAreCategoryProducts(rv: seq<Selection>, s: seq<real>)
    requires |s| == |Categories(rv)|
    requires forall i :: 0 <= i < |s| ==> s[i] == CategoryProduct(rv, i)
    ensures s == CategoryProducts(rv)
  {
  }

  /** The scoring half of `update_impact_layout`: the extent before the clamp. */
  method ComputeImpactExtent(returnValue: seq<Selection>) returns (impactExtent: real)
    ensures impactExtent == ImpactExtent(returnValue)
  {
    var order, categoryScores := GroupScores(returnValue);
    var multipliedScores: seq<real> := [];
    for k := 0 to |order|
      invariant |multipliedScores| == k
      invariant forall i :: 0 <= i < k ==> multipliedScores[i] == CategoryProduct(returnValue, i)
    {
      GroupedLookup(order, categoryScores, returnValue, k);
      var product := MultiplyScores(categoryScores[order[k]]);
      ProductsSnoc(returnValue, multipliedScores, product);
      multipliedScores := multipliedScores + [product];
    }
    ProductsAreCategoryProducts(returnValue, multipliedScores);
    impactExtent := Average(multipliedScores);
  }

  // ----- information rate -----

  /** `severityMap.get(level)`. */
  function SeverityIndex(level: string): (k: Option<nat>)
    ensures k.Some? ==> k.value < 3
    ensures k.Some? <==> level in {"Low", "Medium", "High"}
  {
    if level == "Low" then Some(0)
    else if level == "Medium" then Some(1)
    else if level == "High" then Some(2)
    else None
  }

  /** What `map_information_rate_categories` returns: an error string or a `[label, score]` pair. */
  datatype InformationRate = IncompleteData | InvalidSeverity | Rate(level: string, score: real)

  /** `chart`, indexed by publishers first and data rate second. */
  const Chart: seq<seq<(string, real)>> :=
    [[("Very Low", 0.1), ("Low", 0.3), ("Moderate", 0.75)],
     [("Low", 0.3), ("Moderate", 0.75), ("High", 0.9)],
     [("Moderate", 0.75), ("High", 0.9), ("Very High", 1.0)]]

  /** A reference scale: the chart's score for each value of the index sum. */
  const ScoreBySum: seq<real> := [0.1, 0.3, 0.75, 0.9, 1.0]

  function MapInformationRate(rv: seq<Selection>): (r: InformationRate)
    ensures r == IncompleteData <==> |rv| < 2
    ensures r == InvalidSeverity <==>
      |rv| >= 2 && (SeverityIndex(rv[0].severityText).None? || SeverityIndex(rv[1].severityText).None?)
  {
    if |rv| < 2 then IncompleteData
    else
      var informationRateIndex := SeverityIndex(rv[0].severityText);
      var publishersIndex := SeverityIndex(rv[1].severityText);
      if informationRateIndex.None? || publishersIndex.None? then InvalidSeverity
      else
        var entry := Chart[publishersIndex.value][informationRateIndex.value];
        Rate(entry.0, entry.1)
  }

  /** The chart reads the same either way round, and its score depends only on the index sum. */
  lemma ChartShape(a: nat, b: nat)
    requires a < 3 && b < 3
    ensures Chart[a][b] == Chart[b][a]
    ensures Chart[a][b].1 == ScoreBySum[a + b]
  {
  }

  /** Swapping the two levels leaves the information rate unchanged. */
  lemma InformationRateSymmetric(rv: seq<Selection>, rv': seq<Selection>)
    requires |rv| >= 2 && |rv'| >= 2
    requires rv'[0].severityText == rv[1].severityText && rv'[1].severityText == rv[0].severityText
    ensures MapInformationRate(rv) == MapInformationRate(rv')
  {
    var a, b := SeverityIndex(rv[0].severityText), SeverityIndex(rv[1].severityText);
    if a.Some? && b.Some? {
      ChartShape(a.value, b.value);
    }
  }

  /** A valid pair of levels is rated by the sum of its indices. */
  lemma InformationRateBySum(rv: seq<Selection>)
    requires |rv| >= 2
    requires SeverityIndex(rv[0].severityText).Some? && SeverityIndex(rv[1].severityText).Some?
    ensures MapInformationRate(rv).Rate?
    ensures MapInformationRate(rv).score
         == ScoreBySum[SeverityIndex(rv[0].severityText).value + SeverityIndex(rv[1].severityText).value]
  {
    ChartShape(SeverityIndex(rv[1].severityText).value, SeverityIndex(rv[0].severityText).value);
  }

  /** Raising either level never lowers the score. */
  lemma InformationRateMonotone(rv: seq<Selection>, rv': seq<Selection>)
    requires |rv| >= 2 && |rv'| >= 2
    requires forall i :: 0 <= i < 2 ==> SeverityIndex(rv[i].severityText).Some? && SeverityIndex(rv'[i].severityText).Some?
    requires forall i :: 0 <= i < 2 ==> SeverityIndex(rv[i].severityText).value <= SeverityIndex(rv'[i].severityText).value
    ensures MapInformationRate(rv).score <= MapInformationRate(rv').score
  {
    InformationRateBySum(rv);
    InformationRateBySum(rv');
  }

  /** Every rating the chart gives is one of the five scores. */
  lemma InformationRateOnScale(rv: seq<Selection>)
    ensures MapInformationRate(rv).Rate? ==> MapInformationRate(rv).score in ScoreBySum
  {
    if MapInformationRate(rv).Rate? {
      InformationRateBySum(rv);
    }
  }

  /** A Medium data rate with High publishers rates "High", 0.9. */
  lemma InformationRateExample(rv: seq<Selection>)
    requires |rv| >= 2 && rv[0].severityText == "Medium" && rv[1].severityText == "High"
    ensures MapInformationRate(rv) == Rate("High", 0.9)
  {
  }

  // ----- the stored values -----

  /** The `values` object main.py reads the three factors from. */
  class Values {
    var impact: real
    var information: real
    var policy: real

    /**
     * What the panels can store: an impact in [0, 1], an information rate that
     * is one of the chart's scores, and a policy strength in [0.1, 1].
     */
    ghost predicate Valid()
      reads this
    {
      0.0 <= impact <= 1.0 && information in ScoreBySum && 0.1 <= policy <= 1.0
    }

    /** Impact 0, information 0.1, policy 1 (no policy, the worst case). */
    constructor ()
      ensures impact == 0.0 && information == 0.1 && policy == 1.0
      ensures Valid()
    {
      impact := 0.0;
      information := 0.1;
      policy := 1.0;
    }

    /** `update_impact_layout`: stores the clamped extent, returns the button colour. */
    method UpdateImpact(returnValue: seq<Selection>) returns (colour: string)
      modifies this
      ensures impact == Clamped(ImpactExtent(returnValue))
      ensures colour == SharedFunctions.BandColour(ImpactExtent(returnValue))
      ensures information == old(information) && policy == old(policy)
      ensures old(Valid()) && RowsFrom(returnValue, ImpactSeverities) ==> Valid()
    {
      var impactExtent := ComputeImpactExtent(returnValue);
      colour := SharedFunctions.BandColour(impactExtent);
      impactExtent := if impactExtent <= 1.0 then impactExtent else 1.0;
      impact := impactExtent;
      if RowsFrom(returnValue, ImpactSeverities) {
        SeverityRanges();
        RowsWithin(returnValue, ImpactSeverities, 0.0, 2.0);
        StoredImpactInUnit(returnValue);
      }
    }

    /**
     * `update_information_rate_layout`: stores the score of a chart entry. On an
     * error string the two-name unpacking raises before anything is stored.
     */
    method UpdateInformationRate(returnValue: seq<Selection>) returns (r: InformationRate)
      modifies this
      ensures r == MapInformationRate(returnValue)
      ensures information == (if r.Rate? then r.score else old(information))
      ensures impact == old(impact) && policy == old(policy)
      ensures old(Valid()) ==> Valid()
    {
      r := MapInformationRate(returnValue);
      InformationRateOnScale(returnValue);
      if r.Rate? {
        information := r.score;
      }
    }

    /** `update_policy_layout`: the value of the first row. */
    method UpdatePolicy(returnValue: seq<Selection>)
      requires |returnValue| > 0
      modifies this
      ensures policy == returnValue[0].severityValue
      ensures impact == old(impact) && information == old(information)
      ensures old(Valid()) && RowsFrom(returnValue, PolicySeverities) ==> Valid()
    {
      policy := returnValue[0].severityValue;
      if RowsFrom(returnValue, PolicySeverities) {
        SeverityRanges();
        RowsWithin(returnValue, PolicySeverities, 0.1, 1.0);
      }
    }
  }

  // ----- time ranges -----

  /** The units the range combo boxes offer. */
  predicate IsTimeUnit(unit: string)
  {
    unit == "hours" || unit == "days" || unit == "months"
  }

  /** `convert_to_hours`: `None` for a unit it does not know (the function falls off its end). */
  function ConvertToHours(value: int, unit: string): (h: Option<int>)
    ensures h.Some? <==> IsTimeUnit(unit)
  {
    if unit == "hours" then Some(value)
    else if unit == "days" then Some(value * 24)
    else if unit == "months" then Some(value * 30 * 24)
    else None
  }

  /** A day is 24 hours and a month 720, i.e. 30 days. */
  lemma ConversionFactors(value: int)
    ensures ConvertToHours(value, "hours") == Some(value)
    ensures ConvertToHours(value, "days") == Some(24 * value)
    ensures ConvertToHours(value, "months") == Some(720 * value)
    ensures ConvertToHours(value, "months") == ConvertToHours(30 * value, "days")
  {
  }

  /** The module globals `timeRange1`, `timeRange2` and `timeDifference`, in hours. */
  class TimeWindow {
    var timeRange1: int
    var timeRange2: int
    var timeDifference: int

    /** `timeDifference` is the distance between the two ends. */
    predicate Consistent()
      reads this
    {
      timeDifference == if timeRange2 >= timeRange1 then timeRange2 - timeRange1 else timeRange1 - timeRange2
    }

    constructor ()
      ensures timeRange1 == 1 && timeRange2 == 1 && timeDifference == 0
      ensures Consistent()
    {
      timeRange1 := 1;
      timeRange2 := 1;
      timeDifference := 0;
    }

    /** `update_time_difference`. */
    method UpdateTimeDifference() returns (t1: int, t2: int)
      modifies this`timeDifference
      ensures Consistent()
      ensures t1 == timeRange1 && t2 == timeRange2
    {
      timeDifference := if timeRange2 - timeRange1 >= 0 then timeRange2 - timeRange1 else timeRange1 - timeRange2;
      return timeRange1, timeRange2;
    }

    /** `update_time_range_1`: only the lower end and the difference change. */
    method UpdateTimeRange1(value: int, unit: string)
      requires IsTimeUnit(unit)
      modifies this
      ensures timeRange1 == ConvertToHours(value, unit).value
      ensures timeRange2 == old(timeRange2)
      ensures Consistent()
    {
      timeRange1 := ConvertToHours(value, unit).value;
      var _, _ := UpdateTimeDifference();
    }

    /** `update_time_range_2`: only the upper end and the difference change. */
    method UpdateTimeRange2(value: int, unit: string)
      requires IsTimeUnit(unit)
      modifies this
      ensures timeRange2 == ConvertToHours(value, unit).value
      ensures timeRange1 == old(timeRange1)
      ensures Consistent()
    {
      timeRange2 := ConvertToHours(value, unit).value;
      var _, _ := UpdateTimeDifference();
    }
  }
}
