/** The non-rendering logic of cpa-ctr-dash.py: the password gate over the session state,
    and the vertical filter, brand grouping, ranking and top-ten cut that feed the chart. */
module Dashboard {
  import opened Wrappers
  import opened Tables
  import ProcessData

  // ---------------------------------------------------------------------------
  // check_password / password_entered

  /** The session keys the password gate uses. */
  const PasswordCorrect: string := "password_correct"
  const AppPassword: string := "app_password"

  /** A session-state value: the flags the gate sets or the text a widget holds. */
  datatype Value = Flag(b: bool) | Text(s: string)

  /** Python truthiness of a session value. */
  predicate Truthy(v: Value)
  {
    match v
    case Flag(b) => b
    case Text(s) => s != ""
  }

  lemma KeysDiffer()
    ensures PasswordCorrect != AppPassword
  {
    assert PasswordCorrect[0] != AppPassword[0];
  }

  /** The per-user session state, a dictionary the page updates in place. */
  class Session {
    var state: map<string, Value>

    constructor ()
      ensures state == map[]
    {
      state := map[];
    }

    /** Once access has been granted the entered password is no longer stored. */
    ghost predicate Discreet()
      reads this
    {
      PasswordCorrect in state && state[PasswordCorrect] == Flag(true) ==> AppPassword !in state
    }

    /** The password widget storing what the user typed under its key. */
    method TypePassword(text: string)
      modifies this
      ensures state == old(state)[AppPassword := Text(text)]
    {
      state := state[AppPassword := Text(text)];
    }

    /** `password_entered`: grants access and forgets the password when the entry matches
        the secret; otherwise records the failure and keeps the entry. */
    method PasswordEntered(secret: string)
      requires AppPassword in state
      modifies this
      ensures old(state)[AppPassword] == Text(secret) ==>
                state == old(state)[PasswordCorrect := Flag(true)] - {AppPassword}
      ensures old(state)[AppPassword] != Text(secret) ==>
                state == old(state)[PasswordCorrect := Flag(false)]
      ensures Discreet()
    {
      KeysDiffer();
      if state[AppPassword] == Text(secret) {
        state := state[PasswordCorrect := Flag(true)];
        state := state - {AppPassword};
      } else {
        state := state[PasswordCorrect := Flag(false)];
      }
    }

    /** `check_password`: true exactly when the flag is present and truthy; false on the
        first run (flag absent) and after a wrong entry. */
    method CheckPassword() returns (granted: bool)
      ensures granted <==> PasswordCorrect in state && Truthy(state[PasswordCorrect])
    {
      if PasswordCorrect !in state {
        granted := false;
      } else if !Truthy(state[PasswordCorrect]) {
        granted := false;
      } else {
        granted := true;
      }
    }
  }

  /** A first visit is refused, a wrong entry is refused and keeps the typed text, and the
      right entry is admitted and forgets the typed text. */
  method LoginSequence(secret: string, wrong: string) returns (first: bool, second: bool, kept: bool, third: bool, forgotten: bool)
    requires wrong != secret
    ensures !first && !second && kept && third && forgotten
  {
    KeysDiffer();
    var session := new Session();
    first := session.CheckPassword();
    session.TypePassword(wrong);
    session.PasswordEntered(secret);
    second := session.CheckPassword();
    kept := AppPassword in session.state && session.state[AppPassword] == Text(wrong);
    session.TypePassword(secret);
    session.PasswordEntered(secret);
    third := session.CheckPassword();
    forgotten := AppPassword !in session.state;
  }

  // ---------------------------------------------------------------------------
  // Vertical options and filter

  type MetricRow = ProcessData.MetricRow

  /** The selector entry that disables the vertical filter. */
  const AllVerticals: string := "All Verticals"

  function Verticals(rows: seq<MetricRow>): (vs: seq<string>)
    ensures |vs| == |rows| && forall i :: 0 <= i < |rows| ==> vs[i] == rows[i].key.vertical
  {
    seq(|rows|, i requires 0 <= i < |rows| => rows[i].key.vertical)
  }

  /** The vertical selector's options: `All Verticals`, then each vertical of the data once. */
  function VerticalOptions(rows: seq<MetricRow>): (options: seq<string>)
    ensures |options| >= 1 && options[0] == AllVerticals
    ensures Distinct(options[1..])
    ensures forall i :: 0 <= i < |rows| ==> rows[i].key.vertical in options[1..]
    ensures forall j :: 1 <= j < |options| ==> exists i :: 0 <= i < |rows| && rows[i].key.vertical == options[j]
  {
    var vs := Verticals(rows);
    var options := [AllVerticals] + Unique(vs);
    assert options[1..] == Unique(vs);
    options
  }

  /** The rows of one vertical, in order. */
  function OfVertical(rows: seq<MetricRow>, vertical: string): (r: seq<MetricRow>)
    ensures forall j :: 0 <= j < |r| ==> r[j].key.vertical == vertical
    ensures forall x: MetricRow :: x.key.vertical == vertical ==> multiset(r)[x] == multiset(rows)[x]
    ensures forall x: MetricRow :: x.key.vertical != vertical ==> multiset(r)[x] == 0
  {
    if rows == [] then []
    else
      var rest := OfVertical(rows[1..], vertical);
      assert rows == [rows[0]] + rows[1..];
      if rows[0].key.vertical == vertical then [rows[0]] + rest else rest
  }

  /** The page's filter: every row for `All Verticals`, otherwise exactly the selected
      vertical's rows, none lost and none duplicated. */
  function FilterVertical(rows: seq<MetricRow>, selected: string): (r: seq<MetricRow>)
    ensures selected == AllVerticals ==> r == rows
    ensures selected != AllVerticals ==> forall j :: 0 <= j < |r| ==> r[j].key.vertical == selected
    ensures selected != AllVerticals ==> forall x: MetricRow :: x.key.vertical == selected ==> multiset(r)[x] == multiset(rows)[x]
    ensures multiset(r) <= multiset(rows)
  {
    if selected == AllVerticals then rows else OfVertical(rows, selected)
  }

  // ---------------------------------------------------------------------------
  // Grouping by brand

  datatype Metric = CTR | CPA

  /** The selected metric's value in a row; `None` where it is undefined. */
  function MetricOf(row: MetricRow, metric: Metric): Option<real>
  {
    if metric == CTR then row.ctr else row.cpa
  }

  /** One bar of the chart: a brand, the mean of the metric over its rows and the sum of
      their impressions. */
  datatype BrandRow = BrandRow(brand: string, value: Option<real>, impressions: int)

  function Brands(rows: seq<MetricRow>): (bs: seq<string>)
    ensures |bs| == |rows| && forall i :: 0 <= i < |rows| ==> bs[i] == rows[i].key.brand
  {
    seq(|rows|, i requires 0 <= i < |rows| => rows[i].key.brand)
  }

  /** The sum and the number of the brand's defined metric values (the mean skips missing
      values). */
  function MetricTotal(rows: seq<MetricRow>, brand: string, metric: Metric): real
  {
    if rows == [] then 0.0
    else
      var rest := MetricTotal(rows[1..], brand, metric);
      if rows[0].key.brand == brand && MetricOf(rows[0], metric).Some? then MetricOf(rows[0], metric).value + rest else rest
  }

  function MetricCount(rows: seq<MetricRow>, brand: string, metric: Metric): (n: real)
    ensures n >= 0.0
  {
    if rows == [] then 0.0
    else
      var rest := MetricCount(rows[1..], brand, metric);
      if rows[0].key.brand == brand && MetricOf(rows[0], metric).Some? then 1.0 + rest else rest
  }

  function ImpressionsOf(rows: seq<MetricRow>, brand: string): int
  {
    if rows == [] then 0
    else (if rows[0].key.brand == brand then rows[0].totals.impressions else 0) + ImpressionsOf(rows[1..], brand)
  }

  function Mean(total: real, count: real): Option<real>
  {
    if count == 0.0 then None else Some(total / count)
  }

  /** `groupby(brand).agg({metric: 'mean', 'Impressions': 'sum'})`. */
  function GroupByBrand(rows: seq<MetricRow>, metric: Metric): (groups: seq<BrandRow>)
    ensures |groups| == |Unique(Brands(rows))|
    ensures forall i :: 0 <= i < |groups| ==> groups[i].brand == Unique(Brands(rows))[i]
    ensures forall i :: 0 <= i < |groups| ==> groups[i].impressions == ImpressionsOf(rows, groups[i].brand)
  {
    var bs := Unique(Brands(rows));
    seq(|bs|, i requires 0 <= i < |bs| =>
      BrandRow(bs[i], Mean(MetricTotal(rows, bs[i], metric), MetricCount(rows, bs[i], metric)), ImpressionsOf(rows, bs[i])))
  }

  /** `v` is the mean of values adding up to `total` over `count` of them: it is defined
      exactly when there are some, and then times their number it gives their sum. */
  ghost predicate IsMeanOf(v: Option<real>, total: real, count: real)
  {
    (v.Some? <==> count != 0.0) && (v.Some? ==> v.value * count == total)
  }

  /** `Mean` divides the total by the count. */
  lemma MeanTimesCount(total: real, count: real)
    ensures IsMeanOf(Mean(total, count), total, count)
  {
    if count != 0.0 {
      var q := total / count;
      assert q * count == total;
    }
  }

  /** Each bar's value is the mean of its own brand's defined values. */
  lemma BrandMeanIsMean(rows: seq<MetricRow>, metric: Metric, i: nat)
    requires i < |GroupByBrand(rows, metric)|
    ensures var g := GroupByBrand(rows, metric)[i];
      IsMeanOf(g.value, MetricTotal(rows, g.brand, metric), MetricCount(rows, g.brand, metric))
  {
    var g := GroupByBrand(rows, metric)[i];
    var b := Unique(Brands(rows))[i];
    var total, count := MetricTotal(rows, b, metric), MetricCount(rows, b, metric);
    assert g == BrandRow(b, Mean(total, count), ImpressionsOf(rows, b));
    MeanTimesCount(total, count);
  }

  /** `count` values of at most `hi` add up to at most `count * hi`. */
  lemma {:induction false} MetricTotalAtMost(rows: seq<MetricRow>, brand: string, metric: Metric, hi: real)
    requires forall i :: 0 <= i < |rows| && rows[i].key.brand == brand && MetricOf(rows[i], metric).Some? ==>
               MetricOf(rows[i], metric).value <= hi
    ensures ScaledAtMost(MetricTotal(rows, brand, metric), MetricCount(rows, brand, metric), hi)
  {
    if rows != [] {
      var tail := rows[1..];
      assert forall i :: 1 <= i < |rows| ==> tail[i - 1] == rows[i];
      MetricTotalAtMost(tail, brand, metric, hi);
    }
  }

  /** `count` values of at least `lo` add up to at least `count * lo`. */
  lemma {:induction false} MetricTotalAtLeast(rows: seq<MetricRow>, brand: string, metric: Metric, lo: real)
    requires forall i :: 0 <= i < |rows| && rows[i].key.brand == brand && MetricOf(rows[i], metric).Some? ==>
               lo <= MetricOf(rows[i], metric).value
    ensures ScaledAtLeast(MetricTotal(rows, brand, metric), MetricCount(rows, brand, metric), lo)
  {
    if rows != [] {
      var tail := rows[1..];
      assert forall i :: 1 <= i < |rows| ==> tail[i - 1] == rows[i];
      MetricTotalAtLeast(tail, brand, metric, lo);
    }
  }

  lemma {:induction false} MetricCountPositive(rows: seq<MetricRow>, brand: string, metric: Metric, i: nat)
    requires i < |rows| && rows[i].key.brand == brand && MetricOf(rows[i], metric).Some?
    ensures MetricCount(rows, brand, metric) > 0.0
  {
    if i > 0 {
      MetricCountPositive(rows[1..], brand, metric, i - 1);
    }
  }

  /** The mean over one brand's rows is missing exactly when none of them has the metric
      defined. */
  lemma MeanMissing(rows: seq<MetricRow>, brand: string, metric: Metric)
    ensures Mean(MetricTotal(rows, brand, metric), MetricCount(rows, brand, metric)).None?
            <==> forall j :: 0 <= j < |rows| && rows[j].key.brand == brand ==> MetricOf(rows[j], metric).None?
  {
    if exists j :: 0 <= j < |rows| && rows[j].key.brand == brand && MetricOf(rows[j], metric).Some? {
      var j :| 0 <= j < |rows| && rows[j].key.brand == brand && MetricOf(rows[j], metric).Some?;
      MetricCountPositive(rows, brand, metric, j);
    } else {
      NoDefinedNoCount(rows, brand, metric);
    }
  }

  /** The mean over one brand's rows lies within the range of their defined values. */
  lemma MeanBounded(rows: seq<MetricRow>, brand: string, metric: Metric, lo: real, hi: real)
    requires forall j :: 0 <= j < |rows| && rows[j].key.brand == brand && MetricOf(rows[j], metric).Some? ==>
               lo <= MetricOf(rows[j], metric).value <= hi
    ensures var mean := Mean(MetricTotal(rows, brand, metric), MetricCount(rows, brand, metric));
      mean.Some? ==> lo <= mean.value <= hi
  {
    var total, count := MetricTotal(rows, brand, metric), MetricCount(rows, brand, metric);
    MetricTotalAtLeast(rows, brand, metric, lo);
    MetricTotalAtMost(rows, brand, metric, hi);
    MeanAtLeast(total, count, lo);
    MeanAtMost(total, count, hi);
  }

  /** Each bar's mean lies within the range of its brand's defined values, and is missing
      exactly when none of the brand's rows has the metric defined. */
  lemma BrandMeanWithinRange(rows: seq<MetricRow>, metric: Metric, i: nat, lo: real, hi: real)
    requires i < |GroupByBrand(rows, metric)|
    requires forall j :: 0 <= j < |rows| && rows[j].key.brand == GroupByBrand(rows, metric)[i].brand && MetricOf(rows[j], metric).Some? ==>
               lo <= MetricOf(rows[j], metric).value <= hi
    ensures var g := GroupByBrand(rows, metric)[i];
      g.value.None? <==> forall j :: 0 <= j < |rows| && rows[j].key.brand == g.brand ==> MetricOf(rows[j], metric).None?
    ensures var g := GroupByBrand(rows, metric)[i];
      g.value.Some? ==> lo <= g.value.value <= hi
  {
    var b := Unique(Brands(rows))[i];
    assert GroupByBrand(rows, metric)[i] == BrandRow(b, Mean(MetricTotal(rows, b, metric), MetricCount(rows, b, metric)), ImpressionsOf(rows, b));
    MeanMissing(rows, b, metric);
    MeanBounded(rows, b, metric, lo, hi);
  }

  lemma {:induction false} NoDefinedNoCount(rows: seq<MetricRow>, brand: string, metric: Metric)
    requires forall j :: 0 <= j < |rows| && rows[j].key.brand == brand ==> MetricOf(rows[j], metric).None?
    ensures MetricCount(rows, brand, metric) == 0.0
  {
    if rows != [] {
      assert forall j :: 1 <= j < |rows| ==> rows[1..][j - 1] == rows[j];
      NoDefinedNoCount(rows[1..], brand, metric);
    }
  }

  /** A sum of `count` values, each at most `hi`. */
  predicate ScaledAtMost(total: real, count: real, hi: real)
  {
    total <= count * hi
  }

  /** A sum of `count` values, each at least `lo`. */
  predicate ScaledAtLeast(total: real, count: real, lo: real)
  {
    count * lo <= total
  }

  /** The mean of values whose sum is at most `count * hi` is at most `hi`. */
  lemma MeanAtMost(total: real, count: real, hi: real)
    requires count >= 0.0 && ScaledAtMost(total, count, hi)
    ensures Mean(total, count).Some? ==> Mean(total, count).value <= hi
  {
    if count != 0.0 {
      var q := total / count;
      assert q * count == total;
      assert (q - hi) * count <= 0.0;
    }
  }

  /** The mean of values whose sum is at least `count * lo` is at least `lo`. */
  lemma MeanAtLeast(total: real, count: real, lo: real)
    requires count >= 0.0 && ScaledAtLeast(total, count, lo)
    ensures Mean(total, count).Some? ==> lo <= Mean(total, count).value
  {
    if count != 0.0 {
      var q := total / count;
      assert q * count == total;
      assert (q - lo) * count >= 0.0;
    }
  }

  /** The impressions of all rows. */
  function TotalImpressions(rows: seq<MetricRow>): int
  {
    if rows == [] then 0 else rows[0].totals.impressions + TotalImpressions(rows[1..])
  }

  /** The impressions over all bars. */
  function BarImpressions(bars: seq<BrandRow>): int
  {
    if bars == [] then 0 else bars[0].impressions + BarImpressions(bars[1..])
  }

  /** The impressions of the rows of each brand in `bs`, added up. */
  function ImpressionsOver(rows: seq<MetricRow>, bs: seq<string>): int
  {
    if bs == [] then 0 else ImpressionsOf(rows, bs[0]) + ImpressionsOver(rows, bs[1..])
  }

  /** A row's impressions counted once for each entry of `bs` naming its brand. */
  function Matches(row: MetricRow, bs: seq<string>): int
  {
    if bs == [] then 0 else (if bs[0] == row.key.brand then row.totals.impressions else 0) + Matches(row, bs[1..])
  }

  lemma {:induction false} MatchesAbsent(row: MetricRow, bs: seq<string>)
    requires row.key.brand !in bs
    ensures Matches(row, bs) == 0
  {
    if bs != [] {
      MatchesAbsent(row, bs[1..]);
    }
  }

  /** Among distinct brands including the row's, the row is counted exactly once. */
  lemma {:induction false} MatchesOnce(row: MetricRow, bs: seq<string>)
    requires Distinct(bs) && row.key.brand in bs
    ensures Matches(row, bs) == row.totals.impressions
  {
    var tail := bs[1..];
    assert Distinct(tail) by {
      forall i, j | 0 <= i < j < |tail| ensures tail[i] != tail[j] {
        assert tail[i] == bs[i + 1] && tail[j] == bs[j + 1];
      }
    }
    if bs[0] == row.key.brand {
      assert row.key.brand !in tail by {
        forall j | 0 <= j < |tail| ensures tail[j] != bs[0] {
          assert tail[j] == bs[j + 1];
        }
      }
      MatchesAbsent(row, tail);
    } else {
      MatchesOnce(row, tail);
    }
  }

  /** Taking off the first row takes off its matches. */
  lemma {:induction false} ImpressionsOverCons(rows: seq<MetricRow>, bs: seq<string>)
    requires rows != []
    ensures ImpressionsOver(rows, bs) == Matches(rows[0], bs) + ImpressionsOver(rows[1..], bs)
  {
    if bs != [] {
      ImpressionsOverCons(rows, bs[1..]);
    }
  }

  /** Distinct brands covering every row's brand account for every impression once. */
  lemma {:induction false} ImpressionsPartition(rows: seq<MetricRow>, bs: seq<string>)
    requires Distinct(bs)
    requires forall i :: 0 <= i < |rows| ==> rows[i].key.brand in bs
    ensures ImpressionsOver(rows, bs) == TotalImpressions(rows)
  {
    if rows != [] {
      ImpressionsOverCons(rows, bs);
      MatchesOnce(rows[0], bs);
      assert forall i :: 1 <= i < |rows| ==> rows[1..][i - 1] == rows[i];
      ImpressionsPartition(rows[1..], bs);
    } else {
      NoRowsNoImpressions(bs);
    }
  }

  lemma {:induction false} NoRowsNoImpressions(bs: seq<string>)
    ensures ImpressionsOver([], bs) == 0
  {
    if bs != [] {
      NoRowsNoImpressions(bs[1..]);
    }
  }

  lemma {:induction false} BarImpressionsOver(rows: seq<MetricRow>, bars: seq<BrandRow>, bs: seq<string>)
    requires |bars| == |bs|
    requires forall i :: 0 <= i < |bars| ==> bars[i].impressions == ImpressionsOf(rows, bs[i])
    ensures BarImpressions(bars) == ImpressionsOver(rows, bs)
  {
    if bars != [] {
      BarImpressionsOver(rows, bars[1..], bs[1..]);
    }
  }

  /** The bars share out the impressions of the filtered rows: none is lost and none is
      counted under two brands. */
  lemma GroupByBrandKeepsImpressions(rows: seq<MetricRow>, metric: Metric)
    ensures BarImpressions(GroupByBrand(rows, metric)) == TotalImpressions(rows)
  {
    var bars := GroupByBrand(rows, metric);
    var bs := Unique(Brands(rows));
    forall i | 0 <= i < |bars| ensures bars[i].impressions == ImpressionsOf(rows, bs[i]) {
    }
    BarImpressionsOver(rows, bars, bs);
    forall i | 0 <= i < |rows| ensures rows[i].key.brand in bs {
      assert Brands(rows)[i] == rows[i].key.brand;
    }
    ImpressionsPartition(rows, bs);
  }

  // ---------------------------------------------------------------------------
  // sort_values and head(10)

  /** Whether a value may stand before another in the ranking: ascending for CPA, descending
      for CTR, missing values last. */
  predicate Precedes(metric: Metric, x: Option<real>, y: Option<real>)
  {
    match (x, y)
    case (Some(a), Some(b)) => if metric == CPA then a <= b else a >= b
    case (Some(_), None) => true
    case (None, Some(_)) => false
    case (None, None) => true
  }

  ghost predicate Ranked(metric: Metric, s: seq<BrandRow>)
  {
    forall i, j :: 0 <= i < j < |s| ==> Precedes(metric, s[i].value, s[j].value)
  }

  lemma PrecedesTotal(metric: Metric, x: Option<real>, y: Option<real>)
    ensures Precedes(metric, x, y) || Precedes(metric, y, x)
  {
  }

  lemma PrecedesTransitive(metric: Metric, x: Option<real>, y: Option<real>, z: Option<real>)
    requires Precedes(metric, x, y) && Precedes(metric, y, z)
    ensures Precedes(metric, x, z)
  {
  }

  /** A ranking stays ranked when an entry that outranks all of it is put in front. */
  lemma RankedCons(metric: Metric, y: BrandRow, s: seq<BrandRow>)
    requires Ranked(metric, s)
    requires forall k :: 0 <= k < |s| ==> Precedes(metric, y.value, s[k].value)
    ensures Ranked(metric, [y] + s)
  {
    var r := [y] + s;
    forall i, j | 0 <= i < j < |r| ensures Precedes(metric, r[i].value, r[j].value) {
      assert r[j] == s[j - 1];
      if i > 0 {
        assert r[i] == s[i - 1];
      }
    }
  }

  /** An entry that outranks the head of a ranking outranks all of it. */
  lemma OutranksHead(metric: Metric, x: BrandRow, s: seq<BrandRow>)
    requires Ranked(metric, s) && s != [] && Precedes(metric, x.value, s[0].value)
    ensures Ranked(metric, [x] + s)
  {
    forall j | 0 <= j < |s| ensures Precedes(metric, x.value, s[j].value) {
      if j > 0 {
        PrecedesTransitive(metric, x.value, s[0].value, s[j].value);
      }
    }
    RankedCons(metric, x, s);
  }

  lemma RankedTail(metric: Metric, s: seq<BrandRow>)
    requires Ranked(metric, s) && s != []
    ensures Ranked(metric, s[1..])
  {
    var tail := s[1..];
    forall i, j | 0 <= i < j < |tail| ensures Precedes(metric, tail[i].value, tail[j].value) {
      assert tail[i] == s[i + 1] && tail[j] == s[j + 1];
    }
  }

  /** The head of a ranking that `x` does not outrank may stand before `x` inserted into the
      rest. */
  lemma HeadBeforeInserted(metric: Metric, x: BrandRow, s: seq<BrandRow>, rest: seq<BrandRow>)
    requires Ranked(metric, s) && s != [] && !Precedes(metric, x.value, s[0].value)
    requires Ranked(metric, rest) && multiset(rest) == multiset(s[1..]) + multiset{x}
    ensures Ranked(metric, [s[0]] + rest)
  {
    var tail := s[1..];
    forall k | 0 <= k < |rest| ensures Precedes(metric, s[0].value, rest[k].value) {
      assert rest[k] in multiset(tail) + multiset{x} by {
        assert rest[k] in multiset(rest);
      }
      if rest[k] == x {
        PrecedesTotal(metric, x.value, s[0].value);
      } else {
        var j :| 0 <= j < |tail| && tail[j] == rest[k];
        assert s[j + 1] == rest[k];
      }
    }
    RankedCons(metric, s[0], rest);
  }

  /** One step of the sort: `x` placed after every entry that strictly outranks it. */
  function Insert(metric: Metric, x: BrandRow, s: seq<BrandRow>): (r: seq<BrandRow>)
    requires Ranked(metric, s)
    ensures Ranked(metric, r)
    ensures multiset(r) == multiset(s) + multiset{x}
  {
    if s == [] then [x]
    else if Precedes(metric, x.value, s[0].value) then
      OutranksHead(metric, x, s);
      [x] + s
    else
      RankedTail(metric, s);
      var rest := Insert(metric, x, s[1..]);
      HeadBeforeInserted(metric, x, s, rest);
      assert s == [s[0]] + s[1..];
      [s[0]] + rest
  }

  /** `sort_values(metric, ascending=(metric == 'CPA'))`: the same rows, ordered by the
      metric. Ties may come in any order, as the default sort is not stable. */
  function Rank(metric: Metric, s: seq<BrandRow>): (r: seq<BrandRow>)
    ensures Ranked(metric, r)
    ensures multiset(r) == multiset(s)
  {
    if s == [] then []
    else
      assert s == [s[0]] + s[1..];
      Insert(metric, s[0], Rank(metric, s[1..]))
  }

  /** The number of bars shown. */
  const TopCount: nat := 10

  /** `head(n)`: the first `n` entries, or all of them when there are fewer. */
  function Head(ranking: seq<BrandRow>, n: nat): (top: seq<BrandRow>)
    ensures |top| == if |ranking| <= n then |ranking| else n
    ensures top == ranking[..|top|]
  {
    if |ranking| <= n then ranking else ranking[..n]
  }

  /** A prefix of a ranking is ranked, and each of its entries may stand before every entry
      cut off. */
  lemma RankedPrefix(metric: Metric, ranking: seq<BrandRow>, k: nat)
    requires Ranked(metric, ranking) && k <= |ranking|
    ensures Ranked(metric, ranking[..k])
    ensures forall i, j :: 0 <= i < k <= j < |ranking| ==> Precedes(metric, ranking[..k][i].value, ranking[j].value)
  {
    var top := ranking[..k];
    forall i, j | 0 <= i < j < |top| ensures Precedes(metric, top[i].value, top[j].value) {
      assert top[i] == ranking[i] && top[j] == ranking[j];
    }
    forall i, j | 0 <= i < k <= j < |ranking| ensures Precedes(metric, top[i].value, ranking[j].value) {
      assert top[i] == ranking[i];
    }
  }

  /** The table and chart contents: the first ten brands of the ranking of the filtered
      rows grouped by brand. */
  function TopTen(rows: seq<MetricRow>, selected: string, metric: Metric): (top: seq<BrandRow>)
    ensures |top| <= TopCount
    ensures Ranked(metric, top)
    ensures var ranking := Rank(metric, GroupByBrand(FilterVertical(rows, selected), metric));
      |top| <= |ranking| && top == ranking[..|top|]
      && (|top| < TopCount ==> top == ranking)
      && forall i, j :: 0 <= i < |top| <= j < |ranking| ==> Precedes(metric, top[i].value, ranking[j].value)
  {
    var ranking := Rank(metric, GroupByBrand(FilterVertical(rows, selected), metric));
    var top := Head(ranking, TopCount);
    RankedPrefix(metric, ranking, |top|);
    top
  }
}
