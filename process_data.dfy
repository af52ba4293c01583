/** The resolution and aggregation steps of process_data.py: fuzzy lookup of an advertiser in
    the alias columns of the reference table, the per-advertiser mapping records, and the
    per-key sums with their derived CTR and CPA. The fuzzy similarity is an input (a scorer
    into 0..100); the spreadsheet reading and writing around these steps is not modelled. */
module ProcessData {
  import opened Wrappers
  import opened Tables

  /** A similarity score as the fuzzy matcher reports it. */
  type Score = x: int | 0 <= x <= 100

  /** A reference-table cell; `None` is an empty cell. */
  type Cell = Option<string>

  /** The fuzzy similarity of a query to a cell, with whatever preprocessing it applies. */
  type Scorer = (string, Cell) -> Score

  /** The reference table: each column name with its cells, in row order. */
  type LookupTable = map<string, seq<Cell>>

  /** The default `score_cutoff` of `get_best_match`. */
  const DefaultCutoff: int := 90

  /** The alias columns `create_vertical_mapping` consults, in priority order. */
  const ColumnsToCheck: seq<string> := ["Company Name", "Quickbooks Customer Name", "Client Group"]

  /** The reference-table column holding the industry vertical. */
  const IndustryColumn: string := "Client Industry Value"

  /** The `Matched_Company` value of an advertiser that matched nothing. */
  const NoMatch: string := "NO MATCH"

  datatype Candidate = Candidate(choice: Cell, score: Score)

  // ---------------------------------------------------------------------------
  // get_best_match

  /** `get_best_match`: among the choices scoring at least `cutoff`, the first one with the
      highest score, with that score; nothing when no choice reaches the cutoff. */
  function BestMatch(name: string, choices: seq<Cell>, score: Scorer, cutoff: int): (r: Option<Candidate>)
    ensures r.None? <==> forall j :: 0 <= j < |choices| ==> score(name, choices[j]) < cutoff
    ensures r.Some? ==> r.value.score >= cutoff && r.value.score == score(name, r.value.choice)
    ensures r.Some? ==> forall j :: 0 <= j < |choices| ==> score(name, choices[j]) <= r.value.score
    ensures r.Some? ==> r.value.choice in choices
  {
    if choices == [] then None
    else
      var rest := BestMatch(name, choices[1..], score, cutoff);
      var s := score(name, choices[0]);
      if s >= cutoff && (rest.None? || s >= rest.value.score) then Some(Candidate(choices[0], s)) else rest
  }

  /** Ties go to the earliest choice: every choice before the returned one scores strictly
      less, as Python's `max` keeps the first maximal element. */
  lemma {:induction false} BestMatchFirstOnTies(name: string, choices: seq<Cell>, score: Scorer, cutoff: int)
    requires BestMatch(name, choices, score, cutoff).Some?
    ensures var c := BestMatch(name, choices, score, cutoff).value;
      exists k :: 0 <= k < |choices| && choices[k] == c.choice
        && forall j :: 0 <= j < k ==> score(name, choices[j]) < c.score
  {
    var c := BestMatch(name, choices, score, cutoff).value;
    var tail := choices[1..];
    var rest := BestMatch(name, tail, score, cutoff);
    if !(score(name, choices[0]) >= cutoff && (rest.None? || score(name, choices[0]) >= rest.value.score)) {
      assert rest == Some(c);
      BestMatchFirstOnTies(name, tail, score, cutoff);
      var k :| 0 <= k < |tail| && tail[k] == c.choice && forall j :: 0 <= j < k ==> score(name, tail[j]) < c.score;
      forall j | 0 <= j < k + 1
        ensures score(name, choices[j]) < c.score
      {
        if j > 0 {
          assert choices[j] == tail[j - 1];
        }
      }
      assert choices[k + 1] == tail[k];
    }
  }

  // ---------------------------------------------------------------------------
  // hierarchical_match

  datatype ColumnMatch = ColumnMatch(name: Cell, score: Score, column: string)

  /** The best match of `advertiser` among the distinct values of one column. */
  function ColumnBest(advertiser: string, lookup: LookupTable, column: string, score: Scorer): Option<Candidate>
    requires column in lookup
  {
    BestMatch(advertiser, Unique(lookup[column]), score, DefaultCutoff)
  }

  /** `hierarchical_match`: the match from the first column, in the given order, whose
      best match succeeds; nothing when none does. */
  function HierarchicalMatch(advertiser: string, lookup: LookupTable, columns: seq<string>, score: Scorer): (r: Option<ColumnMatch>)
    requires forall c :: c in columns ==> c in lookup
    ensures r.Some? ==> r.value.column in columns && r.value.score >= DefaultCutoff
  {
    if columns == [] then None
    else
      match ColumnBest(advertiser, lookup, columns[0], score)
      case Some(c) => Some(ColumnMatch(c.choice, c.score, columns[0]))
      case None => HierarchicalMatch(advertiser, lookup, columns[1..], score)
  }

  /** Nothing is returned exactly when no column yields a match. */
  lemma {:induction false} HierarchicalMatchNone(advertiser: string, lookup: LookupTable, columns: seq<string>, score: Scorer)
    requires forall c :: c in columns ==> c in lookup
    ensures HierarchicalMatch(advertiser, lookup, columns, score).None?
            <==> forall i :: 0 <= i < |columns| ==> ColumnBest(advertiser, lookup, columns[i], score).None?
  {
    if columns != [] && ColumnBest(advertiser, lookup, columns[0], score).None? {
      HierarchicalMatchNone(advertiser, lookup, columns[1..], score);
      assert forall i :: 1 <= i < |columns| ==> columns[i] == columns[1..][i - 1];
    }
  }

  /** A returned match comes from the first column, in the given order, that yields one, and
      carries that column's best choice and score. */
  lemma {:induction false} HierarchicalMatchFirst(advertiser: string, lookup: LookupTable, columns: seq<string>, score: Scorer)
    requires forall c :: c in columns ==> c in lookup
    requires HierarchicalMatch(advertiser, lookup, columns, score).Some?
    ensures var m := HierarchicalMatch(advertiser, lookup, columns, score).value;
      exists i :: 0 <= i < |columns| && columns[i] == m.column
        && ColumnBest(advertiser, lookup, columns[i], score) == Some(Candidate(m.name, m.score))
        && forall j :: 0 <= j < i ==> ColumnBest(advertiser, lookup, columns[j], score).None?
  {
    var m := HierarchicalMatch(advertiser, lookup, columns, score).value;
    if ColumnBest(advertiser, lookup, columns[0], score).Some? {
      assert columns[0] == m.column && ColumnBest(advertiser, lookup, columns[0], score) == Some(Candidate(m.name, m.score));
    } else {
      var tail := columns[1..];
      assert HierarchicalMatch(advertiser, lookup, tail, score) == Some(m);
      HierarchicalMatchFirst(advertiser, lookup, tail, score);
      var i :| 0 <= i < |tail| && tail[i] == m.column
               && ColumnBest(advertiser, lookup, tail[i], score) == Some(Candidate(m.name, m.score))
               && forall j :: 0 <= j < i ==> ColumnBest(advertiser, lookup, tail[j], score).None?;
      forall j | 0 <= j < i + 1
        ensures ColumnBest(advertiser, lookup, columns[j], score).None?
      {
        if j > 0 {
          assert columns[j] == tail[j - 1];
        }
      }
      assert columns[i + 1] == tail[i];
    }
  }

  // ---------------------------------------------------------------------------
  // create_vertical_mapping

  /** The non-empty cells of a column (`dropna`). */
  function Present(cells: seq<Cell>): (r: seq<string>)
    ensures forall i :: 0 <= i < |cells| && cells[i].Some? ==> cells[i].value in r
    ensures forall j :: 0 <= j < |r| ==> Some(r[j]) in cells
  {
    if cells == [] then []
    else
      var rest := Present(cells[1..]);
      assert forall i :: 1 <= i < |cells| ==> cells[i] == cells[1..][i - 1];
      match cells[0]
      case None => rest
      case Some(v) => [v] + rest
  }

  /** The category vocabulary: the distinct non-empty values of the industry column. */
  function IndustryCategories(lookup: LookupTable): (r: seq<string>)
    requires IndustryColumn in lookup
    ensures Distinct(r)
    ensures forall i :: 0 <= i < |lookup[IndustryColumn]| && lookup[IndustryColumn][i].Some?
              ==> lookup[IndustryColumn][i].value in r
    ensures forall j :: 0 <= j < |r| ==> Some(r[j]) in lookup[IndustryColumn]
  {
    Unique(Present(lookup[IndustryColumn]))
  }

  /** What the per-advertiser resolver returns: the vertical, the matched reference name
      (`None` when there is none) and the column or technique that produced it. */
  datatype Resolution = Resolution(vertical: string, matchedName: Option<string>, matchedColumn: Option<string>)

  /** The per-advertiser resolver, called with the advertiser, the categories, the reference
      table and the alias columns. */
  type Resolver = (string, seq<string>, LookupTable, seq<string>) -> Resolution

  /** One row of the vertical mapping table. */
  datatype MappingRecord = MappingRecord(
    advertiser: string,
    matchedCompany: string,
    vertical: string,
    matchScore: Option<Score>,
    technique: Option<string>)

  /** Python truthiness of the matched name: absent or empty is false. */
  predicate Truthy(name: Option<string>)
  {
    name.Some? && name.value != ""
  }

  /** The record built for one advertiser from its resolution. */
  function MappingRecordFor(advertiser: string, res: Resolution): (rec: MappingRecord)
    ensures rec.advertiser == advertiser && rec.vertical == res.vertical
    ensures Truthy(res.matchedName) ==> rec.matchedCompany == res.matchedName.value
    ensures !Truthy(res.matchedName) ==> rec.matchedCompany == NoMatch
    ensures rec.matchScore.None? && rec.technique == res.matchedColumn
  {
    MappingRecord(
      advertiser,
      if Truthy(res.matchedName) then res.matchedName.value else NoMatch,
      res.vertical,
      None,
      res.matchedColumn)
  }

  /** `create_vertical_mapping` with the resolver the call site expects: one record per
      advertiser, in input order. */
  method CreateVerticalMapping(advertisers: seq<string>, lookup: LookupTable, resolve: Resolver)
    returns (mapping: seq<MappingRecord>)
    requires IndustryColumn in lookup
    ensures |mapping| == |advertisers|
    ensures forall i :: 0 <= i < |advertisers| ==>
              mapping[i] == MappingRecordFor(advertisers[i], resolve(advertisers[i], IndustryCategories(lookup), lookup, ColumnsToCheck))
  {
    var categories := IndustryCategories(lookup);
    mapping := [];
    for i := 0 to |advertisers|
      invariant |mapping| == i
      invariant forall k :: 0 <= k < i ==>
                  mapping[k] == MappingRecordFor(advertisers[k], resolve(advertisers[k], categories, lookup, ColumnsToCheck))
    {
      var res := resolve(advertisers[i], categories, lookup, ColumnsToCheck);
      mapping := mapping + [MappingRecordFor(advertisers[i], res)];
    }
  }

  /** The exceptions `create_vertical_mapping` can raise as written. */
  datatype PyError = KeyError(key: string) | TypeError(message: string)

  /** `create_vertical_mapping` as written: a table without the industry column raises at
      the lookup of line 33; otherwise the call of line 37 passes four arguments to the
      two-parameter `categorize_advertiser`, which raises before any record is built, so
      only an empty batch gets through, as an empty table. */
  function CreateVerticalMappingAsWritten(advertisers: seq<string>, lookup: LookupTable): (r: Result<seq<MappingRecord>, PyError>)
    ensures IndustryColumn !in lookup ==> r == Failure(KeyError(IndustryColumn))
    ensures r.Success? <==> IndustryColumn in lookup && advertisers == []
    ensures r.Success? ==> r.value == []
    ensures IndustryColumn in lookup && advertisers != [] ==> r.Failure? && r.error.TypeError?
  {
    if IndustryColumn !in lookup then Failure(KeyError(IndustryColumn))
    else if advertisers == [] then Success([])
    else Failure(TypeError("categorize_advertiser() takes 2 positional arguments but 4 were given"))
  }

  /** The call fails for the first advertiser: a single one is enough. */
  lemma ArityMismatchRaises(lookup: LookupTable)
    requires IndustryColumn in lookup
    ensures CreateVerticalMappingAsWritten(["Acme"], lookup).Failure?
    ensures CreateVerticalMappingAsWritten(["Acme"], lookup).error.TypeError?
  {
  }

  // ---------------------------------------------------------------------------
  // calculate_vertical_metrics

  /** The grouping key: Vertical, 3rd Party Data Brand, 3rd Party Data ID, Advertiser. */
  datatype GroupKey = GroupKey(vertical: string, brand: string, id: string, advertiser: string)

  /** The four summed measures: Clicks, Impressions, the hypothetical advertiser cost and
      the last-click-plus-view conversions. */
  datatype Totals = Totals(clicks: int, impressions: int, cost: real, conversions: real)

  /** One row of the merged performance data. */
  datatype InputRow = InputRow(key: GroupKey, measures: Totals)

  /** One group after aggregation. */
  datatype Group = Group(key: GroupKey, totals: Totals)

  /** An aggregated row with its derived ratios; `None` stands for the infinite or undefined
      quotient a zero denominator gives. */
  datatype MetricRow = MetricRow(key: GroupKey, totals: Totals, ctr: Option<real>, cpa: Option<real>)

  const Zero: Totals := Totals(0, 0, 0.0, 0.0)

  function Add(a: Totals, b: Totals): Totals
  {
    Totals(a.clicks + b.clicks, a.impressions + b.impressions, a.cost + b.cost, a.conversions + b.conversions)
  }

  /** Reference definition: the sums of the measures over the rows carrying key `k`. */
  function SumFor(rows: seq<InputRow>, k: GroupKey): Totals
  {
    if rows == [] then Zero
    else
      var n := |rows| - 1;
      var prior := SumFor(rows[..n], k);
      if rows[n].key == k then Add(prior, rows[n].measures) else prior
  }

  function RowKeys(rows: seq<InputRow>): (keys: seq<GroupKey>)
    ensures |keys| == |rows| && forall i :: 0 <= i < |rows| ==> keys[i] == rows[i].key
  {
    seq(|rows|, i requires 0 <= i < |rows| => rows[i].key)
  }

  function GroupKeys(groups: seq<Group>): (keys: seq<GroupKey>)
    ensures |keys| == |groups| && forall i :: 0 <= i < |groups| ==> keys[i] == groups[i].key
  {
    seq(|groups|, i requires 0 <= i < |groups| => groups[i].key)
  }

  /** No two groups share a key. */
  ghost predicate DistinctKeys(groups: seq<Group>)
  {
    forall i, j :: 0 <= i < j < |groups| ==> groups[i].key != groups[j].key
  }

  /** The position of the group with `key`, or -1 when there is none. */
  function KeyIndex(groups: seq<Group>, key: GroupKey): (i: int)
    ensures -1 <= i < |groups|
    ensures i >= 0 ==> groups[i].key == key
    ensures i < 0 ==> forall j :: 0 <= j < |groups| ==> groups[j].key != key
  {
    if groups == [] then -1
    else if groups[0].key == key then 0
    else
      var k := KeyIndex(groups[1..], key);
      if k < 0 then -1 else k + 1
  }

  /** Adds one row into the groups: into the group with its key, or as a new last group. */
  function Absorb(groups: seq<Group>, row: InputRow): (r: seq<Group>)
    requires DistinctKeys(groups)
    ensures DistinctKeys(r)
    ensures |r| == |groups| || |r| == |groups| + 1
    ensures |r| == |groups| + 1 <==> forall i :: 0 <= i < |groups| ==> groups[i].key != row.key
    ensures forall i :: 0 <= i < |groups| ==> r[i].key == groups[i].key
    ensures forall i :: 0 <= i < |groups| ==>
              r[i].totals == (if groups[i].key == row.key then Add(groups[i].totals, row.measures) else groups[i].totals)
    ensures |r| == |groups| + 1 ==> r[|groups|] == Group(row.key, row.measures)
  {
    var k := KeyIndex(groups, row.key);
    if k < 0 then groups + [Group(row.key, row.measures)]
    else groups[k := groups[k].(totals := Add(groups[k].totals, row.measures))]
  }

  /** `groupby(...).agg(sum)`: the rows folded into groups one at a time. */
  function GroupSum(rows: seq<InputRow>): (groups: seq<Group>)
    ensures DistinctKeys(groups)
  {
    if rows == [] then [] else Absorb(GroupSum(rows[..|rows| - 1]), rows[|rows| - 1])
  }

  lemma SumForAbsent(rows: seq<InputRow>, k: GroupKey)
    requires k !in RowKeys(rows)
    ensures SumFor(rows, k) == Zero
  {
    if rows != [] {
      var n := |rows| - 1;
      assert RowKeys(rows[..n]) == RowKeys(rows)[..n];
      SumForAbsent(rows[..n], k);
    }
  }

  lemma KeysExtended(groups: seq<Group>, r: seq<Group>, key: GroupKey)
    requires |r| == |groups| + 1 && r[|groups|].key == key
    requires forall i :: 0 <= i < |groups| ==> r[i].key == groups[i].key
    ensures GroupKeys(r) == GroupKeys(groups) + [key]
  {
    forall i | 0 <= i < |r| ensures GroupKeys(r)[i] == (GroupKeys(groups) + [key])[i] {
    }
  }

  lemma KeysKept(groups: seq<Group>, r: seq<Group>)
    requires |r| == |groups|
    requires forall i :: 0 <= i < |groups| ==> r[i].key == groups[i].key
    ensures GroupKeys(r) == GroupKeys(groups)
  {
  }

  lemma AbsorbKeys(groups: seq<Group>, row: InputRow)
    requires DistinctKeys(groups)
    ensures GroupKeys(Absorb(groups, row)) ==
      if row.key in GroupKeys(groups) then GroupKeys(groups) else GroupKeys(groups) + [row.key]
  {
    var r := Absorb(groups, row);
    var keys := GroupKeys(groups);
    if row.key !in keys {
      forall i | 0 <= i < |groups| ensures groups[i].key != row.key {
        assert keys[i] == groups[i].key;
      }
      KeysExtended(groups, r, row.key);
    } else {
      var k :| 0 <= k < |keys| && keys[k] == row.key;
      assert groups[k].key == row.key;
      KeysKept(groups, r);
    }
  }

  lemma AbsorbTotals(rows: seq<InputRow>, groups: seq<Group>, i: nat)
    requires rows != [] && DistinctKeys(groups)
    requires forall j :: 0 <= j < |groups| ==> groups[j].totals == SumFor(rows[..|rows| - 1], groups[j].key)
    requires rows[|rows| - 1].key !in GroupKeys(groups) ==> SumFor(rows[..|rows| - 1], rows[|rows| - 1].key) == Zero
    requires i < |Absorb(groups, rows[|rows| - 1])|
    ensures Absorb(groups, rows[|rows| - 1])[i].totals == SumFor(rows, Absorb(groups, rows[|rows| - 1])[i].key)
  {
    var row := rows[|rows| - 1];
    var r := Absorb(groups, row);
    AbsorbKeys(groups, row);
    assert r[i].key == GroupKeys(r)[i];
  }

  /** One group per distinct key, in order of first appearance, each holding the sums of
      its rows' measures. */
  lemma {:induction false} GroupSumCorrect(rows: seq<InputRow>)
    ensures GroupKeys(GroupSum(rows)) == Unique(RowKeys(rows))
    ensures forall i :: 0 <= i < |GroupSum(rows)| ==> GroupSum(rows)[i].totals == SumFor(rows, GroupSum(rows)[i].key)
  {
    if rows != [] {
      var n := |rows| - 1;
      var init, row := rows[..n], rows[n];
      var g := GroupSum(init);
      GroupSumCorrect(init);
      var r := GroupSum(rows);
      assert r == Absorb(g, row);
      var keys := RowKeys(rows);
      assert keys[..n] == RowKeys(init);
      assert keys[n] == row.key;
      var u := Unique(RowKeys(init));
      assert Unique(keys) == if row.key in u then u else u + [row.key];
      AbsorbKeys(g, row);
      if row.key !in u {
        assert row.key !in RowKeys(init);
        SumForAbsent(init, row.key);
      }
      forall i | 0 <= i < |r|
        ensures r[i].totals == SumFor(rows, r[i].key)
      {
        AbsorbTotals(rows, g, i);
      }
    }
  }

  /** The quotient, or `None` where the division by zero gives infinity or NaN. */
  function Ratio(numerator: real, denominator: real): (q: Option<real>)
    ensures q.Some? <==> denominator != 0.0
  {
    if denominator == 0.0 then None else Some(numerator / denominator)
  }

  /** A defined ratio times its denominator gives back its numerator. */
  lemma RatioInverse(numerator: real, denominator: real)
    ensures var q := Ratio(numerator, denominator);
      q.Some? ==> q.value * denominator == numerator
  {
  }

  /** A group with its CTR = Clicks / Impressions and CPA = Cost / Conversions. */
  function WithRatios(g: Group): MetricRow
  {
    MetricRow(g.key, g.totals,
      Ratio(g.totals.clicks as real, g.totals.impressions as real),
      Ratio(g.totals.cost, g.totals.conversions))
  }

  /** The row filter: CPA neither infinite, NaN nor zero. */
  predicate Retained(row: MetricRow)
  {
    row.cpa.Some? && row.cpa.value != 0.0
  }

  /** The rows kept by the filter, in order: each retained row as often as it occurs, and
      no other row. */
  function KeepRetained(rows: seq<MetricRow>): (r: seq<MetricRow>)
    ensures |r| <= |rows|
    ensures forall j :: 0 <= j < |r| ==> Retained(r[j]) && r[j] in rows
    ensures forall i :: 0 <= i < |rows| && Retained(rows[i]) ==> rows[i] in r
  {
    if rows == [] then []
    else
      var n := |rows| - 1;
      var kept := KeepRetained(rows[..n]);
      assert forall i :: 0 <= i < n ==> rows[..n][i] == rows[i];
      assert rows == rows[..n] + [rows[n]];
      if Retained(rows[n]) then kept + [rows[n]] else kept
  }

  /** The filter keeps each retained row exactly as often as it occurs and drops every
      other row, so it neither duplicates nor invents rows. */
  lemma {:induction false} KeepRetainedCounts(rows: seq<MetricRow>)
    ensures forall x: MetricRow :: multiset(KeepRetained(rows))[x] == if Retained(x) then multiset(rows)[x] else 0
  {
    if rows != [] {
      var n := |rows| - 1;
      KeepRetainedCounts(rows[..n]);
      assert rows == rows[..n] + [rows[n]];
    }
  }

  /** No two rows share a key. */
  ghost predicate OneRowPerKey(rows: seq<MetricRow>)
  {
    forall i, j :: 0 <= i < j < |rows| ==> rows[i].key != rows[j].key
  }

  /** A row whose key no kept row has may be appended without repeating a key. */
  lemma OneRowPerKeyAppend(rows: seq<MetricRow>, m: MetricRow)
    requires OneRowPerKey(rows)
    requires forall x :: x in rows ==> x.key != m.key
    ensures OneRowPerKey(rows + [m])
  {
    var r := rows + [m];
    forall i, j | 0 <= i < j < |r| ensures r[i].key != r[j].key {
      assert r[i] == rows[i];
      if j < |rows| {
        assert r[j] == rows[j];
      }
    }
  }

  /** Filtering rows with distinct keys leaves rows with distinct keys. */
  lemma {:induction false} KeepRetainedOneRowPerKey(rows: seq<MetricRow>)
    requires OneRowPerKey(rows)
    ensures OneRowPerKey(KeepRetained(rows))
  {
    if rows != [] {
      var n := |rows| - 1;
      var init := rows[..n];
      assert OneRowPerKey(init) by {
        forall i, j | 0 <= i < j < |init| ensures init[i].key != init[j].key {
          assert init[i] == rows[i] && init[j] == rows[j];
        }
      }
      KeepRetainedOneRowPerKey(init);
      var kept := KeepRetained(init);
      if Retained(rows[n]) {
        forall x | x in kept ensures x.key != rows[n].key {
          var p :| 0 <= p < n && init[p] == x;
          assert rows[p] == x;
        }
        OneRowPerKeyAppend(kept, rows[n]);
        assert KeepRetained(rows) == kept + [rows[n]];
      } else {
        assert KeepRetained(rows) == kept;
      }
    }
  }

  /** What `calculate_vertical_metrics` returns. */
  function VerticalMetrics(rows: seq<InputRow>): seq<MetricRow>
  {
    var groups := GroupSum(rows);
    KeepRetained(seq(|groups|, i requires 0 <= i < |groups| => WithRatios(groups[i])))
  }

  /** A derived row survives the filter exactly when its conversions and its cost are both
      non-zero; impressions are not looked at. */
  lemma RetainedIffCostAndConversions(g: Group)
    ensures Retained(WithRatios(g)) <==> g.totals.conversions != 0.0 && g.totals.cost != 0.0
  {
    if g.totals.conversions != 0.0 && g.totals.cost == 0.0 {
      assert g.totals.cost / g.totals.conversions == 0.0;
    }
  }

  /** Each output row is an aggregated key with its sums, non-zero cost and conversions,
      and the cost per conversion. */
  lemma VerticalMetricsSound(rows: seq<InputRow>)
    ensures forall j :: 0 <= j < |VerticalMetrics(rows)| ==>
      var m := VerticalMetrics(rows)[j];
      && m.key in RowKeys(rows)
      && m.totals == SumFor(rows, m.key)
      && m.totals.conversions != 0.0 && m.totals.cost != 0.0
      && m.cpa == Some(m.totals.cost / m.totals.conversions)
      && m.ctr == Ratio(m.totals.clicks as real, m.totals.impressions as real)
    ensures OneRowPerKey(VerticalMetrics(rows))
  {
    var groups := GroupSum(rows);
    GroupSumCorrect(rows);
    var derived := seq(|groups|, i requires 0 <= i < |groups| => WithRatios(groups[i]));
    var out := VerticalMetrics(rows);
    forall j | 0 <= j < |out|
      ensures out[j].key in RowKeys(rows) && out[j].totals == SumFor(rows, out[j].key)
      ensures out[j].totals.conversions != 0.0 && out[j].totals.cost != 0.0
      ensures out[j].cpa == Some(out[j].totals.cost / out[j].totals.conversions)
      ensures out[j].ctr == Ratio(out[j].totals.clicks as real, out[j].totals.impressions as real)
    {
      var i :| 0 <= i < |derived| && derived[i] == out[j];
      assert GroupKeys(groups)[i] == groups[i].key;
      RetainedIffCostAndConversions(groups[i]);
    }
    assert OneRowPerKey(derived) by {
      forall i, j | 0 <= i < j < |derived| ensures derived[i].key != derived[j].key {
        assert derived[i].key == groups[i].key && derived[j].key == groups[j].key;
      }
    }
    KeepRetainedOneRowPerKey(derived);
  }

  /** The filter removes only what it must: every key whose summed cost and conversions are
      both non-zero has an output row. */
  lemma VerticalMetricsComplete(rows: seq<InputRow>)
    ensures forall k :: k in RowKeys(rows) && SumFor(rows, k).conversions != 0.0 && SumFor(rows, k).cost != 0.0 ==>
      exists j :: 0 <= j < |VerticalMetrics(rows)| && VerticalMetrics(rows)[j].key == k
  {
    var groups := GroupSum(rows);
    GroupSumCorrect(rows);
    var derived := seq(|groups|, i requires 0 <= i < |groups| => WithRatios(groups[i]));
    var out := VerticalMetrics(rows);
    forall k | k in RowKeys(rows) && SumFor(rows, k).conversions != 0.0 && SumFor(rows, k).cost != 0.0
      ensures exists j :: 0 <= j < |out| && out[j].key == k
    {
      assert k in GroupKeys(groups);
      var i :| 0 <= i < |groups| && GroupKeys(groups)[i] == k;
      RetainedIffCostAndConversions(groups[i]);
      assert derived[i] in out;
    }
  }

  /** Nothing keeps a retained row's CTR defined: a group with conversions and cost but no
      impressions is kept with an undefined CTR. */
  lemma CtrMayBeUndefined()
    ensures var k := GroupKey("Retail", "B", "1", "A");
      var metrics := VerticalMetrics([InputRow(k, Totals(3, 0, 12.0, 2.0))]);
      |metrics| == 1 && metrics[0].ctr.None? && metrics[0].cpa == Some(6.0)
  {
    var k := GroupKey("Retail", "B", "1", "A");
    var rows := [InputRow(k, Totals(3, 0, 12.0, 2.0))];
    assert rows[..0] == [];
    assert GroupSum(rows) == [Group(k, Totals(3, 0, 12.0, 2.0))];
  }

  /** `calculate_vertical_metrics`: aggregate, assign the CTR and then the CPA column into the
      frame, then keep the rows whose CPA is finite and non-zero. */
  method CalculateVerticalMetrics(rows: seq<InputRow>) returns (metrics: seq<MetricRow>)
    ensures metrics == VerticalMetrics(rows)
  {
    var groups := GroupSum(rows);
    var frame := new MetricRow[|groups|];
    for i := 0 to frame.Length
      invariant forall j :: 0 <= j < i ==> frame[j] == MetricRow(groups[j].key, groups[j].totals, None, None)
    {
      frame[i] := MetricRow(groups[i].key, groups[i].totals, None, None);
    }
    FillCtr(frame);
    FillCpa(frame);
    ghost var derived := seq(|groups|, i requires 0 <= i < |groups| => WithRatios(groups[i]));
    assert frame[..] == derived;
    metrics := KeepRetainedOf(frame);
  }

  /** `vertical_metrics['CTR'] = Clicks / Impressions`, row by row. */
  method FillCtr(frame: array<MetricRow>)
    modifies frame
    ensures forall j :: 0 <= j < frame.Length ==>
      frame[j] == old(frame[j]).(ctr := Ratio(old(frame[j]).totals.clicks as real, old(frame[j]).totals.impressions as real))
  {
    for i := 0 to frame.Length
      invariant forall j :: 0 <= j < i ==>
        frame[j] == old(frame[j]).(ctr := Ratio(old(frame[j]).totals.clicks as real, old(frame[j]).totals.impressions as real))
      invariant forall j :: i <= j < frame.Length ==> frame[j] == old(frame[j])
    {
      var t := frame[i].totals;
      frame[i] := frame[i].(ctr := Ratio(t.clicks as real, t.impressions as real));
    }
  }

  /** `vertical_metrics['CPA'] = Cost / Conversions`, row by row. */
  method FillCpa(frame: array<MetricRow>)
    modifies frame
    ensures forall j :: 0 <= j < frame.Length ==>
      frame[j] == old(frame[j]).(cpa := Ratio(old(frame[j]).totals.cost, old(frame[j]).totals.conversions))
  {
    for i := 0 to frame.Length
      invariant forall j :: 0 <= j < i ==>
        frame[j] == old(frame[j]).(cpa := Ratio(old(frame[j]).totals.cost, old(frame[j]).totals.conversions))
      invariant forall j :: i <= j < frame.Length ==> frame[j] == old(frame[j])
    {
      var t := frame[i].totals;
      frame[i] := frame[i].(cpa := Ratio(t.cost, t.conversions));
    }
  }

  /** `vertical_metrics[~CPA.isin([inf, -inf, nan, 0])]`: the retained rows, in order. */
  method KeepRetainedOf(frame: array<MetricRow>) returns (metrics: seq<MetricRow>)
    ensures metrics == KeepRetained(frame[..])
  {
    metrics := [];
    for i := 0 to frame.Length
      invariant metrics == KeepRetained(frame[..i])
    {
      assert frame[..i + 1][..i] == frame[..i];
      if Retained(frame[i]) {
        metrics := metrics + [frame[i]];
      }
    }
    assert frame[..frame.Length] == frame[..];
  }
}
