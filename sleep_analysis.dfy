/**
 * The stand-alone analysis script: relabel occupations, keep the occupations
 * with at least five rows, fill missing sleep disorders, count disorders per
 * occupation, add a Total column, divide by it, and report the three main
 * disorders with the raw group size.
 */
module SleepAnalysis {
  import opened Wrappers
  import opened Sequences
  import opened Survey
  import opened Cleaner
  import opened Filter
  import opened Aggregator
  import App

  /** The name of the column the script adds to the count table. */
  const TotalColumn: string := "Total"

  /** The three disorder columns the report selects, in its order. */
  const ReportedDisorders: seq<string> := ["Insomnia", "Sleep Apnea", "No Disorder"]

  /** The three reported disorders are distinct. */
  lemma ReportedDisordersDistinct()
    ensures NoDup(ReportedDisorders)
  {
  }

  /** One line of the printed report: three percentages and the group's raw size. */
  datatype ReportRow = ReportRow(insomnia: real, sleepApnea: real, noDisorder: real, total: nat)

  /** The rows the script counts: relabelled, restricted to eligible occupations, then filled. */
  function Analysed(raw: seq<Record>): (out: seq<Record>)
    ensures |out| <= |raw|
    ensures forall k :: 0 <= k < |out| ==>
      out[k].sleepDisorder.Some? && out[k].occupation in EligibleOccupations(ReplaceOccupationColumn(raw))
  {
    var df := ReplaceOccupationColumn(raw);
    FillDisorderColumn(Keep(df, EligibleOccupations(df)))
  }

  /**
   * `t["Total"] = t.sum(axis=1)`: every row gains the sum of its cells. A
   * column already named Total is overwritten where it stands; otherwise the
   * column is appended.
   */
  function WithTotal(t: GroupTable<nat>): (w: GroupTable<nat>)
    ensures w.rows.Keys == t.rows.Keys
    ensures forall c :: c in w.columns <==> c in t.columns || c == TotalColumn
    ensures forall o :: o in w.rows ==> TotalColumn in w.rows[o] && w.rows[o][TotalColumn] == RowSum(t.rows[o], t.columns)
    ensures forall o, c :: o in w.rows && c != TotalColumn ==>
              (c in w.rows[o] <==> c in t.rows[o]) && (c in t.rows[o] ==> w.rows[o][c] == t.rows[o][c])
    ensures Rectangular(t) ==> Rectangular(w)
  {
    GroupTable(if TotalColumn in t.columns then t.columns else t.columns + [TotalColumn],
               map o | o in t.rows :: t.rows[o][TotalColumn := RowSum(t.rows[o], t.columns)])
  }

  /** The Total cell of a row (absent only in a table that never had one added). */
  function TotalOf(row: map<string, nat>): nat {
    Get(row, TotalColumn, 0)
  }

  /** `t.div(t["Total"], axis=0) * 100`: every cell, Total included, as a share of the row's Total. */
  function DivideByTotal(t: GroupTable<nat>): (p: GroupTable<real>)
    ensures p.columns == t.columns && p.rows.Keys == t.rows.Keys
    ensures forall o :: o in p.rows ==> p.rows[o].Keys == t.rows[o].Keys
  {
    GroupTable(t.columns, map o | o in t.rows :: map c | c in t.rows[o] :: Share(t.rows[o][c], TotalOf(t.rows[o])))
  }

  /** The names in `names` that are not among `cols`, in order: what pandas' KeyError lists. */
  function Absent(names: seq<string>, cols: seq<string>): (missing: seq<string>)
    ensures forall c :: c in missing <==> c in names && c !in cols
  {
    if names == [] then []
    else (if names[0] in cols then [] else [names[0]]) + Absent(names[1..], cols)
  }

  /**
   * `percent[["Insomnia", "Sleep Apnea", "No Disorder"]]` with the count
   * table's Total beside it; a disorder that is not a column is an error
   * naming the missing columns.
   */
  function Format(percent: GroupTable<real>, counts: GroupTable<nat>): (report: Result<map<string, ReportRow>, seq<string>>)
    ensures report.Failure? <==> exists c :: c in ReportedDisorders && c !in percent.columns
    ensures report.Failure? ==> forall c :: c in report.error <==> c in ReportedDisorders && c !in percent.columns
    ensures report.Success? ==> report.value.Keys == percent.rows.Keys
    ensures report.Success? ==> forall o :: o in report.value ==>
              && report.value[o].insomnia == Cell(percent, o, "Insomnia")
              && report.value[o].sleepApnea == Cell(percent, o, "Sleep Apnea")
              && report.value[o].noDisorder == Cell(percent, o, "No Disorder")
              && report.value[o].total == CountCell(counts, o, TotalColumn)
  {
    var missing := Absent(ReportedDisorders, percent.columns);
    if missing != [] then
      assert missing[0] in missing;
      Failure(missing)
    else
      Success(map o | o in percent.rows ::
                ReportRow(Cell(percent, o, "Insomnia"), Cell(percent, o, "Sleep Apnea"),
                          Cell(percent, o, "No Disorder"), CountCell(counts, o, TotalColumn)))
  }

  /** The report the script prints for `raw`, before rounding and formatting. */
  function Report(raw: seq<Record>): (r: Result<map<string, ReportRow>, seq<string>>)
    ensures r.Success? ==> r.value.Keys == GroupKeys(Analysed(raw), SleepDisorder)
  {
    var counts := WithTotal(CountTable(Analysed(raw), SleepDisorder));
    Format(DivideByTotal(counts), counts)
  }

  /** The count table the script extends in place with its Total column. */
  class CountFrame {
    var table: GroupTable<nat>

    constructor (table: GroupTable<nat>)
      ensures this.table == table
    {
      this.table := table;
    }

    /** `disorder_counts["Total"] = disorder_counts.sum(axis=1)` */
    method AddTotal()
      modifies this
      ensures table == WithTotal(old(table))
    {
      table := WithTotal(table);
    }
  }

  /** The script, step by step, on frames it overwrites in place. */
  method Run(raw: seq<Record>) returns (report: Result<map<string, ReportRow>, seq<string>>)
    ensures report == Report(raw)
    ensures report.Failure? <==> exists c :: c in ReportedDisorders && c !in Categories(Analysed(raw), SleepDisorder)
    ensures report.Success? ==> report.value.Keys == EligibleOccupations(ReplaceOccupationColumn(raw))
  {
    var df := new Frame(raw);
    df.ReplaceOccupations();
    var validJobs := EligibleOccupations(df.rows);
    var filtered := new Frame(Keep(df.rows, validJobs));
    filtered.FillDisorders();
    var counts := new CountFrame(CountTable(filtered.rows, SleepDisorder));
    counts.AddTotal();
    var percent := DivideByTotal(counts.table);
    report := Format(percent, counts.table);
    ReportFailsOnMissingDisorder(raw);
    ReportCoversEligible(raw);
  }

  // ----- what the count table, its Total and its percentages hold -----

  /** The Total the script adds to a group's row is the group's size. */
  lemma TotalIsGroupSize(rows: seq<Record>, d: Dimension, o: string)
    requires o in GroupKeys(rows, d)
    ensures CountCell(WithTotal(CountTable(rows, d)), o, TotalColumn) == CountPresent(rows, d, o)
    ensures TotalOf(WithTotal(CountTable(rows, d)).rows[o]) == CountPresent(rows, d, o)
  {
    RowTotalOfCountTable(rows, d, o);
  }

  /** After the division each category cell is the category's share of the group, 0 when it never occurs. */
  lemma DividedCell(rows: seq<Record>, d: Dimension, o: string, c: string)
    requires o in GroupKeys(rows, d)
    requires c != TotalColumn
    ensures Cell(DivideByTotal(WithTotal(CountTable(rows, d))), o, c) == Share(Count(rows, d, o, c), CountPresent(rows, d, o))
    ensures Cell(DivideByTotal(WithTotal(CountTable(rows, d))), o, c) == Cell(PercentTable(rows, d), o, c)
  {
    var ct := CountTable(rows, d);
    var w := WithTotal(ct);
    TotalIsGroupSize(rows, d, o);
    PercentTableCell(rows, d, o, c);
    if c in ct.columns {
      CountTableCells(rows, d, o, c);
      assert CountCell(ct, o, c) == ct.rows[o][c];
    } else {
      CountOfAbsentCategory(rows, d, o, c);
    }
  }

  /** Dividing the Total column by itself gives 100 in every row. */
  lemma TotalBecomesHundred(rows: seq<Record>, d: Dimension, o: string)
    requires o in GroupKeys(rows, d)
    ensures Cell(DivideByTotal(WithTotal(CountTable(rows, d))), o, TotalColumn) == 100.0
  {
    TotalIsGroupSize(rows, d, o);
    RowTotalOfCountTable(rows, d, o);
  }

  /** When every disorder is one of the three reported, a group's three percentages add up to 100. */
  lemma DividedRowSumsToHundred(rows: seq<Record>, d: Dimension, o: string)
    requires o in GroupKeys(rows, d)
    requires forall c :: c in Categories(rows, d) ==> c in ReportedDisorders
    ensures var p := DivideByTotal(WithTotal(CountTable(rows, d)));
            Cell(p, o, "Insomnia") + Cell(p, o, "Sleep Apnea") + Cell(p, o, "No Disorder") == 100.0
  {
    ReportedDisordersDistinct();
    DividedCell(rows, d, o, "Insomnia");
    DividedCell(rows, d, o, "Sleep Apnea");
    DividedCell(rows, d, o, "No Disorder");
    PercentagesSumTo100(rows, d, o, ReportedDisorders);
    SumCellsOfThree(PercentTable(rows, d), o, "Insomnia", "Sleep Apnea", "No Disorder");
  }

  // ----- the analysed rows -----

  /** Filling disorders never moves a row across the occupation filter. */
  lemma {:induction false} FillCommutesWithKeep(rows: seq<Record>, sel: set<string>)
    ensures Keep(FillDisorderColumn(rows), sel) == FillDisorderColumn(Keep(rows, sel))
  {
    if rows != [] {
      var first := [rows[0]];
      assert rows == first + rows[1..];
      FillOfConcat(first, rows[1..]);
      KeepConcat(FillDisorderColumn(first), FillDisorderColumn(rows[1..]), sel);
      KeepConcat(first, rows[1..], sel);
      FillCommutesWithKeep(rows[1..], sel);
      FillOfConcat(Keep(first, sel), Keep(rows[1..], sel));
      FillCommutesWithKeepOne(rows[0], sel);
    }
  }

  /** The one-row case: filling keeps the row's occupation. */
  lemma FillCommutesWithKeepOne(r: Record, sel: set<string>)
    ensures Keep(FillDisorderColumn([r]), sel) == FillDisorderColumn(Keep([r], sel))
  {
    var filled := FillDisorderColumn([r]);
    assert filled == [r.(sleepDisorder := FillDisorder(r.sleepDisorder))];
    assert filled[1..] == [];
    assert [r][1..] == [];
  }

  /** Filling a concatenation fills each part. */
  lemma FillOfConcat(a: seq<Record>, b: seq<Record>)
    ensures FillDisorderColumn(a + b) == FillDisorderColumn(a) + FillDisorderColumn(b)
  {
    var lhs := FillDisorderColumn(a + b);
    var rhs := FillDisorderColumn(a) + FillDisorderColumn(b);
    assert |lhs| == |rhs|;
    forall k | 0 <= k < |lhs| ensures lhs[k] == rhs[k] {
      FillOfConcatAt(a, b, k);
    }
  }

  /** One row of `FillOfConcat`. */
  lemma FillOfConcatAt(a: seq<Record>, b: seq<Record>, k: nat)
    requires k < |a| + |b|
    ensures FillDisorderColumn(a + b)[k] == (FillDisorderColumn(a) + FillDisorderColumn(b))[k]
  {
    if k < |a| {
      assert (a + b)[k] == a[k];
      assert (FillDisorderColumn(a) + FillDisorderColumn(b))[k] == FillDisorderColumn(a)[k];
    } else {
      assert (a + b)[k] == b[k - |a|];
      assert (FillDisorderColumn(a) + FillDisorderColumn(b))[k] == FillDisorderColumn(b)[k - |a|];
    }
  }

  /** Filling keeps every row's occupation and gender. */
  lemma FillAgrees(rows: seq<Record>)
    ensures AgreeOn(FillDisorderColumn(rows), rows, Gender)
  {
  }

  /**
   * In the analysed rows no disorder is missing, and an occupation's group is
   * all of its relabelled rows when it has at least five, and empty otherwise.
   */
  lemma AnalysedGroups(raw: seq<Record>, o: string)
    ensures var df := ReplaceOccupationColumn(raw);
            && CountPresent(Analysed(raw), SleepDisorder, o) == CountOccupation(Analysed(raw), o)
            && CountOccupation(Analysed(raw), o) == if CountOccupation(df, o) >= MinGroupSize then CountOccupation(df, o) else 0
  {
    var df := ReplaceOccupationColumn(raw);
    var kept := Keep(df, EligibleOccupations(df));
    var a := Analysed(raw);
    assert forall k :: 0 <= k < |a| ==> CategoryOf(a[k], SleepDisorder).Some?;
    CountPresentWhenNoneMissing(a, SleepDisorder, o);
    FillAgrees(kept);
    AgreeingCounts(a, kept, Gender);
    KeepCountsOccupation(df, EligibleOccupations(df), o);
  }

  /** The groups of the analysed rows are exactly the eligible occupations. */
  lemma AnalysedKeysAreEligible(raw: seq<Record>)
    ensures GroupKeys(Analysed(raw), SleepDisorder) == EligibleOccupations(ReplaceOccupationColumn(raw))
  {
    forall o ensures o in GroupKeys(Analysed(raw), SleepDisorder) <==> o in EligibleOccupations(ReplaceOccupationColumn(raw)) {
      AnalysedGroups(raw, o);
    }
  }

  // ----- the report -----

  /** The report is an error exactly when one of the three disorders never occurs in the analysed rows. */
  lemma ReportFailsOnMissingDisorder(raw: seq<Record>)
    ensures Report(raw).Failure? <==> exists c :: c in ReportedDisorders && c !in Categories(Analysed(raw), SleepDisorder)
    ensures Report(raw).Failure? ==>
              forall c :: c in Report(raw).error <==> c in ReportedDisorders && c !in Categories(Analysed(raw), SleepDisorder)
  {
    var ct := CountTable(Analysed(raw), SleepDisorder);
    assert ct.columns == Categories(Analysed(raw), SleepDisorder);
    FormatWithTotalFails(ct);
  }

  /** `ReportFailsOnMissingDisorder` for any count table: the added Total never hides a missing disorder. */
  lemma FormatWithTotalFails(ct: GroupTable<nat>)
    ensures var w := WithTotal(ct);
            Format(DivideByTotal(w), w).Failure? <==> exists c :: c in ReportedDisorders && c !in ct.columns
    ensures var w := WithTotal(ct);
            Format(DivideByTotal(w), w).Failure? ==>
              forall c :: c in Format(DivideByTotal(w), w).error <==> c in ReportedDisorders && c !in ct.columns
  {
    var w := WithTotal(ct);
    var p := DivideByTotal(w);
    ReportedDisordersAreNotTotal();
    assert p.columns == w.columns;
    FormatFailsOnMissing(p, w, ct.columns);
  }

  /** No reported disorder is named Total. */
  lemma ReportedDisordersAreNotTotal()
    ensures forall c :: c in ReportedDisorders ==> c != TotalColumn
  {
  }

  /** Formatting fails exactly on the reported disorders missing from `cols`, when the table agrees with `cols` on them. */
  lemma FormatFailsOnMissing(p: GroupTable<real>, w: GroupTable<nat>, cols: seq<string>)
    requires forall c :: c in ReportedDisorders ==> (c in p.columns <==> c in cols)
    ensures Format(p, w).Failure? <==> exists c :: c in ReportedDisorders && c !in cols
    ensures Format(p, w).Failure? ==> forall c :: c in Format(p, w).error <==> c in ReportedDisorders && c !in cols
  {
  }

  /** A report, when there is one, has one line per eligible occupation. */
  lemma ReportCoversEligible(raw: seq<Record>)
    ensures Report(raw).Success? ==> Report(raw).value.Keys == EligibleOccupations(ReplaceOccupationColumn(raw))
  {
    AnalysedKeysAreEligible(raw);
  }

  /**
   * Each line of the report: the occupation's relabelled row count, at least
   * five, and each disorder's share of it.
   */
  lemma ReportLines(raw: seq<Record>, o: string)
    requires Report(raw).Success?
    requires o in Report(raw).value
    ensures var line := Report(raw).value[o];
            var n := CountOccupation(ReplaceOccupationColumn(raw), o);
            && line.total == n >= MinGroupSize
            && line.insomnia == Share(Count(Analysed(raw), SleepDisorder, o, "Insomnia"), n)
            && line.sleepApnea == Share(Count(Analysed(raw), SleepDisorder, o, "Sleep Apnea"), n)
            && line.noDisorder == Share(Count(Analysed(raw), SleepDisorder, o, "No Disorder"), n)
  {
    var a := Analysed(raw);
    AnalysedKeysAreEligible(raw);
    AnalysedGroups(raw, o);
    TotalIsGroupSize(a, SleepDisorder, o);
    DividedCell(a, SleepDisorder, o, "Insomnia");
    DividedCell(a, SleepDisorder, o, "Sleep Apnea");
    DividedCell(a, SleepDisorder, o, "No Disorder");
  }

  /** When the three disorders are the only ones, every report line's percentages add up to 100. */
  lemma ReportLinesSumToHundred(raw: seq<Record>, o: string)
    requires Report(raw).Success?
    requires o in Report(raw).value
    requires forall c :: c in Categories(Analysed(raw), SleepDisorder) ==> c in ReportedDisorders
    ensures Report(raw).value[o].insomnia + Report(raw).value[o].sleepApnea + Report(raw).value[o].noDisorder == 100.0
  {
    AnalysedKeysAreEligible(raw);
    DividedRowSumsToHundred(Analysed(raw), SleepDisorder, o);
  }

  /** Cleaning agrees with relabelling then filling on occupation and disorder: the BMI relabelling touches neither. */
  lemma CleanAgreesWithScript(raw: seq<Record>)
    ensures AgreeOn(Clean(raw), FillDisorderColumn(ReplaceOccupationColumn(raw)), SleepDisorder)
  {
    FillCommutesWithRelabel(raw);
  }

  /** Both scripts find the same eligible occupations. */
  lemma SameEligible(raw: seq<Record>)
    ensures EligibleOccupations(Clean(raw)) == EligibleOccupations(ReplaceOccupationColumn(raw))
  {
    var r := ReplaceOccupationColumn(raw);
    CleanAgreesWithScript(raw);
    AgreeOnOccupations(Clean(raw), FillDisorderColumn(r), SleepDisorder);
    EligibleOfAgreeing(Clean(raw), FillDisorderColumn(r));
    FillAgrees(r);
    AgreeOnOccupations(FillDisorderColumn(r), r, Gender);
    EligibleOfAgreeing(FillDisorderColumn(r), r);
  }

  /** The dashboard's rows with nothing selected agree with the script's rows on occupation and disorder. */
  lemma FilteredAgreesWithAnalysed(raw: seq<Record>)
    ensures AgreeOn(App.Filtered(raw, []), Analysed(raw), SleepDisorder)
  {
    var r := ReplaceOccupationColumn(raw);
    var e := EligibleOccupations(r);
    SameEligible(raw);
    assert App.Filtered(raw, []) == Keep(Clean(raw), e);
    CleanAgreesWithScript(raw);
    KeepAgreeing(Clean(raw), FillDisorderColumn(r), SleepDisorder, e);
    FillCommutesWithKeep(r, e);
  }

  /** Tables that agree on occupation and a column have the same count table for it. */
  lemma CountTableOfAgreeing(a: seq<Record>, b: seq<Record>, d: Dimension)
    requires AgreeOn(a, b, d)
    ensures CountTable(a, d) == CountTable(b, d)
  {
    AgreeingCounts(a, b, d);
    SameCountTable(a, b, d);
  }

  /** Tables with the same present values and counts have the same count table. */
  lemma SameCountTable(a: seq<Record>, b: seq<Record>, d: Dimension)
    requires PresentValues(a, d) == PresentValues(b, d)
    requires forall o :: CountPresent(a, d, o) == CountPresent(b, d, o)
    requires forall o, c :: Count(a, d, o, c) == Count(b, d, o, c)
    ensures CountTable(a, d) == CountTable(b, d)
  {
    SameGroupKeys(a, b, d);
    SameCountRows(a, b, d);
    SameRowMap(a, b, d);
    SameColumnsAndRows(a, b, d);
  }

  /** The same group sizes give the same groups. */
  lemma SameGroupKeys(a: seq<Record>, b: seq<Record>, d: Dimension)
    requires forall o :: CountPresent(a, d, o) == CountPresent(b, d, o)
    ensures GroupKeys(a, d) == GroupKeys(b, d)
  {
  }

  /** The same present values and counts give the same rows, and the same columns. */
  lemma SameCountRows(a: seq<Record>, b: seq<Record>, d: Dimension)
    requires PresentValues(a, d) == PresentValues(b, d)
    requires forall o, c :: Count(a, d, o, c) == Count(b, d, o, c)
    ensures Categories(a, d) == Categories(b, d)
    ensures forall o :: CountRow(a, d, o) == CountRow(b, d, o)
  {
  }

  /** The same groups with the same rows give the same row map. */
  lemma SameRowMap(a: seq<Record>, b: seq<Record>, d: Dimension)
    requires GroupKeys(a, d) == GroupKeys(b, d)
    requires forall o :: CountRow(a, d, o) == CountRow(b, d, o)
    ensures CountRows(a, d) == CountRows(b, d)
  {
  }

  /** A count table is determined by its columns and its row map. */
  lemma SameColumnsAndRows(a: seq<Record>, b: seq<Record>, d: Dimension)
    requires Categories(a, d) == Categories(b, d)
    requires CountRows(a, d) == CountRows(b, d)
    ensures CountTable(a, d) == CountTable(b, d)
  {
  }

  /**
   * The script and the dashboard (with nothing selected) count the same
   * disorder table, although they clean and filter in different orders.
   */
  lemma ScriptsAgree(raw: seq<Record>)
    ensures CountTable(Analysed(raw), SleepDisorder) == CountTable(App.Filtered(raw, []), SleepDisorder)
  {
    FilteredAgreesWithAnalysed(raw);
    CountTableOfAgreeing(App.Filtered(raw, []), Analysed(raw), SleepDisorder);
  }
}
