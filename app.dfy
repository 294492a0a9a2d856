/**
 * The dashboard: cleaning at load time, the occupation selection with its
 * fallback, and the per-occupation series behind the four charts.
 */
module App {
  import opened Wrappers
  import opened Sequences
  import opened Survey
  import opened Cleaner
  import opened Filter
  import opened Aggregator

  /** `load_data()`: the three column overwrites on a freshly read table. */
  method LoadData(raw: seq<Record>) returns (df: Frame)
    ensures fresh(df)
    ensures df.rows == Clean(raw)
  {
    df := new Frame(raw);
    df.FillDisorders();
    df.ReplaceOccupations();
    df.ReplaceBmiCategories();
  }

  /** The rows shown for a multiselect result `selected`: cleaned, then filtered. */
  function Filtered(raw: seq<Record>, selected: seq<string>): seq<Record> {
    var df := Clean(raw);
    Keep(df, Selection(selected, df))
  }

  /** `t.get(c, zeros).reindex(labels).fillna(0).tolist()`: one column, ordered by the labels. */
  function ColumnByLabel(t: GroupTable<real>, c: string, labels: seq<string>): (col: seq<real>)
    ensures |col| == |labels|
    ensures forall i :: 0 <= i < |labels| ==> col[i] == Cell(t, labels[i], c)
  {
    seq(|labels|, i requires 0 <= i < |labels| => Cell(t, labels[i], c))
  }

  /** `(bmi_percent.get("Overweight", 0) + bmi_percent.get("Obese", 0)).reindex(labels).fillna(0)` */
  function OverweightObese(t: GroupTable<real>, labels: seq<string>): (col: seq<real>)
    ensures |col| == |labels|
    ensures forall i :: 0 <= i < |labels| ==> col[i] == SelectedSum(t, labels[i], ["Overweight", "Obese"])
  {
    HeavyCellsCombine(t, labels);
    seq(|labels|, i requires 0 <= i < |labels| => Cell(t, labels[i], "Overweight") + Cell(t, labels[i], "Obese"))
  }

  /** The annotations `"{p:.0f}% M"` / `"{p:.0f}% F"` per label, before formatting. */
  function GenderTags(t: GroupTable<real>, labels: seq<string>): (tags: seq<MajorityLabel>)
    ensures |tags| == |labels|
    ensures forall i :: 0 <= i < |labels| ==> tags[i] == GenderMajority(t, labels[i])
  {
    seq(|labels|, i requires 0 <= i < |labels| => GenderMajority(t, labels[i]))
  }

  /** What the four charts plot, one entry per occupation label. */
  datatype Charts = Charts(
    labels: seq<string>,
    insomnia: seq<real>,
    sleepApnea: seq<real>,
    noDisorder: seq<real>,
    stressLevel: seq<Option<real>>,
    sleepDuration: seq<Option<real>>,
    qualityOfSleep: seq<Option<real>>,
    physicalActivity: seq<Option<real>>,
    bmiCombined: seq<real>,
    averageAge: seq<Option<real>>,
    genderTags: seq<MajorityLabel>,
    overweightObese: seq<real>)

  // ----- facts about the filtered table -----

  /** No row has a missing sleep disorder. */
  ghost predicate NoneMissing(rows: seq<Record>) {
    forall k :: 0 <= k < |rows| ==> rows[k].sleepDisorder.Some?
  }

  /** Every row the dashboard analyses has a present sleep disorder. */
  lemma FilteredNoneMissing(raw: seq<Record>, selected: seq<string>)
    ensures NoneMissing(Filtered(raw, selected))
  {
    var df := Clean(raw);
    CleanIsRowwise(raw);
    var f := Keep(df, Selection(selected, df));
    forall k | 0 <= k < |f| ensures f[k].sleepDisorder.Some? {
      var j :| 0 <= j < |df| && df[j] == f[k];
    }
  }

  /**
   * When no sleep disorder is missing, the occupation labels are exactly the
   * rows of each grouped table (so reindexing by the labels adds no empty row),
   * and each group is all of the occupation's rows.
   */
  lemma LabelsAreGroupKeys(filtered: seq<Record>, d: Dimension)
    requires NoneMissing(filtered)
    ensures forall o :: o in Labels(filtered) <==> o in GroupKeys(filtered, d)
    ensures forall o :: o in Labels(filtered) ==> CountPresent(filtered, d, o) == CountOccupation(filtered, o) > 0
  {
    assert forall k :: 0 <= k < |filtered| ==> CategoryOf(filtered[k], d).Some?;
    forall o ensures CountPresent(filtered, d, o) == CountOccupation(filtered, o) {
      CountPresentWhenNoneMissing(filtered, d, o);
    }
    forall o ensures CountOccupation(filtered, o) > 0 <==> o in Labels(filtered) {
      CountOccupationPositive(filtered, o);
    }
  }

  /**
   * Each bar of the disorder chart is the share of the label's rows with that
   * disorder, 0 for a disorder that never occurs, and lies in [0, 100].
   */
  lemma DisorderBarIsShare(f: seq<Record>, i: nat, c: string)
    requires NoneMissing(f)
    requires i < |Labels(f)|
    ensures var o := Labels(f)[i];
            && ColumnByLabel(PercentTable(f, SleepDisorder), c, Labels(f))[i]
               == Share(Count(f, SleepDisorder, o, c), CountOccupation(f, o))
            && 0.0 <= ColumnByLabel(PercentTable(f, SleepDisorder), c, Labels(f))[i] <= 100.0
  {
    LabelsAreGroupKeys(f, SleepDisorder);
    PercentTableCell(f, SleepDisorder, Labels(f)[i], c);
  }

  /** The three sleep disorders the first chart plots are distinct. */
  lemma PlottedDisordersDistinct()
    ensures NoDup(["Insomnia", "Sleep Apnea", "No Disorder"])
  {
  }

  /** The two BMI categories of the extended conclusion are distinct. */
  lemma HeavyCategoriesDistinct()
    ensures NoDup(["Overweight", "Obese"])
  {
  }

  /** Every label of a table without missing disorders is a row of each grouped table. */
  lemma LabelIsGroupKey(f: seq<Record>, d: Dimension, i: nat)
    requires NoneMissing(f)
    requires i < |Labels(f)|
    ensures Labels(f)[i] in GroupKeys(f, d)
  {
    LabelsAreGroupKeys(f, d);
  }

  /** Three columns read at one label add up to the label's cells over those columns. */
  lemma ThreeColumnsAtLabel(t: GroupTable<real>, labels: seq<string>, i: nat, a: string, b: string, c: string)
    requires i < |labels|
    ensures ColumnByLabel(t, a, labels)[i] + ColumnByLabel(t, b, labels)[i] + ColumnByLabel(t, c, labels)[i]
            == SumCells(t, labels[i], [a, b, c])
  {
    SumCellsOfThree(t, labels[i], a, b, c);
  }

  /** Combining Overweight and Obese adds their two cells, label by label. */
  lemma HeavyCellsCombine(t: GroupTable<real>, labels: seq<string>)
    ensures forall i :: 0 <= i < |labels| ==>
      SelectedSum(t, labels[i], ["Overweight", "Obese"]) == Cell(t, labels[i], "Overweight") + Cell(t, labels[i], "Obese")
  {
    forall i | 0 <= i < |labels|
      ensures SelectedSum(t, labels[i], ["Overweight", "Obese"]) == Cell(t, labels[i], "Overweight") + Cell(t, labels[i], "Obese")
    {
      SelectedSumOfTwo(t, labels[i], "Overweight", "Obese");
    }
  }

  /** When every disorder is one of the three plotted, the three bars of a label add up to 100. */
  lemma DisorderBarsSumTo100(f: seq<Record>, i: nat)
    requires NoneMissing(f)
    requires i < |Labels(f)|
    requires forall c :: c in Categories(f, SleepDisorder) ==> c in ["Insomnia", "Sleep Apnea", "No Disorder"]
    ensures ColumnByLabel(PercentTable(f, SleepDisorder), "Insomnia", Labels(f))[i]
            + ColumnByLabel(PercentTable(f, SleepDisorder), "Sleep Apnea", Labels(f))[i]
            + ColumnByLabel(PercentTable(f, SleepDisorder), "No Disorder", Labels(f))[i] == 100.0
  {
    PlottedDisordersDistinct();
    LabelIsGroupKey(f, SleepDisorder, i);
    PercentagesSumTo100(f, SleepDisorder, Labels(f)[i], ["Insomnia", "Sleep Apnea", "No Disorder"]);
    ThreeColumnsAtLabel(PercentTable(f, SleepDisorder), Labels(f), i, "Insomnia", "Sleep Apnea", "No Disorder");
  }

  /**
   * The BMI series of the extended conclusion (Overweight + Obese, looked up
   * with a default) equals the combined BMI series for the default selection,
   * and both are the share of the label's rows that are overweight or obese.
   */
  lemma OverweightObeseIsDefaultCombination(f: seq<Record>, i: nat)
    requires NoneMissing(f)
    requires i < |Labels(f)|
    ensures OverweightObese(PercentTable(f, BmiCategory), Labels(f))[i]
            == SelectedSum(PercentTable(f, BmiCategory), Labels(f)[i], ["Overweight", "Obese"])
    ensures OverweightObese(PercentTable(f, BmiCategory), Labels(f))[i]
            == Share(CountIn(f, BmiCategory, Labels(f)[i], ["Overweight", "Obese"]), CountOccupation(f, Labels(f)[i]))
  {
    HeavyCategoriesDistinct();
    LabelIsGroupKey(f, BmiCategory, i);
    LabelsAreGroupKeys(f, BmiCategory);
    SelectedSumIsShareOfSelected(f, BmiCategory, Labels(f)[i], ["Overweight", "Obese"]);
  }

  /** The combined BMI value of distinct selected categories is the share of the label's rows in them. */
  lemma CombinedBmiIsShare(f: seq<Record>, o: string, selected: seq<string>)
    requires NoneMissing(f)
    requires o in Labels(f)
    requires NoDup(selected)
    ensures SelectedSum(PercentTable(f, BmiCategory), o, selected)
            == Share(CountIn(f, BmiCategory, o, selected), CountOccupation(f, o))
    ensures 0.0 <= SelectedSum(PercentTable(f, BmiCategory), o, selected) <= 100.0
  {
    LabelsAreGroupKeys(f, BmiCategory);
    SelectedSumIsShareOfSelected(f, BmiCategory, o, selected);
  }

  /** The gender annotation says M exactly when the label has more men than women. */
  lemma GenderTagByCounts(f: seq<Record>, o: string)
    requires NoneMissing(f)
    requires o in Labels(f)
    ensures GenderMajority(PercentTable(f, Gender), o).sex == 'M' <==> Count(f, Gender, o, "Male") > Count(f, Gender, o, "Female")
    ensures GenderMajority(PercentTable(f, Gender), o) == MajorityByCounts(f, o)
  {
    LabelsAreGroupKeys(f, Gender);
    GenderMajorityByCounts(f, o);
  }

  // ----- the series of each chart, stated per label -----

  /** Each disorder series holds, per label, the share of the label's rows reporting that disorder. */
  ghost predicate DisorderBars(f: seq<Record>, labels: seq<string>, insomnia: seq<real>, sleepApnea: seq<real>, noDisorder: seq<real>) {
    && |insomnia| == |sleepApnea| == |noDisorder| == |labels|
    && forall i :: 0 <= i < |labels| ==>
         && CountOccupation(f, labels[i]) > 0
         && insomnia[i] == Share(Count(f, SleepDisorder, labels[i], "Insomnia"), CountOccupation(f, labels[i]))
         && sleepApnea[i] == Share(Count(f, SleepDisorder, labels[i], "Sleep Apnea"), CountOccupation(f, labels[i]))
         && noDisorder[i] == Share(Count(f, SleepDisorder, labels[i], "No Disorder"), CountOccupation(f, labels[i]))
  }

  /** A mean series holds, per label, the metric's sum over the label's rows divided by their number. */
  ghost predicate MeanSeries(f: seq<Record>, labels: seq<string>, m: Metric, means: seq<Option<real>>) {
    && |means| == |labels|
    && forall i :: 0 <= i < |labels| ==>
         && CountOccupation(f, labels[i]) > 0
         && means[i] == Some(SumMetric(f, m, labels[i]) / CountOccupation(f, labels[i]) as real)
  }

  /** The combined BMI series adds the selected categories' percentages; for distinct categories that is their joint share. */
  ghost predicate CombinedBmiSeries(f: seq<Record>, labels: seq<string>, selected: seq<string>, combined: seq<real>) {
    && |combined| == |labels|
    && forall i :: 0 <= i < |labels| ==>
         && combined[i] == SelectedSum(PercentTable(f, BmiCategory), labels[i], selected)
         && (NoDup(selected) ==>
               combined[i] == Share(CountIn(f, BmiCategory, labels[i], selected), CountOccupation(f, labels[i])))
  }

  /**
   * The annotation a label's head counts call for: M with the men's share when
   * men outnumber women, otherwise (a tie included) F with the women's share.
   */
  ghost function MajorityByCounts(f: seq<Record>, o: string): MajorityLabel {
    var male := Count(f, Gender, o, "Male");
    var female := Count(f, Gender, o, "Female");
    if male > female then MajorityLabel(Share(male, CountOccupation(f, o)), 'M')
    else MajorityLabel(Share(female, CountOccupation(f, o)), 'F')
  }

  /** Each gender annotation is the one the label's head counts call for. */
  ghost predicate GenderAnnotations(f: seq<Record>, labels: seq<string>, tags: seq<MajorityLabel>) {
    && |tags| == |labels|
    && forall i :: 0 <= i < |labels| ==> tags[i] == MajorityByCounts(f, labels[i])
  }

  /** The Overweight + Obese series holds, per label, the share of the label's rows in either category. */
  ghost predicate HeavySeries(f: seq<Record>, labels: seq<string>, heavy: seq<real>) {
    && |heavy| == |labels|
    && forall i :: 0 <= i < |labels| ==>
         heavy[i] == Share(CountIn(f, BmiCategory, labels[i], ["Overweight", "Obese"]), CountOccupation(f, labels[i]))
  }

  /** Question 1: the three disorder columns, reindexed by the labels, are the disorder shares. */
  lemma DisorderSeriesAreShares(f: seq<Record>)
    requires NoneMissing(f)
    ensures DisorderBars(f, Labels(f),
                         ColumnByLabel(PercentTable(f, SleepDisorder), "Insomnia", Labels(f)),
                         ColumnByLabel(PercentTable(f, SleepDisorder), "Sleep Apnea", Labels(f)),
                         ColumnByLabel(PercentTable(f, SleepDisorder), "No Disorder", Labels(f)))
  {
    forall i | 0 <= i < |Labels(f)|
      ensures CountOccupation(f, Labels(f)[i]) > 0
      ensures ColumnByLabel(PercentTable(f, SleepDisorder), "Insomnia", Labels(f))[i]
              == Share(Count(f, SleepDisorder, Labels(f)[i], "Insomnia"), CountOccupation(f, Labels(f)[i]))
      ensures ColumnByLabel(PercentTable(f, SleepDisorder), "Sleep Apnea", Labels(f))[i]
              == Share(Count(f, SleepDisorder, Labels(f)[i], "Sleep Apnea"), CountOccupation(f, Labels(f)[i]))
      ensures ColumnByLabel(PercentTable(f, SleepDisorder), "No Disorder", Labels(f))[i]
              == Share(Count(f, SleepDisorder, Labels(f)[i], "No Disorder"), CountOccupation(f, Labels(f)[i]))
    {
      LabelHasRows(f, i);
      DisorderBarIsShare(f, i, "Insomnia");
      DisorderBarIsShare(f, i, "Sleep Apnea");
      DisorderBarIsShare(f, i, "No Disorder");
    }
  }

  /** Every label names an occupation with at least one row. */
  lemma LabelHasRows(f: seq<Record>, i: nat)
    requires i < |Labels(f)|
    ensures CountOccupation(f, Labels(f)[i]) > 0
  {
    assert Labels(f)[i] in Labels(f);
    CountOccupationPositive(f, Labels(f)[i]);
  }

  /** Questions 2 and 3: every label has rows, so each mean is present and is sum over count. */
  lemma MeansAreAverages(f: seq<Record>, m: Metric)
    ensures MeanSeries(f, Labels(f), m, MeansByLabel(f, m, Labels(f)))
  {
    forall i | 0 <= i < |Labels(f)|
      ensures CountOccupation(f, Labels(f)[i]) > 0
      ensures MeansByLabel(f, m, Labels(f))[i] == Some(SumMetric(f, m, Labels(f)[i]) / CountOccupation(f, Labels(f)[i]) as real)
    {
      LabelHasRows(f, i);
    }
  }

  /** Question 3: the loop's result is the combined share of the selected BMI categories. */
  lemma CombinedBmiAreShares(f: seq<Record>, selected: seq<string>, combined: seq<real>)
    requires NoneMissing(f)
    requires |combined| == |Labels(f)|
    requires forall i :: 0 <= i < |Labels(f)| ==> combined[i] == SelectedSum(PercentTable(f, BmiCategory), Labels(f)[i], selected)
    ensures CombinedBmiSeries(f, Labels(f), selected, combined)
  {
    forall i | 0 <= i < |Labels(f)| && NoDup(selected)
      ensures combined[i] == Share(CountIn(f, BmiCategory, Labels(f)[i], selected), CountOccupation(f, Labels(f)[i]))
    {
      CombinedBmiIsShare(f, Labels(f)[i], selected);
    }
  }

  /** Question 3: the gender annotations follow the head counts. */
  lemma GenderTagsFollowCounts(f: seq<Record>)
    requires NoneMissing(f)
    ensures GenderAnnotations(f, Labels(f), GenderTags(PercentTable(f, Gender), Labels(f)))
  {
    forall i | 0 <= i < |Labels(f)|
      ensures GenderTags(PercentTable(f, Gender), Labels(f))[i] == MajorityByCounts(f, Labels(f)[i])
    {
      GenderTagByCounts(f, Labels(f)[i]);
    }
  }

  /** Extended conclusion: the Overweight + Obese series is the share of heavy rows. */
  lemma HeavySeriesAreShares(f: seq<Record>)
    requires NoneMissing(f)
    ensures HeavySeries(f, Labels(f), OverweightObese(PercentTable(f, BmiCategory), Labels(f)))
  {
    forall i | 0 <= i < |Labels(f)|
      ensures OverweightObese(PercentTable(f, BmiCategory), Labels(f))[i]
              == Share(CountIn(f, BmiCategory, Labels(f)[i], ["Overweight", "Obese"]), CountOccupation(f, Labels(f)[i]))
    {
      OverweightObeseIsDefaultCombination(f, i);
    }
  }

  /**
   * The dashboard's computations, in the script's order: load and clean,
   * resolve the occupation selection, then the series of every chart.
   */
  method Dashboard(raw: seq<Record>, selectedJobs: seq<string>, selectedBmi: seq<string>)
    returns (charts: Charts)
    ensures charts.labels == Labels(Filtered(raw, selectedJobs))
    ensures DisorderBars(Filtered(raw, selectedJobs), charts.labels, charts.insomnia, charts.sleepApnea, charts.noDisorder)
    ensures MeanSeries(Filtered(raw, selectedJobs), charts.labels, StressLevel, charts.stressLevel)
    ensures MeanSeries(Filtered(raw, selectedJobs), charts.labels, SleepDuration, charts.sleepDuration)
    ensures MeanSeries(Filtered(raw, selectedJobs), charts.labels, QualityOfSleep, charts.qualityOfSleep)
    ensures MeanSeries(Filtered(raw, selectedJobs), charts.labels, PhysicalActivity, charts.physicalActivity)
    ensures MeanSeries(Filtered(raw, selectedJobs), charts.labels, Age, charts.averageAge)
    ensures CombinedBmiSeries(Filtered(raw, selectedJobs), charts.labels, selectedBmi, charts.bmiCombined)
    ensures GenderAnnotations(Filtered(raw, selectedJobs), charts.labels, charts.genderTags)
    ensures HeavySeries(Filtered(raw, selectedJobs), charts.labels, charts.overweightObese)
  {
    var df := LoadData(raw);
    var filtered, labels := SelectOccupations(df.rows, selectedJobs);
    assert filtered == Filtered(raw, selectedJobs);
    assert labels == Labels(filtered);
    FilteredNoneMissing(raw, selectedJobs);

    // Question 1
    var disorderPct := PercentTable(filtered, SleepDisorder);
    var insomnia := ColumnByLabel(disorderPct, "Insomnia", labels);
    var sleepApnea := ColumnByLabel(disorderPct, "Sleep Apnea", labels);
    var noDisorder := ColumnByLabel(disorderPct, "No Disorder", labels);
    DisorderSeriesAreShares(filtered);

    // Question 2
    var stress := MeansByLabel(filtered, StressLevel, labels);
    var duration := MeansByLabel(filtered, SleepDuration, labels);
    var quality := MeansByLabel(filtered, QualityOfSleep, labels);
    var activity := MeansByLabel(filtered, PhysicalActivity, labels);
    MeansAreAverages(filtered, StressLevel);
    MeansAreAverages(filtered, SleepDuration);
    MeansAreAverages(filtered, QualityOfSleep);
    MeansAreAverages(filtered, PhysicalActivity);

    // Question 3
    var bmiPct := PercentTable(filtered, BmiCategory);
    var bmiCombined := CombineCategories(bmiPct, labels, selectedBmi);
    CombinedBmiAreShares(filtered, selectedBmi, bmiCombined);
    var age := MeansByLabel(filtered, Age, labels);
    MeansAreAverages(filtered, Age);
    var genderPct := PercentTable(filtered, Gender);
    var tags := GenderTags(genderPct, labels);
    GenderTagsFollowCounts(filtered);

    // Extended conclusion
    var overweightObese := OverweightObese(bmiPct, labels);
    HeavySeriesAreShares(filtered);

    charts := Charts(labels, insomnia, sleepApnea, noDisorder, stress, duration, quality, activity,
                     bmiCombined, age, tags, overweightObese);
  }
}
