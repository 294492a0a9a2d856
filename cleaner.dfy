/**
 * Cleaning of the survey table: missing sleep disorders filled and stripped,
 * occupation synonyms merged, and the two spellings of a normal BMI merged.
 */
module Cleaner {
  import opened Wrappers
  import opened Text
  import opened Survey

  /** `fillna("No Disorder").str.strip()` on one value. */
  function FillDisorder(v: Option<string>): (r: Option<string>)
    ensures r.Some? && Trimmed(r.value)
    ensures v.None? ==> r == Some("No Disorder")
    ensures v.Some? ==> r.value == Strip(v.value)
  {
    NoDisorderIsTrimmed();
    Some(Strip(v.GetOr("No Disorder")))
  }

  /** The occupation synonym table: `{"Sales Representative": "Sales", "Salesperson": "Sales", "Software Engineer": "Engineer"}`. */
  const OccupationSynonyms: map<string, string> :=
    map["Sales Representative" := "Sales", "Salesperson" := "Sales", "Software Engineer" := "Engineer"]

  /** The BMI label table: `{"Normal": "Normal Weight"}`. */
  const BmiSynonyms: map<string, string> := map["Normal" := "Normal Weight"]

  /** `Series.replace(table)` on one value: a whole-value lookup, anything else unchanged. */
  function Replace(table: map<string, string>, v: string): (r: string)
    ensures v in table ==> r == table[v]
    ensures v !in table ==> r == v
  {
    if v in table then table[v] else v
  }

  function ReplaceOccupation(o: string): (r: string)
    ensures r != o <==> o in {"Sales Representative", "Salesperson", "Software Engineer"}
    ensures o in {"Sales Representative", "Salesperson"} ==> r == "Sales"
    ensures o == "Software Engineer" ==> r == "Engineer"
  {
    Replace(OccupationSynonyms, o)
  }

  function ReplaceBmi(b: string): (r: string)
    ensures r != b <==> b == "Normal"
    ensures b == "Normal" ==> r == "Normal Weight"
  {
    Replace(BmiSynonyms, b)
  }

  /** `df["Sleep Disorder"] = df["Sleep Disorder"].fillna("No Disorder").str.strip()` */
  function FillDisorderColumn(rows: seq<Record>): (out: seq<Record>)
    ensures |out| == |rows|
    ensures forall k :: 0 <= k < |rows| ==> out[k] == rows[k].(sleepDisorder := FillDisorder(rows[k].sleepDisorder))
  {
    seq(|rows|, k requires 0 <= k < |rows| => FillRow(rows[k]))
  }

  /** One row with its disorder filled and stripped. */
  function FillRow(r: Record): Record {
    r.(sleepDisorder := FillDisorder(r.sleepDisorder))
  }

  /** `df["Occupation"] = df["Occupation"].replace(OccupationSynonyms)` */
  function ReplaceOccupationColumn(rows: seq<Record>): (out: seq<Record>)
    ensures |out| == |rows|
    ensures forall k :: 0 <= k < |rows| ==> out[k] == rows[k].(occupation := ReplaceOccupation(rows[k].occupation))
  {
    seq(|rows|, k requires 0 <= k < |rows| => rows[k].(occupation := ReplaceOccupation(rows[k].occupation)))
  }

  /** `df["BMI Category"] = df["BMI Category"].replace(BmiSynonyms)` */
  function ReplaceBmiColumn(rows: seq<Record>): (out: seq<Record>)
    ensures |out| == |rows|
    ensures forall k :: 0 <= k < |rows| ==> out[k] == rows[k].(bmiCategory := ReplaceBmi(rows[k].bmiCategory))
  {
    seq(|rows|, k requires 0 <= k < |rows| => rows[k].(bmiCategory := ReplaceBmi(rows[k].bmiCategory)))
  }

  /** The cleaned table, with the three column overwrites in the order the dashboard applies them. */
  function Clean(rows: seq<Record>): (out: seq<Record>)
    ensures |out| == |rows|
    ensures forall k :: 0 <= k < |rows| ==> CleanedFrom(out[k], rows[k])
  {
    ReplaceBmiColumn(ReplaceOccupationColumn(FillDisorderColumn(rows)))
  }

  /** A row once cleaned: what `Clean` does to each row on its own. */
  predicate CleanedFrom(r: Record, raw: Record) {
    && r.occupation == ReplaceOccupation(raw.occupation)
    && r.sleepDisorder == FillDisorder(raw.sleepDisorder)
    && r.bmiCategory == ReplaceBmi(raw.bmiCategory)
    && r.gender == raw.gender
    && r.age == raw.age
    && r.stressLevel == raw.stressLevel
    && r.sleepDuration == raw.sleepDuration
    && r.qualityOfSleep == raw.qualityOfSleep
    && r.physicalActivity == raw.physicalActivity
  }

  /**
   * Cleaning keeps the number and order of rows and every untouched column,
   * and leaves no sleep disorder missing or padded with whitespace.
   */
  lemma CleanIsRowwise(rows: seq<Record>)
    ensures |Clean(rows)| == |rows|
    ensures forall k :: 0 <= k < |rows| ==> CleanedFrom(Clean(rows)[k], rows[k])
    ensures forall k :: 0 <= k < |rows| ==>
      Clean(rows)[k].sleepDisorder.Some? && Trimmed(Clean(rows)[k].sleepDisorder.value)
  {
  }

  /** No replacement target is itself a key, so each relabelling is idempotent. */
  lemma RelabellingIdempotent(o: string, b: string)
    ensures ReplaceOccupation(ReplaceOccupation(o)) == ReplaceOccupation(o)
    ensures ReplaceBmi(ReplaceBmi(b)) == ReplaceBmi(b)
  {
  }

  /** Cleaning an already cleaned table changes nothing. */
  lemma CleanIdempotent(rows: seq<Record>)
    ensures Clean(Clean(rows)) == Clean(rows)
  {
    var once := Clean(rows);
    CleanIsRowwise(rows);
    CleanIsRowwise(once);
    forall k | 0 <= k < |rows|
      ensures Clean(once)[k] == once[k]
    {
      RelabellingIdempotent(rows[k].occupation, rows[k].bmiCategory);
      FillDisorderIdempotent(rows[k].sleepDisorder);
    }
  }

  /** Filling and stripping a filled value changes nothing. */
  lemma FillDisorderIdempotent(v: Option<string>)
    ensures FillDisorder(FillDisorder(v)) == FillDisorder(v)
  {
    StripIdempotent(v.GetOr("No Disorder"));
  }

  /** Filling disorders and relabelling occupations touch different columns, so they commute. */
  lemma FillCommutesWithRelabel(rows: seq<Record>)
    ensures FillDisorderColumn(ReplaceOccupationColumn(rows)) == ReplaceOccupationColumn(FillDisorderColumn(rows))
  {
  }

  /**
   * The data frame the scripts overwrite column by column. Each method is one
   * `df[column] = ...` statement.
   */
  class Frame {
    var rows: seq<Record>

    constructor (rows: seq<Record>)
      ensures this.rows == rows
    {
      this.rows := rows;
    }

    method FillDisorders()
      modifies this
      ensures rows == FillDisorderColumn(old(rows))
    {
      rows := FillDisorderColumn(rows);
    }

    method ReplaceOccupations()
      modifies this
      ensures rows == ReplaceOccupationColumn(old(rows))
    {
      rows := ReplaceOccupationColumn(rows);
    }

    method ReplaceBmiCategories()
      modifies this
      ensures rows == ReplaceBmiColumn(old(rows))
    {
      rows := ReplaceBmiColumn(rows);
    }
  }
}
