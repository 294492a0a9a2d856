/**
 * Restriction of the cleaned table to occupations with enough respondents,
 * and the occupation axis of every chart.
 */
module Filter {
  import opened Sequences
  import opened Survey

  /** Smallest number of rows an occupation needs to be analysed. */
  const MinGroupSize: nat := 5

  lemma OccupationWitnesses(rows: seq<Record>)
    ensures forall o :: CountOccupation(rows, o) > 0 ==> exists k :: 0 <= k < |rows| && rows[k].occupation == o
  {
    forall o | CountOccupation(rows, o) > 0
      ensures exists k :: 0 <= k < |rows| && rows[k].occupation == o
    {
      CountOccupationPositive(rows, o);
    }
  }

  /** `value_counts()[lambda x: x >= 5].index`: the eligible occupations. */
  function EligibleOccupations(rows: seq<Record>): (jobs: set<string>)
    ensures forall o :: o in jobs <==> CountOccupation(rows, o) >= MinGroupSize
  {
    OccupationWitnesses(rows);
    set r | r in rows && CountOccupation(rows, r.occupation) >= MinGroupSize :: r.occupation
  }

  /** The occupations to keep: those the user selected, or all eligible ones when none is. */
  function Selection(selected: seq<string>, rows: seq<Record>): (sel: set<string>)
    ensures forall o :: o in sel <==>
      if selected == [] then CountOccupation(rows, o) >= MinGroupSize else o in selected
  {
    if selected == [] then EligibleOccupations(rows) else set o | o in selected
  }

  /** `rows[rows["Occupation"].isin(sel)]`: the rows of the selected occupations, in order. */
  function Keep(rows: seq<Record>, sel: set<string>): (kept: seq<Record>)
    ensures |kept| <= |rows|
    ensures forall k :: 0 <= k < |kept| ==> kept[k].occupation in sel && kept[k] in rows
  {
    if rows == [] then []
    else (if rows[0].occupation in sel then [rows[0]] else []) + Keep(rows[1..], sel)
  }

  /** `filtered["Occupation"].unique().tolist()`: the occupation axis. */
  function Labels(filtered: seq<Record>): (labels: seq<string>)
    ensures NoDup(labels)
    ensures forall o :: o in labels <==> o in OccupationColumn(filtered)
    ensures forall o :: o in labels <==> exists k :: 0 <= k < |filtered| && filtered[k].occupation == o
  {
    var col := OccupationColumn(filtered);
    assert forall o :: o in col <==> exists k :: 0 <= k < |filtered| && filtered[k].occupation == o by {
      forall o | exists k :: 0 <= k < |filtered| && filtered[k].occupation == o
        ensures o in col
      {
        var k :| 0 <= k < |filtered| && filtered[k].occupation == o;
        assert col[k] == o;
      }
    }
    Unique(col)
  }

  // ----- what filtering keeps -----

  /** Filtering a concatenation filters each part: the kept rows stay in their original order. */
  lemma {:induction false} KeepConcat(a: seq<Record>, b: seq<Record>, sel: set<string>)
    ensures Keep(a + b, sel) == Keep(a, sel) + Keep(b, sel)
  {
    if a == [] {
      assert a + b == b;
    } else {
      var head := if a[0].occupation in sel then [a[0]] else [];
      assert (a + b)[0] == a[0];
      assert (a + b)[1..] == a[1..] + b;
      assert Keep(a + b, sel) == head + Keep(a[1..] + b, sel);
      KeepConcat(a[1..], b, sel);
      assert head + (Keep(a[1..], sel) + Keep(b, sel)) == (head + Keep(a[1..], sel)) + Keep(b, sel);
    }
  }

  /** A selected occupation keeps all its rows; any other keeps none. */
  lemma {:induction false} KeepCountsOccupation(rows: seq<Record>, sel: set<string>, o: string)
    ensures CountOccupation(Keep(rows, sel), o) == if o in sel then CountOccupation(rows, o) else 0
  {
    if rows != [] {
      var head := if rows[0].occupation in sel then [rows[0]] else [];
      KeepCountsOccupation(rows[1..], sel, o);
      var kept := Keep(rows, sel);
      if head != [] {
        assert kept[0] == rows[0];
        assert kept[1..] == Keep(rows[1..], sel);
      } else {
        assert kept == Keep(rows[1..], sel);
      }
    }
  }

  /** Per-occupation cell counts are kept for a selected occupation and vanish for any other. */
  lemma {:induction false} KeepCountsCells(rows: seq<Record>, sel: set<string>, d: Dimension, o: string, c: string)
    ensures Count(Keep(rows, sel), d, o, c) == if o in sel then Count(rows, d, o, c) else 0
    ensures CountPresent(Keep(rows, sel), d, o) == if o in sel then CountPresent(rows, d, o) else 0
  {
    if rows != [] {
      var head := if rows[0].occupation in sel then [rows[0]] else [];
      KeepCountsCells(rows[1..], sel, d, o, c);
      var kept := Keep(rows, sel);
      if head != [] {
        assert kept[0] == rows[0];
        assert kept[1..] == Keep(rows[1..], sel);
      } else {
        assert kept == Keep(rows[1..], sel);
      }
    }
  }

  /** Filtering by occupation keeps tables that agree on the grouping keys in agreement. */
  lemma {:induction false} KeepAgreeing(a: seq<Record>, b: seq<Record>, d: Dimension, sel: set<string>)
    requires AgreeOn(a, b, d)
    ensures AgreeOn(Keep(a, sel), Keep(b, sel), d)
  {
    if a != [] {
      assert AgreeOn(a[1..], b[1..], d);
      KeepAgreeing(a[1..], b[1..], d, sel);
      var ha := if a[0].occupation in sel then [a[0]] else [];
      var hb := if b[0].occupation in sel then [b[0]] else [];
      assert AgreeOn(ha, hb, d);
      AgreeOnConcat(ha, Keep(a[1..], sel), hb, Keep(b[1..], sel), d);
    }
  }

  /** Agreement is preserved by concatenating agreeing parts. */
  lemma AgreeOnConcat(a1: seq<Record>, a2: seq<Record>, b1: seq<Record>, b2: seq<Record>, d: Dimension)
    requires AgreeOn(a1, b1, d) && AgreeOn(a2, b2, d)
    ensures AgreeOn(a1 + a2, b1 + b2, d)
  {
    forall k | 0 <= k < |a1 + a2|
      ensures (a1 + a2)[k].occupation == (b1 + b2)[k].occupation
      ensures CategoryOf((a1 + a2)[k], d) == CategoryOf((b1 + b2)[k], d)
    {
      if k < |a1| {
        assert (a1 + a2)[k] == a1[k] && (b1 + b2)[k] == b1[k];
      } else {
        assert (a1 + a2)[k] == a2[k - |a1|] && (b1 + b2)[k] == b2[k - |b1|];
      }
    }
  }

  /** Eligibility looks at the occupation column only. */
  lemma EligibleOfAgreeing(a: seq<Record>, b: seq<Record>)
    requires OccupationColumn(a) == OccupationColumn(b)
    ensures EligibleOccupations(a) == EligibleOccupations(b)
  {
    forall o ensures CountOccupation(a, o) == CountOccupation(b, o) {
      CountOccupationOfColumn(a, b, o);
    }
  }

  /**
   * How many rows of occupation `o` survive the selection: all of them when
   * `o` is selected, or, with nothing selected, when `o` is eligible; none otherwise.
   */
  function KeptCount(rows: seq<Record>, selected: seq<string>, o: string): nat {
    if o in Selection(selected, rows) then CountOccupation(rows, o) else 0
  }

  /**
   * Resolves the user's selection (falling back to every eligible occupation
   * when it is empty), filters the rows and derives the occupation axis.
   */
  method SelectOccupations(rows: seq<Record>, selected: seq<string>)
    returns (filtered: seq<Record>, labels: seq<string>)
    ensures filtered == Keep(rows, Selection(selected, rows))
    ensures forall o :: CountOccupation(filtered, o) == KeptCount(rows, selected, o)
    ensures labels == Labels(filtered)
    ensures NoDup(labels)
    ensures forall o :: o in labels <==> o in OccupationColumn(filtered)
    ensures forall o :: o in labels <==> exists k :: 0 <= k < |filtered| && filtered[k].occupation == o
    ensures forall i, j :: 0 <= i < j < |labels| ==>
      FirstIndex(OccupationColumn(filtered), labels[i]) < FirstIndex(OccupationColumn(filtered), labels[j])
  {
    var jobs := set o | o in selected;
    if selected == [] {
      jobs := EligibleOccupations(rows);
    }
    filtered := Keep(rows, jobs);
    labels := Labels(filtered);
    forall o
      ensures CountOccupation(filtered, o) == KeptCount(rows, selected, o)
    {
      KeepCountsOccupation(rows, jobs, o);
    }
    forall i, j | 0 <= i < j < |labels|
      ensures FirstIndex(OccupationColumn(filtered), labels[i]) < FirstIndex(OccupationColumn(filtered), labels[j])
    {
      UniqueKeepsFirstOccurrenceOrder(OccupationColumn(filtered), i, j);
    }
  }
}
