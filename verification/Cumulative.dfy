/**
 Turning a previous day's cumulative amounts into amounts per minute, for many
 objects at once in whatever order their rows arrive. Amounts are exact numbers.
 */
module Cumulative {
  import opened SessionClock

  datatype Row = Row(identity: string, cumulative: real, minute: nat)
  datatype Reference = Reference(identity: string, amount: real, minute: nat)

  function Positive(x: real): real {
    if x > 0.0 then x else 0.0
  }

  /** The first minute of the afternoon stands for the end of the morning. */
  function LogicalMinute(minute: nat): nat {
    if minute == AFTERNOON_OPEN then MORNING_CLOSE else minute
  }

  /** The object's last cumulative amount in `rows`, 0 before its first row. */
  function Previous(rows: seq<Row>, identity: string): real {
    if rows == [] then 0.0
    else
      var last := rows[|rows| - 1];
      if last.identity == identity then last.cumulative else Previous(rows[..|rows| - 1], identity)
  }

  function References(rows: seq<Row>): (out: seq<Reference>)
    ensures |out| == |rows|
  {
    if rows == [] then []
    else
      var init, row := rows[..|rows| - 1], rows[|rows| - 1];
      References(init)
      + [Reference(row.identity, Positive(row.cumulative - Previous(init, row.identity)), LogicalMinute(row.minute))]
  }

  /** One output per row, for its object; the first afternoon minute is filed under the last morning one. */
  lemma {:induction false} ReferenceAt(rows: seq<Row>, i: nat)
    requires i < |rows|
    ensures References(rows)[i].identity == rows[i].identity
    ensures References(rows)[i].minute == if rows[i].minute == 780 then 690 else rows[i].minute
    ensures References(rows)[i].amount >= 0.0
    decreases |rows|
  {
    if i < |rows| - 1 {
      ReferenceAt(rows[..|rows| - 1], i);
    }
  }

  method CumulativeToMinutes(rows: seq<Row>) returns (out: seq<Reference>)
    ensures out == References(rows)
    ensures forall i :: 0 <= i < |rows| ==>
              && out[i].identity == rows[i].identity && out[i].amount >= 0.0
              && out[i].minute == if rows[i].minute == 780 then 690 else rows[i].minute
  {
    out := [];
    var previous: map<string, real> := map[];
    assert rows[..0] == [];
    for i := 0 to |rows|
      invariant out == References(rows[..i])
      invariant forall id :: Previous(rows[..i], id) == if id in previous then previous[id] else 0.0
    {
      var row := rows[i];
      assert rows[..i + 1][..i] == rows[..i];
      var before := if row.identity in previous then previous[row.identity] else 0.0;
      previous := previous[row.identity := row.cumulative];
      out := out + [Reference(row.identity, Positive(row.cumulative - before), LogicalMinute(row.minute))];
    }
    assert rows[..|rows|] == rows;
    forall i | 0 <= i < |rows|
      ensures out[i].identity == rows[i].identity && out[i].amount >= 0.0
      ensures out[i].minute == if rows[i].minute == 780 then 690 else rows[i].minute
    {
      ReferenceAt(rows, i);
    }
  }

  // ----- Each object by itself

  function RowsOf(rows: seq<Row>, identity: string): seq<Row> {
    if rows == [] then []
    else
      var own := RowsOf(rows[..|rows| - 1], identity);
      if rows[|rows| - 1].identity == identity then own + [rows[|rows| - 1]] else own
  }

  function ReferencesOf(out: seq<Reference>, identity: string): seq<Reference> {
    if out == [] then []
    else
      var own := ReferencesOf(out[..|out| - 1], identity);
      if out[|out| - 1].identity == identity then own + [out[|out| - 1]] else own
  }

  lemma {:induction false} PreviousOfOwnRows(rows: seq<Row>, identity: string)
    ensures Previous(RowsOf(rows, identity), identity) == Previous(rows, identity)
    decreases |rows|
  {
    if rows != [] {
      var init, row := rows[..|rows| - 1], rows[|rows| - 1];
      PreviousOfOwnRows(init, identity);
    }
  }

  /** However the objects' rows interleave, each object's output is that of its own rows alone. */
  lemma {:induction false} ObjectsDoNotMix(rows: seq<Row>, identity: string)
    ensures ReferencesOf(References(rows), identity) == References(RowsOf(rows, identity))
    decreases |rows|
  {
    if rows != [] {
      var init, row := rows[..|rows| - 1], rows[|rows| - 1];
      ObjectsDoNotMix(init, identity);
      var out := References(rows);
      assert out[..|out| - 1] == References(init);
      if row.identity == identity {
        PreviousOfOwnRows(init, identity);
        var own := RowsOf(init, identity);
        assert (own + [row])[..|own|] == own;
      }
    }
  }

  // ----- Adding the minutes up again

  function Total(out: seq<Reference>): real {
    if out == [] then 0.0 else Total(out[..|out| - 1]) + out[|out| - 1].amount
  }

  /** All rows are of one object. */
  predicate Single(rows: seq<Row>, identity: string) {
    forall i :: 0 <= i < |rows| ==> rows[i].identity == identity
  }

  /** A proper running total: never negative, never falling. */
  predicate Accumulating(rows: seq<Row>) {
    && (rows != [] ==> rows[0].cumulative >= 0.0)
    && forall i :: 0 < i < |rows| ==> rows[i - 1].cumulative <= rows[i].cumulative
  }

  /** The minutes up to and including row `k`, added up again. */
  function Recovered(rows: seq<Row>, k: nat): real
    requires k < |rows|
  {
    Total(References(rows[..k + 1]))
  }

  lemma TotalOfLast(out: seq<Reference>, last: Reference)
    ensures Total(out + [last]) == Total(out) + last.amount
  {
  }

  lemma LastReference(init: seq<Row>, row: Row)
    ensures Total(References(init + [row]))
            == Total(References(init)) + Positive(row.cumulative - Previous(init, row.identity))
  {
    hide Total, Previous, Positive;
    assert (init + [row])[..|init|] == init;
    TotalOfLast(References(init),
      Reference(row.identity, Positive(row.cumulative - Previous(init, row.identity)), LogicalMinute(row.minute)));
  }

  lemma TotalStep(rows: seq<Row>, identity: string, k: nat)
    requires Single(rows, identity) && k < |rows|
    ensures Recovered(rows, k) == if k == 0 then Positive(rows[0].cumulative)
                                  else Recovered(rows, k - 1) + Positive(rows[k].cumulative - rows[k - 1].cumulative)
  {
    hide References, Total;
    var now := rows[..k + 1];
    assert now[..k] == rows[..k] && now[k] == rows[k];
    assert now == rows[..k] + [rows[k]];
    LastReference(rows[..k], rows[k]);
    if k > 0 {
      assert rows[..k][k - 1] == rows[k - 1] && rows[k - 1].identity == identity == rows[k].identity;
    } else {
      NothingYet();
    }
  }

  lemma NothingYet()
    ensures Total(References([])) == 0.0
  {
  }

  lemma {:induction false} NeverBelow(rows: seq<Row>, identity: string, k: nat)
    requires Single(rows, identity) && k < |rows|
    ensures Recovered(rows, k) >= rows[k].cumulative
    decreases k
  {
    TotalStep(rows, identity, k);
    if k > 0 {
      NeverBelow(rows, identity, k - 1);
    }
  }

  lemma {:induction false} ExactWhileAccumulating(rows: seq<Row>, identity: string, k: nat)
    requires Single(rows, identity) && k < |rows| && Accumulating(rows)
    ensures Recovered(rows, k) == rows[k].cumulative
    decreases k
  {
    TotalStep(rows, identity, k);
    if k > 0 {
      ExactWhileAccumulating(rows, identity, k - 1);
    }
  }

  /**
   The minutes add up to the cumulative amount at every row exactly when that amount
   never falls and starts non-negative.
   */
  lemma MinutesRecoverTotals(rows: seq<Row>, identity: string)
    requires Single(rows, identity)
    ensures forall k :: 0 <= k < |rows| ==> Recovered(rows, k) >= rows[k].cumulative
    ensures (forall k :: 0 <= k < |rows| ==> Recovered(rows, k) == rows[k].cumulative) <==> Accumulating(rows)
  {
    forall k | 0 <= k < |rows|
      ensures Recovered(rows, k) >= rows[k].cumulative
      ensures Accumulating(rows) ==> Recovered(rows, k) == rows[k].cumulative
    {
      NeverBelow(rows, identity, k);
      if Accumulating(rows) {
        ExactWhileAccumulating(rows, identity, k);
      }
    }
    if forall k :: 0 <= k < |rows| ==> Recovered(rows, k) == rows[k].cumulative {
      forall i | 0 < i < |rows|
        ensures rows[i - 1].cumulative <= rows[i].cumulative
      {
        TotalStep(rows, identity, i);
        assert Recovered(rows, i - 1) == rows[i - 1].cumulative && Recovered(rows, i) == rows[i].cumulative;
      }
      if rows != [] {
        TotalStep(rows, identity, 0);
        assert Recovered(rows, 0) == rows[0].cumulative;
      }
    }
  }
}
