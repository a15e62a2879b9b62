/**
 Index and board minute bars, and the normalisation both source providers run
 before they validate: rows of other dates go, repeated rows of one object and
 minute collapse, and two different rows for one object and minute conflict.
 */
module MinuteRows {
  import opened Bytes
  import opened SessionClock

  /** The five fields a bar must have; a missing or empty field is none. */
  datatype Figures = Figures(
    open: Option<string>, high: Option<string>, low: Option<string>, close: Option<string>, amount: Option<string>)

  predicate HasFields(f: Figures) {
    f.open.Some? && f.high.Some? && f.low.Some? && f.close.Some? && f.amount.Some?
  }

  /**
   One bar with a bar time. `material` stands for the other fields both providers
   compare, `adapter` for those only the second compares, `other` for the rest.
   */
  datatype Bar = Bar(
    kind: string, identity: string, code: string, symbol: string, time: nat,
    tradeDate: Option<nat>, sourceDate: Option<nat>, figures: Figures,
    material: string, adapter: string, fake: bool, other: string)

  /** Which provider normalises, and for which trade date (none when it was given none). */
  datatype Policy = Hint(date: Option<nat>) | Current(date: Option<nat>)

  const MIDDAY: nat := MORNING_CLOSE

  type Key = (string, string, nat)

  function KeyOf(policy: Policy, row: Bar): Key {
    (row.kind, if policy.Hint? then row.identity else Or(row.identity, Or(row.code, row.symbol)), LabelOf(row.time))
  }

  function RowDate(policy: Policy, row: Bar): nat {
    if row.tradeDate.Some? then row.tradeDate.value
    else if policy.Hint? && row.sourceDate.Some? then row.sourceDate.value
    else DateOf(row.time)
  }

  /** The two rows agree in every field the provider's signature covers. */
  predicate Equivalent(policy: Policy, a: Bar, b: Bar) {
    var adapter := if policy.Hint? then b.adapter else a.adapter;
    a.(symbol := b.symbol, fake := b.fake, other := b.other, adapter := adapter) == b
  }

  predicate OffDate(policy: Policy, row: Bar) {
    if policy.Hint? then policy.date != Some(RowDate(policy, row))
    else policy.date.Some? && policy.date.value != RowDate(policy, row)
  }

  predicate DropsMidday(policy: Policy, row: Bar) {
    policy.Current? && LabelOf(row.time) == MIDDAY
  }

  predicate Admitted(policy: Policy, row: Bar) {
    !OffDate(policy, row) && !DropsMidday(policy, row)
  }

  datatype Trace = Trace(raw: nat, offDate: nat, midday: nat, collapsed: nat, conflicts: nat)

  const EMPTY := Trace(0, 0, 0, 0, 0)

  /** The first admitted row of each key, in order. */
  function Survivors(policy: Policy, rows: seq<Bar>): seq<Bar> {
    if rows == [] then []
    else
      var before, row := Survivors(policy, rows[..|rows| - 1]), rows[|rows| - 1];
      if Admitted(policy, row) && !HasKey(policy, before, KeyOf(policy, row)) then before + [row] else before
  }

  predicate HasKey(policy: Policy, rows: seq<Bar>, key: Key) {
    exists r :: r in rows && KeyOf(policy, r) == key
  }

  /** The position of the row with that key, or the length. */
  function Holder(policy: Policy, rows: seq<Bar>, key: Key): (i: nat)
    ensures i <= |rows|
    ensures i < |rows| ==> KeyOf(policy, rows[i]) == key
    ensures i == |rows| <==> !HasKey(policy, rows, key)
  {
    if rows == [] then 0
    else if KeyOf(policy, rows[0]) == key then assert rows[0] in rows; 0
    else
      var i := Holder(policy, rows[1..], key);
      assert HasKey(policy, rows, key) <==> HasKey(policy, rows[1..], key) by {
        assert forall r :: r in rows <==> r == rows[0] || r in rows[1..];
      }
      i + 1
  }

  function Counted(policy: Policy, rows: seq<Bar>): Trace {
    if rows == [] then EMPTY
    else
      var init, row := rows[..|rows| - 1], rows[|rows| - 1];
      var t, before := Counted(policy, init), Survivors(policy, init);
      var u := t.(raw := t.raw + 1);
      if OffDate(policy, row) then u.(offDate := t.offDate + 1)
      else if DropsMidday(policy, row) then u.(midday := t.midday + 1)
      else
        var i := Holder(policy, before, KeyOf(policy, row));
        if i == |before| then u
        else if Equivalent(policy, before[i], row) then u.(collapsed := t.collapsed + 1)
        else u.(conflicts := t.conflicts + 1)
  }

  predicate DistinctKeys(policy: Policy, rows: seq<Bar>) {
    forall i, j :: 0 <= i < j < |rows| ==> KeyOf(policy, rows[i]) != KeyOf(policy, rows[j])
  }

  predicate AllAdmitted(policy: Policy, rows: seq<Bar>) {
    forall r :: r in rows ==> Admitted(policy, r)
  }

  /** One pass over the rows with a dictionary of the rows kept so far. */
  method Normalize(policy: Policy, rows: seq<Bar>) returns (kept: seq<Bar>, trace: Trace)
    ensures kept == Survivors(policy, rows)
    ensures trace == Counted(policy, rows)
  {
    hide RowDate, Equivalent, SeenMatches, KeyOf, OffDate, DropsMidday;
    kept, trace := [], EMPTY;
    var seen: map<Key, Bar> := map[];
    assert rows[..0] == [];
    NothingSeen(policy);
    for i := 0 to |rows|
      invariant kept == Survivors(policy, rows[..i]) && trace == Counted(policy, rows[..i])
      invariant SeenMatches(policy, seen, kept)
    {
      var row := rows[i];
      assert rows[..i + 1][..i] == rows[..i];
      trace := trace.(raw := trace.raw + 1);
      if OffDate(policy, row) {
        trace := trace.(offDate := trace.offDate + 1);
      } else if DropsMidday(policy, row) {
        trace := trace.(midday := trace.midday + 1);
      } else {
        var key := KeyOf(policy, row);
        SeenIsHolder(policy, seen, kept, key);
        if key in seen {
          if Equivalent(policy, seen[key], row) {
            trace := trace.(collapsed := trace.collapsed + 1);
          } else {
            trace := trace.(conflicts := trace.conflicts + 1);
          }
        } else {
          SeenGrows(policy, seen, kept, row);
          seen, kept := seen[key := row], kept + [row];
        }
      }
    }
    assert rows[..|rows|] == rows;
  }

  ghost predicate SeenMatches(policy: Policy, seen: map<Key, Bar>, kept: seq<Bar>) {
    && (forall k :: k in seen <==> HasKey(policy, kept, k))
    && (forall k :: k in seen ==> seen[k] in kept && KeyOf(policy, seen[k]) == k)
    && DistinctKeys(policy, kept)
  }

  lemma SeenIsHolder(policy: Policy, seen: map<Key, Bar>, kept: seq<Bar>, key: Key)
    requires SeenMatches(policy, seen, kept)
    ensures var j := Holder(policy, kept, key);
            if key in seen then j < |kept| && kept[j] == seen[key] else j == |kept|
  {
    hide KeyOf;
    if key in seen {
      var j := Holder(policy, kept, key);
      var i :| 0 <= i < |kept| && kept[i] == seen[key];
      assert i == j;
    }
  }

  lemma NothingSeen(policy: Policy)
    ensures SeenMatches(policy, map[], [])
  {
  }

  lemma SeenGrows(policy: Policy, seen: map<Key, Bar>, kept: seq<Bar>, row: Bar)
    requires SeenMatches(policy, seen, kept) && KeyOf(policy, row) !in seen
    ensures SeenMatches(policy, seen[KeyOf(policy, row) := row], kept + [row])
  {
  }

  // ----- What normalisation guarantees

  lemma {:induction false} SurvivorsAreDistinct(policy: Policy, rows: seq<Bar>)
    ensures DistinctKeys(policy, Survivors(policy, rows)) && AllAdmitted(policy, Survivors(policy, rows))
    ensures forall r :: r in Survivors(policy, rows) ==> r in rows
    decreases |rows|
  {
    hide KeyOf, Admitted;
    if rows != [] {
      SurvivorsAreDistinct(policy, rows[..|rows| - 1]);
      assert forall r :: r in rows[..|rows| - 1] ==> r in rows;
    }
  }

  /** The first admitted row of every object and minute is kept: with the lemma above, those rows and no others. */
  lemma {:induction false} FirstOfItsKeySurvives(policy: Policy, rows: seq<Bar>, i: nat)
    requires i < |rows| && Admitted(policy, rows[i])
    requires forall j :: 0 <= j < i && Admitted(policy, rows[j]) ==> KeyOf(policy, rows[j]) != KeyOf(policy, rows[i])
    ensures rows[i] in Survivors(policy, rows)
    decreases |rows|
  {
    hide KeyOf, Admitted;
    var init := rows[..|rows| - 1];
    if i < |init| {
      FirstOfItsKeySurvives(policy, init, i);
    } else {
      SurvivorsAreDistinct(policy, init);
      forall r | r in Survivors(policy, init)
        ensures KeyOf(policy, r) != KeyOf(policy, rows[i])
      {
        var j :| 0 <= j < |init| && init[j] == r;
        assert Admitted(policy, rows[j]);
      }
    }
  }

  /** One more row is kept, or counted in one of the four other ways. */
  lemma OneMoreCounted(policy: Policy, init: seq<Bar>, row: Bar)
    ensures var t, u := Counted(policy, init), Counted(policy, init + [row]);
            && u.raw == t.raw + 1
            && |Survivors(policy, init + [row])| + u.offDate + u.midday + u.collapsed + u.conflicts
               == |Survivors(policy, init)| + t.offDate + t.midday + t.collapsed + t.conflicts + 1
  {
    hide KeyOf, RowDate, Equivalent, OffDate, DropsMidday, HasKey, Holder;
    var rows := init + [row];
    assert rows[..|rows| - 1] == init && rows[|rows| - 1] == row;
  }

  /** Every row is counted in exactly one way. */
  lemma {:induction false} CountersConserveRows(policy: Policy, rows: seq<Bar>)
    ensures var t := Counted(policy, rows);
            t.raw == |rows| && t.raw == |Survivors(policy, rows)| + t.offDate + t.midday + t.collapsed + t.conflicts
    decreases |rows|
  {
    if rows != [] {
      hide Counted, Survivors;
      var init, row := rows[..|rows| - 1], rows[|rows| - 1];
      assert rows == init + [row];
      OneMoreCounted(policy, init, row);
      CountersConserveRows(policy, init);
    }
  }

  /** Two admitted rows for one object and minute that the signature tells apart. */
  ghost predicate Clash(policy: Policy, rows: seq<Bar>) {
    exists a, b :: a in rows && b in rows && Clashing(policy, a, b)
  }

  predicate Clashing(policy: Policy, a: Bar, b: Bar) {
    Admitted(policy, a) && Admitted(policy, b) && KeyOf(policy, a) == KeyOf(policy, b) && !Equivalent(policy, a, b)
  }

  /** Without conflicts so far, every admitted row agrees with the survivor of its key. */
  ghost predicate Represented(policy: Policy, rows: seq<Bar>, kept: seq<Bar>) {
    forall r :: r in rows && Admitted(policy, r) ==> Represents(policy, kept, r)
  }

  ghost predicate Represents(policy: Policy, kept: seq<Bar>, r: Bar) {
    exists s :: s in kept && KeyOf(policy, s) == KeyOf(policy, r) && Equivalent(policy, s, r)
  }

  lemma {:induction false} NoConflictMeansRepresented(policy: Policy, rows: seq<Bar>)
    requires Counted(policy, rows).conflicts == 0
    ensures Represented(policy, rows, Survivors(policy, rows))
    decreases |rows|
  {
    hide KeyOf, Admitted, Equivalent;
    if rows != [] {
      var init, row := rows[..|rows| - 1], rows[|rows| - 1];
      NoConflictMeansRepresented(policy, init);
      var before, after := Survivors(policy, init), Survivors(policy, rows);
      forall r | r in rows && Admitted(policy, r)
        ensures Represents(policy, after, r)
      {
        if r in init {
          assert Represents(policy, before, r);
        } else {
          LastRepresented(policy, rows);
        }
      }
    }
  }

  lemma LastRepresented(policy: Policy, rows: seq<Bar>)
    requires rows != [] && Counted(policy, rows).conflicts == 0 && Admitted(policy, rows[|rows| - 1])
    ensures Represents(policy, Survivors(policy, rows), rows[|rows| - 1])
  {
  }

  lemma {:induction false} ConflictMeansClash(policy: Policy, rows: seq<Bar>)
    requires Counted(policy, rows).conflicts > 0
    ensures Clash(policy, rows)
    decreases |rows|
  {
    hide KeyOf, RowDate, Equivalent;
    var init, row := rows[..|rows| - 1], rows[|rows| - 1];
    assert forall r :: r in init ==> r in rows;
    if Counted(policy, init).conflicts > 0 {
      ConflictMeansClash(policy, init);
    } else {
      var before := Survivors(policy, init);
      SurvivorsAreDistinct(policy, init);
      var s := before[Holder(policy, before, KeyOf(policy, row))];
      assert s in before && Clashing(policy, s, row);
    }
  }

  /** A conflict is reported exactly when two admitted rows of one key differ: the order of the rows plays no part. */
  lemma ConflictsAreClashes(policy: Policy, rows: seq<Bar>)
    ensures Counted(policy, rows).conflicts > 0 <==> Clash(policy, rows)
  {
    hide KeyOf, Admitted, Equivalent;
    if Counted(policy, rows).conflicts > 0 {
      ConflictMeansClash(policy, rows);
    } else {
      NoConflictMeansRepresented(policy, rows);
      SurvivorsAreDistinct(policy, rows);
      forall a, b | a in rows && b in rows && Admitted(policy, a) && Admitted(policy, b)
        && KeyOf(policy, a) == KeyOf(policy, b)
        ensures Equivalent(policy, a, b)
      {
        OneRepresentative(policy, Survivors(policy, rows), a, b);
      }
    }
  }

  lemma OneRepresentative(policy: Policy, kept: seq<Bar>, a: Bar, b: Bar)
    requires DistinctKeys(policy, kept) && Represents(policy, kept, a) && Represents(policy, kept, b)
    requires KeyOf(policy, a) == KeyOf(policy, b)
    ensures Equivalent(policy, a, b)
  {
  }

  lemma SameRowsSameConflict(policy: Policy, rows: seq<Bar>, shuffled: seq<Bar>)
    requires multiset(rows) == multiset(shuffled)
    ensures Counted(policy, rows).conflicts > 0 <==> Counted(policy, shuffled).conflicts > 0
  {
    ConflictsAreClashes(policy, rows);
    ConflictsAreClashes(policy, shuffled);
    assert forall r :: r in rows <==> r in multiset(rows);
    assert forall r :: r in shuffled <==> r in multiset(shuffled);
  }

  lemma NewRowStays(policy: Policy, init: seq<Bar>, row: Bar)
    requires Admitted(policy, row) && !HasKey(policy, Survivors(policy, init), KeyOf(policy, row))
    ensures Survivors(policy, init + [row]) == Survivors(policy, init) + [row]
    ensures var t := Counted(policy, init); Counted(policy, init + [row]) == t.(raw := t.raw + 1)
  {
  }

  lemma NoRows(policy: Policy)
    ensures Survivors(policy, []) == [] && Counted(policy, []) == EMPTY
  {
  }

  lemma {:induction false} NothingToNormalize(policy: Policy, rows: seq<Bar>)
    requires DistinctKeys(policy, rows) && AllAdmitted(policy, rows)
    ensures Survivors(policy, rows) == rows && Counted(policy, rows) == EMPTY.(raw := |rows|)
    decreases |rows|
  {
    hide KeyOf, Admitted, Counted, Survivors;
    NoRows(policy);
    if rows != [] {
      var init, row := rows[..|rows| - 1], rows[|rows| - 1];
      NothingToNormalize(policy, init);
      assert row in rows;
      forall r | r in init
        ensures KeyOf(policy, r) != KeyOf(policy, row)
      {
        var i :| 0 <= i < |init| && init[i] == r;
        assert rows[i] == r;
      }
      assert rows == init + [row];
      NewRowStays(policy, init, row);
    }
  }

  /** A second pass changes nothing and drops nothing. */
  lemma NormalizingTwice(policy: Policy, rows: seq<Bar>)
    ensures var kept := Survivors(policy, rows);
            Survivors(policy, kept) == kept && Counted(policy, kept) == EMPTY.(raw := |kept|)
  {
    SurvivorsAreDistinct(policy, rows);
    NothingToNormalize(policy, Survivors(policy, rows));
  }

  // ----- Which rows stay, said of the rows themselves

  /** The date a row is for: its own, for the first provider else that of its source, else that of its bar time. */
  predicate IsFor(hint: bool, row: Bar, date: nat) {
    || row.tradeDate == Some(date)
    || (row.tradeDate == None && hint && row.sourceDate == Some(date))
    || (row.tradeDate == None && (hint ==> row.sourceDate == None) && row.time / 86_400_000_000 == date)
  }

  predicate AtHalfPastEleven(row: Bar) {
    row.time % 86_400_000_000 / 60_000_000 == 690
  }

  predicate SameMinuteOfDay(a: Bar, b: Bar) {
    a.time % 86_400_000_000 / 60_000_000 == b.time % 86_400_000_000 / 60_000_000
  }

  /** What the second provider calls a row's object. */
  predicate Names(row: Bar, name: string) {
    if row.identity != "" then name == row.identity
    else if row.code != "" then name == row.code else name == row.symbol
  }

  /** The two rows are about one object and one minute. */
  ghost predicate SamePlace(hint: bool, a: Bar, b: Bar) {
    && a.kind == b.kind && SameMinuteOfDay(a, b)
    && if hint then a.identity == b.identity else exists name :: Names(a, name) && Names(b, name)
  }

  lemma PlacesAreKeys(policy: Policy, a: Bar, b: Bar)
    ensures KeyOf(policy, a) == KeyOf(policy, b) <==> SamePlace(policy.Hint?, a, b)
  {
    var name := Or(a.identity, Or(a.code, a.symbol));
    assert Names(a, name);
  }

  /** Nothing to drop and nothing to merge: rows of the date, for different objects or minutes, all stay in order. */
  lemma AllOnDateStay(policy: Policy, rows: seq<Bar>)
    requires policy.Hint? ==> policy.date.Some?
    requires forall r :: r in rows && policy.date.Some? ==> IsFor(policy.Hint?, r, policy.date.value)
    requires policy.Current? ==> forall r :: r in rows ==> !AtHalfPastEleven(r)
    requires forall i, j :: 0 <= i < j < |rows| ==> !SamePlace(policy.Hint?, rows[i], rows[j])
    ensures Survivors(policy, rows) == rows && Counted(policy, rows) == Trace(|rows|, 0, 0, 0, 0)
  {
    hide KeyOf, SamePlace;
    forall i, j | 0 <= i < j < |rows|
      ensures KeyOf(policy, rows[i]) != KeyOf(policy, rows[j])
    {
      PlacesAreKeys(policy, rows[i], rows[j]);
    }
    NothingToNormalize(policy, rows);
  }

  /** Rows of other dates all go, and are counted as that. */
  lemma {:induction false} NoneOffDateStays(policy: Policy, rows: seq<Bar>)
    requires policy.date.None? ==> policy.Hint?
    requires forall r :: r in rows && policy.date.Some? ==> !IsFor(policy.Hint?, r, policy.date.value)
    ensures Survivors(policy, rows) == [] && Counted(policy, rows) == Trace(|rows|, |rows|, 0, 0, 0)
    decreases |rows|
  {
    if rows != [] {
      NoneOffDateStays(policy, rows[..|rows| - 1]);
      assert rows[|rows| - 1] in rows;
    }
  }

  /** The second provider drops the 11:30 rows of the date. */
  lemma {:induction false} NoneAtHalfPastElevenStays(date: Option<nat>, rows: seq<Bar>)
    requires forall r :: r in rows ==> AtHalfPastEleven(r) && (date.Some? ==> IsFor(false, r, date.value))
    ensures Survivors(Current(date), rows) == [] && Counted(Current(date), rows) == Trace(|rows|, 0, |rows|, 0, 0)
    decreases |rows|
  {
    if rows != [] {
      NoneAtHalfPastElevenStays(date, rows[..|rows| - 1]);
      assert rows[|rows| - 1] in rows;
    }
  }

  lemma OnDateIsAdmitted(policy: Policy, row: Bar)
    requires policy.Hint? ==> policy.date.Some?
    requires policy.date.Some? ==> IsFor(policy.Hint?, row, policy.date.value)
    requires policy.Current? ==> !AtHalfPastEleven(row)
    ensures Admitted(policy, row)
  {
  }

  /**
   Two rows of the date for one object and minute: the first stays. The second is
   merged when they agree in the listed fields, and is a conflict when they do not.
   */
  lemma TwoForOnePlace(policy: Policy, a: Bar, b: Bar)
    requires policy.Hint? ==> policy.date.Some?
    requires policy.date.Some? ==>
               IsFor(policy.Hint?, a, policy.date.value) && IsFor(policy.Hint?, b, policy.date.value)
    requires policy.Current? ==> !AtHalfPastEleven(a)
    requires SamePlace(policy.Hint?, a, b)
    ensures Survivors(policy, [a, b]) == [a]
    ensures var agree := && a.identity == b.identity && a.code == b.code && a.time == b.time
                         && a.tradeDate == b.tradeDate && a.sourceDate == b.sourceDate
                         && a.figures.open == b.figures.open && a.figures.high == b.figures.high
                         && a.figures.low == b.figures.low && a.figures.close == b.figures.close
                         && a.figures.amount == b.figures.amount && a.material == b.material
                         && (policy.Current? ==> a.adapter == b.adapter);
            Counted(policy, [a, b]) == if agree then Trace(2, 0, 0, 1, 0) else Trace(2, 0, 0, 0, 1)
  {
    PlacesAreKeys(policy, a, b);
    OnDateIsAdmitted(policy, a);
    OnDateIsAdmitted(policy, b);
    NoRows(policy);
    assert [a, b] == [a] + [b] && [a] == [] + [a];
    NewRowStays(policy, [], a);
    assert [a, b][..1] == [a];
  }
}
