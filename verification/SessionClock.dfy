/** Exchange-local times in microseconds, and the canonical proof minute of a stock quote. */
module SessionClock {
  const MINUTE: nat := 60_000_000
  const DAY: nat := 1440 * MINUTE

  const MORNING_OPEN: nat := 571
  const MORNING_CLOSE: nat := 690
  const AFTERNOON_OPEN: nat := 780
  const MARKET_CLOSE: nat := 900

  function DateOf(time: nat): nat {
    time / DAY
  }

  /** The minute label of a time, as minutes since midnight; labels order like their HH:MM text. */
  function LabelOf(time: nat): (minute: nat)
    ensures minute < 1440
  {
    time % DAY / MINUTE
  }

  function At(day: nat, minute: nat): nat {
    day * DAY + minute * MINUTE
  }

  /** Every time is some rest of a minute after a minute of a day, and dated and labelled as that. */
  lemma TimesAreLabelled(day: nat, minute: nat, rest: nat)
    requires minute < 1440 && rest < 60_000_000
    ensures var time := day * 86_400_000_000 + minute * 60_000_000 + rest;
            DateOf(time) == day && LabelOf(time) == minute && At(day, minute) == time - rest
  {
    var inDay := minute * MINUTE + rest;
    assert inDay / MINUTE == minute;
  }

  function CeilMinute(time: nat): (c: nat)
    ensures time <= c < time + MINUTE && c % MINUTE == 0
  {
    if time % MINUTE == 0 then time else time - time % MINUTE + MINUTE
  }

  function Min(a: nat, b: nat): nat {
    if a <= b then a else b
  }

  datatype Mapped = Mapped(time: nat, reason: Reason)
  datatype Reason = PreOpen | ExactBoundary | CeilToNext | LunchBreak | PostClose

  /** Maps a quote's server time to its canonical proof minute on the trade date. */
  function Canonicalize(raw: nat, day: nat): Mapped {
    if raw < At(day, MORNING_OPEN) then Mapped(At(day, MORNING_OPEN), PreOpen)
    else if raw <= At(day, MORNING_CLOSE) then Rounded(raw, Min(CeilMinute(raw), At(day, MORNING_CLOSE)))
    else if raw < At(day, AFTERNOON_OPEN) then Mapped(At(day, MORNING_CLOSE), LunchBreak)
    else if raw <= At(day, MARKET_CLOSE) then Rounded(raw, Min(CeilMinute(raw), At(day, MARKET_CLOSE)))
    else Mapped(At(day, MARKET_CLOSE), PostClose)
  }

  function Rounded(raw: nat, canonical: nat): Mapped {
    Mapped(canonical, if raw == canonical then ExactBoundary else CeilToNext)
  }

  function Canonical(raw: nat, day: nat): nat {
    Canonicalize(raw, day).time
  }

  predicate SessionMinute(minute: nat) {
    571 <= minute <= 690 || 780 <= minute <= 900
  }

  /** `t` is a whole minute of one of the two sessions of the trade date. */
  ghost predicate OnSessionMinute(t: nat, day: nat) {
    exists minute :: SessionMinute(minute) && t == At(day, minute)
  }

  /** `t` lies inside a session of the trade date, on a whole minute or not. */
  predicate InSession(t: nat, day: nat) {
    At(day, MORNING_OPEN) <= t <= At(day, MORNING_CLOSE) || At(day, AFTERNOON_OPEN) <= t <= At(day, MARKET_CLOSE)
  }

  /** Rounding up commutes with moving by whole minutes. */
  lemma CeilShifts(minutes: nat, offset: nat)
    ensures CeilMinute(minutes * MINUTE + offset) == minutes * MINUTE + CeilMinute(offset)
  {
    assert (minutes * MINUTE + offset) % MINUTE == offset % MINUTE;
  }

  /** Inside a session, rounding up ends on one of its minutes. */
  lemma CeilInSession(raw: nat, day: nat, open: nat, close: nat) returns (minute: nat)
    requires At(day, open) <= raw <= At(day, close)
    ensures open <= minute <= close && CeilMinute(raw) == At(day, minute)
  {
    hide CeilMinute;
    var offset := raw - At(day, 0);
    CeilShifts(day * 1440, offset);
    minute := CeilMinute(offset) / MINUTE;
    assert open * MINUTE <= CeilMinute(offset) == minute * MINUTE < close * MINUTE + MINUTE;
  }

  /** The reason tells where the quote stood and whether it moved. */
  lemma ReasonIsExact(raw: nat, day: nat)
    ensures var m := Canonicalize(raw, day);
            && (m.reason == ExactBoundary <==> OnSessionMinute(raw, day))
            && (m.reason == CeilToNext <==> InSession(raw, day) && raw < m.time)
            && (m.reason == PreOpen <==> forall s :: SessionMinute(s) ==> raw < At(day, s))
            && (m.reason == PostClose <==> forall s :: SessionMinute(s) ==> At(day, s) < raw)
  {
    assert SessionMinute(MORNING_OPEN) && SessionMinute(MARKET_CLOSE);
    LandsInSession(raw, day);
    if OnSessionMinute(raw, day) {
      var s :| SessionMinute(s) && raw == At(day, s);
      SessionMinuteStays(day, s);
    }
  }

  lemma LandsInSession(raw: nat, day: nat)
    ensures OnSessionMinute(Canonical(raw, day), day)
  {
    hide CeilMinute, At;
    var minute: nat := MORNING_OPEN;
    if raw < At(day, MORNING_OPEN) {
    } else if raw <= At(day, MORNING_CLOSE) {
      minute := CeilInSession(raw, day, MORNING_OPEN, MORNING_CLOSE);
    } else if raw < At(day, AFTERNOON_OPEN) {
      minute := MORNING_CLOSE;
    } else if raw <= At(day, MARKET_CLOSE) {
      minute := CeilInSession(raw, day, AFTERNOON_OPEN, MARKET_CLOSE);
    } else {
      minute := MARKET_CLOSE;
    }
    assert SessionMinute(minute) && (Canonical(raw, day) == At(day, minute)) by {
      AtGrows(day, minute, MORNING_CLOSE);
      AtGrows(day, minute, MARKET_CLOSE);
    }
  }

  lemma AtGrows(day: nat, a: nat, b: nat)
    ensures a <= b ==> At(day, a) <= At(day, b)
  {
  }

  /** In-session times move forward by less than a minute; a canonical minute does not move. */
  lemma MovesForward(raw: nat, day: nat)
    requires InSession(raw, day)
    ensures raw <= Canonical(raw, day) < raw + MINUTE
  {
  }

  lemma Monotone(a: nat, b: nat, day: nat)
    requires a <= b
    ensures Canonical(a, day) <= Canonical(b, day)
  {
    if a % MINUTE != 0 && b < CeilMinute(a) {
      SameMinuteCeil(a, b);
    }
  }

  lemma SameMinuteCeil(a: nat, b: nat)
    requires a <= b
    ensures CeilMinute(a) <= CeilMinute(b)
  {
  }

  lemma Idempotent(raw: nat, day: nat)
    ensures Canonical(Canonical(raw, day), day) == Canonical(raw, day)
  {
  }

  /**
   What the mapping means: outside the breaks, the first session minute not before
   the quote; in the lunch break and after the close, the last one before it.
   */
  lemma CanonicalIsNearest(raw: nat, day: nat, s: nat)
    requires SessionMinute(s)
    ensures At(day, MORNING_CLOSE) < raw < At(day, AFTERNOON_OPEN) || At(day, MARKET_CLOSE) < raw ==>
              Canonical(raw, day) <= raw && (At(day, s) <= raw ==> At(day, s) <= Canonical(raw, day))
    ensures !(At(day, MORNING_CLOSE) < raw < At(day, AFTERNOON_OPEN)) && raw <= At(day, MARKET_CLOSE) ==>
              raw <= Canonical(raw, day) && (raw <= At(day, s) ==> Canonical(raw, day) <= At(day, s))
  {
    SessionMinuteStays(day, s);
    if raw <= At(day, s) {
      Monotone(raw, At(day, s), day);
    } else {
      Monotone(At(day, s), raw, day);
    }
  }

  lemma SessionMinuteStays(day: nat, s: nat)
    requires SessionMinute(s)
    ensures Canonical(At(day, s), day) == At(day, s)
  {
  }

  /** The canonical minute is on the trade date and never past the close. */
  lemma NeverPastClose(raw: nat, day: nat)
    ensures DateOf(Canonical(raw, day)) == day && LabelOf(Canonical(raw, day)) <= MARKET_CLOSE
  {
  }
}
