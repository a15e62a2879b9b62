/**
 The mixed current source: stock quotes mapped to canonical minutes, index and
 board bars normalised, one proof time over both, and the validator that runs
 before anything is written.
 */
module CurrentSource {
  import opened Bytes
  import opened SessionClock
  import opened MinuteRows

  /** A quote: its server time, if that parses, and what the validator looks at. */
  datatype Quote = Quote(
    identity: string, raw: Option<nat>, canonical: Option<nat>, priced: bool, hasAmount: bool, fake: bool)

  /** How many objects are asked for, and the identities of those that have one. */
  datatype Scope = Scope(stockCount: nat, barCount: nat, stocks: set<string>, objects: set<string>)

  /** `stockMinutes` counts rows under the stock minute keys, which the provider never fills. */
  datatype Payload = Payload(
    date: Option<nat>, quotes: seq<Quote>, bars: seq<Bar>, proof: Option<nat>, stockMinutes: nat)

  /**
   What the row fetcher returned; `fallback` is the time that came with it, and
   `traced` says that it normalised its bars itself and they are taken as they are.
   */
  datatype Fetched = Fetched(quotes: seq<Quote>, bars: seq<Bar>, fallback: Option<nat>, traced: bool)

  datatype Reason =
    | QuotesAbsent | BarsAbsent | QuotesMissing | BarsMissing | FakeMarker | MiddayLabel | AfterProof
    | DateMismatch | Duplicate | FieldsMissing | PriceMissing | AmountMissing | StockMinutesForbidden

  datatype Outcome =
    | NotNormalized | MiddayStale | NoProofTime | PostClose | Relabelled
    | PayloadBlocked(reasons: set<Reason>) | Ready(payload: Payload)

  // ----- Normalising the quotes

  predicate Mappable(quote: Quote, date: Option<nat>) {
    quote.raw.Some? && date.Some?
  }

  function MappedQuote(quote: Quote, date: Option<nat>): Quote {
    if Mappable(quote, date) then quote.(canonical := Some(Canonical(quote.raw.value, date.value))) else quote
  }

  /** How many quotes have no canonical time. */
  function Unmappable(quotes: seq<Quote>, date: Option<nat>): nat {
    if quotes == [] then 0
    else Unmappable(quotes[..|quotes| - 1], date) + if Mappable(quotes[|quotes| - 1], date) then 0 else 1
  }

  lemma {:induction false} NoneUnmappable(quotes: seq<Quote>, date: Option<nat>)
    ensures Unmappable(quotes, date) == 0 <==> forall q :: q in quotes ==> Mappable(q, date)
    decreases |quotes|
  {
    hide Mappable;
    if quotes != [] {
      var init, last := quotes[..|quotes| - 1], quotes[|quotes| - 1];
      NoneUnmappable(init, date);
      assert forall q :: q in quotes <==> q in init || q == last;
    }
  }

  method NormalizeQuotes(quotes: seq<Quote>, date: Option<nat>) returns (mapped: seq<Quote>, failures: nat)
    ensures |mapped| == |quotes| && forall i :: 0 <= i < |quotes| ==> mapped[i] == MappedQuote(quotes[i], date)
    ensures failures == Unmappable(quotes, date)
  {
    hide Mappable, MappedQuote;
    mapped, failures := [], 0;
    assert quotes[..0] == [];
    for i := 0 to |quotes|
      invariant |mapped| == i && forall j :: 0 <= j < i ==> mapped[j] == MappedQuote(quotes[j], date)
      invariant failures == Unmappable(quotes[..i], date)
    {
      assert quotes[..i + 1][..i] == quotes[..i];
      if !Mappable(quotes[i], date) {
        failures := failures + 1;
      }
      mapped := mapped + [MappedQuote(quotes[i], date)];
    }
    assert quotes[..|quotes|] == quotes;
  }

  // ----- The proof time

  /** The time a quote stands for: its canonical time, or its raw time when it has none. */
  function QuoteTime(quote: Quote): Option<nat> {
    if quote.canonical.Some? then quote.canonical else quote.raw
  }

  /** `t` is the time of some row, and no row is later. */
  ghost predicate IsLatest(t: Option<nat>, quotes: seq<Quote>, bars: seq<Bar>) {
    && (t == None <==> bars == [] && forall q :: q in quotes ==> QuoteTime(q) == None)
    && (t.Some? ==>
          && (QuoteAt(quotes, t.value) || BarAt(bars, t.value))
          && (forall q :: q in quotes && QuoteTime(q).Some? ==> QuoteTime(q).value <= t.value)
          && (forall b :: b in bars ==> b.time <= t.value))
  }

  ghost predicate QuoteAt(quotes: seq<Quote>, t: nat) {
    exists q :: q in quotes && QuoteTime(q) == Some(t)
  }

  ghost predicate BarAt(bars: seq<Bar>, t: nat) {
    exists b :: b in bars && b.time == t
  }

  function Later(a: Option<nat>, b: Option<nat>): Option<nat> {
    if a == None then b else if b == None || a.value >= b.value then a else b
  }

  method DeriveProofTime(quotes: seq<Quote>, bars: seq<Bar>) returns (latest: Option<nat>)
    ensures IsLatest(latest, quotes, bars)
  {
    latest := None;
    assert quotes[..0] == [];
    for i := 0 to |quotes|
      invariant IsLatest(latest, quotes[..i], [])
    {
      OneMoreQuote(latest, quotes, i);
      latest := Later(latest, QuoteTime(quotes[i]));
    }
    assert quotes[..|quotes|] == quotes && bars[..0] == [];
    for i := 0 to |bars|
      invariant IsLatest(latest, quotes, bars[..i])
    {
      OneMoreBar(latest, quotes, bars, i);
      latest := Later(latest, Some(bars[i].time));
    }
    assert bars[..|bars|] == bars;
  }

  lemma OneMoreQuote(t: Option<nat>, quotes: seq<Quote>, i: nat)
    requires i < |quotes| && IsLatest(t, quotes[..i], [])
    ensures IsLatest(Later(t, QuoteTime(quotes[i])), quotes[..i + 1], [])
  {
  }

  lemma OneMoreBar(t: Option<nat>, quotes: seq<Quote>, bars: seq<Bar>, i: nat)
    requires i < |bars| && IsLatest(t, quotes, bars[..i])
    ensures IsLatest(Later(t, Some(bars[i].time)), quotes, bars[..i + 1])
  {
  }

  // ----- Validation

  predicate BarFault(bar: Bar, p: Payload, reason: Reason) {
    match reason
    case FakeMarker => bar.fake
    case MiddayLabel => LabelOf(bar.time) == MIDDAY
    case AfterProof => p.proof.Some? && bar.time > p.proof.value
    case DateMismatch => p.date.Some? && RowDate(Current(p.date), bar) != p.date.value
    case FieldsMissing => !HasFields(bar.figures)
    case _ => false
  }

  predicate QuoteFault(quote: Quote, p: Payload, reason: Reason) {
    match reason
    case FakeMarker => quote.fake
    case PriceMissing => !quote.priced
    case AmountMissing => !quote.hasAmount
    case DateMismatch => p.date.Some? && quote.raw.Some? && DateOf(quote.raw.value) != p.date.value
    case AfterProof => p.proof.Some? && QuoteTime(quote).Some? && QuoteTime(quote).value > p.proof.value
    case _ => false
  }

  predicate SameKey(a: Bar, b: Bar, date: Option<nat>) {
    KeyOf(Current(date), a) == KeyOf(Current(date), b)
  }

  /** Whether the payload as a whole, rather than one row, is at fault. */
  predicate ScopeFault(p: Payload, scope: Scope, reason: Reason) {
    match reason
    case QuotesAbsent => scope.stockCount > 0 && p.quotes == []
    case BarsAbsent => scope.barCount > 0 && p.bars == []
    case QuotesMissing => exists id :: id in scope.stocks && forall q :: q in p.quotes ==> q.identity != id
    case BarsMissing => exists id :: id in scope.objects && forall b :: b in p.bars ==> b.identity != id
    case StockMinutesForbidden => p.stockMinutes > 0
    case _ => false
  }

  /** When the validator reports `reason`. */
  ghost predicate Reported(p: Payload, scope: Scope, reason: Reason) {
    || ScopeFault(p, scope, reason)
    || (reason == Duplicate && exists i, j :: 0 <= i < j < |p.bars| && SameKey(p.bars[i], p.bars[j], p.date))
    || (exists i :: 0 <= i < |p.bars| && BarFault(p.bars[i], p, reason))
    || (exists i :: 0 <= i < |p.quotes| && QuoteFault(p.quotes[i], p, reason))
  }

  function BarFaults(bar: Bar, p: Payload): (faults: set<Reason>)
    ensures forall reason :: reason in faults <==> BarFault(bar, p, reason)
  {
    If(bar.fake, FakeMarker) + If(LabelOf(bar.time) == MIDDAY, MiddayLabel)
    + If(BarFault(bar, p, AfterProof), AfterProof) + If(BarFault(bar, p, DateMismatch), DateMismatch)
    + If(!HasFields(bar.figures), FieldsMissing)
  }

  function QuoteFaults(quote: Quote, p: Payload): (faults: set<Reason>)
    ensures forall reason :: reason in faults <==> QuoteFault(quote, p, reason)
  {
    If(quote.fake, FakeMarker) + If(!quote.priced, PriceMissing) + If(!quote.hasAmount, AmountMissing)
    + If(QuoteFault(quote, p, DateMismatch), DateMismatch) + If(QuoteFault(quote, p, AfterProof), AfterProof)
  }

  method ScanBars(p: Payload) returns (reasons: set<Reason>)
    ensures forall reason :: reason in reasons <==>
              || (reason == Duplicate && exists i, j :: 0 <= i < j < |p.bars| && SameKey(p.bars[i], p.bars[j], p.date))
              || exists i :: 0 <= i < |p.bars| && BarFault(p.bars[i], p, reason)
  {
    hide BarFault, KeyOf;
    reasons := {};
    var seen: set<Key> := {};
    for i := 0 to |p.bars|
      invariant forall k :: k in seen <==> exists j :: 0 <= j < i && k == KeyOf(Current(p.date), p.bars[j])
      invariant forall reason :: reason in reasons <==>
                  || (reason == Duplicate && exists j, l :: 0 <= j < l < i && SameKey(p.bars[j], p.bars[l], p.date))
                  || exists j :: 0 <= j < i && BarFault(p.bars[j], p, reason)
    {
      var key := KeyOf(Current(p.date), p.bars[i]);
      reasons := reasons + BarFaults(p.bars[i], p) + If(key in seen, Duplicate);
      seen := seen + {key};
    }
  }

  method ScanQuotes(p: Payload) returns (reasons: set<Reason>)
    ensures forall reason ::
            reason in reasons
            <==> exists i :: 0 <= i < |p.quotes| && QuoteFault(p.quotes[i], p, reason)
  {
    hide QuoteFault;
    reasons := {};
    for i := 0 to |p.quotes|
      invariant forall reason :: reason in reasons <==> exists j :: 0 <= j < i && QuoteFault(p.quotes[j], p, reason)
    {
      reasons := reasons + QuoteFaults(p.quotes[i], p);
    }
  }

  function ScopeFaults(p: Payload, scope: Scope): (faults: set<Reason>)
    ensures forall reason :: reason in faults <==> ScopeFault(p, scope, reason)
  {
    If(ScopeFault(p, scope, QuotesAbsent), QuotesAbsent) + If(ScopeFault(p, scope, BarsAbsent), BarsAbsent)
    + If(ScopeFault(p, scope, QuotesMissing), QuotesMissing) + If(ScopeFault(p, scope, BarsMissing), BarsMissing)
    + If(ScopeFault(p, scope, StockMinutesForbidden), StockMinutesForbidden)
  }

  method Validate(p: Payload, scope: Scope) returns (reasons: set<Reason>)
    ensures forall reason :: reason in reasons <==> Reported(p, scope, reason)
  {
    hide BarFault, QuoteFault, ScopeFault, SameKey;
    var bars := ScanBars(p);
    var quotes := ScanQuotes(p);
    reasons := ScopeFaults(p, scope) + bars + quotes;
  }

  // ----- The whole fetch

  /** A quote stuck at the morning close while bars already show the afternoon open. */
  predicate StaleAtMidday(quotes: Option<nat>, bars: Option<nat>) {
    quotes.Some? && bars.Some? && LabelOf(quotes.value) == MORNING_CLOSE && LabelOf(bars.value) == AFTERNOON_OPEN
  }

  ghost predicate Stale(quotes: seq<Quote>, bars: seq<Bar>) {
    exists latestQuote, latestBar ::
      IsLatest(latestQuote, quotes, []) && IsLatest(latestBar, [], bars) && StaleAtMidday(latestQuote, latestBar)
  }

  lemma LatestIsUnique(a: Option<nat>, b: Option<nat>, quotes: seq<Quote>, bars: seq<Bar>)
    requires IsLatest(a, quotes, bars) && IsLatest(b, quotes, bars)
    ensures a == b
  {
  }

  lemma StaleIsExact(latestQuote: Option<nat>, latestBar: Option<nat>, quotes: seq<Quote>, bars: seq<Bar>)
    requires IsLatest(latestQuote, quotes, []) && IsLatest(latestBar, [], bars)
    ensures Stale(quotes, bars) <==> StaleAtMidday(latestQuote, latestBar)
  {
  }

  predicate CanonicalOn(quote: Quote, date: Option<nat>) {
    quote.raw.Some? && date.Some? && quote.canonical == Some(Canonical(quote.raw.value, date.value))
  }

  /** The bars that are used. */
  function BarsUsed(date: Option<nat>, f: Fetched): seq<Bar> {
    if f.traced then f.bars else Survivors(Current(date), f.bars)
  }

  /** The payload as the provider puts it together: these quotes mapped, the bars to be used, and one proof time. */
  ghost predicate Built(p: Payload, date: Option<nat>, f: Fetched) {
    && p.date == date && p.stockMinutes == 0
    && |p.quotes| == |f.quotes| && p.bars == BarsUsed(date, f)
    && (forall i :: 0 <= i < |f.quotes| ==>
          Mappable(f.quotes[i], date) && p.quotes[i] == MappedQuote(f.quotes[i], date))
    && exists derived :: IsLatest(derived, p.quotes, p.bars) && p.proof == if derived.Some? then derived else f.fallback
  }

  /** The fetch determines the payload. */
  lemma BuiltIsUnique(
    p: Payload, r: Payload, date: Option<nat>, f: Fetched)
    requires Built(p, date, f) && Built(r, date, f)
    ensures p == r
  {
    hide IsLatest, Survivors, MappedQuote, Mappable;
    assert p.quotes == r.quotes;
    var a :| IsLatest(a, p.quotes, p.bars) && p.proof == if a.Some? then a else f.fallback;
    var b :| IsLatest(b, r.quotes, r.bars) && r.proof == if b.Some? then b else f.fallback;
    LatestIsUnique(a, b, p.quotes, p.bars);
  }

  predicate PastClose(time: nat) {
    LabelOf(time) > MARKET_CLOSE
  }

  function DigitOf(n: nat): char
    requires n < 10
  {
    "0123456789"[n]
  }

  function TwoDigits(n: nat): (text: string)
    requires n < 100
    ensures |text| == 2
  {
    [DigitOf(n / 10), DigitOf(n % 10)]
  }

  lemma TwoDigitsName(a: nat, b: nat)
    requires a < 100 && b < 100 && TwoDigits(a) == TwoDigits(b)
    ensures a == b
  {
    assert DigitOf(a / 10) == TwoDigits(a)[0] == TwoDigits(b)[0] == DigitOf(b / 10);
    assert DigitOf(a % 10) == TwoDigits(a)[1] == TwoDigits(b)[1] == DigitOf(b % 10);
    DigitsDiffer(a / 10, b / 10);
    DigitsDiffer(a % 10, b % 10);
  }

  lemma DigitsDiffer(i: nat, j: nat)
    requires i < 10 && j < 10 && DigitOf(i) == DigitOf(j)
    ensures i == j
  {
  }

  /** A minute label as four digits. */
  function Hhmm(minute: nat): (text: string)
    requires minute < 1440
    ensures |text| == 4
  {
    TwoDigits(minute / 60) + TwoDigits(minute % 60)
  }

  lemma HhmmNamesTheMinute(a: nat, b: nat)
    requires a < 1440 && b < 1440 && Hhmm(a) == Hhmm(b)
    ensures a == b
  {
    hide TwoDigits;
    assert Hhmm(a)[..2] == TwoDigits(a / 60) && Hhmm(b)[..2] == TwoDigits(b / 60);
    assert Hhmm(a)[2..] == TwoDigits(a % 60) && Hhmm(b)[2..] == TwoDigits(b % 60);
    TwoDigitsName(a / 60, b / 60);
    TwoDigitsName(a % 60, b % 60);
  }

  /** The minute that was asked for, directly or in the target's name, is another one. */
  predicate OtherMinute(requested: string, target: string, proof: nat) {
    Or(requested, target) != "" && Or(requested, target) != Hhmm(LabelOf(proof))
  }

  /** Which check decides about the payload, in the provider's order, and what it answers. */
  ghost predicate Decided(p: Payload, requested: string, target: string, scope: Scope, outcome: Outcome) {
    if Stale(p.quotes, p.bars) then outcome.MiddayStale?
    else if p.proof == None then outcome.NoProofTime?
    else if PastClose(p.proof.value) then outcome.PostClose?
    else if OtherMinute(requested, target, p.proof.value) then outcome.Relabelled?
    else if exists reason :: Reported(p, scope, reason) then
      outcome.PayloadBlocked? && forall reason :: reason in outcome.reasons <==> Reported(p, scope, reason)
    else outcome == Ready(p)
  }

  /** The rows before validation: every quote mapped, and the bars normalised unless the fetcher did so. */
  method NormalizeFetched(date: Option<nat>, f: Fetched) returns (rows: Option<(seq<Quote>, seq<Bar>)>)
    ensures rows == None <==>
              || (!f.traced && Clash(Current(date), f.bars))
              || exists q :: q in f.quotes && (q.raw == None || date == None)
    ensures rows.Some? ==> |rows.value.0| == |f.quotes| && rows.value.1 == BarsUsed(date, f)
    ensures rows.Some? ==> forall i :: 0 <= i < |f.quotes| ==> rows.value.0[i] == MappedQuote(f.quotes[i], date)
  {
    hide MappedQuote;
    var mapped, failures := NormalizeQuotes(f.quotes, date);
    NoneUnmappable(f.quotes, date);
    if f.traced {
      return if failures != 0 then None else Some((mapped, f.bars));
    }
    var bars, trace := Normalize(Current(date), f.bars);
    ConflictsAreClashes(Current(date), f.bars);
    return if failures != 0 || trace.conflicts != 0 then None else Some((mapped, bars));
  }

  method FetchRows(date: Option<nat>, f: Fetched, requested: string, target: string, scope: Scope)
    returns (outcome: Outcome)
    ensures outcome.NotNormalized? <==>
              || (!f.traced && Clash(Current(date), f.bars))
              || exists q :: q in f.quotes && (q.raw == None || date == None)
    ensures !outcome.NotNormalized? ==>
              exists p :: Built(p, date, f) && Decided(p, requested, target, scope, outcome)
  {
    hide Reported, IsLatest, MappedQuote, Stale, StaleAtMidday, LabelOf, Hhmm, BarsUsed, Clash;
    var rows := NormalizeFetched(date, f);
    if rows == None {
      return NotNormalized;
    }
    var (mapped, bars) := rows.value;
    var latestQuote := DeriveProofTime(mapped, []);
    var latestBar := DeriveProofTime([], bars);
    var derived := DeriveProofTime(mapped, bars);
    var proof := if derived.Some? then derived else f.fallback;
    var payload := Payload(date, mapped, bars, proof, 0);
    assert forall i :: 0 <= i < |f.quotes| ==> f.quotes[i] in f.quotes;
    assert Built(payload, date, f);
    StaleIsExact(latestQuote, latestBar, mapped, bars);
    if StaleAtMidday(latestQuote, latestBar) {
      return MiddayStale;
    }
    if proof == None {
      return NoProofTime;
    }
    if PastClose(proof.value) {
      return Outcome.PostClose;
    }
    if OtherMinute(requested, target, proof.value) {
      return Relabelled;
    }
    var reasons := Validate(payload, scope);
    if reasons == {} {
      assert forall reason :: !Reported(payload, scope, reason);
      return Ready(payload);
    }
    ghost var reason :| reason in reasons;
    return PayloadBlocked(reasons);
  }

  lemma AllCanonical(p: Payload, date: Option<nat>, f: Fetched)
    requires Built(p, date, f)
    ensures forall q :: q in p.quotes ==> CanonicalOn(q, date)
  {
    hide IsLatest, Survivors, Canonical;
  }

  lemma LatestCoversAll(p: Payload, date: Option<nat>, f: Fetched)
    requires Built(p, date, f)
    ensures p.proof.Some? ==> forall b :: b in p.bars ==> b.time <= p.proof.value
    ensures p.proof.Some? ==> forall q :: q in p.quotes ==> QuoteTime(q).Some? && QuoteTime(q).value <= p.proof.value
    ensures p.bars != [] || p.quotes != [] ==>
              p.proof.Some? && (QuoteAt(p.quotes, p.proof.value) || BarAt(p.bars, p.proof.value))
  {
    hide Survivors, Canonical;
    AllCanonical(p, date, f);
    var derived :| IsLatest(derived, p.quotes, p.bars) && p.proof == if derived.Some? then derived else f.fallback;
    assert p.bars != [] ==> p.bars[0] in p.bars;
    assert p.quotes != [] ==> p.quotes[0] in p.quotes && CanonicalOn(p.quotes[0], date);
  }

  /** The quote's own server time is of another day. */
  predicate OffDay(quote: Quote, date: Option<nat>) {
    quote.raw.Some? && date.Some? && DateOf(quote.raw.value) != date.value
  }

  lemma BarIsClean(p: Payload, date: Option<nat>, f: Fetched, i: nat)
    requires Built(p, date, f) && i < |p.bars|
    ensures !BarFault(p.bars[i], p, AfterProof)
    ensures !f.traced ==> !BarFault(p.bars[i], p, MiddayLabel) && !BarFault(p.bars[i], p, DateMismatch)
  {
    hide Survivors, Canonical, KeyOf, LabelOf, IsLatest;
    SurvivorsAreDistinct(Current(date), f.bars);
    LatestCoversAll(p, date, f);
    assert p.bars[i] in p.bars;
  }

  lemma QuoteIsClean(p: Payload, date: Option<nat>, f: Fetched, i: nat)
    requires Built(p, date, f) && i < |p.quotes|
    ensures !QuoteFault(p.quotes[i], p, AfterProof)
      && (QuoteFault(p.quotes[i], p, DateMismatch) <==> OffDay(p.quotes[i], date))
  {
  }

  /**
   With the latest time as proof time the validator can never report a row after it.
   Where the provider normalised the bars, it can also never report a duplicate object
   and minute or an 11:30 label, and a date mismatch is always the fault of a quote.
   */
  lemma NormalizedSourceIsClean(p: Payload, date: Option<nat>, f: Fetched, scope: Scope)
    requires Built(p, date, f)
    ensures !Reported(p, scope, AfterProof)
    ensures !f.traced ==> !Reported(p, scope, Duplicate) && !Reported(p, scope, MiddayLabel)
    ensures !f.traced ==> (Reported(p, scope, DateMismatch) <==> exists q :: q in p.quotes && OffDay(q, date))
  {
    hide Survivors, KeyOf, LabelOf, IsLatest, OffDay;
    SurvivorsAreDistinct(Current(date), f.bars);
    forall i | 0 <= i < |p.bars|
      ensures !BarFault(p.bars[i], p, AfterProof)
      ensures !f.traced ==> !BarFault(p.bars[i], p, MiddayLabel) && !BarFault(p.bars[i], p, DateMismatch)
    {
      BarIsClean(p, date, f, i);
    }
    forall i | 0 <= i < |p.quotes|
      ensures !QuoteFault(p.quotes[i], p, AfterProof)
      ensures QuoteFault(p.quotes[i], p, DateMismatch) <==> OffDay(p.quotes[i], date)
    {
      QuoteIsClean(p, date, f, i);
    }
  }

  /**
   The post-close blocker fires exactly when the latest row is a bar past the close,
   or there is no row at all and the time that came with the fetch is past it:
   canonical quote times end at 15:00.
   */
  lemma PostCloseNeedsABar(p: Payload, date: Option<nat>, f: Fetched)
    requires Built(p, date, f)
    ensures p.proof.Some? && PastClose(p.proof.value)
            <==> || (exists b :: b in p.bars && p.proof == Some(b.time) && PastClose(b.time))
                 || (p.bars == [] && p.quotes == [] && f.fallback.Some? && PastClose(f.fallback.value))
  {
    hide Survivors, Canonical, LabelOf;
    LatestCoversAll(p, date, f);
    AllCanonical(p, date, f);
    if p.bars == [] && p.quotes == [] {
      var derived :| IsLatest(derived, p.quotes, p.bars) && p.proof == if derived.Some? then derived else f.fallback;
      assert derived == None;
    } else if p.proof.Some? && QuoteAt(p.quotes, p.proof.value) {
      var q :| q in p.quotes && QuoteTime(q) == Some(p.proof.value);
      assert CanonicalOn(q, date);
      NeverPastClose(q.raw.value, date.value);
    }
  }

  // ----- The whole decision, said of the fetched rows

  /** The four digits read as this minute of the day. */
  predicate Reads(text: string, minute: nat) {
    && |text| == 4 && (forall i :: 0 <= i < 4 ==> '0' <= text[i] <= '9')
    && Digit(text[2]) < 6
    && (Digit(text[0]) * 10 + Digit(text[1])) * 60 + Digit(text[2]) * 10 + Digit(text[3]) == minute
  }

  function Digit(c: char): int {
    c as int - '0' as int
  }

  lemma DigitsRead(n: nat)
    requires n < 10
    ensures '0' <= DigitOf(n) <= '9' && Digit(DigitOf(n)) == n
  {
  }

  lemma HhmmReads(text: string, minute: nat)
    requires minute < 1440
    ensures text == Hhmm(minute) <==> Reads(text, minute)
  {
    hide DigitOf, Digit;
    var hour, rest := minute / 60, minute % 60;
    var own := [DigitOf(hour / 10), DigitOf(hour % 10), DigitOf(rest / 10), DigitOf(rest % 10)];
    assert Hhmm(minute) == own;
    DigitsRead(hour / 10);
    DigitsRead(hour % 10);
    DigitsRead(rest / 10);
    DigitsRead(rest % 10);
    if Reads(text, minute) {
      OneReading(text, own, minute);
    }
  }

  lemma OneReading(a: string, b: string, minute: nat)
    requires Reads(a, minute) && Reads(b, minute)
    ensures a == b
  {
    assert Digit(a[0]) == Digit(b[0]) && Digit(a[1]) == Digit(b[1]);
    assert Digit(a[2]) == Digit(b[2]) && Digit(a[3]) == Digit(b[3]);
    assert forall i :: 0 <= i < 4 ==> a[i] == b[i];
  }

  /** The latest quote lies after 11:29 and before 13:00, and the latest bar is of the minute 13:00. */
  ghost predicate StuckAtNoon(date: nat, f: Fetched) {
    && (exists q :: q in f.quotes && q.raw.Some? && date * 86_400_000_000 + 689 * 60_000_000 < q.raw.value)
    && (forall q :: q in f.quotes && q.raw.Some? ==> q.raw.value < date * 86_400_000_000 + 780 * 60_000_000)
    && exists b :: b in f.bars && b.time % 86_400_000_000 / 60_000_000 == 780
                   && forall c :: c in f.bars ==> c.time <= b.time
  }

  /** The proof time: that of the latest row, or without rows the one that came with the fetch. */
  ghost predicate Proves(t: nat, date: nat, f: Fetched) {
    if f.quotes == [] && f.bars == [] then f.fallback == Some(t)
    else
      && (BarAt(f.bars, t) || exists q :: q in f.quotes && q.raw.Some? && Canonical(q.raw.value, date) == t)
      && (forall b :: b in f.bars ==> b.time <= t)
      && (forall q :: q in f.quotes && q.raw.Some? ==> Canonical(q.raw.value, date) <= t)
  }

  predicate GoodQuote(q: Quote, date: nat) {
    !q.fake && q.priced && q.hasAmount && q.raw.Some? && q.raw.value / 86_400_000_000 == date
  }

  predicate GoodBar(b: Bar, date: nat) {
    && !b.fake && IsFor(false, b, date) && !AtHalfPastEleven(b)
    && b.figures.open.Some? && b.figures.high.Some? && b.figures.low.Some? && b.figures.close.Some?
    && b.figures.amount.Some?
  }

  /** Good rows, no two bars for one object and minute, and everything there that was asked for. */
  ghost predicate GoodRows(date: nat, f: Fetched, scope: Scope) {
    && (forall q :: q in f.quotes ==> GoodQuote(q, date))
    && (forall b :: b in f.bars ==> GoodBar(b, date))
    && (forall i, j :: 0 <= i < j < |f.bars| ==> !SamePlace(false, f.bars[i], f.bars[j]))
    && (scope.stockCount > 0 ==> f.quotes != []) && (scope.barCount > 0 ==> f.bars != [])
    && (forall id :: id in scope.stocks ==> Quoted(f.quotes, id))
    && (forall id :: id in scope.objects ==> exists b :: b in f.bars && b.identity == id)
  }

  ghost predicate Quoted(quotes: seq<Quote>, id: string) {
    exists q :: q in quotes && q.identity == id
  }

  /** Normalising has nothing to drop or to merge. */
  ghost predicate NothingToDrop(date: nat, f: Fetched) {
    && (forall b :: b in f.bars ==> IsFor(false, b, date) && !AtHalfPastEleven(b))
    && (forall i, j :: 0 <= i < j < |f.bars| ==> !SamePlace(false, f.bars[i], f.bars[j]))
  }

  lemma AllBarsUsed(date: nat, f: Fetched)
    requires f.traced || NothingToDrop(date, f)
    ensures BarsUsed(Some(date), f) == f.bars
  {
    hide IsFor, SamePlace, Survivors;
    if !f.traced {
      AllOnDateStay(Current(Some(date)), f.bars);
    }
  }

  /** Quotes and what they are mapped to, one by one. */
  lemma MappedTimes(p: Payload, date: nat, f: Fetched)
    requires Built(p, Some(date), f)
    ensures forall i :: 0 <= i < |f.quotes| ==>
              && f.quotes[i].raw.Some? && p.quotes[i].raw == f.quotes[i].raw
              && QuoteTime(p.quotes[i]) == Some(Canonical(f.quotes[i].raw.value, date))
  {
    hide IsLatest, Canonical, BarsUsed;
  }

  lemma NoonIsRaw(raw: nat, date: nat)
    ensures Canonical(raw, date) > At(date, 689) <==> raw > At(date, 689)
    ensures Canonical(raw, date) <= At(date, 690) <==> raw < At(date, 780)
    ensures Canonical(raw, date) < At(date, 691) ==> Canonical(raw, date) <= At(date, 690)
    ensures Canonical(raw, date) > At(date, 689) ==> Canonical(raw, date) >= At(date, 690)
    ensures At(date, 689) < At(date, 690) < At(date, 691)
  {
  }

  lemma {:induction false} LatestExists(quotes: seq<Quote>, bars: seq<Bar>) returns (t: Option<nat>)
    ensures IsLatest(t, quotes, bars)
    decreases |quotes| + |bars|
  {
    if bars != [] {
      t := LatestExists(quotes, bars[..|bars| - 1]);
      OneMoreBar(t, quotes, bars, |bars| - 1);
      t := Later(t, Some(bars[|bars| - 1].time));
      assert bars[..|bars|] == bars;
    } else if quotes != [] {
      t := LatestExists(quotes[..|quotes| - 1], []);
      OneMoreQuote(t, quotes, |quotes| - 1);
      t := Later(t, QuoteTime(quotes[|quotes| - 1]));
      assert quotes[..|quotes|] == quotes;
    } else {
      t := None;
    }
  }

  lemma LabelAtNoon(time: nat, date: nat)
    requires DateOf(time) == date
    ensures LabelOf(time) == 690 <==> At(date, 690) <= time < At(date, 691)
  {
    TimesAreLabelled(date, LabelOf(time), time % MINUTE);
  }

  /** The latest canonical quote time is the morning close exactly when the latest quote fell into the break. */
  lemma QuotesAtNoon(p: Payload, date: nat, f: Fetched, latest: Option<nat>)
    requires Built(p, Some(date), f) && IsLatest(latest, p.quotes, [])
    ensures latest.Some? && LabelOf(latest.value) == 690
            <==> ((exists q :: q in f.quotes && q.raw.Some? && At(date, 689) < q.raw.value)
                  && forall q :: q in f.quotes && q.raw.Some? ==> q.raw.value < At(date, 780))
  {
    hide Canonical, BarsUsed, Built, LabelOf, DateOf, At;
    MappedTimes(p, date, f);
    assert |p.quotes| == |f.quotes| by {
      SameLength(p, date, f);
    }
    forall i | 0 <= i < |f.quotes|
      ensures latest.Some? && Canonical(f.quotes[i].raw.value, date) <= latest.value
    {
      assert p.quotes[i] in p.quotes;
      NoonIsRaw(f.quotes[i].raw.value, date);
    }
    forall q | q in f.quotes
      ensures q.raw.Some? && latest.Some? && Canonical(q.raw.value, date) <= latest.value
      ensures Canonical(q.raw.value, date) <= At(date, 690) <==> q.raw.value < At(date, 780)
      ensures Canonical(q.raw.value, date) > At(date, 689) <==> At(date, 689) < q.raw.value
    {
      var i :| 0 <= i < |f.quotes| && f.quotes[i] == q;
      NoonIsRaw(q.raw.value, date);
    }
    if latest.Some? {
      var mapped :| mapped in p.quotes && QuoteTime(mapped) == latest;
      var i :| 0 <= i < |p.quotes| && p.quotes[i] == mapped;
      var last := f.quotes[i];
      assert last in f.quotes && latest.value == Canonical(last.raw.value, date);
      NoonIsRaw(last.raw.value, date);
      NeverPastClose(last.raw.value, date);
      LabelAtNoon(latest.value, date);
      if LabelOf(latest.value) == 690 {
        assert At(date, 689) < last.raw.value;
      }
    }
  }

  lemma SameLength(p: Payload, date: nat, f: Fetched)
    requires Built(p, Some(date), f)
    ensures |p.quotes| == |f.quotes| && p.bars == BarsUsed(Some(date), f)
  {
    hide IsLatest, Canonical, BarsUsed;
  }

  lemma StuckIsStale(p: Payload, date: nat, f: Fetched)
    requires Built(p, Some(date), f) && p.bars == f.bars
    ensures Stale(p.quotes, p.bars) <==> StuckAtNoon(date, f)
  {
    hide Built, LabelOf, Stale;
    var quotes := LatestExists(p.quotes, []);
    var bars := LatestExists([], p.bars);
    StaleIsExact(quotes, bars, p.quotes, p.bars);
    QuotesAtNoon(p, date, f, quotes);
    BarsAtNoon(f.bars, bars);
  }

  lemma BarsAtNoon(bars: seq<Bar>, latest: Option<nat>)
    requires IsLatest(latest, [], bars)
    ensures latest.Some? && LabelOf(latest.value) == 780
            <==> exists b :: b in bars && b.time % 86_400_000_000 / 60_000_000 == 780
                             && forall c :: c in bars ==> c.time <= b.time
  {
    if latest.Some? {
      var b :| b in bars && b.time == latest.value;
    }
  }

  lemma ProofIsProved(p: Payload, date: nat, f: Fetched, t: nat)
    requires Built(p, Some(date), f) && p.bars == f.bars
    ensures p.proof == Some(t) <==> Proves(t, date, f)
    ensures p.proof == None <==> f.quotes == [] && f.bars == [] && f.fallback == None
  {
    hide Canonical, BarsUsed;
    MappedTimes(p, date, f);
    LatestCoversAll(p, Some(date), f);
  }

  lemma GoodQuoteHasNoFault(p: Payload, date: nat, f: Fetched, i: nat)
    requires Built(p, Some(date), f) && i < |f.quotes| == |p.quotes|
    ensures (forall reason :: !QuoteFault(p.quotes[i], p, reason)) <==> GoodQuote(f.quotes[i], date)
  {
    hide Canonical, BarsUsed, IsLatest;
    QuoteIsClean(p, Some(date), f, i);
    var q := p.quotes[i];
    if forall reason :: !QuoteFault(q, p, reason) {
      assert !QuoteFault(q, p, FakeMarker) && !QuoteFault(q, p, PriceMissing) && !QuoteFault(q, p, AmountMissing);
      assert !QuoteFault(q, p, DateMismatch);
    }
  }

  lemma GoodBarHasNoFault(p: Payload, date: nat, f: Fetched, i: nat)
    requires Built(p, Some(date), f) && i < |p.bars|
    ensures (forall reason :: !BarFault(p.bars[i], p, reason)) <==> GoodBar(p.bars[i], date)
  {
    hide Canonical, BarsUsed, IsLatest;
    BarIsClean(p, Some(date), f, i);
    var b := p.bars[i];
    if forall reason :: !BarFault(b, p, reason) {
      assert !BarFault(b, p, FakeMarker) && !BarFault(b, p, MiddayLabel) && !BarFault(b, p, FieldsMissing);
      assert !BarFault(b, p, DateMismatch);
    }
  }

  /** Nothing asked for is missing. */
  ghost predicate HasAll(p: Payload, scope: Scope) {
    && (scope.stockCount > 0 ==> p.quotes != []) && (scope.barCount > 0 ==> p.bars != [])
    && (forall id :: id in scope.stocks ==> Quoted(p.quotes, id))
    && (forall id :: id in scope.objects ==> exists b :: b in p.bars && b.identity == id)
  }

  lemma NoScopeFault(p: Payload, scope: Scope)
    requires p.stockMinutes == 0
    ensures (forall reason :: !ScopeFault(p, scope, reason)) <==> HasAll(p, scope)
  {
    if forall reason :: !ScopeFault(p, scope, reason) {
      assert !ScopeFault(p, scope, QuotesAbsent) && !ScopeFault(p, scope, BarsAbsent);
      assert !ScopeFault(p, scope, QuotesMissing) && !ScopeFault(p, scope, BarsMissing);
    }
  }

  ghost predicate FaultlessRows(p: Payload) {
    && (forall i, j :: 0 <= i < j < |p.bars| ==> !SamePlace(false, p.bars[i], p.bars[j]))
    && (forall i :: 0 <= i < |p.bars| ==> forall reason :: !BarFault(p.bars[i], p, reason))
    && (forall i :: 0 <= i < |p.quotes| ==> forall reason :: !QuoteFault(p.quotes[i], p, reason))
  }

  lemma UnreportedIsFaultless(p: Payload, scope: Scope)
    requires forall reason :: !Reported(p, scope, reason)
    ensures FaultlessRows(p) && forall reason :: !ScopeFault(p, scope, reason)
  {
    hide ScopeFault, BarFault, QuoteFault, KeyOf, SamePlace;
    assert !Reported(p, scope, Duplicate);
    forall i, j | 0 <= i < j < |p.bars|
      ensures !SamePlace(false, p.bars[i], p.bars[j])
    {
      assert !SameKey(p.bars[i], p.bars[j], p.date);
      PlacesAreKeys(Current(p.date), p.bars[i], p.bars[j]);
    }
    forall i, reason | 0 <= i < |p.bars|
      ensures !BarFault(p.bars[i], p, reason)
    {
      assert !Reported(p, scope, reason);
    }
    forall i, reason | 0 <= i < |p.quotes|
      ensures !QuoteFault(p.quotes[i], p, reason)
    {
      assert !Reported(p, scope, reason);
    }
    forall reason
      ensures !ScopeFault(p, scope, reason)
    {
      assert !Reported(p, scope, reason);
    }
  }

  lemma NothingReported(p: Payload, scope: Scope)
    requires p.stockMinutes == 0
    ensures (forall reason :: !Reported(p, scope, reason)) <==> HasAll(p, scope) && FaultlessRows(p)
  {
    hide ScopeFault, BarFault, QuoteFault, HasAll, KeyOf, SamePlace;
    NoScopeFault(p, scope);
    if forall reason :: !Reported(p, scope, reason) {
      UnreportedIsFaultless(p, scope);
    } else if HasAll(p, scope) && FaultlessRows(p) {
      forall i, j | 0 <= i < j < |p.bars|
        ensures !SameKey(p.bars[i], p.bars[j], p.date)
      {
        PlacesAreKeys(Current(p.date), p.bars[i], p.bars[j]);
      }
    }
  }

  lemma SameIdentities(p: Payload, date: nat, f: Fetched)
    requires Built(p, Some(date), f)
    ensures |p.quotes| == |f.quotes| && forall i :: 0 <= i < |f.quotes| ==> p.quotes[i].identity == f.quotes[i].identity
  {
    hide Canonical, BarsUsed, IsLatest;
  }

  lemma AskedForIsThere(p: Payload, date: nat, f: Fetched, scope: Scope)
    requires Built(p, Some(date), f) && p.bars == f.bars
    ensures HasAll(p, scope)
            <==> (&& (scope.stockCount > 0 ==> f.quotes != []) && (scope.barCount > 0 ==> f.bars != [])
                  && (forall id :: id in scope.stocks ==> Quoted(f.quotes, id))
                  && (forall id :: id in scope.objects ==> exists b :: b in f.bars && b.identity == id))
  {
    hide Built;
    SameIdentities(p, date, f);
    forall id
      ensures Quoted(p.quotes, id) <==> Quoted(f.quotes, id)
    {
      if q :| q in p.quotes && q.identity == id {
        var i :| 0 <= i < |p.quotes| && p.quotes[i] == q;
        assert f.quotes[i] in f.quotes;
      }
      if q :| q in f.quotes && q.identity == id {
        var i :| 0 <= i < |f.quotes| && f.quotes[i] == q;
        assert p.quotes[i] in p.quotes;
      }
    }
  }

  lemma GoodRowsAreUnreported(p: Payload, date: nat, f: Fetched, scope: Scope)
    requires Built(p, Some(date), f) && p.bars == f.bars
    ensures (forall reason :: !Reported(p, scope, reason)) <==> GoodRows(date, f, scope)
  {
    hide Built, Reported, HasAll, BarFault, QuoteFault, SamePlace, GoodQuote, GoodBar;
    SameIdentities(p, date, f);
    assert p.stockMinutes == 0 by {
      NoStockMinutes(p, date, f);
    }
    NothingReported(p, scope);
    AskedForIsThere(p, date, f, scope);
    forall i | 0 <= i < |p.quotes|
      ensures (forall reason :: !QuoteFault(p.quotes[i], p, reason)) <==> GoodQuote(f.quotes[i], date)
    {
      GoodQuoteHasNoFault(p, date, f, i);
    }
    forall i | 0 <= i < |p.bars|
      ensures (forall reason :: !BarFault(p.bars[i], p, reason)) <==> GoodBar(f.bars[i], date)
    {
      GoodBarHasNoFault(p, date, f, i);
    }
  }

  lemma NoStockMinutes(p: Payload, date: nat, f: Fetched)
    requires Built(p, Some(date), f)
    ensures p.stockMinutes == 0
  {
    hide IsLatest, BarsUsed, Canonical;
  }

  /**
   The provider's whole decision for rows of which normalising has nothing to drop
   or merge: stuck at noon, no time at all, past 15:00, another minute than the one
   asked for, or ready exactly when every row is good and all that was asked for is there.
   */
  lemma DecidedByRows(
    p: Payload, date: nat, f: Fetched, requested: string, target: string, scope: Scope, outcome: Outcome, t: nat)
    requires f.traced || NothingToDrop(date, f)
    requires Built(p, Some(date), f) && Decided(p, requested, target, scope, outcome)
    ensures p.bars == f.bars
    ensures outcome.MiddayStale? <==> StuckAtNoon(date, f)
    ensures outcome.NoProofTime?
            <==> !StuckAtNoon(date, f) && f.quotes == [] && f.bars == [] && f.fallback == None
    ensures !StuckAtNoon(date, f) && Proves(t, date, f) ==>
              var asked := if requested != "" then requested else target;
              var minute := t % 86_400_000_000 / 60_000_000;
              && (outcome.PostClose? <==> minute > 900)
              && (outcome.Relabelled? <==> minute <= 900 && asked != "" && !Reads(asked, minute))
              && (outcome.Ready?
                  <==> minute <= 900 && (asked == "" || Reads(asked, minute)) && GoodRows(date, f, scope))
              && (outcome.Ready? ==> outcome.payload == p)
  {
    hide Reported, Stale, StuckAtNoon, Built, Proves, GoodRows, Reads, Hhmm, NothingToDrop, BarsUsed;
    AllBarsUsed(date, f);
    SameLength(p, date, f);
    StuckIsStale(p, date, f);
    ProofIsProved(p, date, f, t);
    GoodRowsAreUnreported(p, date, f, scope);
    HhmmReads(if requested != "" then requested else target, LabelOf(t));
  }
}
