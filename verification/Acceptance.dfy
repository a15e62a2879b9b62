/**
 The acceptance evaluator of the shadow observation: it normalises every audit row,
 collects gaps, evaluates the longest run of rows under the current fingerprint, and
 is ready only when no gap was found.
 */
module Acceptance {
  import opened Bytes

  const MIN_DATES: nat := 10
  const MIN_ATTEMPTS: nat := 50
  const VALID_NUMERATOR: nat := 99
  const VALID_DENOMINATOR: nat := 100

  /** Proposals, orders, trades, positions, lots and cash, in this order. */
  const SIDE_EFFECTS: nat := 6

  datatype Status = NoNewInput | StructureInvalid | RecordRejected | DecisionRecorded | FailedClosed

  /** A field as found: missing, of the wrong type or shape, or usable. */
  datatype Field<T> = Missing | Junk | Is(value: T)

  /** One raw audit row. Fields that are only ever valid or not are options. */
  datatype Raw =
    | NotMapping
    | Row(
        id: Option<nat>, key: Option<string>, startedAt: Option<int>, date: Option<nat>,
        fingerprint: Option<string>, status: Option<Status>, probed: bool,
        attempted: Option<bool>, structure: Field<bool>, decision: Field<nat>, decisionRun: Field<nat>,
        riskAllowed: Field<bool>, riskReason: Field<string>, proposal: Option<bool>, effects: seq<Option<nat>>)

  datatype Audit = Audit(
    id: nat, key: string, startedAt: int, date: nat, fingerprint: string, status: Status,
    attempted: bool, structure: Option<bool>, accepted: bool, riskAllowed: Option<bool>, effects: seq<nat>)

  datatype Kind =
    | RowInvalid | IdInvalid | KeyInvalid | StartInvalid | DateInvalid | DateNotOpen | FingerprintInvalid
    | StatusUnexplained | ProbeFailed | AttemptInvalid | StructureMissing | StructureWithoutAttempt
    | DecisionInvalid | DecisionRunInvalid | DecisionPair | RiskAllowedInvalid | RiskReasonInvalid | RiskPair
    | ProposalInvalid | EffectInvalid(which: nat) | ProposalConflict | AcceptedInvalid | MatrixInvalid(status: Status)

  datatype Gap =
    | InRow(index: nat, kind: Kind)
    | EvidenceInvalid | RowsNotAList | OpenDatesNotAList
    | SourceIncomplete | OrderNotProven | OpenDateInvalid(at: nat) | OpenDatesNotSorted | OpenDatesDuplicate
    | ExpectedCountInvalid | CountMismatch | CounterInvalid | CounterNonzero
    | IdDuplicate | KeyDuplicate | RowsOrderUnproven | FingerprintMissing
    | FewDates | FewAttempts | RateUnavailable | RateTooLow | RiskMissing | StructureNotValid
    | EffectNonzero(which: nat)

  // ----- One row

  function Usable<T>(f: Field<T>): Option<T> {
    if f.Is? then Some(f.value) else None
  }

  function AttemptedOf(raw: Raw): bool
    requires raw.Row?
  {
    raw.attempted == Some(true)
  }

  function StructureOf(raw: Raw): Option<bool>
    requires raw.Row?
  {
    if AttemptedOf(raw) then Some(raw.structure == Is(true)) else None
  }

  function EffectAt(raw: Raw, which: nat): Option<nat>
    requires raw.Row?
  {
    if which < |raw.effects| then raw.effects[which] else None
  }

  function EffectsOf(raw: Raw): (effects: seq<nat>)
    requires raw.Row?
    ensures |effects| == SIDE_EFFECTS
  {
    seq(SIDE_EFFECTS, i requires 0 <= i => if EffectAt(raw, i).Some? then EffectAt(raw, i).value else 0)
  }

  predicate NoEffects(effects: seq<nat>) {
    forall i :: 0 <= i < |effects| ==> effects[i] == 0
  }

  /** What each status rules out. */
  predicate MatrixBroken(raw: Raw, status: Status)
    requires raw.Row?
  {
    var attempted, structure, risk := AttemptedOf(raw), StructureOf(raw), Usable(raw.riskAllowed);
    var decision, run := Usable(raw.decision), Usable(raw.decisionRun);
    match status
    case NoNewInput =>
      attempted || structure.Some? || decision.Some? || run.Some? || risk.Some? || raw.proposal == Some(true)
      || !NoEffects(EffectsOf(raw))
    case StructureInvalid => !attempted || structure != Some(false) || decision.Some? || risk.Some?
    case RecordRejected => !attempted || structure != Some(true) || decision.Some? || risk.Some?
    case DecisionRecorded => !attempted || structure != Some(true) || decision == None || run == None
    case FailedClosed => decision.Some? || risk.Some?
  }

  /** What the normaliser finds wrong with a row. */
  predicate Finds(raw: Raw, open: set<nat>, kind: Kind) {
    if raw.NotMapping? then kind.RowInvalid?
    else
      match kind
      case RowInvalid => false
      case IdInvalid => raw.id == None || raw.id == Some(0)
      case KeyInvalid => raw.key == None
      case StartInvalid => raw.startedAt == None
      case DateInvalid => raw.date == None
      case DateNotOpen => raw.date.Some? && raw.date.value !in open
      case FingerprintInvalid => raw.fingerprint == None
      case StatusUnexplained => raw.status == None
      case ProbeFailed => !raw.probed
      case AttemptInvalid => raw.attempted == None
      case StructureMissing => AttemptedOf(raw) && !raw.structure.Is?
      case StructureWithoutAttempt => !AttemptedOf(raw) && !raw.structure.Missing?
      case DecisionInvalid => raw.decision.Junk?
      case DecisionRunInvalid => raw.decisionRun.Junk?
      case DecisionPair => raw.decision.Is? != raw.decisionRun.Is?
      case RiskAllowedInvalid => raw.riskAllowed.Junk?
      case RiskReasonInvalid => raw.riskReason.Junk?
      case RiskPair => raw.riskAllowed.Is? != raw.riskReason.Is?
      case ProposalInvalid => raw.proposal == None
      case EffectInvalid(which) => which < SIDE_EFFECTS && EffectAt(raw, which) == None
      case ProposalConflict => (raw.proposal == Some(true)) != (EffectsOf(raw)[0] > 0)
      case AcceptedInvalid => raw.decision.Is? && (!AttemptedOf(raw) || StructureOf(raw) != Some(true))
      case MatrixInvalid(status) => raw.status == Some(status) && MatrixBroken(raw, status)
  }

  /** The row has all it takes to be placed in the history. */
  predicate Essential(raw: Raw) {
    && raw.Row? && raw.id.Some? && raw.id.value > 0 && raw.key.Some? && raw.startedAt.Some? && raw.date.Some?
    && raw.fingerprint.Some? && raw.status.Some? && raw.attempted.Some?
  }

  function AuditOf(raw: Raw): Audit
    requires Essential(raw)
  {
    Audit(raw.id.value, raw.key.value, raw.startedAt.value, raw.date.value, raw.fingerprint.value, raw.status.value,
          AttemptedOf(raw), StructureOf(raw), raw.decision.Is?, Usable(raw.riskAllowed), EffectsOf(raw))
  }

  datatype Part = Identity | Circumstance | Decision | Verdict | Effects

  /** Which part of the row a finding is about. */
  function PartOf(kind: Kind): Part {
    match kind
    case RowInvalid => Identity
    case IdInvalid => Identity
    case KeyInvalid => Identity
    case StartInvalid => Identity
    case FingerprintInvalid => Identity
    case DateInvalid => Circumstance
    case DateNotOpen => Circumstance
    case StatusUnexplained => Circumstance
    case AttemptInvalid => Circumstance
    case ProbeFailed => Circumstance
    case StructureMissing => Decision
    case StructureWithoutAttempt => Decision
    case DecisionInvalid => Decision
    case DecisionRunInvalid => Decision
    case DecisionPair => Decision
    case AcceptedInvalid => Verdict
    case MatrixInvalid(_) => Verdict
    case RiskAllowedInvalid => Verdict
    case RiskReasonInvalid => Verdict
    case RiskPair => Verdict
    case ProposalInvalid => Effects
    case ProposalConflict => Effects
    case EffectInvalid(_) => Effects
  }

  method CheckIdentity(raw: Raw, open: set<nat>) returns (kinds: set<Kind>, usable: bool)
    requires raw.Row?
    ensures forall kind :: kind in kinds <==> PartOf(kind) == Identity && Finds(raw, open, kind)
    ensures usable
            <==> raw.id.Some? && raw.id.value > 0 && raw.key.Some? && raw.startedAt.Some? && raw.fingerprint.Some?
  {
    hide If, MatrixBroken;
    var idOk := raw.id.Some? && raw.id.value > 0;
    kinds := If(!idOk, IdInvalid) + If(raw.key == None, KeyInvalid) + If(raw.startedAt == None, StartInvalid)
             + If(raw.fingerprint == None, FingerprintInvalid);
    usable := idOk && raw.key.Some? && raw.startedAt.Some? && raw.fingerprint.Some?;
  }

  method CheckCircumstance(raw: Raw, open: set<nat>) returns (kinds: set<Kind>, usable: bool)
    requires raw.Row?
    ensures forall kind :: kind in kinds <==> PartOf(kind) == Circumstance && Finds(raw, open, kind)
    ensures usable <==> raw.date.Some? && raw.status.Some? && raw.attempted.Some?
  {
    hide If, MatrixBroken;
    kinds := If(raw.status == None, StatusUnexplained) + If(raw.attempted == None, AttemptInvalid)
             + If(!raw.probed, ProbeFailed) + If(raw.date == None, DateInvalid)
             + If(raw.date.Some? && raw.date.value !in open, DateNotOpen);
    usable := raw.date.Some? && raw.status.Some? && raw.attempted.Some?;
  }

  method CheckDecision(raw: Raw, open: set<nat>) returns (kinds: set<Kind>)
    requires raw.Row?
    ensures forall kind :: kind in kinds <==> PartOf(kind) == Decision && Finds(raw, open, kind)
  {
    hide If, MatrixBroken;
    var attempted := raw.attempted == Some(true);
    kinds := If(attempted && !raw.structure.Is?, StructureMissing)
             + If(!attempted && !raw.structure.Missing?, StructureWithoutAttempt)
             + If(raw.decision.Junk?, DecisionInvalid) + If(raw.decisionRun.Junk?, DecisionRunInvalid)
             + If(raw.decision.Is? != raw.decisionRun.Is?, DecisionPair);
  }

  method CheckVerdict(raw: Raw, open: set<nat>) returns (kinds: set<Kind>)
    requires raw.Row?
    ensures forall kind :: kind in kinds <==> PartOf(kind) == Verdict && Finds(raw, open, kind)
  {
    hide If, MatrixBroken;
    kinds := If(raw.riskAllowed.Junk?, RiskAllowedInvalid) + If(raw.riskReason.Junk?, RiskReasonInvalid)
             + If(raw.riskAllowed.Is? != raw.riskReason.Is?, RiskPair)
             + If(raw.decision.Is? && (!AttemptedOf(raw) || StructureOf(raw) != Some(true)), AcceptedInvalid);
    if raw.status.Some? {
      kinds := kinds + If(MatrixBroken(raw, raw.status.value), MatrixInvalid(raw.status.value));
    }
  }

  method CheckEffects(raw: Raw, open: set<nat>) returns (kinds: set<Kind>)
    requires raw.Row?
    ensures forall kind :: kind in kinds <==> PartOf(kind) == Effects && Finds(raw, open, kind)
  {
    hide If, MatrixBroken, EffectsOf, EffectAt;
    kinds := If(raw.proposal == None, ProposalInvalid)
             + If((raw.proposal == Some(true)) != (EffectsOf(raw)[0] > 0), ProposalConflict);
    for which := 0 to SIDE_EFFECTS
      invariant forall kind :: kind in kinds <==>
                  && PartOf(kind) == Effects && Finds(raw, open, kind)
                  && (kind.EffectInvalid? ==> kind.which < which)
    {
      if EffectAt(raw, which) == None {
        kinds := kinds + {EffectInvalid(which)};
      }
    }
  }

  method NormalizeRow(raw: Raw, index: nat, open: set<nat>, before: set<Gap>)
    returns (audit: Option<Audit>, gaps: set<Gap>)
    ensures audit == if Essential(raw) then Some(AuditOf(raw)) else None
    ensures forall g :: g in gaps <==> g in before || (g.InRow? && g.index == index && Finds(raw, open, g.kind))
  {
    hide Finds, AuditOf, PartOf;
    if raw.NotMapping? {
      JunkFindsOnlyThat(raw, open);
      return None, before + {InRow(index, RowInvalid)};
    }
    var identity, named := CheckIdentity(raw, open);
    var circumstance, placed := CheckCircumstance(raw, open);
    var decision := CheckDecision(raw, open);
    var verdict := CheckVerdict(raw, open);
    var effects := CheckEffects(raw, open);
    var kinds := identity + circumstance + decision + verdict + effects;
    gaps := before + set kind | kind in kinds :: InRow(index, kind);
    audit := if named && placed then Some(AuditOf(raw)) else None;
  }

  lemma JunkFindsOnlyThat(raw: Raw, open: set<nat>)
    requires raw.NotMapping?
    ensures forall kind :: Finds(raw, open, kind) <==> kind == RowInvalid
  {
  }

  // ----- The whole history

  /** The evidence as loaded; a list or a counter that is missing or malformed is none. */
  datatype Evidence = Evidence(
    complete: bool, ordered: bool, openDates: Option<seq<Option<nat>>>, rows: Option<seq<Raw>>,
    expected: Option<nat>, conflicts: Option<nat>, unexplained: Option<nat>)

  datatype Report = Report(
    ready: bool, fingerprint: Option<string>, historical: nat, windowSize: nat, total: nat, dates: set<nat>,
    attempts: nat, valid: nat, accepted: nat, missingRisk: nat, invalidAccepted: nat, effects: seq<nat>, gaps: set<Gap>)

  /** A value that is no list counts as an empty one. */
  function ListOf<T>(raw: Option<seq<T>>): seq<T> {
    if raw.Some? then raw.value else []
  }

  function DatesIn(e: Evidence): seq<Option<nat>> {
    ListOf(e.openDates)
  }

  function RowsIn(e: Evidence): seq<Raw> {
    ListOf(e.rows)
  }

  function OpenSet(dates: seq<Option<nat>>): set<nat> {
    set d | d in dates && d.Some? :: d.value
  }

  function Parsed(dates: seq<Option<nat>>): seq<nat> {
    if dates == [] then []
    else Parsed(dates[..|dates| - 1]) + if dates[|dates| - 1].Some? then [dates[|dates| - 1].value] else []
  }

  predicate Ascending(dates: seq<nat>) {
    forall i, j :: 0 <= i < j < |dates| ==> dates[i] <= dates[j]
  }

  predicate Repeats<T(==)>(items: seq<T>) {
    exists i, j :: 0 <= i < j < |items| && items[i] == items[j]
  }

  lemma RepeatsGrows<T>(items: seq<T>, x: T)
    ensures Repeats(items + [x]) <==> Repeats(items) || x in items
  {
    var all := items + [x];
    assert all[|items|] == x && forall i :: 0 <= i < |items| ==> all[i] == items[i];
    if x in items {
      var i :| 0 <= i < |items| && items[i] == x;
      assert all[i] == all[|items|];
    }
    if Repeats(items) {
      var i, j :| 0 <= i < j < |items| && items[i] == items[j];
      assert all[i] == all[j];
    }
  }

  /** Compares the number of items with the number of different ones. */
  method HasRepeats<T(==)>(items: seq<T>) returns (repeats: bool)
    ensures repeats <==> Repeats(items)
  {
    hide Repeats;
    var seen: set<T> := {};
    repeats := false;
    NoItems<T>();
    assert items[..0] == [];
    for i := 0 to |items|
      invariant forall x :: x in seen <==> x in items[..i]
      invariant repeats <==> Repeats(items[..i])
    {
      RepeatsGrows(items[..i], items[i]);
      assert items[..i + 1] == items[..i] + [items[i]];
      repeats := repeats || items[i] in seen;
      seen := seen + {items[i]};
    }
    assert items[..|items|] == items;
  }

  lemma NoItems<T>()
    ensures !Repeats<T>([])
  {
  }

  method IsAscending(dates: seq<nat>) returns (ascending: bool)
    ensures ascending <==> Ascending(dates)
  {
    ascending := true;
    for i := 0 to |dates|
      invariant ascending <==> forall j, k :: 0 <= j < k < i ==> dates[j] <= dates[k]
    {
      ascending := ascending && (i == 0 || dates[i - 1] <= dates[i]);
    }
  }

  /** The usable rows, in order. */
  function Audits(rows: seq<Raw>): seq<Audit> {
    if rows == [] then []
    else Audits(rows[..|rows| - 1]) + if Essential(rows[|rows| - 1]) then [AuditOf(rows[|rows| - 1])] else []
  }

  predicate Earlier(a: Audit, b: Audit) {
    a.startedAt < b.startedAt || (a.startedAt == b.startedAt && a.id < b.id)
  }

  predicate StrictlyOrdered(audits: seq<Audit>) {
    forall i, j :: 0 <= i < j < |audits| ==> Earlier(audits[i], audits[j])
  }

  function Ids(audits: seq<Audit>): (ids: seq<nat>)
    ensures |ids| == |audits| && forall i :: 0 <= i < |audits| ==> ids[i] == audits[i].id
  {
    seq(|audits|, i requires 0 <= i < |audits| => audits[i].id)
  }

  function Keys(audits: seq<Audit>): (keys: seq<string>)
    ensures |keys| == |audits| && forall i :: 0 <= i < |audits| ==> keys[i] == audits[i].key
  {
    seq(|audits|, i requires 0 <= i < |audits| => audits[i].key)
  }

  /** `start` begins the longest run of rows under the last row's fingerprint that reaches the end. */
  predicate WindowStartsAt(audits: seq<Audit>, start: nat) {
    && start < |audits|
    && (forall i :: start <= i < |audits| ==> audits[i].fingerprint == audits[|audits| - 1].fingerprint)
    && (start > 0 ==> audits[start - 1].fingerprint != audits[|audits| - 1].fingerprint)
  }

  predicate Tried(a: Audit) {
    a.attempted
  }

  predicate ValidlyTried(a: Audit) {
    a.attempted && a.structure == Some(true)
  }

  predicate Accepted(a: Audit) {
    a.accepted
  }

  predicate Unjudged(a: Audit) {
    a.accepted && a.riskAllowed == None
  }

  predicate WronglyAccepted(a: Audit) {
    a.accepted && !ValidlyTried(a)
  }

  function Count(rows: seq<Audit>, p: Audit -> bool): (n: nat)
    ensures n <= |rows|
  {
    if rows == [] then 0 else Count(rows[..|rows| - 1], p) + if p(rows[|rows| - 1]) then 1 else 0
  }

  function EffectSum(rows: seq<Audit>, which: nat): nat {
    if rows == [] then 0
    else EffectSum(rows[..|rows| - 1], which) + EffectIn(rows[|rows| - 1], which)
  }

  function EffectIn(a: Audit, which: nat): nat {
    if which < |a.effects| then a.effects[which] else 0
  }

  function DatesOf(rows: seq<Audit>): set<nat> {
    set a | a in rows :: a.date
  }

  /** What can be wrong with the list of open trade dates. */
  predicate DateGap(raw: Option<seq<Option<nat>>>, g: Gap) {
    match g
    case OpenDatesNotAList => raw == None
    case OpenDateInvalid(i) => i < |ListOf(raw)| && ListOf(raw)[i] == None
    case OpenDatesNotSorted => !Ascending(Parsed(ListOf(raw)))
    case OpenDatesDuplicate => Repeats(Parsed(ListOf(raw)))
    case _ => false
  }

  /** Gaps found before the rows are looked at. */
  ghost predicate Early(e: Evidence, g: Gap) {
    match g
    case SourceIncomplete => !e.complete
    case OrderNotProven => !e.ordered
    case RowsNotAList => e.rows == None
    case _ => DateGap(e.openDates, g)
  }

  /** Gaps of the rows and the counters that come with them. */
  ghost predicate InHistory(e: Evidence, g: Gap) {
    match g
    case InRow(i, kind) => i < |RowsIn(e)| && Finds(RowsIn(e)[i], OpenSet(DatesIn(e)), kind)
    case ExpectedCountInvalid => e.expected == None
    case CountMismatch => e.expected.Some? && e.expected.value != |RowsIn(e)|
    case CounterInvalid => e.conflicts == None || e.unexplained == None
    case CounterNonzero =>
      (e.conflicts.Some? && e.conflicts.value > 0) || (e.unexplained.Some? && e.unexplained.value > 0)
    case IdDuplicate => Repeats(Ids(Audits(RowsIn(e))))
    case KeyDuplicate => Repeats(Keys(Audits(RowsIn(e))))
    case RowsOrderUnproven => !StrictlyOrdered(Audits(RowsIn(e)))
    case FingerprintMissing => Audits(RowsIn(e)) == []
    case _ => false
  }

  /** Gaps that do not depend on a window. */
  ghost predicate Open(e: Evidence, g: Gap) {
    Early(e, g) || (e.rows.Some? && InHistory(e, g))
  }

  /** Gaps of the evaluated window. */
  predicate WindowGap(window: seq<Audit>, g: Gap) {
    var attempts, valid := Count(window, Tried), Count(window, ValidlyTried);
    match g
    case FewDates => |DatesOf(window)| < MIN_DATES
    case FewAttempts => attempts < MIN_ATTEMPTS
    case RateUnavailable => attempts == 0
    case RateTooLow => attempts > 0 && valid * VALID_DENOMINATOR < attempts * VALID_NUMERATOR
    case RiskMissing => Count(window, Unjudged) > 0
    case StructureNotValid => Count(window, WronglyAccepted) > 0
    case EffectNonzero(which) => which < SIDE_EFFECTS && EffectSum(window, which) > 0
    case _ => false
  }

  lemma NoDates()
    ensures Parsed([]) == [] && OpenSet([]) == {} && Ascending([]) && !Repeats<nat>([])
  {
  }

  lemma OneMoreDate(dates: seq<Option<nat>>, i: nat)
    requires i < |dates|
    ensures var found := if dates[i].Some? then [dates[i].value] else [];
            && Parsed(dates[..i + 1]) == Parsed(dates[..i]) + found
            && OpenSet(dates[..i + 1]) == OpenSet(dates[..i]) + if dates[i].Some? then {dates[i].value} else {}
  {
    assert dates[..i + 1][..i] == dates[..i];
    assert forall d :: d in dates[..i + 1] <==> d in dates[..i] || d == dates[i];
  }

  /** `raw` is absent when it is no list; a date that cannot be read is a gap of its own. */
  method OpenTradeDates(raw: Option<seq<Option<nat>>>) returns (open: set<nat>, gaps: set<Gap>)
    ensures open == OpenSet(ListOf(raw))
    ensures forall g :: g in gaps <==> DateGap(raw, g)
  {
    hide Ascending, Repeats, OpenSet, Parsed;
    NoDates();
    if raw == None {
      return {}, {OpenDatesNotAList};
    }
    var dates := raw.value;
    var parsed: seq<nat> := [];
    open, gaps := {}, {};
    assert dates[..0] == [];
    for i := 0 to |dates|
      invariant parsed == Parsed(dates[..i]) && open == OpenSet(dates[..i])
      invariant forall g :: g in gaps <==> g.OpenDateInvalid? && g.at < i && dates[g.at] == None
    {
      OneMoreDate(dates, i);
      if dates[i] == None {
        gaps := gaps + {OpenDateInvalid(i)};
      } else {
        parsed, open := parsed + [dates[i].value], open + {dates[i].value};
      }
    }
    assert dates[..|dates|] == dates;
    var ascending := IsAscending(parsed);
    var repeats := HasRepeats(parsed);
    gaps := gaps + (if ascending then {} else {OpenDatesNotSorted}) + if repeats then {OpenDatesDuplicate} else {};
  }

  method NormalizeRows(rows: seq<Raw>, open: set<nat>) returns (audits: seq<Audit>, gaps: set<Gap>)
    ensures audits == Audits(rows)
    ensures forall g :: g in gaps <==> g.InRow? && g.index < |rows| && Finds(rows[g.index], open, g.kind)
  {
    hide Finds, AuditOf, Essential;
    audits, gaps := [], {};
    assert rows[..0] == [];
    for i := 0 to |rows|
      invariant audits == Audits(rows[..i])
      invariant forall g :: g in gaps <==> g.InRow? && g.index < i && Finds(rows[g.index], open, g.kind)
    {
      var audit;
      audit, gaps := NormalizeRow(rows[i], i, open, gaps);
      assert rows[..i + 1][..i] == rows[..i];
      if audit.Some? {
        audits := audits + [audit.value];
      }
    }
    assert rows[..|rows|] == rows;
  }

  method CheckHistory(audits: seq<Audit>) returns (gaps: set<Gap>)
    ensures forall g :: g in gaps <==>
              || (g == IdDuplicate && Repeats(Ids(audits)))
              || (g == KeyDuplicate && Repeats(Keys(audits)))
              || (g == RowsOrderUnproven && !StrictlyOrdered(audits))
  {
    hide Repeats, StrictlyOrdered;
    var idTwice := HasRepeats(Ids(audits));
    var keyTwice := HasRepeats(Keys(audits));
    var ordered := IsOrdered(audits);
    gaps := (if idTwice then {IdDuplicate} else {}) + (if keyTwice then {KeyDuplicate} else {})
            + if ordered then {} else {RowsOrderUnproven};
  }

  method IsOrdered(audits: seq<Audit>) returns (ordered: bool)
    ensures ordered <==> StrictlyOrdered(audits)
  {
    hide Earlier;
    ordered := true;
    for i := 0 to |audits|
      invariant ordered <==> forall j, k :: 0 <= j < k < i ==> Earlier(audits[j], audits[k])
    {
      if ordered && (i == 0 || Earlier(audits[i - 1], audits[i])) {
        forall j | 0 <= j < i
          ensures Earlier(audits[j], audits[i])
        {
          if j < i - 1 {
            EarlierIsTransitive(audits[j], audits[i - 1], audits[i]);
          }
        }
      } else {
        ordered := false;
      }
    }
  }

  lemma EarlierIsTransitive(a: Audit, b: Audit, c: Audit)
    requires Earlier(a, b) && Earlier(b, c)
    ensures Earlier(a, c)
  {
  }

  method FindWindow(audits: seq<Audit>) returns (start: nat)
    requires audits != []
    ensures WindowStartsAt(audits, start)
  {
    var current := audits[|audits| - 1].fingerprint;
    start := |audits| - 1;
    while start > 0 && audits[start - 1].fingerprint == current
      invariant start < |audits|
      invariant forall i :: start <= i < |audits| ==> audits[i].fingerprint == current
    {
      start := start - 1;
    }
  }

  /** The counts a report states are those of the window it names. */
  ghost predicate Counts(r: Report, window: seq<Audit>) {
    && r.windowSize == |window| && r.dates == DatesOf(window)
    && r.attempts == Count(window, Tried) && r.valid == Count(window, ValidlyTried)
    && r.accepted == Count(window, Accepted)
    && r.missingRisk == Count(window, Unjudged) && r.invalidAccepted == Count(window, WronglyAccepted)
    && |r.effects| == SIDE_EFFECTS && forall k :: 0 <= k < SIDE_EFFECTS ==> r.effects[k] == EffectSum(window, k)
  }

  /** The counts of a window, and the gaps they leave. */
  method Evaluate(window: seq<Audit>) returns (r: Report)
    ensures Counts(r, window)
    ensures forall g :: g in r.gaps <==> WindowGap(window, g)
  {
    hide Count, EffectSum, DatesOf, If;
    var attempts, valid := Count(window, Tried), Count(window, ValidlyTried);
    var missingRisk, invalidAccepted := Count(window, Unjudged), Count(window, WronglyAccepted);
    var dates := DatesOf(window);
    var gaps: set<Gap> := If(|dates| < MIN_DATES, FewDates) + If(attempts < MIN_ATTEMPTS, FewAttempts);
    if attempts == 0 {
      gaps := gaps + {RateUnavailable};
    } else {
      gaps := gaps + If(valid * VALID_DENOMINATOR < attempts * VALID_NUMERATOR, RateTooLow);
    }
    gaps := gaps + If(missingRisk > 0, RiskMissing) + If(invalidAccepted > 0, StructureNotValid);
    var effects: seq<nat> := [];
    ghost var others := gaps;
    for k := 0 to SIDE_EFFECTS
      invariant |effects| == k && forall j :: 0 <= j < k ==> effects[j] == EffectSum(window, j)
      invariant forall g ::
                g in gaps
                <==> g in others || (g.EffectNonzero? && g.which < k && EffectSum(window, g.which) > 0)
    {
      effects := effects + [EffectSum(window, k)];
      gaps := gaps + If(effects[k] > 0, EffectNonzero(k));
    }
    r := Report(false, None, 0, |window|, |window|, dates, attempts, valid, Count(window, Accepted),
                missingRisk, invalidAccepted, effects, gaps);
  }

  /** The report of evidence without a usable row. */
  function EmptyReport(gaps: set<Gap>): Report {
    Report(false, None, 0, 0, 0, {}, 0, 0, 0, 0, 0, [0, 0, 0, 0, 0, 0], gaps)
  }

  /** The report of given evidence: what it evaluates, and every gap it states, exactly. */
  ghost predicate Reports(e: Evidence, r: Report) {
    var audits := Audits(RowsIn(e));
    && (r.ready <==> r.gaps == {})
    && (audits == [] ==> r == EmptyReport(r.gaps) && forall g :: g in r.gaps <==> Open(e, g))
    && (audits != [] ==>
          && WindowStartsAt(audits, r.historical) && r.fingerprint == Some(audits[|audits| - 1].fingerprint)
          && r.total == |RowsIn(e)| && Counts(r, audits[r.historical..])
          && forall g :: g in r.gaps <==> Open(e, g) || WindowGap(audits[r.historical..], g))
  }

  /** The checks that do not look at the rows. */
  method CheckSource(e: Evidence) returns (open: set<nat>, gaps: set<Gap>)
    ensures open == OpenSet(DatesIn(e)) && forall g :: g in gaps <==> Early(e, g)
  {
    hide If, Early, OpenSet, DateGap;
    open, gaps := OpenTradeDates(e.openDates);
    gaps := gaps + If(!e.complete, SourceIncomplete) + If(!e.ordered, OrderNotProven)
            + If(e.rows == None, RowsNotAList);
    EarlyGaps(e, gaps);
  }

  /** Everything that is checked before a window is chosen. */
  method CheckEvidence(e: Evidence) returns (audits: seq<Audit>, gaps: set<Gap>)
    ensures audits == Audits(RowsIn(e)) && forall g :: g in gaps <==> Open(e, g)
  {
    hide Finds, Audits, Ids, Keys, If, InHistory, Early, OpenSet, Repeats, StrictlyOrdered;
    var open, early := CheckSource(e);
    if e.rows == None {
      NoRowsToAudit();
      return [], early;
    }
    var found;
    audits, found := NormalizeRows(e.rows.value, open);
    var historyGaps := CheckHistory(audits);
    found := found + historyGaps + CounterGaps(e) + If(audits == [], FingerprintMissing);
    HistoryGaps(e, found, audits);
    gaps := early + found;
  }

  lemma NoRowsToAudit()
    ensures Audits([]) == []
  {
  }

  /** Builds the report; evidence that is no mapping has one gap and nothing to count. */
  method BuildAcceptanceReport(evidence: Option<Evidence>) returns (r: Report)
    ensures evidence == None ==>
              r == Report(false, None, 0, 0, 0, {}, 0, 0, 0, 0, 0, [0, 0, 0, 0, 0, 0], {EvidenceInvalid})
    ensures evidence.Some? ==> Reports(evidence.value, r)
  {
    hide Audits, WindowGap, Counts, WindowStartsAt, Open;
    if evidence == None {
      return EmptyReport({EvidenceInvalid});
    }
    var e := evidence.value;
    var audits, gaps := CheckEvidence(e);
    if audits == [] {
      NoRowsIsAGap(e);
      return EmptyReport(gaps);
    }
    RowsAreGiven(e);
    var start := FindWindow(audits);
    WindowIsInside(audits, start);
    var evaluated := Evaluate(audits[start..]);
    gaps := gaps + evaluated.gaps;
    r := evaluated.(ready := gaps == {}, fingerprint := Some(audits[|audits| - 1].fingerprint),
                    historical := start, total := |e.rows.value|, gaps := gaps);
    CountsStay(evaluated, r, audits[start..]);
  }

  lemma CountsStay(before: Report, after: Report, window: seq<Audit>)
    requires Counts(before, window)
    requires after == before.(ready := after.ready, fingerprint := after.fingerprint,
                              historical := after.historical, total := after.total, gaps := after.gaps)
    ensures Counts(after, window)
  {
    hide Count, EffectSum, DatesOf;
  }

  lemma RowsAreGiven(e: Evidence)
    requires Audits(RowsIn(e)) != []
    ensures e.rows == Some(RowsIn(e))
  {
  }

  lemma NoRowsIsAGap(e: Evidence)
    requires Audits(RowsIn(e)) == []
    ensures Open(e, FingerprintMissing) || Open(e, RowsNotAList)
  {
  }

  lemma WindowIsInside(audits: seq<Audit>, start: nat)
    requires WindowStartsAt(audits, start)
    ensures start < |audits|
  {
  }

  function CounterGaps(e: Evidence): (gaps: set<Gap>)
    ensures forall g :: g in gaps <==>
              (g == ExpectedCountInvalid || g == CountMismatch || g == CounterInvalid || g == CounterNonzero)
                && InHistory(e, g)
  {
    If(e.expected == None, ExpectedCountInvalid)
    + If(e.expected.Some? && e.expected.value != |RowsIn(e)|, CountMismatch)
    + If(e.conflicts == None || e.unexplained == None, CounterInvalid)
    + If((e.conflicts.Some? && e.conflicts.value > 0) || (e.unexplained.Some? && e.unexplained.value > 0),
         CounterNonzero)
  }

  lemma EarlyGaps(e: Evidence, gaps: set<Gap>)
    requires forall g :: g in gaps <==>
               || (g == SourceIncomplete && !e.complete) || (g == OrderNotProven && !e.ordered)
               || (g == RowsNotAList && e.rows == None) || DateGap(e.openDates, g)
    ensures forall g :: g in gaps <==> Early(e, g)
  {
    hide Parsed, Ascending, Repeats;
  }

  lemma HistoryGaps(e: Evidence, gaps: set<Gap>, audits: seq<Audit>)
    requires audits == Audits(RowsIn(e))
    requires forall g :: g in gaps <==>
               || (g.InRow? && g.index < |RowsIn(e)| && Finds(RowsIn(e)[g.index], OpenSet(DatesIn(e)), g.kind))
               || (g == IdDuplicate && Repeats(Ids(audits))) || (g == KeyDuplicate && Repeats(Keys(audits)))
               || (g == RowsOrderUnproven && !StrictlyOrdered(audits))
               || (g in {ExpectedCountInvalid, CountMismatch, CounterInvalid, CounterNonzero} && InHistory(e, g))
               || (g == FingerprintMissing && audits == [])
    ensures forall g :: g in gaps <==> InHistory(e, g)
  {
    hide Finds, Audits, Ids, Keys, Repeats, StrictlyOrdered, OpenSet;
  }

  // ----- What readiness means

  lemma {:induction false} NothingDropped(rows: seq<Raw>)
    requires forall i :: 0 <= i < |rows| ==> Essential(rows[i])
    ensures |Audits(rows)| == |rows| && forall i :: 0 <= i < |rows| ==> Audits(rows)[i] == AuditOf(rows[i])
    decreases |rows|
  {
    hide Essential, AuditOf;
    if rows != [] {
      var init := rows[..|rows| - 1];
      assert forall i :: 0 <= i < |init| ==> Essential(rows[i]) && init[i] == rows[i];
      NothingDropped(init);
    }
  }

  lemma CleanIsEssential(raw: Raw, open: set<nat>)
    requires forall kind :: !Finds(raw, open, kind)
    ensures Essential(raw) && raw.date.value in open
  {
    assert !Finds(raw, open, RowInvalid);
    assert !Finds(raw, open, IdInvalid) && !Finds(raw, open, KeyInvalid) && !Finds(raw, open, StartInvalid);
    assert !Finds(raw, open, DateInvalid) && !Finds(raw, open, DateNotOpen) && !Finds(raw, open, FingerprintInvalid);
    assert !Finds(raw, open, StatusUnexplained) && !Finds(raw, open, AttemptInvalid);
  }

  lemma {:induction false} NoneCounted(rows: seq<Audit>, p: Audit -> bool)
    requires Count(rows, p) == 0
    ensures forall a :: a in rows ==> !p(a)
    decreases |rows|
  {
    if rows != [] {
      NoneCounted(rows[..|rows| - 1], p);
      assert forall a :: a in rows <==> a in rows[..|rows| - 1] || a == rows[|rows| - 1];
    }
  }

  lemma {:induction false} NoEffectSummed(rows: seq<Audit>, which: nat)
    requires EffectSum(rows, which) == 0
    ensures forall a :: a in rows ==> EffectIn(a, which) == 0
    decreases |rows|
  {
    if rows != [] {
      NoEffectSummed(rows[..|rows| - 1], which);
      assert forall a :: a in rows <==> a in rows[..|rows| - 1] || a == rows[|rows| - 1];
    }
  }

  /** An accepted decision that may stand: attempted, structurally valid, and with a risk verdict. */
  predicate Sound(a: Audit) {
    a.accepted ==> ValidlyTried(a) && a.riskAllowed.Some?
  }

  ghost predicate History(e: Evidence, r: Report, audits: seq<Audit>) {
    && AuditedHistory(e, audits)
    && WindowStartsAt(audits, r.historical) && r.historical + r.windowSize == r.total == |RowsIn(e)|
  }

  ghost predicate AuditedHistory(e: Evidence, audits: seq<Audit>) {
    && |audits| == |RowsIn(e)|
    && (forall i :: 0 <= i < |RowsIn(e)| ==> Essential(RowsIn(e)[i]) && audits[i] == AuditOf(RowsIn(e)[i]))
    && StrictlyOrdered(audits) && !Repeats(Ids(audits)) && !Repeats(Keys(audits))
    && (forall a :: a in audits ==> a.date in OpenSet(DatesIn(e)))
  }

  ghost predicate Window(r: Report, window: seq<Audit>) {
    && |DatesOf(window)| >= 10 && r.attempts >= 50
    && Counts(r, window)
    && (r.attempts - r.valid) * 100 <= r.attempts
    && (forall a :: a in window ==> Sound(a))
    && (forall a, k :: a in window && 0 <= k < 6 ==> EffectIn(a, k) == 0)
  }

  lemma CleanRow(e: Evidence, i: nat)
    requires (forall g :: !Open(e, g)) && i < |RowsIn(e)|
    ensures Essential(RowsIn(e)[i]) && AuditOf(RowsIn(e)[i]).date in OpenSet(DatesIn(e))
  {
    hide Finds, Essential, AuditOf, OpenSet, DatesIn;
    forall kind
      ensures !Finds(RowsIn(e)[i], OpenSet(DatesIn(e)), kind)
    {
      assert !Open(e, InRow(i, kind));
    }
    CleanIsEssential(RowsIn(e)[i], OpenSet(DatesIn(e)));
    DateIsKept(RowsIn(e)[i]);
  }

  lemma CleanHistory(e: Evidence)
    requires e.rows.Some? && forall g :: !Open(e, g)
    ensures AuditedHistory(e, Audits(RowsIn(e)))
  {
    hide Finds, Essential, AuditOf, StrictlyOrdered, Repeats, Parsed, OpenSet, Ids, Keys;
    forall i | 0 <= i < |RowsIn(e)|
      ensures Essential(RowsIn(e)[i]) && AuditOf(RowsIn(e)[i]).date in OpenSet(DatesIn(e))
    {
      CleanRow(e, i);
    }
    NothingDropped(RowsIn(e));
    var audits := Audits(RowsIn(e));
    assert !Open(e, IdDuplicate) && !Open(e, KeyDuplicate) && !Open(e, RowsOrderUnproven);
    forall a | a in audits
      ensures a.date in OpenSet(DatesIn(e))
    {
      var i :| 0 <= i < |audits| && audits[i] == a;
    }
  }

  lemma ReadyHasNoGap(e: Evidence, r: Report)
    requires Reports(e, r) && r.ready
    ensures e.rows.Some? && Audits(RowsIn(e)) != [] && forall g :: !Open(e, g)
  {
    hide WindowGap;
    assert !Open(e, RowsNotAList) && !Open(e, FingerprintMissing);
  }

  lemma ReadyHistory(e: Evidence, r: Report)
    requires Reports(e, r) && r.ready
    ensures History(e, r, Audits(RowsIn(e)))
  {
    hide Open, Audits, WindowGap, StrictlyOrdered, Repeats, Essential, AuditOf, OpenSet;
    ReadyHasNoGap(e, r);
    CleanHistory(e);
  }

  lemma DateIsKept(raw: Raw)
    requires Essential(raw)
    ensures AuditOf(raw).date == raw.date.value
  {
  }

  lemma ReadyWindow(r: Report, window: seq<Audit>)
    requires forall g :: !WindowGap(window, g)
    requires Counts(r, window)
    ensures Window(r, window)
  {
    hide Count, EffectSum, DatesOf;
    assert !WindowGap(window, FewDates) && !WindowGap(window, FewAttempts) && !WindowGap(window, RateTooLow);
    assert !WindowGap(window, RiskMissing) && !WindowGap(window, StructureNotValid);
    NoneCounted(window, Unjudged);
    NoneCounted(window, WronglyAccepted);
    forall a, k | a in window && 0 <= k < SIDE_EFFECTS
      ensures EffectIn(a, k) == 0
    {
      assert !WindowGap(window, EffectNonzero(k));
      NoEffectSummed(window, k);
    }
    forall a | a in window
      ensures Sound(a)
    {
      assert !Unjudged(a) && !WronglyAccepted(a);
    }
  }

  /**
   Ready means, over any history: no row was dropped; rows strictly increase in time
   and id, with unique ids and keys, all on open dates; the evaluated window is the
   longest run to the end under the last fingerprint; it has at least ten dates and
   fifty attempts, at most one invalid structure per hundred attempts, no side effect
   at all, and no accepted decision without a valid structure and a risk verdict.
   */
  lemma ReadyIsEarned(e: Evidence, r: Report)
    requires Reports(e, r) && r.ready
    ensures History(e, r, Audits(RowsIn(e))) && Window(r, Audits(RowsIn(e))[r.historical..])
    ensures r.attempts < 100 ==> r.valid == r.attempts
  {
    hide WindowGap, Window, Open, DatesOf, Count, EffectSum;
    ReadyHistory(e, r);
    var window := Audits(RowsIn(e))[r.historical..];
    forall g
      ensures !WindowGap(window, g)
    {
      assert g !in r.gaps;
    }
    ReadyWindow(r, window);
    FewInvalid(r, window);
  }

  lemma FewInvalid(r: Report, window: seq<Audit>)
    requires Window(r, window)
    ensures r.attempts < 100 ==> r.valid == r.attempts
  {
    hide DatesOf;
    ValidAreTried(window);
  }

  lemma {:induction false} ValidAreTried(window: seq<Audit>)
    ensures Count(window, ValidlyTried) <= Count(window, Tried)
    decreases |window|
  {
    if window != [] {
      ValidAreTried(window[..|window| - 1]);
    }
  }

  /**
   One more row under another fingerprint, valid or not, and the result is not ready,
   whatever the history was worth before and whatever else the evidence says.
   */
  lemma NewFingerprintIsNotReady(e: Evidence, r: Report, later: Evidence, s: Report, raw: Raw)
    requires Reports(e, r) && Reports(later, s)
    requires RowsIn(later) == RowsIn(e) + [raw] && (raw.Row? ==> raw.fingerprint != r.fingerprint)
    ensures !s.ready
  {
    hide WindowGap, Window, Open, Counts, Finds, AuditOf, Essential, StrictlyOrdered, Repeats, OpenSet, Reports, Audits;
    if s.ready {
      ReadyHistory(later, s);
      var before, after := Audits(RowsIn(e)), Audits(RowsIn(later));
      EarlierRowsAgree(e, later, raw, after);
      if before != [] {
        LastFingerprint(e, r);
        assert after[..|before|][|before| - 1] == after[|before| - 1];
      }
      LastAlone(after, s);
      ReadyIsEarned(later, s);
    }
  }

  lemma EarlierRowsAgree(e: Evidence, later: Evidence, raw: Raw, after: seq<Audit>)
    requires RowsIn(later) == RowsIn(e) + [raw] && |after| == |RowsIn(later)|
    requires forall i :: 0 <= i < |after| ==> Essential(RowsIn(later)[i]) && after[i] == AuditOf(RowsIn(later)[i])
    ensures |Audits(RowsIn(e))| == |RowsIn(e)| && after[..|RowsIn(e)|] == Audits(RowsIn(e))
    ensures raw.Row? && raw.fingerprint == Some(after[|RowsIn(e)|].fingerprint)
  {
    hide AuditOf, Essential, Audits;
    var rows := RowsIn(e);
    assert RowsIn(later)[|rows|] == raw && forall i :: 0 <= i < |rows| ==> RowsIn(later)[i] == rows[i];
    FingerprintIsKept(raw);
    NothingDropped(rows);
  }

  lemma LastFingerprint(e: Evidence, r: Report)
    requires Reports(e, r) && Audits(RowsIn(e)) != []
    ensures r.fingerprint == Some(Audits(RowsIn(e))[|Audits(RowsIn(e))| - 1].fingerprint)
  {
    hide Audits, WindowGap, Open, Counts;
  }

  lemma FingerprintIsKept(raw: Raw)
    ensures Essential(raw) ==> raw.Row? && raw.fingerprint == Some(AuditOf(raw).fingerprint)
  {
  }

  /** A window of one row is far too small. */
  lemma LastAlone(audits: seq<Audit>, s: Report)
    requires audits != [] && WindowStartsAt(audits, s.historical)
    requires |audits| > 1 ==> audits[|audits| - 2].fingerprint != audits[|audits| - 1].fingerprint
    ensures !Window(s, audits[s.historical..])
  {
    var last := audits[|audits| - 1];
    assert audits[s.historical..] == [last];
    assert DatesOf([last]) == {last.date};
  }

  // ----- When exactly the evidence is ready

  /** The six side effects are all stated. */
  predicate EffectsStated(raw: Raw)
    requires raw.Row?
  {
    |raw.effects| >= 6 && forall k :: 0 <= k < 6 ==> raw.effects[k].Some?
  }

  predicate NoEffectStated(raw: Raw)
    requires raw.Row? && EffectsStated(raw)
  {
    forall k :: 0 <= k < 6 ==> raw.effects[k].value == 0
  }

  /** What a row of this status must and must not carry. */
  predicate FitsStatus(raw: Raw)
    requires raw.Row? && EffectsStated(raw) && raw.status.Some? && raw.attempted.Some? && raw.proposal.Some?
  {
    var attempted := raw.attempted.value;
    match raw.status.value
    case NoNewInput =>
      && !attempted && !raw.decision.Is? && !raw.decisionRun.Is? && !raw.riskAllowed.Is?
      && !raw.proposal.value && NoEffectStated(raw)
    case StructureInvalid => attempted && raw.structure == Is(false) && !raw.decision.Is? && !raw.riskAllowed.Is?
    case RecordRejected => attempted && raw.structure == Is(true) && !raw.decision.Is? && !raw.riskAllowed.Is?
    case DecisionRecorded => attempted && raw.structure == Is(true) && raw.decision.Is? && raw.decisionRun.Is?
    case FailedClosed => !raw.decision.Is? && !raw.riskAllowed.Is?
  }

  /** A row nothing is wrong with: every field usable, and the fields agree with each other and with the status. */
  predicate GoodRow(raw: Raw, open: set<nat>) {
    && raw.Row?
    && raw.id.Some? && raw.id.value > 0 && raw.key.Some? && raw.startedAt.Some? && raw.fingerprint.Some?
    && raw.date.Some? && raw.date.value in open && raw.status.Some? && raw.probed && raw.attempted.Some?
    && (if raw.attempted.value then raw.structure.Is? else raw.structure.Missing?)
    && (raw.decision.Is? <==> raw.decisionRun.Is?) && !raw.decision.Junk? && !raw.decisionRun.Junk?
    && (raw.riskAllowed.Is? <==> raw.riskReason.Is?) && !raw.riskAllowed.Junk? && !raw.riskReason.Junk?
    && raw.proposal.Some? && EffectsStated(raw) && (raw.proposal.value <==> raw.effects[0].value > 0)
    && (raw.decision.Is? ==> raw.attempted.value && raw.structure == Is(true))
    && FitsStatus(raw)
  }

  lemma EffectsAreStated(raw: Raw, open: set<nat>)
    requires raw.Row?
    ensures EffectsStated(raw) <==> forall which :: !Finds(raw, open, EffectInvalid(which))
    ensures EffectsStated(raw) ==> forall k :: 0 <= k < 6 ==> EffectsOf(raw)[k] == raw.effects[k].value
  {
    if forall which :: !Finds(raw, open, EffectInvalid(which)) {
      forall k | 0 <= k < 6
        ensures k < |raw.effects| && raw.effects[k].Some?
      {
        assert !Finds(raw, open, EffectInvalid(k));
      }
      assert !Finds(raw, open, EffectInvalid(5));
    }
  }

  /** The status matrix, for rows whose fields are usable. */
  lemma MatrixIsFit(raw: Raw)
    requires raw.Row? && EffectsStated(raw) && raw.status.Some? && raw.attempted.Some? && raw.proposal.Some?
    requires forall k :: 0 <= k < 6 ==> EffectsOf(raw)[k] == raw.effects[k].value
    requires if raw.attempted.value then raw.structure.Is? else raw.structure.Missing?
    ensures FitsStatus(raw) <==> !MatrixBroken(raw, raw.status.value)
  {
    hide EffectsOf;
    assert NoEffects(EffectsOf(raw)) <==> NoEffectStated(raw) by {
      if NoEffects(EffectsOf(raw)) {
        assert forall k :: 0 <= k < 6 ==> raw.effects[k].value == EffectsOf(raw)[k];
      }
    }
    hide NoEffects, NoEffectStated;
    match raw.status.value
    case NoNewInput =>
      assert raw.proposal == Some(true) <==> raw.proposal.value;
    case StructureInvalid =>
      assert AttemptedOf(raw) == raw.attempted.value;
      if raw.attempted.value {
        assert raw.structure == if raw.structure.value then Is(true) else Is(false);
      }
    case RecordRejected =>
    case DecisionRecorded =>
    case FailedClosed =>
  }

  lemma CleanIsDecided(raw: Raw, open: set<nat>)
    requires raw.Row? && raw.attempted.Some? && forall kind :: !Finds(raw, open, kind)
    ensures raw.probed && if raw.attempted.value then raw.structure.Is? else raw.structure.Missing?
    ensures (raw.decision.Is? <==> raw.decisionRun.Is?) && !raw.decision.Junk? && !raw.decisionRun.Junk?
  {
    hide MatrixBroken, EffectsOf, EffectAt;
    assert !Finds(raw, open, ProbeFailed);
    assert !Finds(raw, open, StructureMissing) && !Finds(raw, open, StructureWithoutAttempt);
    assert !Finds(raw, open, DecisionInvalid) && !Finds(raw, open, DecisionRunInvalid);
    assert !Finds(raw, open, DecisionPair);
  }

  lemma CleanIsJudged(raw: Raw, open: set<nat>)
    requires raw.Row? && raw.attempted.Some? && raw.status.Some? && forall kind :: !Finds(raw, open, kind)
    ensures (raw.riskAllowed.Is? <==> raw.riskReason.Is?) && !raw.riskAllowed.Junk? && !raw.riskReason.Junk?
    ensures raw.decision.Is? ==> raw.attempted.value && raw.structure == Is(true)
    ensures !MatrixBroken(raw, raw.status.value)
  {
    hide MatrixBroken, EffectsOf, EffectAt;
    assert !Finds(raw, open, RiskAllowedInvalid) && !Finds(raw, open, RiskReasonInvalid);
    assert !Finds(raw, open, RiskPair) && !Finds(raw, open, AcceptedInvalid);
    assert !Finds(raw, open, MatrixInvalid(raw.status.value));
  }

  lemma CleanHasEffects(raw: Raw, open: set<nat>)
    requires raw.Row? && forall kind :: !Finds(raw, open, kind)
    ensures raw.proposal.Some? && EffectsStated(raw) && (raw.proposal.value <==> raw.effects[0].value > 0)
  {
    hide MatrixBroken, EffectsOf;
    EffectsAreStated(raw, open);
    assert !Finds(raw, open, ProposalInvalid) && !Finds(raw, open, ProposalConflict);
  }

  lemma CleanRowIsGood(raw: Raw, open: set<nat>)
    requires forall kind :: !Finds(raw, open, kind)
    ensures GoodRow(raw, open)
  {
    hide MatrixBroken, FitsStatus, EffectsOf, Finds, EffectsStated;
    CleanIsEssential(raw, open);
    CleanIsDecided(raw, open);
    CleanIsJudged(raw, open);
    CleanHasEffects(raw, open);
    EffectsAreStated(raw, open);
    MatrixIsFit(raw);
  }

  lemma GoodRowIsClean(raw: Raw, open: set<nat>)
    requires GoodRow(raw, open)
    ensures forall kind :: !Finds(raw, open, kind)
  {
    hide MatrixBroken, FitsStatus, EffectsOf;
    EffectsAreStated(raw, open);
    MatrixIsFit(raw);
  }

  /** The open trade dates can all be read and strictly ascend. */
  predicate GoodDates(dates: seq<Option<nat>>) {
    && (forall i :: 0 <= i < |dates| ==> dates[i].Some?)
    && forall i, j :: 0 <= i < j < |dates| ==> dates[i].value < dates[j].value
  }

  lemma {:induction false} ParsedAreTheDates(dates: seq<Option<nat>>)
    requires forall i :: 0 <= i < |dates| ==> dates[i].Some?
    ensures |Parsed(dates)| == |dates| && forall i :: 0 <= i < |dates| ==> Parsed(dates)[i] == dates[i].value
    decreases |dates|
  {
    if dates != [] {
      ParsedAreTheDates(dates[..|dates| - 1]);
    }
  }

  lemma NoDateGap(raw: Option<seq<Option<nat>>>)
    ensures (forall g :: !DateGap(raw, g)) <==> raw.Some? && GoodDates(raw.value)
  {
    if raw.Some? && forall i :: 0 <= i < |raw.value| ==> raw.value[i].Some? {
      ParsedAreTheDates(raw.value);
      AscendingWithoutRepeats(Parsed(raw.value));
      assert forall i :: 0 <= i < |raw.value| ==> raw.value[i].value == Parsed(raw.value)[i];
    }
    if forall g :: !DateGap(raw, g) {
      assert !DateGap(raw, OpenDatesNotAList);
      assert !DateGap(raw, OpenDatesNotSorted) && !DateGap(raw, OpenDatesDuplicate);
      forall i | 0 <= i < |raw.value|
        ensures raw.value[i].Some?
      {
        assert !DateGap(raw, OpenDateInvalid(i));
      }
    }
  }

  lemma AscendingWithoutRepeats(items: seq<nat>)
    ensures Ascending(items) && !Repeats(items) <==> forall i, j :: 0 <= i < j < |items| ==> items[i] < items[j]
  {
  }

  /** `b` is later than `a`, or has the greater id at the same time; ids and keys differ. */
  predicate Follows(a: Raw, b: Raw) {
    && Essential(a) && Essential(b)
    && (|| a.startedAt.value < b.startedAt.value
        || (a.startedAt.value == b.startedAt.value && a.id.value < b.id.value))
    && a.id.value != b.id.value && a.key.value != b.key.value
  }

  predicate GoodOrder(rows: seq<Raw>) {
    forall i, j :: 0 <= i < j < |rows| ==> Follows(rows[i], rows[j])
  }

  lemma OrderIsGood(rows: seq<Raw>)
    requires forall i :: 0 <= i < |rows| ==> Essential(rows[i])
    ensures var audits := Audits(rows);
            StrictlyOrdered(audits) && !Repeats(Ids(audits)) && !Repeats(Keys(audits)) <==> GoodOrder(rows)
  {
    hide Essential, AuditOf, Earlier, Follows;
    NothingDropped(rows);
    var audits := Audits(rows);
    var ids, keys := Ids(audits), Keys(audits);
    forall i, j | 0 <= i < j < |rows|
      ensures Follows(rows[i], rows[j]) <==> Earlier(audits[i], audits[j]) && ids[i] != ids[j] && keys[i] != keys[j]
    {
      FollowsIsEarlier(rows[i], rows[j]);
    }
  }

  lemma FollowsIsEarlier(a: Raw, b: Raw)
    requires Essential(a) && Essential(b)
    ensures Follows(a, b) <==> var x, y := AuditOf(a), AuditOf(b); Earlier(x, y) && x.id != y.id && x.key != y.key
  {
  }

  /** Good lists and good counters, good rows in good order; nothing here depends on a window. */
  ghost predicate GoodEvidence(e: Evidence) {
    && e.complete && e.ordered && e.openDates.Some? && GoodDates(e.openDates.value)
    && e.rows.Some? && e.rows.value != []
    && e.expected == Some(|e.rows.value|) && e.conflicts == Some(0) && e.unexplained == Some(0)
    && (forall raw :: raw in e.rows.value ==>
          GoodRow(raw, set d | d in e.openDates.value && d.Some? :: d.value))
    && GoodOrder(e.rows.value)
  }

  lemma CleanIsGoodSource(e: Evidence)
    requires e.rows.Some? && forall g :: !Open(e, g)
    ensures e.complete && e.ordered && e.openDates.Some? && GoodDates(e.openDates.value) && e.rows.value != []
    ensures e.expected == Some(|e.rows.value|) && e.conflicts == Some(0) && e.unexplained == Some(0)
  {
    hide Finds, Repeats, StrictlyOrdered, OpenSet, GoodDates, Ids, Keys, Parsed;
    assert !Open(e, SourceIncomplete) && !Open(e, OrderNotProven) && !Open(e, FingerprintMissing);
    assert !Open(e, ExpectedCountInvalid) && !Open(e, CountMismatch);
    assert !Open(e, CounterInvalid) && !Open(e, CounterNonzero);
    forall g
      ensures !DateGap(e.openDates, g)
    {
      assert !Open(e, g);
    }
    NoDateGap(e.openDates);
  }

  lemma CleanIsGood(e: Evidence)
    requires e.rows.Some? && forall g :: !Open(e, g)
    ensures GoodEvidence(e)
  {
    hide Finds, Repeats, StrictlyOrdered, GoodDates, Ids, Keys, Audits, GoodRow, Essential, Open, GoodOrder;
    CleanIsGoodSource(e);
    var rows := e.rows.value;
    forall raw | raw in rows
      ensures GoodRow(raw, OpenSet(e.openDates.value))
    {
      var i :| 0 <= i < |rows| && rows[i] == raw;
      NoFindings(e, i);
      CleanRowIsGood(raw, OpenSet(e.openDates.value));
    }
    CleanHistory(e);
    OrderIsGood(rows);
  }

  lemma NoFindings(e: Evidence, i: nat)
    requires (forall g :: !Open(e, g)) && e.rows.Some? && e.openDates.Some? && i < |e.rows.value|
    ensures forall kind :: !Finds(e.rows.value[i], OpenSet(e.openDates.value), kind)
  {
    hide Finds, Repeats, StrictlyOrdered, OpenSet;
    forall kind
      ensures !Finds(e.rows.value[i], OpenSet(e.openDates.value), kind)
    {
      assert !Open(e, InRow(i, kind));
    }
  }

  lemma GoodIsClean(e: Evidence)
    requires GoodEvidence(e)
    ensures e.rows.Some? && |Audits(e.rows.value)| == |e.rows.value| && forall g :: !Open(e, g)
  {
    hide Finds, Repeats, StrictlyOrdered, GoodDates, Ids, Keys, Audits, GoodRow, Essential, GoodOrder, DateGap;
    var rows, open := e.rows.value, OpenSet(e.openDates.value);
    NoDateGap(e.openDates);
    forall i | 0 <= i < |rows|
      ensures Essential(rows[i]) && forall kind :: !Finds(rows[i], open, kind)
    {
      assert rows[i] in rows;
      GoodRowIsClean(rows[i], open);
      CleanIsEssential(rows[i], open);
    }
    NothingDropped(rows);
    OrderIsGood(rows);
  }

  /** The rows of a window that attempted a decision, and those of them whose answer was not well-formed. */
  function Tries(rows: seq<Raw>): set<nat> {
    set i: nat | i < |rows| && rows[i].Row? && rows[i].attempted == Some(true)
  }

  function Failures(rows: seq<Raw>): set<nat> {
    set i: nat | i in Tries(rows) && i < |rows| && rows[i].Row? && rows[i].structure != Is(true)
  }

  /** What one row of the window must not lack. */
  predicate Harmless(raw: Raw) {
    raw.Row? && (raw.decision.Is? ==> raw.riskAllowed.Is?) && EffectsStated(raw) && NoEffectStated(raw)
  }

  /** Ten dates, fifty attempts, at most one of a hundred of them failed, and no harm. */
  ghost predicate Suffices(rows: seq<Raw>) {
    && |set raw | raw in rows && raw.Row? :: raw.date| >= 10
    && |Tries(rows)| >= 50 && 100 * |Failures(rows)| <= |Tries(rows)|
    && forall raw :: raw in rows ==> Harmless(raw)
  }

  lemma {:induction false} CountIsCardinality(rows: seq<Audit>, p: Audit -> bool, chosen: set<nat>)
    requires forall i: nat :: i in chosen <==> i < |rows| && p(rows[i])
    ensures Count(rows, p) == |chosen|
    decreases |rows|
  {
    if rows == [] {
      assert chosen == {};
    } else {
      var init, last := rows[..|rows| - 1], |rows| - 1;
      CountIsCardinality(init, p, chosen - {last});
    }
  }

  lemma {:induction false} NothingSummed(rows: seq<Audit>, which: nat)
    requires forall a :: a in rows ==> EffectIn(a, which) == 0
    ensures EffectSum(rows, which) == 0
    decreases |rows|
  {
    if rows != [] {
      assert rows[|rows| - 1] in rows;
      NothingSummed(rows[..|rows| - 1], which);
    }
  }

  /** The audits of these rows. */
  ghost predicate AuditsOf(audits: seq<Audit>, rows: seq<Raw>) {
    |audits| == |rows| && forall i :: 0 <= i < |rows| ==> Essential(rows[i]) && audits[i] == AuditOf(rows[i])
  }

  lemma AttemptsAreTries(audits: seq<Audit>, rows: seq<Raw>)
    requires AuditsOf(audits, rows)
    ensures Count(audits, Tried) == |Tries(rows)|
    ensures Count(audits, ValidlyTried) == |Tries(rows)| - |Failures(rows)|
  {
    hide Essential;
    forall i | 0 <= i < |rows|
      ensures rows[i].Row? && (Tried(audits[i]) <==> rows[i].attempted == Some(true))
      ensures ValidlyTried(audits[i]) <==> rows[i].attempted == Some(true) && rows[i].structure == Is(true)
    {
      TriedIsAttempted(rows[i]);
    }
    CountIsCardinality(audits, Tried, Tries(rows));
    CountIsCardinality(audits, ValidlyTried, Tries(rows) - Failures(rows));
    assert Failures(rows) <= Tries(rows);
  }

  lemma TriedIsAttempted(raw: Raw)
    requires Essential(raw)
    ensures raw.Row? && (Tried(AuditOf(raw)) <==> raw.attempted == Some(true))
    ensures ValidlyTried(AuditOf(raw)) <==> raw.attempted == Some(true) && raw.structure == Is(true)
  {
  }

  lemma DatesAreTheRows(audits: seq<Audit>, rows: seq<Raw>)
    requires AuditsOf(audits, rows)
    ensures |DatesOf(audits)| == |set raw | raw in rows && raw.Row? :: raw.date|
  {
    var dates, stated := DatesOf(audits), set raw | raw in rows && raw.Row? :: raw.date;
    forall i | 0 <= i < |rows|
      ensures rows[i].Row? && rows[i].date == Some(audits[i].date)
    {
    }
    assert stated == Marked(dates) by {
      forall raw | raw in rows && raw.Row?
        ensures raw.date.Some? && raw.date.value in dates
      {
        var i :| 0 <= i < |rows| && rows[i] == raw;
        assert audits[i] in audits;
      }
      forall a | a in audits
        ensures Some(a.date) in stated
      {
        var i :| 0 <= i < |audits| && audits[i] == a;
        assert rows[i] in rows;
      }
    }
    SameSize(dates);
  }

  function Marked(dates: set<nat>): set<Option<nat>> {
    set d | d in dates :: Some(d)
  }

  lemma {:induction false} SameSize(dates: set<nat>)
    ensures |Marked(dates)| == |dates|
    decreases |dates|
  {
    if dates != {} {
      var d :| d in dates;
      SameSize(dates - {d});
      assert Marked(dates) == Marked(dates - {d}) + {Some(d)};
    }
  }

  predicate HarmlessAudit(a: Audit) {
    !Unjudged(a) && !WronglyAccepted(a) && forall k :: 0 <= k < 6 ==> EffectIn(a, k) == 0
  }

  lemma GoodRowIsHarmless(raw: Raw, open: set<nat>)
    requires GoodRow(raw, open)
    ensures Essential(raw) && (HarmlessAudit(AuditOf(raw)) <==> Harmless(raw))
  {
    hide FitsStatus;
    EffectsAreStated(raw, open);
    var a := AuditOf(raw);
    assert forall k :: 0 <= k < 6 ==> EffectIn(a, k) == raw.effects[k].value;
    if Harmless(raw) || HarmlessAudit(a) {
      assert forall k :: 0 <= k < 6 ==> raw.effects[k].value == EffectIn(a, k);
    }
  }

  lemma NoWindowGap(audits: seq<Audit>)
    ensures (forall g :: !WindowGap(audits, g))
            <==> (&& |DatesOf(audits)| >= 10 && Count(audits, Tried) >= 50
                  && 100 * (Count(audits, Tried) - Count(audits, ValidlyTried)) <= Count(audits, Tried)
                  && forall a :: a in audits ==> HarmlessAudit(a))
  {
    hide Count, EffectSum, DatesOf, EffectIn;
    if forall g :: !WindowGap(audits, g) {
      assert !WindowGap(audits, FewDates) && !WindowGap(audits, FewAttempts) && !WindowGap(audits, RateTooLow);
      HarmlessIsNoGap(audits);
    } else if forall a :: a in audits ==> HarmlessAudit(a) {
      HarmlessIsNoGap(audits);
    }
  }

  lemma HarmlessIsNoGap(audits: seq<Audit>)
    ensures (forall a :: a in audits ==> HarmlessAudit(a))
            <==> (&& !WindowGap(audits, RiskMissing) && !WindowGap(audits, StructureNotValid)
                  && forall k :: 0 <= k < 6 ==> !WindowGap(audits, EffectNonzero(k)))
  {
    hide Count, EffectSum, DatesOf, EffectIn, Unjudged, WronglyAccepted;
    if forall a :: a in audits ==> HarmlessAudit(a) {
      NoneToCount(audits, Unjudged);
      NoneToCount(audits, WronglyAccepted);
      forall k | 0 <= k < 6
        ensures EffectSum(audits, k) == 0
      {
        NothingSummed(audits, k);
      }
    } else if && !WindowGap(audits, RiskMissing) && !WindowGap(audits, StructureNotValid)
              && forall k :: 0 <= k < 6 ==> !WindowGap(audits, EffectNonzero(k)) {
      NoneCounted(audits, Unjudged);
      NoneCounted(audits, WronglyAccepted);
      forall a, k | a in audits && 0 <= k < 6
        ensures EffectIn(a, k) == 0
      {
        assert !WindowGap(audits, EffectNonzero(k));
        NoEffectSummed(audits, k);
      }
    }
  }

  lemma NoneToCount(audits: seq<Audit>, p: Audit -> bool)
    requires forall a :: a in audits ==> !p(a)
    ensures Count(audits, p) == 0
  {
    assert forall i :: 0 <= i < |audits| ==> audits[i] in audits;
    CountIsCardinality(audits, p, {});
  }

  lemma WindowSuffices(audits: seq<Audit>, rows: seq<Raw>, open: set<nat>)
    requires AuditsOf(audits, rows) && forall raw :: raw in rows ==> GoodRow(raw, open)
    ensures (forall g :: !WindowGap(audits, g)) <==> Suffices(rows)
  {
    hide Count, DatesOf, Tries, Failures, GoodRow, Harmless, HarmlessAudit, WindowGap, Essential;
    NoWindowGap(audits);
    AttemptsAreTries(audits, rows);
    DatesAreTheRows(audits, rows);
    forall i | 0 <= i < |rows|
      ensures HarmlessAudit(audits[i]) <==> Harmless(rows[i])
    {
      assert rows[i] in rows;
      GoodRowIsHarmless(rows[i], open);
    }
    if forall a :: a in audits ==> HarmlessAudit(a) {
      forall raw | raw in rows
        ensures Harmless(raw)
      {
        var i :| 0 <= i < |rows| && rows[i] == raw;
        assert audits[i] in audits;
      }
    } else if forall raw :: raw in rows ==> Harmless(raw) {
      forall a | a in audits
        ensures HarmlessAudit(a)
      {
        var i :| 0 <= i < |audits| && audits[i] == a;
        assert rows[i] in rows;
      }
    }
  }

  /** The rows that record a decision, those of them without a risk verdict, and those without a valid attempt. */
  function Decisions(rows: seq<Raw>): set<nat> {
    set i: nat | i < |rows| && rows[i].Row? && rows[i].decision.Is?
  }

  function WithoutVerdict(rows: seq<Raw>): set<nat> {
    set i: nat | i in Decisions(rows) && i < |rows| && rows[i].Row? && !rows[i].riskAllowed.Is?
  }

  function WithoutAttempt(rows: seq<Raw>): set<nat> {
    set i: nat | i in Decisions(rows) && i !in Tries(rows) - Failures(rows)
  }

  lemma DecisionIsKept(raw: Raw)
    requires Essential(raw)
    ensures raw.Row? && (Accepted(AuditOf(raw)) <==> raw.decision.Is?)
    ensures Unjudged(AuditOf(raw)) <==> raw.decision.Is? && !raw.riskAllowed.Is?
    ensures WronglyAccepted(AuditOf(raw))
            <==> raw.decision.Is? && !(raw.attempted == Some(true) && raw.structure == Is(true))
  {
  }

  /** The numbers a report states, counted in the rows themselves. */
  lemma CountsAreTheRows(r: Report, audits: seq<Audit>, rows: seq<Raw>)
    requires Counts(r, audits) && AuditsOf(audits, rows)
    ensures r.windowSize == |rows|
    ensures r.attempts == |Tries(rows)| && r.valid == |Tries(rows)| - |Failures(rows)|
    ensures r.accepted == |Decisions(rows)| && r.missingRisk == |WithoutVerdict(rows)|
    ensures r.invalidAccepted == |WithoutAttempt(rows)|
    ensures |r.dates| == |set raw | raw in rows && raw.Row? :: raw.date|
  {
    hide Essential, AuditOf, Count, DatesOf, Tried, ValidlyTried, Accepted, Unjudged, WronglyAccepted;
    AttemptsAreTries(audits, rows);
    DatesAreTheRows(audits, rows);
    forall i | 0 <= i < |rows|
      ensures rows[i].Row? && (Accepted(audits[i]) <==> rows[i].decision.Is?)
      ensures Unjudged(audits[i]) <==> rows[i].decision.Is? && !rows[i].riskAllowed.Is?
      ensures WronglyAccepted(audits[i])
              <==> rows[i].decision.Is? && !(rows[i].attempted == Some(true) && rows[i].structure == Is(true))
    {
      DecisionIsKept(rows[i]);
    }
    CountIsCardinality(audits, Accepted, Decisions(rows));
    CountIsCardinality(audits, Unjudged, WithoutVerdict(rows));
    CountIsCardinality(audits, WronglyAccepted, WithoutAttempt(rows));
  }

  predicate SameFingerprint(a: Raw, b: Raw) {
    a.Row? && b.Row? && a.fingerprint == b.fingerprint
  }

  /** From `start` on all rows have the last row's fingerprint, and the row before has another. */
  predicate LastRun(rows: seq<Raw>, start: nat) {
    && start < |rows|
    && (forall i :: start <= i < |rows| ==> SameFingerprint(rows[i], rows[|rows| - 1]))
    && (start > 0 ==> !SameFingerprint(rows[start - 1], rows[|rows| - 1]))
  }

  lemma RunIsWindow(audits: seq<Audit>, rows: seq<Raw>, start: nat)
    requires AuditsOf(audits, rows)
    ensures WindowStartsAt(audits, start) <==> LastRun(rows, start)
  {
    hide Essential, AuditOf, SameFingerprint;
    if start < |rows| {
      forall i | 0 <= i < |rows|
        ensures SameFingerprint(rows[i], rows[|rows| - 1])
                <==> audits[i].fingerprint == audits[|rows| - 1].fingerprint
      {
        FingerprintsAgree(rows[i], rows[|rows| - 1]);
      }
    }
  }

  lemma FingerprintsAgree(a: Raw, b: Raw)
    requires Essential(a) && Essential(b)
    ensures SameFingerprint(a, b) <==> AuditOf(a).fingerprint == AuditOf(b).fingerprint
  {
  }

  lemma OneLastRun(rows: seq<Raw>, a: nat, b: nat)
    requires LastRun(rows, a) && LastRun(rows, b)
    ensures a == b
  {
  }

  lemma GoodAreAudited(e: Evidence)
    requires GoodEvidence(e)
    ensures AuditsOf(Audits(e.rows.value), e.rows.value)
  {
    hide Essential, AuditOf, GoodRow, GoodDates, GoodOrder;
    forall i | 0 <= i < |e.rows.value|
      ensures Essential(e.rows.value[i])
    {
      assert e.rows.value[i] in e.rows.value;
      GoodRowIsHarmless(e.rows.value[i], OpenSet(e.openDates.value));
    }
    NothingDropped(e.rows.value);
  }

  /** Good evidence leaves only the gaps of its window. */
  lemma GoodWindowDecides(e: Evidence, r: Report, start: nat)
    requires Reports(e, r) && GoodEvidence(e) && LastRun(e.rows.value, start)
    ensures r.ready <==> Suffices(e.rows.value[start..])
  {
    hide Essential, AuditOf, GoodRow, GoodDates, GoodOrder, Audits, Open, WindowGap, Suffices, LastRun, Counts;
    hide WindowStartsAt;
    var rows, audits := e.rows.value, Audits(e.rows.value);
    GoodAreAudited(e);
    GoodIsClean(e);
    RunIsWindow(audits, rows, r.historical);
    OneLastRun(rows, start, r.historical);
    WindowIsInside(audits, start);
    assert forall raw :: raw in rows[start..] ==> raw in rows;
    WindowSuffices(audits[start..], rows[start..], OpenSet(e.openDates.value));
  }

  /** The last run of rows under one fingerprint suffices. */
  ghost predicate RunSuffices(rows: seq<Raw>) {
    exists start: nat :: LastRun(rows, start) && Suffices(rows[start..])
  }

  lemma RunDecides(rows: seq<Raw>, start: nat)
    requires LastRun(rows, start)
    ensures RunSuffices(rows) <==> Suffices(rows[start..])
  {
    hide Suffices;
    if other: nat :| LastRun(rows, other) && Suffices(rows[other..]) {
      OneLastRun(rows, start, other);
    }
  }

  lemma LastRunExists(rows: seq<Raw>) returns (start: nat)
    requires rows != [] && rows[|rows| - 1].Row?
    ensures LastRun(rows, start)
  {
    start := |rows| - 1;
    while start > 0 && SameFingerprint(rows[start - 1], rows[|rows| - 1])
      invariant start < |rows|
      invariant forall i :: start <= i < |rows| ==> SameFingerprint(rows[i], rows[|rows| - 1])
    {
      start := start - 1;
    }
  }

  /**
   Readiness said of the evidence alone, without the report: everything stated and
   good, and the last run of rows under one fingerprint suffices.
   */
  lemma ReadyExactly(e: Evidence, r: Report)
    requires Reports(e, r)
    ensures r.ready <==> GoodEvidence(e) && RunSuffices(e.rows.value)
  {
    hide GoodEvidence, RunSuffices, Suffices, Open, WindowGap, Audits, Counts, WindowStartsAt;
    if r.ready {
      ReadyHasNoGap(e, r);
      CleanIsGood(e);
    }
    if GoodEvidence(e) {
      LastIsARow(e);
      var start := LastRunExists(e.rows.value);
      GoodWindowDecides(e, r, start);
      RunDecides(e.rows.value, start);
    }
  }

  lemma LastIsARow(e: Evidence)
    requires GoodEvidence(e)
    ensures e.rows.Some? && e.rows.value != [] && e.rows.value[|e.rows.value| - 1].Row?
  {
    assert e.rows.value[|e.rows.value| - 1] in e.rows.value;
  }
}
