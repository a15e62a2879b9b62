/**
 The intraday hint source: normalise the fetched bars, choose the proof time,
 compare every object's latest minute with it, validate, and only then write.
 */
module HintPipeline {
  import opened Bytes
  import opened SessionClock
  import opened MinuteRows

  type Obj = (string, string)

  const INDEX := "index"
  const BOARD := "board"

  const PASSED := "passed"
  const PROOF_KIND := "index_board_1m_hint_projection_v1_midday_bridge_v1"

  /** The identities asked for, by kind; `context` is the upstream status when the scope carries one. */
  datatype Scope = Scope(context: Option<string>, stock: seq<string>, index: seq<string>, board: seq<string>)

  datatype ScopeReason = ContextNotPassed | StockForbidden | ScopeEmpty

  datatype Status = Unavailable | BeforeTarget | MatchesTarget | AfterTarget

  datatype Payload = Payload(date: Option<nat>, rows: seq<Bar>, proof: Option<nat>, conflicts: nat, status: Status)

  datatype Reason =
    | Conflict | NotIndexOrBoard | FieldsMissing | FakeMarker | MiddayLabel | AfterProof
    | Duplicate | DateMismatch | NoRows | ObjectMissing | ObjectUnexpected

  /** Which of the three calls the backend offers. */
  datatype Backend = Backend(loads: bool, fetches: bool, writes: bool)

  datatype Dependency = ScopeLoader | MarketFetcher | ArtifactWriter

  datatype Outcome =
    | KindBlocked | DependencyMissing(which: Dependency)
    | LoaderBlocked | ScopeBlocked(reason: ScopeReason) | FetcherBlocked
    | Waiting | PayloadBlocked(reasons: set<Reason>) | ToWriter(payload: Payload)

  function Tagged(kind: string, identities: seq<string>): (objects: seq<Obj>)
    ensures forall o :: o in objects <==> o.0 == kind && o.1 in identities
  {
    if identities == [] then [] else [(kind, identities[0])] + Tagged(kind, identities[1..])
  }

  function Objects(scope: Scope): seq<Obj> {
    Tagged(INDEX, scope.index) + Tagged(BOARD, scope.board)
  }

  /** The scope loader never lists an object without an identity. */
  predicate NamedScope(scope: Scope) {
    "" !in scope.index && "" !in scope.board
  }

  function ObjOf(row: Bar): Obj {
    (row.kind, row.identity)
  }

  /** A bar as the adapter builds it: it names its object, and its dates are those of its bar time. */
  predicate AdapterBuilt(row: Bar) {
    row.identity != "" && row.tradeDate == Some(DateOf(row.time)) && row.sourceDate == Some(DateOf(row.time))
  }

  // ----- The proof time

  function Later(a: Option<nat>, b: nat): Option<nat> {
    if a.Some? && a.value >= b then a else Some(b)
  }

  function LatestTime(rows: seq<Bar>): (latest: Option<nat>)
    ensures latest == None <==> rows == []
    ensures latest.Some? ==> exists r :: r in rows && r.time == latest.value
    ensures latest.Some? ==> forall r :: r in rows ==> r.time <= latest.value
  {
    if rows == [] then None
    else
      var init := rows[..|rows| - 1];
      assert forall r :: r in rows <==> r in init || r == rows[|rows| - 1];
      Later(LatestTime(init), rows[|rows| - 1].time)
  }

  /** The given proof time counts only when it is on the trade date and no later than the latest bar. */
  function SelectProofTime(raw: Option<nat>, derived: Option<nat>, date: Option<nat>): Option<nat> {
    if raw == None then derived
    else if date.Some? && DateOf(raw.value) != date.value then derived
    else if derived.Some? && raw.value > derived.value then derived
    else raw
  }

  method DeriveProofTime(rows: seq<Bar>) returns (latest: Option<nat>)
    ensures latest == LatestTime(rows)
  {
    latest := None;
    for i := 0 to |rows|
      invariant latest == LatestTime(rows[..i])
    {
      assert rows[..i + 1][..i] == rows[..i];
      latest := Later(latest, rows[i].time);
    }
    assert rows[..|rows|] == rows;
  }

  // ----- Alignment with the target minute

  function LabelsOf(rows: seq<Bar>, o: Obj): (labels: seq<nat>)
    ensures forall l :: l in labels <==> exists r :: r in rows && ObjOf(r) == o && LabelOf(r.time) == l
  {
    if rows == [] then []
    else
      var init, row := rows[..|rows| - 1], rows[|rows| - 1];
      var before := LabelsOf(init, o);
      assert forall r :: r in rows <==> r in init || r == row;
      if ObjOf(row) == o then before + [LabelOf(row.time)] else before
  }

  function Max(labels: seq<nat>): (m: nat)
    requires labels != []
    ensures m in labels && forall l :: l in labels ==> l <= m
  {
    if |labels| == 1 then labels[0]
    else
      var rest := Max(labels[1..]);
      assert forall l :: l in labels <==> l == labels[0] || l in labels[1..];
      if labels[0] >= rest then labels[0] else rest
  }

  /** The earliest of the objects' latest minutes, if every object has one. */
  function CommonLatest(rows: seq<Bar>, objects: seq<Obj>): Option<nat> {
    if objects == [] then None
    else
      var labels := LabelsOf(rows, objects[0]);
      if labels == [] then None
      else if |objects| == 1 then Some(Max(labels))
      else
        var rest := CommonLatest(rows, objects[1..]);
        if rest == None then None
        else Some(if Max(labels) <= rest.value then Max(labels) else rest.value)
  }

  /** `common` is the latest minute of object `o`, or an earlier one. */
  predicate NotAfter(rows: seq<Bar>, common: nat, o: Obj) {
    LabelsOf(rows, o) != [] && common <= Max(LabelsOf(rows, o))
  }

  lemma {:induction false} CommonIsEarliest(rows: seq<Bar>, objects: seq<Obj>)
    ensures var common := CommonLatest(rows, objects);
            if common == None then objects == [] || exists o :: o in objects && LabelsOf(rows, o) == []
            else
              && (forall o :: o in objects ==> NotAfter(rows, common.value, o))
              && exists o :: o in objects && NotAfter(rows, common.value, o) && common.value == Max(LabelsOf(rows, o))
    decreases objects
  {
    hide LabelsOf, Max;
    if objects != [] {
      assert objects[0] in objects && forall o :: o in objects <==> o == objects[0] || o in objects[1..];
      CommonIsEarliest(rows, objects[1..]);
    }
  }

  function StatusOf(target: Option<nat>, common: Option<nat>): Status {
    if target == None || common == None then Unavailable
    else if common.value < target.value then BeforeTarget
    else if common.value == target.value then MatchesTarget
    else AfterTarget
  }

  function TargetOf(proof: Option<nat>): Option<nat> {
    if proof == None then None else Some(LabelOf(proof.value))
  }

  method CollectLabels(objects: seq<Obj>, rows: seq<Bar>) returns (labels: map<Obj, seq<nat>>)
    ensures labels.Keys == (set o | o in objects)
    ensures forall o :: o in objects ==> labels[o] == LabelsOf(rows, o)
  {
    hide LabelsOf;
    labels := map o | o in objects :: [];
    NoLabels(objects);
    for i := 0 to |rows|
      invariant labels.Keys == (set o | o in objects)
      invariant forall o :: o in objects ==> labels[o] == LabelsOf(rows[..i], o)
    {
      var o := ObjOf(rows[i]);
      forall p | p in objects
        ensures LabelsOf(rows[..i + 1], p) == LabelsOf(rows[..i], p) + if p == o then [LabelOf(rows[i].time)] else []
      {
        OneMoreLabel(rows, i, p);
      }
      if o in labels {
        labels := labels[o := labels[o] + [LabelOf(rows[i].time)]];
      }
    }
    assert rows[..|rows|] == rows;
  }

  method AlignmentTrace(scope: Scope, rows: seq<Bar>, proof: Option<nat>) returns (status: Status)
    requires NamedScope(scope)
    ensures status == StatusOf(TargetOf(proof), CommonLatest(rows, Objects(scope)))
  {
    hide LabelsOf, Max, CommonLatest;
    var objects := Objects(scope);
    var labels := CollectLabels(objects, rows);
    var common: Option<nat> := None;
    var i := |objects|;
    var missing := objects == [];
    NoCommon(rows);
    while i > 0
      invariant 0 <= i <= |objects|
      invariant i == |objects| ==> common == None && (missing <==> objects == [])
      invariant i < |objects| ==> if missing then CommonLatest(rows, objects[i..]) == None
                                  else common.Some? && CommonLatest(rows, objects[i..]) == common
    {
      i := i - 1;
      var found := labels[objects[i]];
      CommonStep(rows, objects, i);
      if found == [] {
        missing := true;
      } else if !missing && (common == None || Max(found) < common.value) {
        common := Some(Max(found));
      }
    }
    assert objects[0..] == objects;
    status := StatusOf(TargetOf(proof), if missing then None else common);
  }

  lemma NoCommon(rows: seq<Bar>)
    ensures CommonLatest(rows, []) == None
  {
  }

  lemma NoLabels(objects: seq<Obj>)
    ensures forall o :: o in objects ==> LabelsOf([], o) == []
  {
  }

  lemma OneMoreLabel(rows: seq<Bar>, i: nat, o: Obj)
    requires i < |rows|
    ensures LabelsOf(rows[..i + 1], o)
            == LabelsOf(rows[..i], o) + if o == ObjOf(rows[i]) then [LabelOf(rows[i].time)] else []
  {
    assert rows[..i + 1][..i] == rows[..i];
  }

  lemma CommonStep(rows: seq<Bar>, objects: seq<Obj>, i: nat)
    requires i < |objects|
    ensures var labels := LabelsOf(rows, objects[i]);
            var rest := CommonLatest(rows, objects[i + 1..]);
            CommonLatest(rows, objects[i..]) ==
              if labels == [] then None
              else if i + 1 == |objects| then Some(Max(labels))
              else if rest == None then None
              else Some(if Max(labels) <= rest.value then Max(labels) else rest.value)
  {
  }

  // ----- Validation

  /** What one row by itself does wrong. */
  predicate RowFault(row: Bar, p: Payload, reason: Reason) {
    match reason
    case NotIndexOrBoard => row.kind != INDEX && row.kind != BOARD
    case FieldsMissing => !HasFields(row.figures)
    case FakeMarker => row.fake
    case MiddayLabel => LabelOf(row.time) == MIDDAY
    case AfterProof => p.proof.Some? && row.time > p.proof.value
    case DateMismatch => p.date != Some(RowDate(Hint(p.date), row))
    case _ => false
  }

  function MinuteOf(row: Bar): (string, nat) {
    (row.identity, LabelOf(row.time))
  }

  predicate SameMinute(a: Bar, b: Bar) {
    MinuteOf(a) == MinuteOf(b)
  }

  function Observed(rows: seq<Bar>): set<Obj> {
    set r | r in rows && r.kind != "" && r.identity != "" :: ObjOf(r)
  }

  function ExpectedObjects(scope: Scope): set<Obj> {
    set o | o in Objects(scope) && o.1 != ""
  }

  /** When the validator reports `reason`, for each reason it knows. */
  ghost predicate Reported(p: Payload, scope: Scope, reason: Reason) {
    match reason
    case Conflict => p.conflicts > 0
    case Duplicate => exists i, j :: 0 <= i < j < |p.rows| && SameMinute(p.rows[i], p.rows[j])
    case NoRows => p.rows == []
    case ObjectMissing => ExpectedObjects(scope) - Observed(p.rows) != {}
    case ObjectUnexpected => ExpectedObjects(scope) != {} && Observed(p.rows) - ExpectedObjects(scope) != {}
    case _ => exists r :: r in p.rows && RowFault(r, p, reason)
  }

  const ROW_REASONS: set<Reason> := {NotIndexOrBoard, FieldsMissing, FakeMarker, MiddayLabel, AfterProof, DateMismatch}

  function FaultsOf(row: Bar, p: Payload): (faults: set<Reason>)
    ensures forall reason :: reason in faults <==> RowFault(row, p, reason)
  {
    (if RowFault(row, p, NotIndexOrBoard) then {NotIndexOrBoard} else {})
    + (if RowFault(row, p, FieldsMissing) then {FieldsMissing} else {})
    + (if RowFault(row, p, FakeMarker) then {FakeMarker} else {})
    + (if RowFault(row, p, MiddayLabel) then {MiddayLabel} else {})
    + (if RowFault(row, p, AfterProof) then {AfterProof} else {})
    + (if RowFault(row, p, DateMismatch) then {DateMismatch} else {})
  }

  method ScanRows(p: Payload) returns (reasons: set<Reason>, observed: set<Obj>)
    ensures forall reason :: reason in reasons <==> ReportedSoFar(p, |p.rows|, reason)
    ensures observed == Observed(p.rows)
  {
    hide RowFault, ReportedSoFar, MinuteOf, Observed;
    reasons := if p.conflicts > 0 then {Conflict} else {};
    NothingSoFar(p);
    var seen: set<(string, nat)> := {};
    observed := {};
    for i := 0 to |p.rows|
      invariant forall reason :: reason in reasons <==> ReportedSoFar(p, i, reason)
      invariant forall k :: k in seen <==> exists j :: 0 <= j < i && k == MinuteOf(p.rows[j])
      invariant observed == Observed(p.rows[..i])
    {
      assert p.rows[..i + 1][..i] == p.rows[..i];
      var row := p.rows[i];
      var key := MinuteOf(row);
      SoFarGrows(p, i, key in seen);
      reasons := reasons + FaultsOf(row, p) + if key in seen then {Duplicate} else {};
      seen := seen + {key};
      ObservedGrows(p.rows, i);
      if row.kind != "" && row.identity != "" {
        observed := observed + {ObjOf(row)};
      }
    }
    assert p.rows[..|p.rows|] == p.rows;
  }

  lemma ObservedGrows(rows: seq<Bar>, i: nat)
    requires i < |rows|
    ensures var row := rows[i];
            Observed(rows[..i + 1])
            == Observed(rows[..i]) + if row.kind != "" && row.identity != "" then {ObjOf(row)} else {}
  {
  }

  lemma NothingSoFar(p: Payload)
    ensures forall reason :: ReportedSoFar(p, 0, reason) <==> reason == Conflict && p.conflicts > 0
    ensures Observed(p.rows[..0]) == {}
  {
  }

  method Validate(p: Payload, scope: Scope) returns (reasons: set<Reason>)
    ensures forall reason :: reason in reasons <==> Reported(p, scope, reason)
  {
    hide Observed, ExpectedObjects, ReportedSoFar;
    var observed;
    reasons, observed := ScanRows(p);
    SoFarIsAll(p, scope);
    if p.rows == [] {
      reasons := reasons + {NoRows};
    }
    var expected := ExpectedObjects(scope);
    if expected != {} {
      if expected - observed != {} {
        reasons := reasons + {ObjectMissing};
      }
      if observed - expected != {} {
        reasons := reasons + {ObjectUnexpected};
      }
    }
    SetReasons(p, scope);
  }

  lemma SetReasons(p: Payload, scope: Scope)
    ensures forall reason :: reason in {NoRows, ObjectMissing, ObjectUnexpected} ==> !ReportedSoFar(p, |p.rows|, reason)
    ensures Reported(p, scope, NoRows) <==> p.rows == []
    ensures Reported(p, scope, ObjectMissing)
            <==> ExpectedObjects(scope) != {} && ExpectedObjects(scope) - Observed(p.rows) != {}
    ensures Reported(p, scope, ObjectUnexpected)
            <==> ExpectedObjects(scope) != {} && Observed(p.rows) - ExpectedObjects(scope) != {}
    ensures forall reason ::
              reason in ROW_REASONS + {Conflict, Duplicate} || reason in {NoRows, ObjectMissing, ObjectUnexpected}
  {
    hide Observed, ExpectedObjects;
    forall reason: Reason
      ensures reason in ROW_REASONS + {Conflict, Duplicate} || reason in {NoRows, ObjectMissing, ObjectUnexpected}
    {
      assert reason.Conflict? || reason.NotIndexOrBoard? || reason.FieldsMissing? || reason.FakeMarker?
          || reason.MiddayLabel? || reason.AfterProof? || reason.Duplicate? || reason.DateMismatch?
          || reason.NoRows? || reason.ObjectMissing? || reason.ObjectUnexpected?;
    }
    if ExpectedObjects(scope) == {} {
      assert ExpectedObjects(scope) - Observed(p.rows) == {};
    }
  }

  ghost predicate ReportedSoFar(p: Payload, n: nat, reason: Reason)
    requires n <= |p.rows|
  {
    match reason
    case Conflict => p.conflicts > 0
    case Duplicate => exists i, j :: 0 <= i < j < n && SameMinute(p.rows[i], p.rows[j])
    case NoRows => false
    case ObjectMissing => false
    case ObjectUnexpected => false
    case _ => exists i :: 0 <= i < n && RowFault(p.rows[i], p, reason)
  }

  lemma SoFarGrows(p: Payload, n: nat, seen: bool)
    requires n < |p.rows|
    requires seen <==> exists j :: 0 <= j < n && MinuteOf(p.rows[n]) == MinuteOf(p.rows[j])
    ensures forall reason ::
              ReportedSoFar(p, n + 1, reason)
              <==> ReportedSoFar(p, n, reason) || RowFault(p.rows[n], p, reason) || (seen && reason == Duplicate)
  {
  }

  lemma SoFarIsAll(p: Payload, scope: Scope)
    ensures forall reason :: reason in ROW_REASONS || reason == Conflict || reason == Duplicate ==>
              (ReportedSoFar(p, |p.rows|, reason) <==> Reported(p, scope, reason))
  {
  }

  // ----- The whole fetch

  /** Why a scope is refused; the first of the three that holds. */
  predicate Refused(scope: Scope, reason: ScopeReason) {
    match reason
    case ContextNotPassed => ContextFails(scope)
    case StockForbidden => !ContextFails(scope) && scope.stock != []
    case ScopeEmpty => !ContextFails(scope) && scope.stock == [] && scope.index == [] && scope.board == []
  }

  predicate ContextFails(scope: Scope) {
    scope.context.Some? && scope.context.value != PASSED
  }

  method ValidateScope(scope: Scope) returns (blocked: Option<ScopeReason>)
    ensures forall reason :: blocked == Some(reason) <==> Refused(scope, reason)
  {
    if ContextFails(scope) {
      return Some(ContextNotPassed);
    }
    if scope.stock != [] {
      return Some(StockForbidden);
    }
    return if scope.index == [] && scope.board == [] then Some(ScopeEmpty) else None;
  }

  /** The first call the backend does not offer. */
  predicate Lacks(backend: Backend, which: Dependency) {
    match which
    case ScopeLoader => !backend.loads
    case MarketFetcher => backend.loads && !backend.fetches
    case ArtifactWriter => backend.loads && backend.fetches && !backend.writes
  }

  /** With the one proof kind and a complete backend the scope is loaded. */
  predicate Starts(kind: string, backend: Backend) {
    kind == PROOF_KIND && backend.loads && backend.fetches && backend.writes
  }

  /** The market is asked only for a scope that was loaded and that there is no reason to refuse. */
  predicate Asks(kind: string, backend: Backend, scope: Option<Scope>) {
    Starts(kind, backend) && scope.Some? && forall reason :: !Refused(scope.value, reason)
  }

  /** `scope` and `fetched` are absent when the call that gets them came back blocked. */
  method FetchSource(
    kind: string, backend: Backend, scope: Option<Scope>, date: Option<nat>, fetched: Option<seq<Bar>>,
    raw: Option<nat>)
    returns (outcome: Outcome)
    requires scope.Some? ==> NamedScope(scope.value)
    ensures outcome == KindBlocked <==> kind != "index_board_1m_hint_projection_v1_midday_bridge_v1"
    ensures forall which :: outcome == DependencyMissing(which) <==> kind == PROOF_KIND && Lacks(backend, which)
    ensures outcome == LoaderBlocked <==> Starts(kind, backend) && scope == None
    ensures forall reason ::
              outcome == ScopeBlocked(reason)
              <==> Starts(kind, backend) && scope.Some? && Refused(scope.value, reason)
    ensures Starts(kind, backend) && scope.Some? ==>
              (if scope.value.context.Some? && scope.value.context.value != "passed" then
                 outcome == ScopeBlocked(ContextNotPassed)
               else if scope.value.stock != [] then outcome == ScopeBlocked(StockForbidden)
               else outcome.ScopeBlocked? <==> scope.value.index == [] && scope.value.board == [])
    ensures outcome == FetcherBlocked <==> Asks(kind, backend, scope) && fetched == None
    ensures Asks(kind, backend, scope) && fetched.Some? ==>
              Concluded(scope.value, date, fetched.value, raw, outcome)
    ensures outcome.ToWriter? ==>
              scope.Some? && fetched.Some? && Written(scope.value, date, fetched.value, raw, outcome.payload)
  {
    hide Reported, PayloadOf;
    if kind != PROOF_KIND {
      return KindBlocked;
    }
    if !backend.loads {
      return DependencyMissing(ScopeLoader);
    }
    if !backend.fetches {
      return DependencyMissing(MarketFetcher);
    }
    if !backend.writes {
      return DependencyMissing(ArtifactWriter);
    }
    if scope == None {
      return LoaderBlocked;
    }
    var blocked := ValidateScope(scope.value);
    if blocked.Some? {
      return ScopeBlocked(blocked.value);
    }
    AcceptedScope(scope.value);
    if fetched == None {
      return FetcherBlocked;
    }
    outcome := Conclude(scope.value, date, fetched.value, raw);
  }

  lemma AcceptedScope(scope: Scope)
    requires forall reason :: !Refused(scope, reason)
    ensures scope.index != [] || scope.board != []
  {
    assert !Refused(scope, ContextNotPassed) && !Refused(scope, StockForbidden) && !Refused(scope, ScopeEmpty);
  }

  /** What the fetched rows lead to: waiting, blocked with exactly the reasons that hold, or the writer. */
  ghost predicate Concluded(scope: Scope, date: Option<nat>, fetched: seq<Bar>, raw: Option<nat>, outcome: Outcome) {
    var p := PayloadOf(scope, date, fetched, raw);
    if p.status == BeforeTarget then outcome == Waiting
    else if forall reason :: !Reported(p, scope, reason) then outcome == ToWriter(p)
    else outcome.PayloadBlocked? && forall reason :: reason in outcome.reasons <==> Reported(p, scope, reason)
  }

  method Conclude(scope: Scope, date: Option<nat>, fetched: seq<Bar>, raw: Option<nat>) returns (outcome: Outcome)
    requires NamedScope(scope)
    ensures Concluded(scope, date, fetched, raw, outcome)
  {
    hide Reported, Objects, LabelsOf, CommonLatest, Survivors, Counted, LatestTime, SelectProofTime, StatusOf, TargetOf;
    var rows, trace := Normalize(Hint(date), fetched);
    var derived := DeriveProofTime(rows);
    var proof := SelectProofTime(raw, derived, date);
    var status := AlignmentTrace(scope, rows, proof);
    var payload := Payload(date, rows, proof, trace.conflicts, status);
    if status == BeforeTarget {
      return Waiting;
    }
    var reasons := Validate(payload, scope);
    if reasons != {} {
      return PayloadBlocked(reasons);
    }
    return ToWriter(payload);
  }

  /** The payload put together from the fetched rows. */
  ghost function PayloadOf(scope: Scope, date: Option<nat>, fetched: seq<Bar>, raw: Option<nat>): Payload {
    var rows := Survivors(Hint(date), fetched);
    var proof := SelectProofTime(raw, LatestTime(rows), date);
    var status := StatusOf(TargetOf(proof), CommonLatest(rows, Objects(scope)));
    Payload(date, rows, proof, Counted(Hint(date), fetched).conflicts, status)
  }

  /** What has been established when the artifact writer is reached. */
  ghost predicate Written(scope: Scope, date: Option<nat>, fetched: seq<Bar>, raw: Option<nat>, p: Payload) {
    && (scope.index != [] || scope.board != [])
    && p == PayloadOf(scope, date, fetched, raw) && p.status != BeforeTarget
    && forall reason :: !Reported(p, scope, reason)
  }

  /** The bar of object `o` at minute `target`, and it is the only one. */
  ghost predicate OneBarAt(rows: seq<Bar>, o: Obj, target: nat) {
    exists i :: 0 <= i < |rows| && ObjOf(rows[i]) == o && LabelOf(rows[i].time) == target
                && forall j :: 0 <= j < |rows| && ObjOf(rows[j]) == o && LabelOf(rows[j].time) == target ==> j == i
  }

  lemma RowsAreClean(scope: Scope, p: Payload, row: Bar)
    requires (forall reason :: !Reported(p, scope, reason)) && row in p.rows
    ensures LabelOf(row.time) != MIDDAY && (p.proof.Some? ==> row.time <= p.proof.value)
    ensures p.date == Some(RowDate(Hint(p.date), row)) && (row.kind == INDEX || row.kind == BOARD)
  {
    assert !Reported(p, scope, MiddayLabel) && !Reported(p, scope, AfterProof) && !Reported(p, scope, DateMismatch);
    assert !Reported(p, scope, NotIndexOrBoard);
  }

  lemma EarlierLabel(a: nat, b: nat)
    requires a <= b && DateOf(a) == DateOf(b)
    ensures LabelOf(a) <= LabelOf(b)
  {
  }

  lemma RowIsOnDate(scope: Scope, date: Option<nat>, fetched: seq<Bar>, raw: Option<nat>, p: Payload, r: Bar)
    requires Written(scope, date, fetched, raw, p) && r in p.rows && forall q :: q in fetched ==> AdapterBuilt(q)
    ensures date == Some(DateOf(r.time)) && (p.proof.Some? ==> r.time <= p.proof.value)
  {
    hide Reported, Survivors, Counted, CommonLatest, LatestTime, SelectProofTime, LabelOf, DateOf;
    SurvivorsAreDistinct(Hint(date), fetched);
    RowsAreClean(scope, p, r);
    assert AdapterBuilt(r);
  }

  /** With no row after it, the chosen proof time can only be the latest bar's. */
  lemma SelectedIsLatest(raw: Option<nat>, rows: seq<Bar>, date: Option<nat>)
    requires rows != []
    ensures var proof := SelectProofTime(raw, LatestTime(rows), date);
            proof.Some? && ((forall r :: r in rows ==> r.time <= proof.value) ==> proof == LatestTime(rows))
  {
  }

  lemma ProofIsOnDate(scope: Scope, date: Option<nat>, fetched: seq<Bar>, raw: Option<nat>, p: Payload)
    requires Written(scope, date, fetched, raw, p) && forall r :: r in fetched ==> AdapterBuilt(r)
    ensures p.proof.Some? && date.Some? && DateOf(p.proof.value) == date.value
    ensures forall r :: r in p.rows ==> r.time <= p.proof.value && DateOf(r.time) == date.value
    ensures p.proof == LatestTime(p.rows)
  {
    hide Survivors, Counted, CommonLatest, LabelOf, DateOf, SelectProofTime, AdapterBuilt;
    assert !Reported(p, scope, NoRows);
    SelectedIsLatest(raw, p.rows, date);
    forall r | r in p.rows
      ensures date == Some(DateOf(r.time)) && r.time <= p.proof.value
    {
      RowIsOnDate(scope, date, fetched, raw, p, r);
    }
    assert p.rows[0] in p.rows;
  }

  lemma ObjectsAreObserved(scope: Scope, p: Payload)
    requires NamedScope(scope) && (scope.index != [] || scope.board != [])
    requires forall reason :: !Reported(p, scope, reason)
    ensures Objects(scope) != [] && forall o :: o in Objects(scope) ==> LabelsOf(p.rows, o) != []
    ensures forall r :: r in p.rows && r.identity != "" ==> ObjOf(r) in Objects(scope)
  {
    var objects := Objects(scope);
    assert if scope.index != [] then (INDEX, scope.index[0]) in objects else (BOARD, scope.board[0]) in objects;
    assert !Reported(p, scope, ObjectMissing) && !Reported(p, scope, ObjectUnexpected);
    forall o | o in objects
      ensures LabelsOf(p.rows, o) != []
    {
      assert o in ExpectedObjects(scope);
      assert o in Observed(p.rows);
      var r :| r in p.rows && ObjOf(r) == o;
      assert LabelOf(r.time) in LabelsOf(p.rows, o);
    }
    forall r | r in p.rows && r.identity != ""
      ensures ObjOf(r) in objects
    {
      RowsAreClean(scope, p, r);
      assert ObjOf(r) in Observed(p.rows);
      assert objects[0] in ExpectedObjects(scope);
      assert ObjOf(r) in ExpectedObjects(scope);
    }
  }

  /**
   No single check says so, but together they do: when the writer is reached, every
   object of the scope has exactly one bar at the proof minute itself; no bar is later,
   off date, labelled 11:30 or of an object outside the scope; the proof time is the
   latest bar's, whatever time came with the fetch; and the alignment status is
   "matches target", never "after target" or "unavailable".
   */
  lemma WriterSeesAlignedRows(scope: Scope, date: Option<nat>, fetched: seq<Bar>, raw: Option<nat>, p: Payload)
    requires NamedScope(scope) && forall r :: r in fetched ==> AdapterBuilt(r)
    requires Written(scope, date, fetched, raw, p)
    ensures p.proof.Some? && p.proof == LatestTime(p.rows)
    ensures p.status == MatchesTarget && LabelOf(p.proof.value) != MIDDAY
    ensures forall o :: o in Objects(scope) ==> OneBarAt(p.rows, o, LabelOf(p.proof.value))
    ensures forall r :: r in p.rows ==>
              && ObjOf(r) in Objects(scope) && r.time <= p.proof.value
              && LabelOf(r.time) <= LabelOf(p.proof.value) && LabelOf(r.time) != MIDDAY && date == Some(DateOf(r.time))
  {
    hide Reported, Survivors, Counted, LabelOf, DateOf, RowFault, OneBarAt;
    hide Objects, CommonLatest, LabelsOf, KeyOf, Admitted;
    ProofIsOnDate(scope, date, fetched, raw, p);
    ObjectsAreObserved(scope, p);
    SurvivorsAreDistinct(Hint(date), fetched);
    var objects, target := Objects(scope), LabelOf(p.proof.value);
    forall r | r in p.rows
      ensures LabelOf(r.time) <= target && LabelOf(r.time) != MIDDAY && ObjOf(r) in objects
    {
      EarlierLabel(r.time, p.proof.value);
      RowsAreClean(scope, p, r);
      assert AdapterBuilt(r);
    }
    forall o | o in objects
      ensures OneBarAt(p.rows, o, target)
    {
      LatestIsTarget(scope, p, o, target);
      OnlyOneBar(date, p.rows, o, target);
    }
    LatestIsTarget(scope, p, objects[0], target);
  }

  lemma LatestIsTarget(scope: Scope, p: Payload, o: Obj, target: nat)
    requires p.status == StatusOf(Some(target), CommonLatest(p.rows, Objects(scope))) && p.status != BeforeTarget
    requires o in Objects(scope) && forall q :: q in Objects(scope) ==> LabelsOf(p.rows, q) != []
    requires forall r :: r in p.rows ==> LabelOf(r.time) <= target
    ensures exists r :: r in p.rows && ObjOf(r) == o && LabelOf(r.time) == target
    ensures p.status == MatchesTarget
  {
    hide LabelsOf, CommonLatest, LabelOf;
    var common := CommonLatest(p.rows, Objects(scope));
    CommonIsEarliest(p.rows, Objects(scope));
    var q :| q in Objects(scope) && common.value == Max(LabelsOf(p.rows, q));
    assert Max(LabelsOf(p.rows, o)) in LabelsOf(p.rows, o) && Max(LabelsOf(p.rows, q)) in LabelsOf(p.rows, q);
  }

  lemma OnlyOneBar(date: Option<nat>, rows: seq<Bar>, o: Obj, target: nat)
    requires DistinctKeys(Hint(date), rows) && exists r :: r in rows && ObjOf(r) == o && LabelOf(r.time) == target
    ensures OneBarAt(rows, o, target)
  {
    hide LabelOf;
    var r :| r in rows && ObjOf(r) == o && LabelOf(r.time) == target;
    var i :| 0 <= i < |rows| && rows[i] == r;
    forall j | 0 <= j < |rows| && ObjOf(rows[j]) == o && LabelOf(rows[j].time) == target
      ensures j == i
    {
      assert KeyOf(Hint(date), rows[i]) == KeyOf(Hint(date), rows[j]);
    }
  }

  // ----- When exactly the writer is reached

  /** The complete bar of an index or a board, with no marker and not at 11:30. */
  predicate Publishable(row: Bar) {
    && (row.kind == "index" || row.kind == "board")
    && row.figures.open.Some? && row.figures.high.Some? && row.figures.low.Some? && row.figures.close.Some?
    && row.figures.amount.Some?
    && !row.fake && !AtHalfPastEleven(row)
  }

  ghost predicate HasBar(rows: seq<Bar>, kind: string, identity: string) {
    exists r :: r in rows && r.kind == kind && r.identity == identity
  }

  /** There are bars of exactly the objects asked for. */
  ghost predicate CoversScope(rows: seq<Bar>, scope: Scope) {
    forall identity ::
      (HasBar(rows, "index", identity) <==> identity in scope.index)
      && (HasBar(rows, "board", identity) <==> identity in scope.board)
  }

  /** The object of `row` has a bar in the minute of `last`. */
  ghost predicate ReachesMinute(rows: seq<Bar>, row: Bar, last: Bar) {
    exists r :: r in rows && r.kind == row.kind && r.identity == row.identity && SameMinuteOfDay(r, last)
  }

  /** `last` is a latest bar, no given time of the date is earlier, and every object has a bar in its minute. */
  ghost predicate EndsTogether(rows: seq<Bar>, last: Bar, date: nat, raw: Option<nat>) {
    && last in rows && (forall r :: r in rows ==> r.time <= last.time)
    && (raw.Some? && DateOf(raw.value) == date ==> last.time <= raw.value)
    && forall r :: r in rows ==> ReachesMinute(rows, r, last)
  }

  ghost predicate FitToWrite(scope: Scope, rows: seq<Bar>, date: nat, raw: Option<nat>) {
    && (forall r :: r in rows ==> Publishable(r))
    && (forall i, j :: 0 <= i < j < |rows| ==>
          rows[i].identity != rows[j].identity || !SameMinuteOfDay(rows[i], rows[j]))
    && CoversScope(rows, scope)
    && exists last :: EndsTogether(rows, last, date, raw)
  }

  lemma BuiltIsForItsDate(row: Bar, date: nat)
    requires AdapterBuilt(row) && DateOf(row.time) == date
    ensures IsFor(true, row, date)
  {
  }

  /** All of them are in the payload: nothing was off date, merged or in conflict. */
  lemma AllAreKept(scope: Scope, date: nat, fetched: seq<Bar>, raw: Option<nat>)
    requires forall r :: r in fetched ==> AdapterBuilt(r) && DateOf(r.time) == date
    requires forall i, j :: 0 <= i < j < |fetched| ==> !SamePlace(true, fetched[i], fetched[j])
    ensures var p := PayloadOf(scope, Some(date), fetched, raw); p.rows == fetched && p.conflicts == 0
  {
    hide Survivors, Counted, SamePlace, AdapterBuilt, IsFor;
    forall r | r in fetched
      ensures IsFor(true, r, date)
    {
      BuiltIsForItsDate(r, date);
    }
    AllOnDateStay(Hint(Some(date)), fetched);
  }

  /** What an unblocked payload says of its rows. */
  lemma UnreportedIsFit(scope: Scope, date: nat, p: Payload, raw: Option<nat>)
    requires NamedScope(scope) && (scope.index != [] || scope.board != [])
    requires forall r :: r in p.rows ==> AdapterBuilt(r) && DateOf(r.time) == date
    requires forall reason :: !Reported(p, scope, reason)
    ensures forall r :: r in p.rows ==> Publishable(r)
    ensures forall i, j :: 0 <= i < j < |p.rows| ==>
              p.rows[i].identity != p.rows[j].identity || !SameMinuteOfDay(p.rows[i], p.rows[j])
    ensures CoversScope(p.rows, scope)
  {
    hide LabelsOf, SameMinuteOfDay;
    assert !Reported(p, scope, FieldsMissing) && !Reported(p, scope, FakeMarker) && !Reported(p, scope, Duplicate);
    forall r | r in p.rows
      ensures Publishable(r)
    {
      RowsAreClean(scope, p, r);
      assert !RowFault(r, p, FieldsMissing) && !RowFault(r, p, FakeMarker);
    }
    forall i, j | 0 <= i < j < |p.rows|
      ensures p.rows[i].identity != p.rows[j].identity || !SameMinuteOfDay(p.rows[i], p.rows[j])
    {
      assert !SameMinute(p.rows[i], p.rows[j]);
      SameLabels(p.rows[i], p.rows[j]);
    }
    ObjectsAreObserved(scope, p);
    ObservedCovers(scope, p.rows);
  }

  lemma SameLabels(a: Bar, b: Bar)
    ensures SameMinuteOfDay(a, b) <==> LabelOf(a.time) == LabelOf(b.time)
  {
  }

  lemma ObservedCovers(scope: Scope, rows: seq<Bar>)
    requires forall o :: o in Objects(scope) ==> LabelsOf(rows, o) != []
    requires forall r :: r in rows ==> ObjOf(r) in Objects(scope)
    ensures CoversScope(rows, scope)
  {
    forall o | o in Objects(scope)
      ensures HasBar(rows, o.0, o.1)
    {
      assert LabelsOf(rows, o)[0] in LabelsOf(rows, o);
    }
    forall identity
      ensures HasBar(rows, "index", identity) <==> identity in scope.index
      ensures HasBar(rows, "board", identity) <==> identity in scope.board
    {
      assert (INDEX, identity) in Objects(scope) <==> identity in scope.index;
      assert (BOARD, identity) in Objects(scope) <==> identity in scope.board;
    }
  }

  lemma ProofIsLatest(rows: seq<Bar>, last: Bar, date: nat, raw: Option<nat>)
    requires last in rows && forall r :: r in rows ==> r.time <= last.time
    ensures LatestTime(rows) == Some(last.time)
    ensures SelectProofTime(raw, LatestTime(rows), Some(date)) == Some(last.time)
            <==> (raw.Some? && DateOf(raw.value) == date ==> last.time <= raw.value)
  {
    hide DateOf;
    var r :| r in rows && r.time == LatestTime(rows).value;
  }

  lemma ObjectEndsAt(rows: seq<Bar>, row: Bar, last: Bar)
    requires ReachesMinute(rows, row, last) && forall r :: r in rows ==> LabelOf(r.time) <= LabelOf(last.time)
    ensures LabelsOf(rows, ObjOf(row)) != [] && Max(LabelsOf(rows, ObjOf(row))) == LabelOf(last.time)
  {
    hide LabelsOf, LabelOf, SameMinuteOfDay;
    var q :| q in rows && ObjOf(q) == ObjOf(row) && SameMinuteOfDay(q, last);
    SameLabels(q, last);
    assert LabelOf(last.time) in LabelsOf(rows, ObjOf(row));
  }

  lemma CoveredObjects(scope: Scope, rows: seq<Bar>)
    requires CoversScope(rows, scope) && (scope.index != [] || scope.board != [])
    ensures Objects(scope) != [] && forall o :: o in Objects(scope) ==> HasBar(rows, o.0, o.1)
  {
    var objects := Objects(scope);
    assert if scope.index != [] then (INDEX, scope.index[0]) in objects else (BOARD, scope.board[0]) in objects;
  }

  /** No object is behind the latest bar's minute, so that minute is the common one. */
  lemma CommonIsLast(scope: Scope, rows: seq<Bar>, last: Bar)
    requires forall r :: r in rows ==> LabelOf(r.time) <= LabelOf(last.time)
    requires CoversScope(rows, scope) && (scope.index != [] || scope.board != [])
    requires forall r :: r in rows ==> ReachesMinute(rows, r, last)
    ensures CommonLatest(rows, Objects(scope)) == Some(LabelOf(last.time))
  {
    hide LabelsOf, CommonLatest, LabelOf, SameMinuteOfDay, ReachesMinute, CoversScope, Objects;
    CoveredObjects(scope, rows);
    forall o | o in Objects(scope)
      ensures LabelsOf(rows, o) != [] && Max(LabelsOf(rows, o)) == LabelOf(last.time)
    {
      var r :| r in rows && r.kind == o.0 && r.identity == o.1;
      ObjectEndsAt(rows, r, last);
    }
    CommonIsEarliest(rows, Objects(scope));
  }

  /** What ends together has the latest bar's time as its proof time and that bar's minute as its common one. */
  lemma EndsAtProof(scope: Scope, rows: seq<Bar>, last: Bar, date: nat, raw: Option<nat>)
    requires EndsTogether(rows, last, date, raw) && forall r :: r in rows ==> DateOf(r.time) == date
    requires CoversScope(rows, scope) && (scope.index != [] || scope.board != [])
    ensures SelectProofTime(raw, LatestTime(rows), Some(date)) == Some(last.time)
    ensures CommonLatest(rows, Objects(scope)) == Some(LabelOf(last.time))
  {
    hide CommonLatest, LatestTime, SelectProofTime, LabelOf, DateOf, ReachesMinute, CoversScope, Objects;
    ProofIsLatest(rows, last, date, raw);
    forall r | r in rows
      ensures LabelOf(r.time) <= LabelOf(last.time)
    {
      EarlierLabel(r.time, last.time);
    }
    CommonIsLast(scope, rows, last);
  }

  lemma RowsAreFit(scope: Scope, p: Payload, date: nat)
    requires p.date == Some(date) && forall r :: r in p.rows ==> AdapterBuilt(r) && DateOf(r.time) == date
    requires forall r :: r in p.rows ==> Publishable(r) && p.proof.Some? && r.time <= p.proof.value
    ensures forall reason :: reason in ROW_REASONS ==> !Reported(p, scope, reason)
  {
    forall r, reason | r in p.rows && reason in ROW_REASONS
      ensures !RowFault(r, p, reason)
    {
      assert Publishable(r) && AdapterBuilt(r);
    }
  }

  lemma ObjectsAreFit(scope: Scope, p: Payload)
    requires NamedScope(scope) && CoversScope(p.rows, scope)
    requires forall r :: r in p.rows ==> Publishable(r) && r.identity != ""
    ensures !Reported(p, scope, ObjectMissing) && !Reported(p, scope, ObjectUnexpected)
  {
    forall o | o in ExpectedObjects(scope)
      ensures o in Observed(p.rows)
    {
      assert HasBar(p.rows, o.0, o.1);
      var r :| r in p.rows && ObjOf(r) == o;
    }
    forall o | o in Observed(p.rows)
      ensures o in ExpectedObjects(scope)
    {
      var r :| r in p.rows && ObjOf(r) == o;
      assert Publishable(r) && HasBar(p.rows, o.0, o.1);
    }
  }

  lemma FitIsUnreported(scope: Scope, date: nat, p: Payload)
    requires NamedScope(scope) && p.date == Some(date) && p.conflicts == 0 && p.rows != []
    requires forall r :: r in p.rows ==> AdapterBuilt(r) && DateOf(r.time) == date
    requires forall r :: r in p.rows ==> Publishable(r) && p.proof.Some? && r.time <= p.proof.value
    requires forall i, j :: 0 <= i < j < |p.rows| ==>
               p.rows[i].identity != p.rows[j].identity || !SameMinuteOfDay(p.rows[i], p.rows[j])
    requires CoversScope(p.rows, scope)
    ensures forall reason :: !Reported(p, scope, reason)
  {
    hide RowFault, Publishable, CoversScope, DateOf, SameMinuteOfDay, Observed, ExpectedObjects;
    RowsAreFit(scope, p, date);
    ObjectsAreFit(scope, p);
    forall i, j | 0 <= i < j < |p.rows|
      ensures !SameMinute(p.rows[i], p.rows[j])
    {
      SameLabels(p.rows[i], p.rows[j]);
    }
    forall reason: Reason
      ensures !Reported(p, scope, reason)
    {
      SetReasons(p, scope);
    }
  }

  lemma FitIsWritten(scope: Scope, date: nat, fetched: seq<Bar>, raw: Option<nat>)
    requires NamedScope(scope) && (scope.index != [] || scope.board != [])
    requires forall r :: r in fetched ==> AdapterBuilt(r) && DateOf(r.time) == date
    requires forall i, j :: 0 <= i < j < |fetched| ==> !SamePlace(true, fetched[i], fetched[j])
    requires FitToWrite(scope, fetched, date, raw)
    ensures Written(scope, Some(date), fetched, raw, PayloadOf(scope, Some(date), fetched, raw))
  {
    hide Survivors, Counted, SamePlace, CommonLatest, LatestTime, SelectProofTime, DateOf, LabelOf, Reported;
    hide CoversScope, Publishable, SameMinuteOfDay, AdapterBuilt, ReachesMinute, Objects, NamedScope;
    AllAreKept(scope, date, fetched, raw);
    var last :| EndsTogether(fetched, last, date, raw);
    EndsAtProof(scope, fetched, last, date, raw);
    FitIsUnreported(scope, date, PayloadOf(scope, Some(date), fetched, raw));
  }

  lemma OneBarReaches(rows: seq<Bar>, row: Bar, last: Bar)
    requires OneBarAt(rows, ObjOf(row), LabelOf(last.time))
    ensures ReachesMinute(rows, row, last)
  {
    hide LabelOf, SameMinuteOfDay;
    var i :| 0 <= i < |rows| && ObjOf(rows[i]) == ObjOf(row) && LabelOf(rows[i].time) == LabelOf(last.time);
    SameLabels(rows[i], last);
    assert rows[i] in rows;
  }

  /** The converse of ending at the proof time. */
  lemma AlignedEndsTogether(scope: Scope, p: Payload, date: nat, raw: Option<nat>)
    requires p.proof == LatestTime(p.rows) == SelectProofTime(raw, LatestTime(p.rows), Some(date)) && p.proof.Some?
    requires forall r :: r in p.rows ==> ObjOf(r) in Objects(scope)
    requires forall o :: o in Objects(scope) ==> OneBarAt(p.rows, o, LabelOf(p.proof.value))
    ensures exists last :: EndsTogether(p.rows, last, date, raw)
  {
    hide SelectProofTime, DateOf, LabelOf, ReachesMinute, Objects, LatestTime, OneBarAt;
    var last :| last in p.rows && last.time == p.proof.value;
    ProofIsLatest(p.rows, last, date, raw);
    forall r | r in p.rows
      ensures ReachesMinute(p.rows, r, last)
    {
      OneBarReaches(p.rows, r, last);
    }
    assert EndsTogether(p.rows, last, date, raw);
  }

  lemma WrittenIsFit(scope: Scope, date: nat, fetched: seq<Bar>, raw: Option<nat>)
    requires NamedScope(scope) && (scope.index != [] || scope.board != [])
    requires forall r :: r in fetched ==> AdapterBuilt(r) && DateOf(r.time) == date
    requires forall i, j :: 0 <= i < j < |fetched| ==> !SamePlace(true, fetched[i], fetched[j])
    requires Written(scope, Some(date), fetched, raw, PayloadOf(scope, Some(date), fetched, raw))
    ensures FitToWrite(scope, fetched, date, raw)
  {
    hide Survivors, Counted, SamePlace, CommonLatest, LatestTime, SelectProofTime, DateOf, LabelOf, Reported;
    hide CoversScope, Publishable, SameMinuteOfDay, AdapterBuilt, Objects, EndsTogether, OneBarAt, NamedScope;
    AllAreKept(scope, date, fetched, raw);
    var p := PayloadOf(scope, Some(date), fetched, raw);
    UnreportedIsFit(scope, date, p, raw);
    WriterSeesAlignedRows(scope, Some(date), fetched, raw, p);
    AlignedEndsTogether(scope, p, date, raw);
  }

  /**
   For bars of the trade date, different in object or minute, the fetch reaches the
   writer if and only if they are fit to be written, and then with all of them.
   */
  lemma FitReachesWriter(scope: Scope, date: nat, fetched: seq<Bar>, raw: Option<nat>, outcome: Outcome)
    requires NamedScope(scope) && (scope.index != [] || scope.board != [])
    requires forall r :: r in fetched ==> AdapterBuilt(r) && DateOf(r.time) == date
    requires forall i, j :: 0 <= i < j < |fetched| ==> !SamePlace(true, fetched[i], fetched[j])
    requires Concluded(scope, Some(date), fetched, raw, outcome)
    ensures outcome.ToWriter? <==> FitToWrite(scope, fetched, date, raw)
    ensures outcome.ToWriter? ==> outcome.payload.rows == fetched && outcome.payload.date == Some(date)
  {
    hide Survivors, Counted, SamePlace, CommonLatest, LatestTime, SelectProofTime, DateOf, Reported, FitToWrite;
    hide AdapterBuilt;
    AllAreKept(scope, date, fetched, raw);
    if outcome.ToWriter? {
      WrittenIsFit(scope, date, fetched, raw);
    } else if FitToWrite(scope, fetched, date, raw) {
      FitIsWritten(scope, date, fetched, raw);
      assert false;
    }
  }
}
