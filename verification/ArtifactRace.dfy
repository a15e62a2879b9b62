/**
 The write-once artifact pair under concurrency: any number of writers of the
 same minute, interleaved at every look, exclusive create, fstat, write, lstat
 and unlink. Payload and report are two names in one directory; inode numbers of
 removed files may be reused.
 */
module ArtifactRace {
  import opened Bytes

  datatype File = File(inode: nat, creator: nat, content: seq<byte>)

  /** Where a writer is. The names of the cleaning steps say which call comes next. */
  datatype Stage =
    | LookPayload | LookReport | ReadPayload | ReadReport
    | CreatePayload | StatPayload | WritePayload
    | CreateReport | StatReport | WriteReport
    | LstatReport | UnlinkReport | RecheckReport
    | LstatPayload | UnlinkPayload | RecheckPayload
    | Finished(result: Result)

  datatype Result = Written | Reused | Blocked(cleaned: bool)

  /** `payloadId` and `reportId` are the identities taken right after creation. */
  datatype Writer = Writer(
    stage: Stage, sawPayload: bool, seen: seq<byte>,
    payloadId: Option<nat>, reportId: Option<nat>, cleaned: bool)

  const FRESH := Writer(LookPayload, false, [], None, None, true)

  /** What each writer means to write. */
  datatype Job = Job(payload: seq<byte>, report: seq<byte>)

  datatype State = State(payload: Option<File>, report: Option<File>, writers: seq<Writer>)

  /** What the environment decides: whether the call fails, a new file's inode, how much a failing write wrote. */
  datatype Choice = Choice(fault: bool, inode: nat, wrote: nat)

  const FINE := Choice(false, 1, 0)

  function Start(n: nat): State {
    State(None, None, seq(n, _ => FRESH))
  }

  /** A new file's inode is any number no present file has. */
  function FreeInode(s: State, wish: nat): (inode: nat)
    ensures s.payload.Some? ==> s.payload.value.inode != inode
    ensures s.report.Some? ==> s.report.value.inode != inode
    ensures inode == wish
            <==> ((s.payload.Some? ==> s.payload.value.inode != wish)
                  && (s.report.Some? ==> s.report.value.inode != wish))
  {
    var a := if s.payload.Some? then s.payload.value.inode else 0;
    var b := if s.report.Some? then s.report.value.inode else 0;
    if (s.payload.Some? && wish == a) || (s.report.Some? && wish == b) then 1 + a + b else wish
  }

  function With(s: State, w: nat, me: Writer): State
    requires w < |s.writers|
  {
    s.(writers := s.writers[w := me])
  }

  function Moved(s: State, w: nat, stage: Stage): State
    requires w < |s.writers|
  {
    With(s, w, s.writers[w].(stage := stage))
  }

  function Prefix(bytes: seq<byte>, n: nat): seq<byte> {
    if n < |bytes| then bytes[..n] else bytes
  }

  /** One call of writer `w`; a finished writer does nothing. */
  function Step(s: State, w: nat, c: Choice, jobs: seq<Job>): (t: State)
    requires w < |s.writers| == |jobs|
    ensures |t.writers| == |s.writers|
    ensures forall v :: 0 <= v < |s.writers| && v != w ==> t.writers[v] == s.writers[v]
  {
    match s.writers[w].stage
    case LookPayload => Looked(s, w)
    case LookReport => LookedAgain(s, w)
    case ReadPayload => if s.payload == None || c.fault then Moved(s, w, Finished(Blocked(true))) else SawPayload(s, w)
    case ReadReport =>
      Moved(s, w, Finished(if !c.fault && s.report.Some? && s.writers[w].seen == jobs[w].payload
                              && s.report.value.content == jobs[w].report then Reused else Blocked(true)))
    case CreatePayload =>
      if s.payload.Some? || c.fault then Moved(s, w, LstatReport)
      else Moved(s.(payload := Some(File(FreeInode(s, c.inode), w, []))), w, StatPayload)
    case StatPayload => if c.fault then Moved(s, w, LstatReport) else IdentifiedPayload(s, w)
    case WritePayload =>
      if c.fault then Moved(WroteOwnPayload(s, w, Prefix(jobs[w].payload, c.wrote)), w, LstatReport)
      else Moved(WroteOwnPayload(s, w, jobs[w].payload), w, CreateReport)
    case CreateReport =>
      if s.report.Some? || c.fault then Moved(s, w, LstatReport)
      else Moved(s.(report := Some(File(FreeInode(s, c.inode), w, []))), w, StatReport)
    case StatReport => if c.fault then Moved(s, w, LstatReport) else IdentifiedReport(s, w)
    case WriteReport =>
      if c.fault then Moved(WroteOwnReport(s, w, Prefix(jobs[w].report, c.wrote)), w, LstatReport)
      else Moved(WroteOwnReport(s, w, jobs[w].report), w, Finished(Written))
    case LstatReport => LookedForReport(s, w, c.fault)
    case UnlinkReport =>
      if c.fault || s.report == None then Failed(s, w, LstatPayload)
      else Moved(s.(report := None), w, RecheckReport)
    case RecheckReport => if s.report.Some? then Failed(s, w, LstatPayload) else Moved(s, w, LstatPayload)
    case LstatPayload => LookedForPayload(s, w, c.fault)
    case UnlinkPayload =>
      if c.fault || s.payload == None then Moved(s, w, Finished(Blocked(false)))
      else Moved(s.(payload := None), w, RecheckPayload)
    case RecheckPayload => Moved(s, w, Finished(Blocked(s.payload == None && s.writers[w].cleaned)))
    case Finished(_) => s
  }

  function Looked(s: State, w: nat): State
    requires w < |s.writers|
  {
    With(s, w, s.writers[w].(stage := LookReport, sawPayload := s.payload.Some?))
  }

  function LookedAgain(s: State, w: nat): State
    requires w < |s.writers|
  {
    var me := s.writers[w];
    Moved(s, w,
      if !me.sawPayload && s.report == None then CreatePayload
      else if me.sawPayload != s.report.Some? then Finished(Blocked(true))
      else ReadPayload)
  }

  function SawPayload(s: State, w: nat): State
    requires w < |s.writers| && s.payload.Some?
  {
    With(s, w, s.writers[w].(stage := ReadReport, seen := s.payload.value.content))
  }

  /** The identity comes from the open handle, so it is the created file's even if the name is gone. */
  function IdentifiedPayload(s: State, w: nat): State
    requires w < |s.writers|
  {
    var id := if s.payload.Some? && s.payload.value.creator == w then Some(s.payload.value.inode) else None;
    With(s, w, s.writers[w].(stage := WritePayload, payloadId := id))
  }

  function IdentifiedReport(s: State, w: nat): State
    requires w < |s.writers|
  {
    var id := if s.report.Some? && s.report.value.creator == w then Some(s.report.value.inode) else None;
    With(s, w, s.writers[w].(stage := WriteReport, reportId := id))
  }

  /** Writing goes through the handle: it reaches the name only while the name still is that file. */
  function WroteOwnPayload(s: State, w: nat, content: seq<byte>): State {
    if s.payload.Some? && s.payload.value.creator == w then s.(payload := Some(s.payload.value.(content := content)))
    else s
  }

  function WroteOwnReport(s: State, w: nat, content: seq<byte>): State {
    if s.report.Some? && s.report.value.creator == w then s.(report := Some(s.report.value.(content := content)))
    else s
  }

  function Failed(s: State, w: nat, next: Stage): State
    requires w < |s.writers|
  {
    With(s, w, s.writers[w].(stage := next, cleaned := false))
  }

  /** Only a file whose identity is the one created by this attempt is removed. */
  function LookedForReport(s: State, w: nat, fault: bool): State
    requires w < |s.writers|
  {
    var id := s.writers[w].reportId;
    if id == None then Moved(s, w, LstatPayload)
    else if fault then Failed(s, w, LstatPayload)
    else if s.report == None then Moved(s, w, LstatPayload)
    else if Some(s.report.value.inode) != id then Failed(s, w, LstatPayload)
    else Moved(s, w, UnlinkReport)
  }

  function LookedForPayload(s: State, w: nat, fault: bool): State
    requires w < |s.writers|
  {
    var me := s.writers[w];
    if me.payloadId == None then Moved(s, w, Finished(Blocked(me.cleaned)))
    else if fault then Moved(s, w, Finished(Blocked(false)))
    else if s.payload == None then Moved(s, w, Finished(Blocked(me.cleaned)))
    else if Some(s.payload.value.inode) != me.payloadId then Moved(s, w, Finished(Blocked(false)))
    else Moved(s, w, UnlinkPayload)
  }

  /** A schedule: which writer makes its next call, and what the environment decides. */
  type Schedule = seq<(nat, Choice)>

  predicate Runnable(run: Schedule, n: nat) {
    forall i :: 0 <= i < |run| ==> run[i].0 < n
  }

  function After(s: State, run: Schedule, jobs: seq<Job>): (t: State)
    requires |s.writers| == |jobs| && Runnable(run, |jobs|)
    ensures |t.writers| == |jobs|
    decreases |run|
  {
    if run == [] then s
    else
      var before := After(s, run[..|run| - 1], jobs);
      Step(before, run[|run| - 1].0, run[|run| - 1].1, jobs)
  }

  // ----- What every reachable state satisfies

  /** The report cannot be identified or removed: the one family of failures the protocol does not survive. */
  predicate ReportFault(s: State, w: nat, c: Choice)
    requires w < |s.writers|
  {
    c.fault && (s.writers[w].stage.StatReport? || s.writers[w].stage.UnlinkReport?
                || (s.writers[w].stage.LstatReport? && s.writers[w].reportId.Some?))
  }

  predicate OwnsPayload(me: Writer) {
    match me.stage
    case StatPayload => true
    case WritePayload => true
    case CreateReport => true
    case StatReport => true
    case WriteReport => true
    case LstatReport => me.payloadId.Some?
    case UnlinkReport => true
    case RecheckReport => true
    case LstatPayload => me.payloadId.Some?
    case UnlinkPayload => true
    case Finished(result) => result.Written?
    case _ => false
  }

  predicate OwnsReport(me: Writer) {
    match me.stage
    case StatReport => true
    case WriteReport => true
    case LstatReport => me.reportId.Some?
    case UnlinkReport => true
    case Finished(result) => result.Written?
    case _ => false
  }

  predicate PayloadDone(me: Writer) {
    match me.stage
    case CreateReport => true
    case StatReport => true
    case WriteReport => true
    case LstatReport => me.reportId.Some?
    case UnlinkReport => true
    case Finished(result) => result.Written?
    case _ => false
  }

  predicate Leaving(stage: Stage) {
    stage.RecheckReport? || stage.LstatPayload? || stage.UnlinkPayload?
  }

  /** What writer `w` may rely on while others move. */
  predicate Secure(s: State, w: nat, job: Job)
    requires w < |s.writers|
  {
    var me := s.writers[w];
    && (OwnsPayload(me) ==> s.payload.Some? && s.payload.value.creator == w)
    && (OwnsPayload(me) && !me.stage.StatPayload? ==> me.payloadId == Some(s.payload.value.inode))
    && (OwnsReport(me) ==> s.report.Some? && s.report.value.creator == w)
    && (OwnsReport(me) && !me.stage.StatReport? ==> me.reportId == Some(s.report.value.inode))
    && (OwnsReport(me) ==> OwnsPayload(me))
    && (PayloadDone(me) ==> s.payload.Some? && s.payload.value.content == job.payload)
    && (me.stage == Finished(Written) ==> s.report.Some? && s.report.value.content == job.report)
    && (me.reportId.Some? ==> me.payloadId.Some?)
    && (me.stage.LookPayload? || me.stage.LookReport? || me.stage.CreatePayload? || me.stage.StatPayload? ==>
          me.payloadId == None)
    && (OwnsPayload(me) && (!OwnsReport(me) || me.stage.StatReport?) && !Leaving(me.stage) ==> me.reportId == None)
  }

  /** Stages in which a writer may already have created its report. */
  predicate MayHaveReport(stage: Stage) {
    && !stage.LookPayload? && !stage.LookReport? && !stage.ReadPayload? && !stage.ReadReport?
    && !stage.CreatePayload? && !stage.StatPayload? && !stage.WritePayload? && !stage.CreateReport?
  }

  /** A report is never there without its payload, complete and from the same writer. */
  predicate Paired(s: State, jobs: seq<Job>) {
    s.report.Some? ==>
      && s.payload.Some? && s.payload.value.creator == s.report.value.creator < |jobs|
      && s.payload.value.content == jobs[s.payload.value.creator].payload
      && s.payload.value.inode != s.report.value.inode
  }

  /** What every step keeps, whatever failed before: each writer's own view, and who the present files belong to. */
  predicate Sound(s: State, jobs: seq<Job>)
    requires |s.writers| == |jobs|
  {
    (forall w :: 0 <= w < |jobs| ==> Secure(s, w, jobs[w])) && Attributed(s)
  }

  predicate Attributed(s: State) {
    PayloadAttributed(s) && ReportAttributed(s) && DistinctInodes(s)
  }

  predicate PayloadAttributed(s: State) {
    s.payload.Some? ==> s.payload.value.creator < |s.writers|
  }

  predicate ReportAttributed(s: State) {
    s.report.Some? ==>
      s.report.value.creator < |s.writers| && MayHaveReport(s.writers[s.report.value.creator].stage)
  }

  predicate DistinctInodes(s: State) {
    s.payload.Some? && s.report.Some? ==> s.payload.value.inode != s.report.value.inode
  }

  /** The one harmful step: a writer removes its payload although its report is still there. */
  predicate Orphans(s: State, w: nat, c: Choice)
    requires w < |s.writers|
  {
    s.writers[w].stage.UnlinkPayload? && !c.fault && s.payload.Some? && s.report.Some?
  }

  lemma LookingKeepsOwn(s: State, w: nat, c: Choice, jobs: seq<Job>)
    requires w < |s.writers| == |jobs| && Secure(s, w, jobs[w])
    requires s.writers[w].stage.LookPayload? || s.writers[w].stage.LookReport? || s.writers[w].stage.ReadPayload?
             || s.writers[w].stage.ReadReport?
    ensures Secure(Step(s, w, c, jobs), w, jobs[w])
  {
  }

  lemma PayloadKeepsOwn(s: State, w: nat, c: Choice, jobs: seq<Job>)
    requires w < |s.writers| == |jobs| && Secure(s, w, jobs[w])
    requires s.writers[w].stage.CreatePayload? || s.writers[w].stage.StatPayload? || s.writers[w].stage.WritePayload?
    ensures Secure(Step(s, w, c, jobs), w, jobs[w])
  {
  }

  lemma ReportKeepsOwn(s: State, w: nat, c: Choice, jobs: seq<Job>)
    requires w < |s.writers| == |jobs| && Secure(s, w, jobs[w])
    requires s.writers[w].stage.CreateReport? || s.writers[w].stage.StatReport? || s.writers[w].stage.WriteReport?
    ensures Secure(Step(s, w, c, jobs), w, jobs[w])
  {
  }

  lemma ReportCleaningKeepsOwn(s: State, w: nat, c: Choice, jobs: seq<Job>)
    requires w < |s.writers| == |jobs| && Secure(s, w, jobs[w])
    requires s.writers[w].stage.LstatReport? || s.writers[w].stage.UnlinkReport? || s.writers[w].stage.RecheckReport?
    ensures Secure(Step(s, w, c, jobs), w, jobs[w])
  {
  }

  lemma LeavingKeepsOwn(s: State, w: nat, c: Choice, jobs: seq<Job>)
    requires w < |s.writers| == |jobs| && Secure(s, w, jobs[w])
    requires s.writers[w].stage.LstatPayload? || s.writers[w].stage.UnlinkPayload? || s.writers[w].stage.RecheckPayload?
             || s.writers[w].stage.Finished?
    ensures Secure(Step(s, w, c, jobs), w, jobs[w])
  {
  }

  lemma StepKeepsOwn(s: State, w: nat, c: Choice, jobs: seq<Job>)
    requires w < |s.writers| == |jobs| && Secure(s, w, jobs[w])
    ensures Secure(Step(s, w, c, jobs), w, jobs[w])
  {
    hide Step, Secure;
    match s.writers[w].stage
    case LookPayload => LookingKeepsOwn(s, w, c, jobs);
    case LookReport => LookingKeepsOwn(s, w, c, jobs);
    case ReadPayload => LookingKeepsOwn(s, w, c, jobs);
    case ReadReport => LookingKeepsOwn(s, w, c, jobs);
    case CreatePayload => PayloadKeepsOwn(s, w, c, jobs);
    case StatPayload => PayloadKeepsOwn(s, w, c, jobs);
    case WritePayload => PayloadKeepsOwn(s, w, c, jobs);
    case CreateReport => ReportKeepsOwn(s, w, c, jobs);
    case StatReport => ReportKeepsOwn(s, w, c, jobs);
    case WriteReport => ReportKeepsOwn(s, w, c, jobs);
    case LstatReport => ReportCleaningKeepsOwn(s, w, c, jobs);
    case UnlinkReport => ReportCleaningKeepsOwn(s, w, c, jobs);
    case RecheckReport => ReportCleaningKeepsOwn(s, w, c, jobs);
    case LstatPayload => LeavingKeepsOwn(s, w, c, jobs);
    case UnlinkPayload => LeavingKeepsOwn(s, w, c, jobs);
    case RecheckPayload => LeavingKeepsOwn(s, w, c, jobs);
    case Finished(_) => LeavingKeepsOwn(s, w, c, jobs);
  }

  lemma StepKeepsOthers(s: State, w: nat, c: Choice, jobs: seq<Job>, v: nat)
    requires w < |s.writers| == |jobs| && v < |jobs| && v != w
    requires Secure(s, w, jobs[w]) && Secure(s, v, jobs[v])
    ensures Secure(Step(s, w, c, jobs), v, jobs[v])
  {
    hide FreeInode, Prefix;
  }

  lemma StepKeepsAttributed(s: State, w: nat, c: Choice, jobs: seq<Job>)
    requires w < |s.writers| == |jobs| && Attributed(s)
    ensures Attributed(Step(s, w, c, jobs))
  {
    hide Step, PayloadAttributed, ReportAttributed, DistinctInodes;
    StepKeepsCreators(s, w, c, jobs);
    StepKeepsReportAttributed(s, w, c, jobs);
    StepKeepsInodes(s, w, c, jobs);
  }

  lemma StepKeepsCreators(s: State, w: nat, c: Choice, jobs: seq<Job>)
    requires w < |s.writers| == |jobs| && PayloadAttributed(s)
    ensures PayloadAttributed(Step(s, w, c, jobs))
  {
    hide FreeInode, Prefix;
  }

  /** A report's creator changes only by creating the report. */
  lemma ReportComesFrom(s: State, w: nat, c: Choice, jobs: seq<Job>)
    requires w < |s.writers| == |jobs|
    ensures var t := Step(s, w, c, jobs);
            t.report.Some? ==>
              || (s.report.Some? && t.report.value.creator == s.report.value.creator)
              || (t.report.value.creator == w && t.writers[w].stage.StatReport?)
  {
    hide FreeInode, Prefix;
  }

  lemma StagesAdvance(s: State, w: nat, c: Choice, jobs: seq<Job>)
    requires w < |s.writers| == |jobs| && MayHaveReport(s.writers[w].stage)
    ensures MayHaveReport(Step(s, w, c, jobs).writers[w].stage)
  {
    hide FreeInode, Prefix;
    var next := Step(s, w, c, jobs).writers[w].stage;
    match s.writers[w].stage
    case StatReport => assert next.WriteReport? || next.LstatReport?;
    case WriteReport => assert next.LstatReport? || next.Finished?;
    case LstatReport => assert next.UnlinkReport? || next.LstatPayload?;
    case UnlinkReport => assert next.RecheckReport? || next.LstatPayload?;
    case RecheckReport => assert next.LstatPayload?;
    case LstatPayload => assert next.UnlinkPayload? || next.Finished?;
    case UnlinkPayload => assert next.RecheckPayload? || next.Finished?;
    case _ =>
  }

  lemma StepKeepsReportAttributed(s: State, w: nat, c: Choice, jobs: seq<Job>)
    requires w < |s.writers| == |jobs| && ReportAttributed(s)
    ensures ReportAttributed(Step(s, w, c, jobs))
  {
    hide Step;
    ReportComesFrom(s, w, c, jobs);
    if MayHaveReport(s.writers[w].stage) {
      StagesAdvance(s, w, c, jobs);
    }
  }

  lemma StepKeepsInodes(s: State, w: nat, c: Choice, jobs: seq<Job>)
    requires w < |s.writers| == |jobs| && DistinctInodes(s)
    ensures DistinctInodes(Step(s, w, c, jobs))
  {
    hide FreeInode, Prefix;
  }

  lemma StepKeepsSound(s: State, w: nat, c: Choice, jobs: seq<Job>)
    requires w < |s.writers| == |jobs| && Sound(s, jobs)
    ensures Sound(Step(s, w, c, jobs), jobs)
  {
    hide Step, Secure, Attributed;
    StepKeepsAttributed(s, w, c, jobs);
    forall v | 0 <= v < |jobs|
      ensures Secure(Step(s, w, c, jobs), v, jobs[v])
    {
      if v == w {
        StepKeepsOwn(s, w, c, jobs);
      } else {
        StepKeepsOthers(s, w, c, jobs, v);
      }
    }
  }

  lemma StepPairs(s: State, w: nat, c: Choice, jobs: seq<Job>)
    requires w < |s.writers| == |jobs| && Secure(s, w, jobs[w]) && Attributed(s) && Paired(s, jobs)
    ensures Paired(Step(s, w, c, jobs), jobs) <==> !Orphans(s, w, c)
  {
    hide FreeInode, Prefix;
  }

  /** Every step leads from a sound state to a sound one, and keeps the pairing except exactly in the orphaning step. */
  lemma StepKeepsInvariant(s: State, w: nat, c: Choice, jobs: seq<Job>)
    requires w < |s.writers| == |jobs| && Sound(s, jobs)
    ensures Sound(Step(s, w, c, jobs), jobs)
    ensures Paired(s, jobs) ==> (Paired(Step(s, w, c, jobs), jobs) <==> !Orphans(s, w, c))
  {
    hide Step, Secure, Paired, Orphans;
    StepKeepsSound(s, w, c, jobs);
    if Paired(s, jobs) {
      StepPairs(s, w, c, jobs);
    }
  }

  /** The state before step `i` of a run from the empty directory. */
  function At(run: Schedule, i: nat, jobs: seq<Job>): (s: State)
    requires i <= |run| && Runnable(run, |jobs|)
    ensures |s.writers| == |jobs|
  {
    After(Start(|jobs|), run[..i], jobs)
  }

  lemma NextState(run: Schedule, i: nat, jobs: seq<Job>)
    requires i < |run| && Runnable(run, |jobs|)
    ensures At(run, i + 1, jobs) == Step(At(run, i, jobs), run[i].0, run[i].1, jobs)
  {
    assert run[..i + 1][..i] == run[..i];
  }

  predicate NoOrphaning(run: Schedule, end: nat, jobs: seq<Job>)
    requires end <= |run| && Runnable(run, |jobs|)
  {
    forall i :: 0 <= i < end ==> !Orphans(At(run, i, jobs), run[i].0, run[i].1)
  }

  lemma EmptyDirectoryIsSound(jobs: seq<Job>)
    ensures Sound(Start(|jobs|), jobs) && Paired(Start(|jobs|), jobs)
  {
  }

  lemma {:induction false} RunKeepsSound(run: Schedule, end: nat, jobs: seq<Job>)
    requires end <= |run| && Runnable(run, |jobs|)
    ensures Sound(At(run, end, jobs), jobs)
    decreases end
  {
    hide Sound, Step;
    if end == 0 {
      EmptyDirectoryIsSound(jobs);
      assert run[..0] == [];
    } else {
      RunKeepsSound(run, end - 1, jobs);
      NextState(run, end - 1, jobs);
      StepKeepsSound(At(run, end - 1, jobs), run[end - 1].0, run[end - 1].1, jobs);
    }
  }

  lemma {:induction false} RunStaysPaired(run: Schedule, end: nat, jobs: seq<Job>)
    requires end <= |run| && Runnable(run, |jobs|) && NoOrphaning(run, end, jobs)
    ensures Paired(At(run, end, jobs), jobs)
    decreases end
  {
    hide Sound, Paired, Orphans, Step;
    if end == 0 {
      EmptyDirectoryIsSound(jobs);
      assert run[..0] == [];
    } else {
      RunStaysPaired(run, end - 1, jobs);
      RunKeepsSound(run, end - 1, jobs);
      NextState(run, end - 1, jobs);
      StepKeepsInvariant(At(run, end - 1, jobs), run[end - 1].0, run[end - 1].1, jobs);
    }
  }

  lemma {:induction false} FirstOrphaning(run: Schedule, end: nat, jobs: seq<Job>) returns (i: nat)
    requires end <= |run| && Runnable(run, |jobs|) && !NoOrphaning(run, end, jobs)
    ensures i < end && NoOrphaning(run, i, jobs) && Orphans(At(run, i, jobs), run[i].0, run[i].1)
    decreases end
  {
    hide Orphans, At;
    if NoOrphaning(run, end - 1, jobs) {
      i := end - 1;
    } else {
      i := FirstOrphaning(run, end - 1, jobs);
    }
  }

  ghost predicate AlwaysPaired(run: Schedule, jobs: seq<Job>)
    requires Runnable(run, |jobs|)
  {
    forall i :: 0 <= i <= |run| ==> Paired(At(run, i, jobs), jobs)
  }

  /**
   For any number of writers, any schedule and any failures: every state of the run
   has its report paired exactly when no writer removes its payload with its report
   still there.
   */
  lemma PairedExactly(run: Schedule, jobs: seq<Job>)
    requires Runnable(run, |jobs|)
    ensures AlwaysPaired(run, jobs) <==> NoOrphaning(run, |run|, jobs)
  {
    hide Paired, Orphans, Step, At, Sound;
    if NoOrphaning(run, |run|, jobs) {
      forall i | 0 <= i <= |run|
        ensures Paired(At(run, i, jobs), jobs)
      {
        RunStaysPaired(run, i, jobs);
      }
    } else {
      var i := FirstOrphaning(run, |run|, jobs);
      RunStaysPaired(run, i, jobs);
      RunKeepsSound(run, i, jobs);
      NextState(run, i, jobs);
      StepKeepsInvariant(At(run, i, jobs), run[i].0, run[i].1, jobs);
      assert !Paired(At(run, i + 1, jobs), jobs);
    }
  }

  /**
   Whatever fails and however the writers interleave, in every state: a writer that
   has returned "written" created both files and both are there, byte for byte; and
   at most one writer ever does.
   */
  lemma ArtifactPairIsSafe(run: Schedule, end: nat, jobs: seq<Job>)
    requires end <= |run| && Runnable(run, |jobs|)
    ensures var s := At(run, end, jobs);
            && (forall w :: 0 <= w < |jobs| && s.writers[w].stage == Finished(Written) ==>
                  && s.payload.Some? && s.payload.value.creator == w && s.payload.value.content == jobs[w].payload
                  && s.report.Some? && s.report.value.creator == w && s.report.value.content == jobs[w].report)
            && (forall v, w | 0 <= v < |jobs| && 0 <= w < |jobs| ::
                  s.writers[v].stage == Finished(Written) && s.writers[w].stage == Finished(Written) ==> v == w)
  {
    hide At;
    RunKeepsSound(run, end, jobs);
    var s := At(run, end, jobs);
    forall w | 0 <= w < |jobs| && s.writers[w].stage == Finished(Written)
      ensures s.payload.Some? && s.payload.value.creator == w && s.payload.value.content == jobs[w].payload
      ensures s.report.Some? && s.report.value.creator == w && s.report.value.content == jobs[w].report
    {
      assert Secure(s, w, jobs[w]);
    }
  }

  // ----- Reusing a pair

  /** Call `i` is a writer's last look at a pair, and the writer takes it. */
  predicate Reuses(run: Schedule, i: nat, jobs: seq<Job>)
    requires Runnable(run, |jobs|)
  {
    && i < |run| && At(run, i, jobs).writers[run[i].0].stage.ReadReport?
    && Step(At(run, i, jobs), run[i].0, run[i].1, jobs).writers[run[i].0].stage == Finished(Reused)
  }

  /** Writing the report fails, perhaps after its last byte. */
  predicate WriteFault(s: State, w: nat, c: Choice)
    requires w < |s.writers|
  {
    c.fault && s.writers[w].stage.WriteReport?
  }

  predicate WritesWork(run: Schedule, end: nat, u: nat, jobs: seq<Job>)
    requires end <= |run| && Runnable(run, |jobs|) && u < |jobs|
  {
    forall j :: 0 <= j < end && run[j].0 == u ==> !WriteFault(At(run, j, jobs), u, run[j].1)
  }

  /** Bytes in the report of writer `u` mean that `u` has returned "written". */
  predicate ReportMeansWritten(s: State, u: nat)
    requires u < |s.writers|
  {
    s.report.Some? && s.report.value.creator == u && s.report.value.content != [] ==>
      s.writers[u].stage == Finished(Written)
  }

  lemma StepKeepsReportMeaning(s: State, w: nat, c: Choice, jobs: seq<Job>, u: nat)
    requires w < |s.writers| == |jobs| && u < |jobs| && ReportMeansWritten(s, u)
    requires w == u ==> !WriteFault(s, w, c)
    ensures ReportMeansWritten(Step(s, w, c, jobs), u)
  {
    hide FreeInode, Prefix;
  }

  lemma {:induction false} RunKeepsReportMeaning(run: Schedule, end: nat, jobs: seq<Job>, u: nat)
    requires end <= |run| && Runnable(run, |jobs|) && u < |jobs| && WritesWork(run, end, u, jobs)
    ensures ReportMeansWritten(At(run, end, jobs), u)
    decreases end
  {
    hide Step, WriteFault;
    if end == 0 {
      assert run[..0] == [];
    } else {
      hide ReportMeansWritten, At;
      RunKeepsReportMeaning(run, end - 1, jobs, u);
      NextState(run, end - 1, jobs);
      StepKeepsReportMeaning(At(run, end - 1, jobs), run[end - 1].0, run[end - 1].1, jobs, u);
    }
  }

  lemma {:induction false} WrittenStays(run: Schedule, i: nat, end: nat, jobs: seq<Job>, u: nat)
    requires i <= end <= |run| && Runnable(run, |jobs|) && u < |jobs|
    requires At(run, i, jobs).writers[u].stage == Finished(Written)
    ensures At(run, end, jobs).writers[u].stage == Finished(Written)
    decreases end
  {
    hide At;
    if i < end {
      WrittenStays(run, i, end - 1, jobs, u);
      NextState(run, end - 1, jobs);
    }
  }

  /** What a reusing writer has just read. */
  lemma ReusingReads(s: State, v: nat, c: Choice, jobs: seq<Job>)
    requires v < |s.writers| == |jobs| && s.writers[v].stage.ReadReport? && Attributed(s)
    requires Step(s, v, c, jobs).writers[v].stage == Finished(Reused)
    ensures s.report.Some? && s.report.value.creator < |jobs| && s.report.value.content == jobs[v].report
    ensures Step(s, v, c, jobs).writers == s.writers[v := s.writers[v].(stage := Finished(Reused))]
  {
  }

  /** The pair is complete, from writer `u`, and what writer `v` meant to write. */
  predicate PairIs(s: State, u: nat, v: nat, jobs: seq<Job>)
    requires u < |jobs| && v < |jobs|
  {
    && s.payload.Some? && s.payload.value.creator == u && s.payload.value.content == jobs[v].payload
    && s.report.Some? && s.report.value.creator == u && s.report.value.content == jobs[v].report
  }

  /**
   A reused pair is what the reusing writer meant to write, and stays so for ever, if
   the writer that created its report had no failing write of it. Reports are never
   empty, and equal ones are about equal payloads.
   */
  lemma ReusedPairStays(run: Schedule, i: nat, end: nat, jobs: seq<Job>) returns (u: nat)
    requires Runnable(run, |jobs|) && Reuses(run, i, jobs) && i < end <= |run|
    requires forall j :: 0 <= j < |jobs| ==> jobs[j].report != []
    requires forall j, k | 0 <= j < |jobs| && 0 <= k < |jobs| ::
               jobs[j].report == jobs[k].report ==> jobs[j].payload == jobs[k].payload
    requires var r := At(run, i, jobs).report;
             r.Some? && r.value.creator < |jobs| ==> WritesWork(run, i, r.value.creator, jobs)
    ensures u < |jobs| && At(run, end, jobs).writers[u].stage == Finished(Written)
    ensures PairIs(At(run, end, jobs), u, run[i].0, jobs)
  {
    hide At, Step, Secure, WritesWork;
    RunKeepsSound(run, i, jobs);
    var s, v := At(run, i, jobs), run[i].0;
    ReusingReads(s, v, run[i].1, jobs);
    u := s.report.value.creator;
    RunKeepsReportMeaning(run, i, jobs, u);
    WrittenStays(run, i, end, jobs, u);
    ArtifactPairIsSafe(run, i, jobs);
    ArtifactPairIsSafe(run, end, jobs);
    assert jobs[u].report == jobs[v].report;
  }

  // ----- Which failing calls leave a file behind

  /** A writer's report is there and the writer will not remove it any more. */
  predicate KeepsReport(s: State, w: nat)
    requires w < |s.writers|
  {
    && s.report.Some? && s.report.value.creator == w
    && match s.writers[w].stage
       case LstatReport => s.writers[w].reportId == None
       case LstatPayload => true
       case UnlinkPayload => true
       case RecheckPayload => true
       case Finished(_) => true
       case _ => false
  }

  predicate KeepsPayload(s: State, w: nat)
    requires w < |s.writers|
  {
    && s.payload.Some? && s.payload.value.creator == w && s.writers[w].payloadId == None
    && match s.writers[w].stage
       case LstatReport => s.writers[w].reportId == None
       case LstatPayload => true
       case Finished(_) => true
       case _ => false
  }

  lemma ReportFaultKeepsReport(s: State, w: nat, c: Choice, jobs: seq<Job>)
    requires w < |s.writers| == |jobs| && Secure(s, w, jobs[w]) && ReportFault(s, w, c)
    ensures KeepsReport(Step(s, w, c, jobs), w)
  {
  }

  lemma StepKeepsReport(s: State, w: nat, c: Choice, jobs: seq<Job>, v: nat)
    requires w < |s.writers| == |jobs| && v < |jobs| && Secure(s, w, jobs[w]) && KeepsReport(s, v)
    ensures KeepsReport(Step(s, w, c, jobs), v)
  {
    hide FreeInode, Prefix;
  }

  lemma StatFaultKeepsPayload(s: State, w: nat, c: Choice, jobs: seq<Job>)
    requires w < |s.writers| == |jobs| && Secure(s, w, jobs[w]) && c.fault && s.writers[w].stage.StatPayload?
    ensures KeepsPayload(Step(s, w, c, jobs), w)
  {
  }

  lemma StepKeepsPayload(s: State, w: nat, c: Choice, jobs: seq<Job>, v: nat)
    requires w < |s.writers| == |jobs| && v < |jobs| && Secure(s, w, jobs[w]) && KeepsPayload(s, v)
    ensures KeepsPayload(Step(s, w, c, jobs), v)
  {
    hide FreeInode, Prefix;
  }

  lemma {:induction false} RunKeepsReport(run: Schedule, i: nat, end: nat, jobs: seq<Job>, v: nat)
    requires i <= end <= |run| && Runnable(run, |jobs|) && v < |jobs| && KeepsReport(At(run, i, jobs), v)
    ensures KeepsReport(At(run, end, jobs), v)
    decreases end
  {
    hide KeepsReport, Step, At, Secure;
    if i < end {
      RunKeepsReport(run, i, end - 1, jobs, v);
      RunKeepsSound(run, end - 1, jobs);
      NextState(run, end - 1, jobs);
      StepKeepsReport(At(run, end - 1, jobs), run[end - 1].0, run[end - 1].1, jobs, v);
    }
  }

  lemma {:induction false} RunKeepsPayload(run: Schedule, i: nat, end: nat, jobs: seq<Job>, v: nat)
    requires i <= end <= |run| && Runnable(run, |jobs|) && v < |jobs| && KeepsPayload(At(run, i, jobs), v)
    ensures KeepsPayload(At(run, end, jobs), v)
    decreases end
  {
    hide KeepsPayload, Step, At, Secure;
    if i < end {
      RunKeepsPayload(run, i, end - 1, jobs, v);
      RunKeepsSound(run, end - 1, jobs);
      NextState(run, end - 1, jobs);
      StepKeepsPayload(At(run, end - 1, jobs), run[end - 1].0, run[end - 1].1, jobs, v);
    }
  }

  /** The report of writer `v` is there only while `v` still answers for it. */
  predicate Answers(s: State, v: nat)
    requires v < |s.writers|
  {
    s.report.Some? && s.report.value.creator == v ==> OwnsReport(s.writers[v])
  }

  lemma StepKeepsAnswers(s: State, w: nat, c: Choice, jobs: seq<Job>, v: nat)
    requires w < |s.writers| == |jobs| && v < |jobs| && Secure(s, w, jobs[w]) && Secure(s, v, jobs[v]) && Answers(s, v)
    requires v == w ==> !ReportFault(s, w, c)
    ensures Answers(Step(s, w, c, jobs), v)
  {
    hide FreeInode, Prefix;
  }

  /** Two calls of one writer: its report could not be identified or removed, and later its payload was removed. */
  predicate Abandons(run: Schedule, i: nat, k: nat, jobs: seq<Job>)
    requires Runnable(run, |jobs|)
  {
    && i < k < |run| && run[i].0 == run[k].0
    && ReportFault(At(run, i, jobs), run[i].0, run[i].1)
    && At(run, k, jobs).writers[run[k].0].stage.UnlinkPayload? && !run[k].1.fault
  }

  lemma {:induction false} RunStaysAnswered(run: Schedule, end: nat, jobs: seq<Job>, v: nat)
    requires end <= |run| && Runnable(run, |jobs|) && v < |jobs|
    requires forall i :: 0 <= i < end && run[i].0 == v ==> !ReportFault(At(run, i, jobs), v, run[i].1)
    ensures Answers(At(run, end, jobs), v)
    decreases end
  {
    hide Step, Secure, ReportFault;
    if end == 0 {
      assert run[..0] == [];
    } else {
      hide Answers, At;
      RunStaysAnswered(run, end - 1, jobs, v);
      RunKeepsSound(run, end - 1, jobs);
      NextState(run, end - 1, jobs);
      StepKeepsAnswers(At(run, end - 1, jobs), run[end - 1].0, run[end - 1].1, jobs, v);
    }
  }

  lemma AbandoningOrphans(run: Schedule, i: nat, k: nat, jobs: seq<Job>)
    requires Runnable(run, |jobs|) && Abandons(run, i, k, jobs)
    ensures Orphans(At(run, k, jobs), run[k].0, run[k].1)
  {
    hide Step, At;
    var w := run[i].0;
    RunKeepsSound(run, i, jobs);
    NextState(run, i, jobs);
    ReportFaultKeepsReport(At(run, i, jobs), w, run[i].1, jobs);
    RunKeepsReport(run, i + 1, k, jobs, w);
    RunKeepsSound(run, k, jobs);
    assert Secure(At(run, k, jobs), w, jobs[w]);
  }

  lemma FirstOrphaningAbandons(run: Schedule, k: nat, jobs: seq<Job>) returns (i: nat)
    requires k < |run| && Runnable(run, |jobs|) && NoOrphaning(run, k, jobs)
    requires Orphans(At(run, k, jobs), run[k].0, run[k].1)
    ensures Abandons(run, i, k, jobs)
  {
    hide Step, At, NoOrphaning, ReportFault;
    var w := run[k].0;
    RunKeepsSound(run, k, jobs);
    RunStaysPaired(run, k, jobs);
    assert Secure(At(run, k, jobs), w, jobs[w]);
    assert !Answers(At(run, k, jobs), w);
    if forall j :: 0 <= j < k && run[j].0 == w ==> !ReportFault(At(run, j, jobs), w, run[j].1) {
      RunStaysAnswered(run, k, jobs, w);
      assert false;
    }
    i :| 0 <= i < k && run[i].0 == w && ReportFault(At(run, i, jobs), w, run[i].1);
  }

  /**
   The same boundary over failing calls: some state has a report without its payload
   exactly when one writer first failed to identify or remove its report and then
   removed its payload.
   */
  lemma PairedUnlessAbandoned(run: Schedule, jobs: seq<Job>)
    requires Runnable(run, |jobs|)
    ensures AlwaysPaired(run, jobs) <==> !exists i, k :: Abandons(run, i, k, jobs)
  {
    hide Abandons, Orphans, AlwaysPaired, At;
    PairedExactly(run, jobs);
    if !NoOrphaning(run, |run|, jobs) {
      var k := FirstOrphaning(run, |run|, jobs);
      var i := FirstOrphaningAbandons(run, k, jobs);
    } else if i, k :| Abandons(run, i, k, jobs) {
      AbandonedInRange(run, i, k, jobs);
      AbandoningOrphans(run, i, k, jobs);
    }
  }

  lemma AbandonedInRange(run: Schedule, i: nat, k: nat, jobs: seq<Job>)
    requires Runnable(run, |jobs|) && Abandons(run, i, k, jobs)
    ensures k < |run|
  {
  }

  /** Reading back the identity of a file just created fails. */
  predicate LosesIdentity(s: State, w: nat, c: Choice)
    requires w < |s.writers|
  {
    c.fault && (s.writers[w].stage.StatPayload? || s.writers[w].stage.StatReport?)
  }

  predicate KeepsIdentities(run: Schedule, end: nat, w: nat, jobs: seq<Job>)
    requires end <= |run| && Runnable(run, |jobs|) && w < |jobs|
  {
    forall i :: 0 <= i < end && run[i].0 == w ==> !LosesIdentity(At(run, i, jobs), w, run[i].1)
  }

  /** A present file's writer still answers for it, or has noted that its cleanup failed. */
  predicate Accounted(s: State, v: nat)
    requires v < |s.writers|
  {
    PayloadAccounted(s, v) && ReportAccounted(s, v)
  }

  predicate PayloadAccounted(s: State, v: nat)
    requires v < |s.writers|
  {
    s.payload.Some? && s.payload.value.creator == v ==>
      OwnsPayload(s.writers[v]) || s.writers[v].stage == Finished(Blocked(false))
  }

  predicate ReportAccounted(s: State, v: nat)
    requires v < |s.writers|
  {
    var me := s.writers[v];
    s.report.Some? && s.report.value.creator == v ==>
      || OwnsReport(me) || me.stage == Finished(Blocked(false))
      || (!me.cleaned && (me.stage.LstatPayload? || me.stage.UnlinkPayload? || me.stage.RecheckPayload?))
  }

  lemma StepKeepsPayloadAccounted(s: State, w: nat, c: Choice, jobs: seq<Job>, v: nat)
    requires w < |s.writers| == |jobs| && v < |jobs| && Secure(s, v, jobs[v]) && PayloadAccounted(s, v)
    requires v == w ==> !LosesIdentity(s, w, c)
    ensures PayloadAccounted(Step(s, w, c, jobs), v)
  {
    hide FreeInode, Prefix;
  }

  lemma StepKeepsReportAccounted(s: State, w: nat, c: Choice, jobs: seq<Job>, v: nat)
    requires w < |s.writers| == |jobs| && v < |jobs| && Secure(s, v, jobs[v]) && ReportAccounted(s, v)
    requires v == w ==> !LosesIdentity(s, w, c)
    ensures ReportAccounted(Step(s, w, c, jobs), v)
  {
    hide FreeInode, Prefix;
  }

  lemma {:induction false} RunStaysAccounted(run: Schedule, end: nat, jobs: seq<Job>, v: nat)
    requires end <= |run| && Runnable(run, |jobs|) && v < |jobs| && KeepsIdentities(run, end, v, jobs)
    ensures Accounted(At(run, end, jobs), v)
    decreases end
  {
    hide Step, Secure, LosesIdentity;
    if end == 0 {
      assert run[..0] == [];
    } else {
      hide PayloadAccounted, ReportAccounted, At;
      RunStaysAccounted(run, end - 1, jobs, v);
      RunKeepsSound(run, end - 1, jobs);
      NextState(run, end - 1, jobs);
      StepKeepsPayloadAccounted(At(run, end - 1, jobs), run[end - 1].0, run[end - 1].1, jobs, v);
      StepKeepsReportAccounted(At(run, end - 1, jobs), run[end - 1].0, run[end - 1].1, jobs, v);
    }
  }

  /** Once a file has lost its identity, it stays. */
  lemma LostFileStays(run: Schedule, i: nat, end: nat, jobs: seq<Job>)
    requires i < end <= |run| && Runnable(run, |jobs|) && LosesIdentity(At(run, i, jobs), run[i].0, run[i].1)
    ensures !LeftNothing(At(run, end, jobs), run[i].0)
  {
    hide Step, At;
    var w := run[i].0;
    RunKeepsSound(run, i, jobs);
    NextState(run, i, jobs);
    if At(run, i, jobs).writers[w].stage.StatPayload? {
      StatFaultKeepsPayload(At(run, i, jobs), w, run[i].1, jobs);
      RunKeepsPayload(run, i + 1, end, jobs, w);
    } else {
      ReportFaultKeepsReport(At(run, i, jobs), w, run[i].1, jobs);
      RunKeepsReport(run, i + 1, end, jobs, w);
    }
  }

  /** Neither present file was created by writer `w`. */
  predicate LeftNothing(s: State, w: nat) {
    && (s.payload.Some? ==> s.payload.value.creator != w)
    && (s.report.Some? ==> s.report.value.creator != w)
  }

  /**
   A blocked attempt whose cleanup passed has left neither file exactly when it could
   read back the identities of the files it created, whatever failed for the others.
   */
  lemma CleanedAttemptLeavesNothing(run: Schedule, jobs: seq<Job>, w: nat)
    requires Runnable(run, |jobs|)
    requires w < |jobs| && At(run, |run|, jobs).writers[w].stage == Finished(Blocked(true))
    ensures LeftNothing(At(run, |run|, jobs), w) <==> KeepsIdentities(run, |run|, w, jobs)
  {
    hide At, LosesIdentity;
    if KeepsIdentities(run, |run|, w, jobs) {
      RunStaysAccounted(run, |run|, jobs, w);
    } else {
      var i :| 0 <= i < |run| && run[i].0 == w && LosesIdentity(At(run, i, jobs), w, run[i].1);
      LostFileStays(run, i, |run|, jobs);
    }
  }

  // ----- A run that orphans a report

  predicate Traced(run: Schedule, states: seq<State>, jobs: seq<Job>)
    requires Runnable(run, |jobs|)
  {
    && |states| == |run| + 1 && states[0] == Start(|jobs|)
    && (forall i :: 0 <= i < |states| ==> |states[i].writers| == |jobs|)
    && (forall i :: 0 <= i < |run| ==> states[i + 1] == Step(states[i], run[i].0, run[i].1, jobs))
  }

  lemma {:induction false} TracedIsAt(run: Schedule, states: seq<State>, jobs: seq<Job>, i: nat)
    requires Runnable(run, |jobs|) && Traced(run, states, jobs) && i <= |run|
    ensures At(run, i, jobs) == states[i]
  {
    hide Step;
    if i == 0 {
      assert run[..0] == [];
    } else {
      TracedIsAt(run, states, jobs, i - 1);
      NextState(run, i - 1, jobs);
    }
  }

  const BROKEN: Choice := FINE.(fault := true)

  /** One writer; reading back the identity of its report fails. */
  const ORPHANING: Schedule :=
    [(0, FINE), (0, FINE), (0, FINE), (0, FINE), (0, FINE), (0, FINE), (0, BROKEN), (0, FINE), (0, FINE), (0, FINE),
     (0, FINE)]

  function Lone(payload: Option<File>, report: Option<File>, me: Writer): State {
    State(payload, report, [me])
  }

  const IDENTIFIED: Writer := FRESH.(payloadId := Some(1))

  lemma OrphaningLooks(job: Job)
    ensures Step(Lone(None, None, FRESH), 0, FINE, [job]) == Lone(None, None, FRESH.(stage := LookReport))
    ensures Step(Lone(None, None, FRESH.(stage := LookReport)), 0, FINE, [job])
            == Lone(None, None, FRESH.(stage := CreatePayload))
  {
  }

  lemma OrphaningWrites(job: Job)
    ensures var made, done := Some(File(1, 0, [])), Some(File(1, 0, job.payload));
            && Step(Lone(None, None, FRESH.(stage := CreatePayload)), 0, FINE, [job])
               == Lone(made, None, FRESH.(stage := StatPayload))
            && Step(Lone(made, None, FRESH.(stage := StatPayload)), 0, FINE, [job])
               == Lone(made, None, IDENTIFIED.(stage := WritePayload))
            && Step(Lone(made, None, IDENTIFIED.(stage := WritePayload)), 0, FINE, [job])
               == Lone(done, None, IDENTIFIED.(stage := CreateReport))
  {
  }

  lemma OrphaningReports(job: Job, done: Option<File>)
    requires done == Some(File(1, 0, job.payload))
    ensures var orphan := Some(File(2, 0, []));
            && Step(Lone(done, None, IDENTIFIED.(stage := CreateReport)), 0, FINE, [job])
               == Lone(done, orphan, IDENTIFIED.(stage := StatReport))
            && Step(Lone(done, orphan, IDENTIFIED.(stage := StatReport)), 0, BROKEN, [job])
               == Lone(done, orphan, IDENTIFIED.(stage := LstatReport))
  {
  }

  lemma OrphaningCleans(job: Job, done: Option<File>, orphan: Option<File>)
    requires done == Some(File(1, 0, job.payload)) && orphan == Some(File(2, 0, []))
    ensures Step(Lone(done, orphan, IDENTIFIED.(stage := LstatReport)), 0, FINE, [job])
            == Lone(done, orphan, IDENTIFIED.(stage := LstatPayload))
    ensures Step(Lone(done, orphan, IDENTIFIED.(stage := LstatPayload)), 0, FINE, [job])
            == Lone(done, orphan, IDENTIFIED.(stage := UnlinkPayload))
    ensures Step(Lone(done, orphan, IDENTIFIED.(stage := UnlinkPayload)), 0, FINE, [job])
            == Lone(None, orphan, IDENTIFIED.(stage := RecheckPayload))
    ensures Step(Lone(None, orphan, IDENTIFIED.(stage := RecheckPayload)), 0, FINE, [job])
            == Lone(None, orphan, IDENTIFIED.(stage := Finished(Blocked(true))))
  {
  }

  /** After one failing fstat, cleanup reports success and leaves a report without a payload. */
  lemma ReportFaultOrphans(job: Job)
    ensures Runnable(ORPHANING, 1)
    ensures var s := At(ORPHANING, |ORPHANING|, [job]);
            s.report.Some? && s.payload == None && s.writers[0].stage == Finished(Blocked(true))
  {
    hide Step;
    var made, done, orphan := Some(File(1, 0, [])), Some(File(1, 0, job.payload)), Some(File(2, 0, []));
    OrphaningLooks(job);
    OrphaningWrites(job);
    OrphaningReports(job, done);
    OrphaningCleans(job, done, orphan);
    var states := [
      Lone(None, None, FRESH), Lone(None, None, FRESH.(stage := LookReport)),
      Lone(None, None, FRESH.(stage := CreatePayload)),
      Lone(made, None, FRESH.(stage := StatPayload)), Lone(made, None, IDENTIFIED.(stage := WritePayload)),
      Lone(done, None, IDENTIFIED.(stage := CreateReport)), Lone(done, orphan, IDENTIFIED.(stage := StatReport)),
      Lone(done, orphan, IDENTIFIED.(stage := LstatReport)), Lone(done, orphan, IDENTIFIED.(stage := LstatPayload)),
      Lone(done, orphan, IDENTIFIED.(stage := UnlinkPayload)), Lone(None, orphan, IDENTIFIED.(stage := RecheckPayload)),
      Lone(None, orphan, IDENTIFIED.(stage := Finished(Blocked(true))))];
    assert states[0] == Start(1);
    TracedIsAt(ORPHANING, states, [job], 11);
  }

  // ----- A run that reuses a pair and loses it

  /** Writing the report fails after its last byte. */
  function LateFault(job: Job): Choice {
    Choice(true, 0, |job.report|)
  }

  /** One writer creates the pair, its last write fails late; another reuses the pair; the first cleans up. */
  function Vanishing(job: Job): Schedule {
    [(0, FINE), (0, FINE), (0, FINE), (0, FINE), (0, FINE), (0, FINE), (0, FINE), (0, LateFault(job)),
     (1, FINE), (1, FINE), (1, FINE), (1, FINE),
     (0, FINE), (0, FINE), (0, FINE), (0, FINE), (0, FINE), (0, FINE)]
  }

  function Both(payload: Option<File>, report: Option<File>, first: Writer, second: Writer): State {
    State(payload, report, [first, second])
  }

  const OWNER: Writer := IDENTIFIED.(reportId := Some(2))

  lemma VanishingCreates(job: Job, jobs: seq<Job>)
    requires jobs == [job, job]
    ensures var made, done := Some(File(1, 0, [])), Some(File(1, 0, job.payload));
            && Step(Both(None, None, FRESH, FRESH), 0, FINE, jobs)
               == Both(None, None, FRESH.(stage := LookReport), FRESH)
            && Step(Both(None, None, FRESH.(stage := LookReport), FRESH), 0, FINE, jobs)
               == Both(None, None, FRESH.(stage := CreatePayload), FRESH)
            && Step(Both(None, None, FRESH.(stage := CreatePayload), FRESH), 0, FINE, jobs)
               == Both(made, None, FRESH.(stage := StatPayload), FRESH)
            && Step(Both(made, None, FRESH.(stage := StatPayload), FRESH), 0, FINE, jobs)
               == Both(made, None, IDENTIFIED.(stage := WritePayload), FRESH)
            && Step(Both(made, None, IDENTIFIED.(stage := WritePayload), FRESH), 0, FINE, jobs)
               == Both(done, None, IDENTIFIED.(stage := CreateReport), FRESH)
  {
  }

  lemma VanishingReports(job: Job, jobs: seq<Job>, done: Option<File>)
    requires jobs == [job, job] && done == Some(File(1, 0, job.payload))
    ensures var empty, whole := Some(File(2, 0, [])), Some(File(2, 0, job.report));
            && Step(Both(done, None, IDENTIFIED.(stage := CreateReport), FRESH), 0, FINE, jobs)
               == Both(done, empty, IDENTIFIED.(stage := StatReport), FRESH)
            && Step(Both(done, empty, IDENTIFIED.(stage := StatReport), FRESH), 0, FINE, jobs)
               == Both(done, empty, OWNER.(stage := WriteReport), FRESH)
            && Step(Both(done, empty, OWNER.(stage := WriteReport), FRESH), 0, LateFault(job), jobs)
               == Both(done, whole, OWNER.(stage := LstatReport), FRESH)
  {
  }

  lemma VanishingReuses(job: Job, jobs: seq<Job>, done: Option<File>, whole: Option<File>, owner: Writer)
    requires jobs == [job, job] && done == Some(File(1, 0, job.payload)) && whole == Some(File(2, 0, job.report))
    ensures var looked := FRESH.(sawPayload := true);
            var read := looked.(seen := job.payload);
            && Step(Both(done, whole, owner, FRESH), 1, FINE, jobs)
               == Both(done, whole, owner, looked.(stage := LookReport))
            && Step(Both(done, whole, owner, looked.(stage := LookReport)), 1, FINE, jobs)
               == Both(done, whole, owner, looked.(stage := ReadPayload))
            && Step(Both(done, whole, owner, looked.(stage := ReadPayload)), 1, FINE, jobs)
               == Both(done, whole, owner, read.(stage := ReadReport))
            && Step(Both(done, whole, owner, read.(stage := ReadReport)), 1, FINE, jobs)
               == Both(done, whole, owner, read.(stage := Finished(Reused)))
  {
  }

  lemma VanishingCleansReport(job: Job, jobs: seq<Job>, done: Option<File>, whole: Option<File>, other: Writer)
    requires jobs == [job, job] && done == Some(File(1, 0, job.payload)) && whole == Some(File(2, 0, job.report))
    ensures Step(Both(done, whole, OWNER.(stage := LstatReport), other), 0, FINE, jobs)
            == Both(done, whole, OWNER.(stage := UnlinkReport), other)
    ensures Step(Both(done, whole, OWNER.(stage := UnlinkReport), other), 0, FINE, jobs)
            == Both(done, None, OWNER.(stage := RecheckReport), other)
    ensures Step(Both(done, None, OWNER.(stage := RecheckReport), other), 0, FINE, jobs)
            == Both(done, None, OWNER.(stage := LstatPayload), other)
  {
  }

  lemma VanishingCleansPayload(job: Job, jobs: seq<Job>, done: Option<File>, other: Writer)
    requires jobs == [job, job] && done == Some(File(1, 0, job.payload))
    ensures Step(Both(done, None, OWNER.(stage := LstatPayload), other), 0, FINE, jobs)
            == Both(done, None, OWNER.(stage := UnlinkPayload), other)
    ensures Step(Both(done, None, OWNER.(stage := UnlinkPayload), other), 0, FINE, jobs)
            == Both(None, None, OWNER.(stage := RecheckPayload), other)
    ensures Step(Both(None, None, OWNER.(stage := RecheckPayload), other), 0, FINE, jobs)
            == Both(None, None, OWNER.(stage := Finished(Blocked(true))), other)
  {
  }

  /** A writer that returned "reused" may be left with nothing, after one failing write and a clean cleanup. */
  lemma ReusedPairVanishes(job: Job)
    ensures Runnable(Vanishing(job), 2) && Reuses(Vanishing(job), 11, [job, job])
    ensures var s := At(Vanishing(job), |Vanishing(job)|, [job, job]);
            && s.payload == None && s.report == None
            && s.writers[0].stage == Finished(Blocked(true)) && s.writers[1].stage == Finished(Reused)
  {
    hide Step;
    var jobs, run := [job, job], Vanishing(job);
    var made, done := Some(File(1, 0, [])), Some(File(1, 0, job.payload));
    var empty, whole := Some(File(2, 0, [])), Some(File(2, 0, job.report));
    var looked := FRESH.(sawPayload := true);
    var read := looked.(seen := job.payload);
    var reused := read.(stage := Finished(Reused));
    VanishingCreates(job, jobs);
    VanishingReports(job, jobs, done);
    VanishingReuses(job, jobs, done, whole, OWNER.(stage := LstatReport));
    VanishingCleansReport(job, jobs, done, whole, reused);
    VanishingCleansPayload(job, jobs, done, reused);
    var states := [
      Both(None, None, FRESH, FRESH), Both(None, None, FRESH.(stage := LookReport), FRESH),
      Both(None, None, FRESH.(stage := CreatePayload), FRESH),
      Both(made, None, FRESH.(stage := StatPayload), FRESH),
      Both(made, None, IDENTIFIED.(stage := WritePayload), FRESH),
      Both(done, None, IDENTIFIED.(stage := CreateReport), FRESH),
      Both(done, empty, IDENTIFIED.(stage := StatReport), FRESH),
      Both(done, empty, OWNER.(stage := WriteReport), FRESH),
      Both(done, whole, OWNER.(stage := LstatReport), FRESH),
      Both(done, whole, OWNER.(stage := LstatReport), looked.(stage := LookReport)),
      Both(done, whole, OWNER.(stage := LstatReport), looked.(stage := ReadPayload)),
      Both(done, whole, OWNER.(stage := LstatReport), read.(stage := ReadReport)),
      Both(done, whole, OWNER.(stage := LstatReport), reused),
      Both(done, whole, OWNER.(stage := UnlinkReport), reused),
      Both(done, None, OWNER.(stage := RecheckReport), reused),
      Both(done, None, OWNER.(stage := LstatPayload), reused),
      Both(done, None, OWNER.(stage := UnlinkPayload), reused),
      Both(None, None, OWNER.(stage := RecheckPayload), reused),
      Both(None, None, OWNER.(stage := Finished(Blocked(true))), reused)];
    assert states[0] == Start(2);
    TracedIsAt(run, states, jobs, 11);
    TracedIsAt(run, states, jobs, 18);
  }
}
