/**
 What the write-once protocol achieves: every writer comes to an end, and where no
 call fails exactly one of them writes the pair, however they interleave.
 */
module ArtifactProgress {
  import opened Bytes
  import opened ArtifactRace

  // ----- Every writer comes to an end

  /** The most calls a writer can still have to make. */
  function CallsLeft(stage: Stage): (calls: nat)
    ensures calls == 0 <==> stage.Finished?
  {
    match stage
    case LookPayload => 14
    case LookReport => 13
    case CreatePayload => 12
    case StatPayload => 11
    case WritePayload => 10
    case CreateReport => 9
    case StatReport => 8
    case WriteReport => 7
    case LstatReport => 6
    case UnlinkReport => 5
    case RecheckReport => 4
    case LstatPayload => 3
    case UnlinkPayload => 2
    case RecheckPayload => 1
    case ReadPayload => 2
    case ReadReport => 1
    case Finished(_) => 0
  }

  function CallsOf(run: Schedule, end: nat, w: nat): nat
    requires end <= |run|
  {
    if end == 0 then 0 else CallsOf(run, end - 1, w) + if run[end - 1].0 == w then 1 else 0
  }

  lemma WritingMovesOn(s: State, w: nat, c: Choice, jobs: seq<Job>)
    requires w < |s.writers| == |jobs| && CallsLeft(s.writers[w].stage) >= 7
    ensures CallsLeft(Step(s, w, c, jobs).writers[w].stage) < CallsLeft(s.writers[w].stage)
  {
    hide FreeInode, Prefix;
    var next := Step(s, w, c, jobs).writers[w].stage;
    match s.writers[w].stage
    case LookPayload => assert next.LookReport?;
    case LookReport => assert next.CreatePayload? || next.ReadPayload? || next.Finished?;
    case CreatePayload => assert next.StatPayload? || next.LstatReport?;
    case StatPayload => assert next.WritePayload? || next.LstatReport?;
    case WritePayload => assert next.CreateReport? || next.LstatReport?;
    case CreateReport => assert next.StatReport? || next.LstatReport?;
    case StatReport => assert next.WriteReport? || next.LstatReport?;
    case WriteReport => assert next.LstatReport? || next.Finished?;
  }

  lemma EndingMovesOn(s: State, w: nat, c: Choice, jobs: seq<Job>)
    requires w < |s.writers| == |jobs| && 0 < CallsLeft(s.writers[w].stage) < 7
    ensures CallsLeft(Step(s, w, c, jobs).writers[w].stage) < CallsLeft(s.writers[w].stage)
  {
    hide FreeInode, Prefix;
    var next := Step(s, w, c, jobs).writers[w].stage;
    match s.writers[w].stage
    case ReadPayload => assert next.ReadReport? || next.Finished?;
    case LstatReport => assert next.UnlinkReport? || next.LstatPayload?;
    case UnlinkReport => assert next.RecheckReport? || next.LstatPayload?;
    case RecheckReport => assert next.LstatPayload?;
    case LstatPayload => assert next.UnlinkPayload? || next.Finished?;
    case UnlinkPayload => assert next.RecheckPayload? || next.Finished?;
    case ReadReport => assert next.Finished?;
    case RecheckPayload => assert next.Finished?;
  }

  lemma StepMovesOn(s: State, w: nat, c: Choice, jobs: seq<Job>)
    requires w < |s.writers| == |jobs|
    ensures var was, now := s.writers[w].stage, Step(s, w, c, jobs).writers[w].stage;
            CallsLeft(now) < CallsLeft(was) || (was.Finished? && now == was)
  {
    if CallsLeft(s.writers[w].stage) >= 7 {
      hide Step, CallsLeft;
      WritingMovesOn(s, w, c, jobs);
    } else if CallsLeft(s.writers[w].stage) > 0 {
      hide Step, CallsLeft;
      EndingMovesOn(s, w, c, jobs);
    }
  }

  /** Whatever fails and whoever else moves: a writer that has made fourteen calls has finished. */
  lemma {:induction false} WritersFinish(run: Schedule, end: nat, jobs: seq<Job>, w: nat)
    requires end <= |run| && Runnable(run, |jobs|) && w < |jobs|
    ensures var stage := At(run, end, jobs).writers[w].stage;
            stage.Finished? || CallsOf(run, end, w) + CallsLeft(stage) <= 14
    decreases end
  {
    hide Step, CallsLeft;
    if end == 0 {
      assert run[..0] == [];
      assert CallsLeft(LookPayload) == 14 by {
        FirstStage();
      }
    } else {
      hide At;
      WritersFinish(run, end - 1, jobs, w);
      NextState(run, end - 1, jobs);
      StepMovesOn(At(run, end - 1, jobs), run[end - 1].0, run[end - 1].1, jobs);
    }
  }

  lemma FirstStage()
    ensures CallsLeft(LookPayload) == 14
  {
  }

  // ----- Failing calls

  /** A writer on its way out: it cleans up, or is blocked. */
  predicate GivenUp(stage: Stage) {
    || stage.LstatReport? || stage.UnlinkReport? || stage.RecheckReport?
    || stage.LstatPayload? || stage.UnlinkPayload? || stage.RecheckPayload?
    || (stage.Finished? && stage.result.Blocked?)
  }

  lemma FailedCallGivesUp(s: State, w: nat, c: Choice, jobs: seq<Job>)
    requires w < |s.writers| == |jobs| && c.fault
    requires var stage := s.writers[w].stage; !stage.LookPayload? && !stage.LookReport? && !stage.Finished?
    ensures GivenUp(Step(s, w, c, jobs).writers[w].stage)
  {
    hide FreeInode, Prefix;
  }

  lemma GivenUpStays(s: State, w: nat, c: Choice, jobs: seq<Job>)
    requires w < |s.writers| == |jobs| && GivenUp(s.writers[w].stage)
    ensures GivenUp(Step(s, w, c, jobs).writers[w].stage)
  {
    hide FreeInode, Prefix;
  }

  lemma {:induction false} RunStaysGivenUp(run: Schedule, i: nat, end: nat, jobs: seq<Job>, w: nat)
    requires i <= end <= |run| && Runnable(run, |jobs|) && w < |jobs|
    requires GivenUp(At(run, i, jobs).writers[w].stage)
    ensures GivenUp(At(run, end, jobs).writers[w].stage)
    decreases end
  {
    hide At, Step, GivenUp;
    if i < end {
      RunStaysGivenUp(run, i, end - 1, jobs, w);
      NextState(run, end - 1, jobs);
      if run[end - 1].0 == w {
        GivenUpStays(At(run, end - 1, jobs), w, run[end - 1].1, jobs);
      }
    }
  }

  /** One failing call after the two looks, whatever it is for: its writer ends blocked and in no other way. */
  lemma FailedWriterIsBlocked(run: Schedule, i: nat, end: nat, jobs: seq<Job>)
    requires i < end <= |run| && Runnable(run, |jobs|) && run[i].1.fault
    requires var stage := At(run, i, jobs).writers[run[i].0].stage;
             !stage.LookPayload? && !stage.LookReport? && !stage.Finished?
    ensures var stage := At(run, end, jobs).writers[run[i].0].stage;
            stage.Finished? ==> stage.result.Blocked?
  {
    hide At, Step;
    NextState(run, i, jobs);
    FailedCallGivesUp(At(run, i, jobs), run[i].0, run[i].1, jobs);
    RunStaysGivenUp(run, i + 1, end, jobs, run[i].0);
  }

  /** A failing write may stop after any number of bytes. */
  lemma TornWrite(s: State, w: nat, inode: nat, k: nat, jobs: seq<Job>)
    requires w < |s.writers| == |jobs| && Secure(s, w, jobs[w])
    ensures var t := Step(s, w, Choice(true, inode, k), jobs);
            match s.writers[w].stage
            case WritePayload =>
              k <= |jobs[w].payload| ==> t.payload.Some? && t.payload.value.content == jobs[w].payload[..k]
            case WriteReport =>
              k <= |jobs[w].report| ==> t.report.Some? && t.report.value.content == jobs[w].report[..k]
            case _ => t.payload == s.payload && t.report == s.report
  {
    hide FreeInode;
  }

  // ----- Runs without failing calls

  predicate Faultless(run: Schedule) {
    forall i :: 0 <= i < |run| ==> !run[i].1.fault
  }

  /** The writer that created the payload goes straight on to the end. */
  predicate Writing(stage: Stage) {
    stage.StatPayload? || stage.WritePayload? || stage.CreateReport? || stage.StatReport? || stage.WriteReport?
    || stage == Finished(Written)
  }

  /** A writer that created nothing, and will remove nothing. */
  predicate Idle(me: Writer) {
    && me.payloadId == None && me.reportId == None && me.cleaned
    && (|| me.stage.LookPayload? || me.stage.LookReport? || me.stage.ReadPayload? || me.stage.ReadReport?
        || me.stage.CreatePayload? || me.stage.LstatReport? || me.stage.LstatPayload?
        || me.stage == Finished(Reused) || me.stage == Finished(Blocked(true)))
  }

  /** Nobody has created anything, and nobody has given up. */
  predicate Before(me: Writer) {
    me.stage.LookPayload? || (me.stage.LookReport? && !me.sawPayload) || me.stage.CreatePayload?
  }

  predicate Role(s: State, w: nat)
    requires w < |s.writers|
  {
    var me := s.writers[w];
    if s.payload == None then Before(me) && Idle(me)
    else if s.payload.value.creator == w then
      Writing(me.stage) && (s.report.Some? ==> me.stage.StatReport? || me.stage.WriteReport? || me.stage.Finished?)
    else Idle(me)
  }

  /** The report belongs to the payload's creator. */
  predicate Orderly(s: State) {
    && (forall w :: 0 <= w < |s.writers| ==> Role(s, w))
    && (s.payload.Some? ==> s.payload.value.creator < |s.writers|)
    && (s.report.Some? ==> s.payload.Some? && s.report.value.creator == s.payload.value.creator)
  }

  lemma StepKeepsFiles(s: State, w: nat, c: Choice, jobs: seq<Job>)
    requires w < |s.writers| == |jobs| && Role(s, w) && !c.fault
    requires s.payload.Some? ==> s.payload.value.creator < |s.writers|
    requires s.report.Some? ==> s.payload.Some? && s.report.value.creator == s.payload.value.creator
    ensures var t := Step(s, w, c, jobs);
            && (s.payload.Some? ==> t.payload.Some? && t.payload.value.creator == s.payload.value.creator)
            && (s.report.Some? ==> t.report.Some?)
            && (t.payload.Some? ==>
                  t.payload.value.creator < |t.writers| && (s.payload == None ==> t.payload.value.creator == w))
            && (t.report.Some? ==>
                  && t.payload.Some? && t.report.value.creator == t.payload.value.creator
                  && (s.report == None ==> t.payload.value.creator == w))
  {
    hide FreeInode, Prefix;
  }

  lemma StepKeepsOwnRole(s: State, w: nat, c: Choice, jobs: seq<Job>)
    requires w < |s.writers| == |jobs| && Role(s, w) && !c.fault
    requires s.report.Some? ==> s.payload.Some? && s.report.value.creator == s.payload.value.creator
    ensures Role(Step(s, w, c, jobs), w)
  {
    hide FreeInode, Prefix;
  }

  lemma StepKeepsOrder(s: State, w: nat, c: Choice, jobs: seq<Job>)
    requires w < |s.writers| == |jobs| && Orderly(s) && !c.fault
    ensures Orderly(Step(s, w, c, jobs))
  {
    hide Step;
    StepKeepsFiles(s, w, c, jobs);
    StepKeepsOwnRole(s, w, c, jobs);
    forall v | 0 <= v < |s.writers|
      ensures Role(Step(s, w, c, jobs), v)
    {
      assert Role(s, v) && Role(s, w);
    }
  }

  lemma {:induction false} RunStaysOrderly(run: Schedule, end: nat, jobs: seq<Job>)
    requires end <= |run| && Runnable(run, |jobs|) && Faultless(run)
    ensures Orderly(At(run, end, jobs))
    decreases end
  {
    hide Step;
    if end == 0 {
      assert run[..0] == [];
    } else {
      hide Orderly, At;
      RunStaysOrderly(run, end - 1, jobs);
      NextState(run, end - 1, jobs);
      StepKeepsOrder(At(run, end - 1, jobs), run[end - 1].0, run[end - 1].1, jobs);
    }
  }

  /**
   Where no call fails: the writer that created the payload is still at work or has
   returned "written"; nobody else leaves anything or reports a failed cleanup.
   */
  lemma CreatorWrites(run: Schedule, end: nat, jobs: seq<Job>, w: nat)
    requires end <= |run| && Runnable(run, |jobs|) && Faultless(run) && w < |jobs|
    ensures var s := At(run, end, jobs);
            s.writers[w].stage.Finished? ==>
              && s.payload.Some?
              && (if s.payload.value.creator == w then s.writers[w].stage == Finished(Written)
                  else s.writers[w].stage in {Finished(Reused), Finished(Blocked(true))})
  {
    hide At;
    RunStaysOrderly(run, end, jobs);
    assert Role(At(run, end, jobs), w);
  }

  /**
   Any number of writers, any interleaving, no failing call: once all have made
   fourteen calls, exactly one has written the pair, which is there, byte for byte;
   each of the others reused a pair or was blocked, and cleaned up.
   */
  lemma ExactlyOneWrites(run: Schedule, jobs: seq<Job>) returns (u: nat)
    requires Runnable(run, |jobs|) && Faultless(run) && jobs != []
    requires forall w :: 0 <= w < |jobs| ==> CallsOf(run, |run|, w) >= 14
    ensures u < |jobs|
    ensures var s := At(run, |run|, jobs);
            && s.payload.Some? && s.payload.value.creator == u && s.payload.value.content == jobs[u].payload
            && s.report.Some? && s.report.value.creator == u && s.report.value.content == jobs[u].report
            && s.writers[u].stage == Finished(Written)
            && (forall w :: 0 <= w < |jobs| && w != u ==>
                  s.writers[w].stage in {Finished(Reused), Finished(Blocked(true))})
  {
    hide At, CallsOf, CallsLeft;
    var s := At(run, |run|, jobs);
    forall w | 0 <= w < |jobs|
      ensures s.writers[w].stage.Finished?
    {
      WritersFinish(run, |run|, jobs, w);
    }
    RunStaysOrderly(run, |run|, jobs);
    CreatorWrites(run, |run|, jobs, 0);
    u := s.payload.value.creator;
    ArtifactPairIsSafe(run, |run|, jobs);
    forall w | 0 <= w < |jobs|
      ensures if w == u then s.writers[w].stage == Finished(Written)
              else s.writers[w].stage in {Finished(Reused), Finished(Blocked(true))}
    {
      CreatorWrites(run, |run|, jobs, w);
    }
  }

  // ----- Coming late

  /** From its first look on, a late writer sees the finished pair of writer `u`. */
  predicate Late(s: State, w: nat, u: nat, jobs: seq<Job>)
    requires w < |s.writers| == |jobs| && u < |jobs|
  {
    var me := s.writers[w];
    match me.stage
    case LookPayload => true
    case LookReport => me.sawPayload
    case ReadPayload => true
    case ReadReport => me.seen == jobs[u].payload
    case Finished(result) => result == if jobs[w] == jobs[u] then Reused else Blocked(true)
    case _ => false
  }

  lemma StepKeepsLate(s: State, v: nat, c: Choice, jobs: seq<Job>, w: nat, u: nat)
    requires v < |s.writers| == |jobs| && w < |jobs| && u < |jobs| && w != u && Late(s, w, u, jobs)
    requires s.writers[u].stage == Finished(Written) && Secure(s, u, jobs[u])
    requires v == w ==> !c.fault
    ensures Late(Step(s, v, c, jobs), w, u, jobs)
  {
    hide FreeInode, Prefix;
  }

  lemma {:induction false} RunStaysLate(run: Schedule, i: nat, end: nat, jobs: seq<Job>, w: nat, u: nat)
    requires i <= end <= |run| && Runnable(run, |jobs|) && w < |jobs| && u < |jobs| && w != u
    requires At(run, i, jobs).writers[u].stage == Finished(Written) && Late(At(run, i, jobs), w, u, jobs)
    requires forall j :: i <= j < end && run[j].0 == w ==> !run[j].1.fault
    ensures Late(At(run, end, jobs), w, u, jobs)
    decreases end
  {
    hide At, Step, Late, Secure;
    if i < end {
      RunStaysLate(run, i, end - 1, jobs, w, u);
      WrittenStays(run, i, end - 1, jobs, u);
      RunKeepsSound(run, end - 1, jobs);
      NextState(run, end - 1, jobs);
      StepKeepsLate(At(run, end - 1, jobs), run[end - 1].0, run[end - 1].1, jobs, w, u);
    }
  }

  /**
   A writer that takes its first look after another one has returned "written", and
   whose own calls work, reuses the pair if it meant to write the same two files and
   is blocked if it did not, whatever fails elsewhere.
   */
  lemma LateWriterDecides(run: Schedule, i: nat, end: nat, jobs: seq<Job>, w: nat, u: nat)
    requires i <= end <= |run| && Runnable(run, |jobs|) && w < |jobs| && u < |jobs|
    requires At(run, i, jobs).writers[u].stage == Finished(Written) && At(run, i, jobs).writers[w].stage == LookPayload
    requires forall j :: i <= j < end && run[j].0 == w ==> !run[j].1.fault
    ensures var stage := At(run, end, jobs).writers[w].stage;
            stage.Finished? ==> stage == Finished(if jobs[w] == jobs[u] then Reused else Blocked(true))
  {
    hide At;
    RunStaysLate(run, i, end, jobs, w, u);
  }
}
