/**
 The artifact pair of one minute and its lineage, one call at a time: the writer,
 the inspector, the lineage check and the registration of a source run. Hashing
 is a parameter; every file or database call may fail.
 */
module ArtifactStore {
  import opened Bytes

  /** What the payload hash covers. */
  datatype Body = Body(proofTime: string, stock: seq<string>, index: seq<string>)

  /** Row counts as a document states them; a count that is no number reads as none. */
  datatype Counts = Counts(stock: Option<nat>, index: Option<nat>)

  datatype Payload = Payload(
    date: string, until: string, runId: string, subscription: string, context: string,
    body: Body, hash: string, sourceHash: string, counts: Counts)

  /** `quiet`: it denies every side effect besides the artifact. Paths are named by the minute they belong to. */
  datatype Report = Report(
    ready: bool, until: string, hash: string, fileHash: string, counts: Counts,
    payloadPath: Option<Minute>, reportPath: Option<Minute>, written: bool, quiet: bool)

  /** The directory and minute that name a pair of files. */
  datatype Minute = Minute(root: string, date: string, hhmm: string)

  /** A name that is taken: by a JSON object, or by a link, a directory or anything unreadable. */
  datatype Entry<T> = Object(doc: T) | Unreadable

  datatype Digest = Digest(body: Body -> string, file: Payload -> string)

  datatype Files = Files(payloads: map<Minute, Entry<Payload>>, reports: map<Minute, Entry<Report>>)

  ghost predicate HashesAreNamed(d: Digest) {
    forall b :: d.body(b) != ""
  }

  function CountsOf(b: Body): Counts {
    Counts(Some(|b.stock|), Some(|b.index|))
  }

  /** One writer call: the payload as handed over, and the three values other arguments may supply. */
  datatype Call = Call(payload: Payload, argsDate: string, reportUntil: string, root: string, requireExisting: bool)

  function DateOf(c: Call): string {
    Or(c.payload.date, c.argsDate)
  }

  function UntilOf(c: Call): string {
    Or(c.payload.until, c.reportUntil)
  }

  function MinuteOf(c: Call): Minute {
    Minute(c.root, DateOf(c), UntilOf(c))
  }

  predicate Named(c: Call) {
    DateOf(c) != "" && UntilOf(c) != ""
  }

  /** The call is named, may create, and finds both names free. */
  predicate Creates(f: Files, c: Call) {
    Named(c) && Vacant(f, MinuteOf(c)) && !c.requireExisting
  }

  function PayloadToWrite(c: Call, d: Digest): Payload {
    var hash := d.body(c.payload.body);
    c.payload.(hash := hash, sourceHash := hash, counts := CountsOf(c.payload.body))
  }

  function ReportToWrite(c: Call, d: Digest): Report {
    var p := PayloadToWrite(c, d);
    Report(true, c.reportUntil, p.hash, d.file(p), p.counts, Some(MinuteOf(c)), Some(MinuteOf(c)), true, true)
  }

  /** What a pair is inspected against. */
  datatype Expected = Expected(
    hash: string, date: string, until: string, runId: string, subscription: string, context: string)

  function ExpectedOf(c: Call, d: Digest): Expected {
    Expected(d.body(c.payload.body), DateOf(c), UntilOf(c), c.payload.runId, c.payload.subscription, c.payload.context)
  }

  predicate PayloadCloses(p: Payload, e: Expected, d: Digest) {
    && e.hash != "" && p.hash == e.hash && p.sourceHash == e.hash && d.body(p.body) == e.hash
    && p.counts == CountsOf(p.body)
    && p.date == e.date && p.until == e.until
    && p.runId == e.runId && p.subscription == e.subscription && p.context == e.context
  }

  predicate ReportCloses(r: Report, p: Payload, m: Minute, e: Expected, d: Digest) {
    && r.hash == e.hash && r.fileHash == d.file(p) && r.counts == p.counts
    && r.payloadPath == Some(m) && r.reportPath == Some(m)
    && r.ready && r.until == e.until && r.written && r.quiet
  }

  /** The inspector: both files are readable objects and every check holds. */
  predicate PairCloses(f: Files, m: Minute, e: Expected, d: Digest) {
    && m in f.payloads && f.payloads[m].Object? && m in f.reports && f.reports[m].Object?
    && PayloadCloses(f.payloads[m].doc, e, d)
    && ReportCloses(f.reports[m].doc, f.payloads[m].doc, m, e, d)
  }

  function WithPair(f: Files, c: Call, d: Digest): Files {
    Files(f.payloads[MinuteOf(c) := Object(PayloadToWrite(c, d))],
      f.reports[MinuteOf(c) := Object(ReportToWrite(c, d))])
  }

  /**
   A freshly written pair passes the inspector exactly when the payload itself
   carries the date and the minute, and the fetch report carries the same minute.
   */
  lemma FreshPairCloses(f: Files, c: Call, d: Digest)
    requires HashesAreNamed(d) && Named(c)
    ensures PairCloses(WithPair(f, c, d), MinuteOf(c), ExpectedOf(c, d), d)
            <==> c.payload.date != "" && c.payload.until != "" && c.reportUntil == c.payload.until
  {
  }

  /** Date and minute come from the payload, and where it has none from the other arguments. */
  lemma CallNamesItsMinute(c: Call)
    ensures MinuteOf(c) == Minute(c.root, if c.payload.date != "" then c.payload.date else c.argsDate,
                                  if c.payload.until != "" then c.payload.until else c.reportUntil)
    ensures Named(c) <==> MinuteOf(c).date != "" && MinuteOf(c).hhmm != ""
  {
  }

  /** The two documents of a pair in full: one hash throughout, the row counts, the names, and each other. */
  predicate InFull(p: Payload, r: Report, m: Minute, names: (string, string, string), until: string, d: Digest) {
    var hash, counts := d.body(p.body), Counts(Some(|p.body.stock|), Some(|p.body.index|));
    && p == Payload(m.date, m.hhmm, names.0, names.1, names.2, p.body, hash, hash, counts)
    && r == Report(true, until, hash, d.file(p), counts, Some(m), Some(m), true, true)
  }

  /** Every field of what is written, when the payload carries its date and minute. */
  lemma WrittenInFull(f: Files, c: Call, d: Digest)
    requires c.payload.date != "" && c.payload.until != ""
    ensures var m, b := MinuteOf(c), WithPair(f, c, d);
            && m in b.payloads && b.payloads[m].Object? && m in b.reports && b.reports[m].Object?
            && b.payloads[m].doc.body == c.payload.body
            && InFull(b.payloads[m].doc, b.reports[m].doc, m,
                      (c.payload.runId, c.payload.subscription, c.payload.context), c.reportUntil, d)
  {
  }

  /** A pair passes inspection exactly when each of its fields is the one a call for the same hash would write. */
  lemma ClosesInFull(f: Files, c: Call, d: Digest)
    requires HashesAreNamed(d)
    ensures var m := MinuteOf(c);
            PairCloses(f, m, ExpectedOf(c, d), d)
            <==> (&& m in f.payloads && f.payloads[m].Object? && m in f.reports && f.reports[m].Object?
                  && d.body(f.payloads[m].doc.body) == d.body(c.payload.body)
                  && InFull(f.payloads[m].doc, f.reports[m].doc, m,
                            (c.payload.runId, c.payload.subscription, c.payload.context), m.hhmm, d))
  {
  }

  const NO_BODY := Body("", [], [])

  /** A call whose date comes from the arguments alone. */
  const UNDATED :=
    Call(Payload("", "1030", "run", "sub", "ctx", NO_BODY, "", "", Counts(None, None)),
         "20260726", "1030", "out", false)

  /** Its pair is written, and the inspector refuses it. */
  lemma UndatedPairDoesNotClose(f: Files, d: Digest)
    requires HashesAreNamed(d)
    ensures Named(UNDATED) && !PairCloses(WithPair(f, UNDATED, d), MinuteOf(UNDATED), ExpectedOf(UNDATED, d), d)
  {
    FreshPairCloses(f, UNDATED, d);
  }

  /** Two calls that name the same source: same hashed rows, same run, same subscription, same context. */
  predicate SameSource(a: Call, b: Call, d: Digest) {
    && d.body(a.payload.body) == d.body(b.payload.body)
    && a.payload.runId == b.payload.runId && a.payload.subscription == b.payload.subscription
    && a.payload.context == b.payload.context
  }

  /**
   Once call `a` wrote a closing pair, a later call for that minute passes
   inspection exactly when it names the same source.
   */
  lemma LaterCallCloses(f: Files, a: Call, b: Call, d: Digest)
    requires HashesAreNamed(d) && MinuteOf(b) == MinuteOf(a)
    requires MinuteOf(a) in f.payloads && f.payloads[MinuteOf(a)] == Object(PayloadToWrite(a, d))
    requires MinuteOf(a) in f.reports && f.reports[MinuteOf(a)] == Object(ReportToWrite(a, d))
    requires PairCloses(f, MinuteOf(a), ExpectedOf(a, d), d)
    ensures PairCloses(f, MinuteOf(b), ExpectedOf(b, d), d) <==> SameSource(a, b, d)
  {
  }

  datatype WriteResult = Written(hash: string) | Reused(hash: string) | Refused(cleaned: bool)

  /** Nothing that was there is removed or altered. */
  ghost predicate FilesKept(a: Files, b: Files) {
    && (forall m :: m in a.payloads ==> m in b.payloads && b.payloads[m] == a.payloads[m])
    && (forall m :: m in a.reports ==> m in b.reports && b.reports[m] == a.reports[m])
  }

  predicate Vacant(f: Files, m: Minute) {
    m !in f.payloads && m !in f.reports
  }

  /** What one writer call may do to the files, whatever fails. */
  ghost predicate WriteStep(a: Files, b: Files, c: Call, result: WriteResult, d: Digest) {
    var m := MinuteOf(c);
    && FilesKept(a, b)
    && (forall n :: n != m ==> (n in b.payloads ==> n in a.payloads) && (n in b.reports ==> n in a.reports))
    && (b == a || Vacant(a, m))
    && match result
       case Written(hash) => Vacant(a, m) && !c.requireExisting && b == WithPair(a, c, d)
         && hash == d.body(c.payload.body)
       case Reused(hash) => b == a && PairCloses(a, m, ExpectedOf(c, d), d) && hash == d.body(c.payload.body)
       case Refused(_) => c.requireExisting ==> b == a
  }

  // ----- Lineage

  datatype Registration = Registration(
    status: string, p0: int, hash: string, counts: Counts, path: Option<Minute>,
    qualityCount: int, qualityPassed: int, qualityFailed: int)

  datatype Decision = WriteNew | ReuseExisting | Block

  const PASSED := "passed"

  function Known(n: Option<nat>): nat {
    if n.Some? then n.value else 0
  }

  function Classify(snapshot: Option<Registration>, hash: string, counts: Counts, m: Minute): Decision {
    if snapshot == None then WriteNew
    else
      var r := snapshot.value;
      if && r.status == PASSED && r.p0 == 0
         && hash != "" && r.hash == hash
         && Known(r.counts.stock) == Known(counts.stock) && Known(r.counts.index) == Known(counts.index)
         && r.path == Some(m)
         && r.qualityCount == 1 && r.qualityPassed == 1 && r.qualityFailed == 0
      then ReuseExisting else Block
  }

  /** A fetch: the rows it returned and the names they are to be filed under. */
  datatype Request = Request(
    root: string, argsDate: string, scopeDate: string, until: string,
    runId: string, subscription: string, context: string, body: Body)

  function CallOf(q: Request, requireExisting: bool): Call {
    var date := Or(q.argsDate, q.scopeDate);
    Call(Payload(date, q.until, q.runId, q.subscription, q.context, q.body, "", "", Counts(None, None)),
         q.argsDate, q.until, q.root, requireExisting)
  }

  function RequestMinute(q: Request): Minute {
    Minute(q.root, Or(q.argsDate, q.scopeDate), q.until)
  }

  /** What a successful fetch hands to registration. */
  datatype Fetched = Fetched(runId: string, hash: string, counts: Counts, minute: Minute)

  function FetchedOf(q: Request, d: Digest): Fetched {
    Fetched(q.runId, d.body(q.body), CountsOf(q.body), RequestMinute(q))
  }

  datatype Store = Store(files: Files, runs: map<string, Registration>, fetched: seq<Fetched>)

  /** The run id's registration, if the lineage reader finds one. */
  function Snapshot(s: Store, runId: string): Option<Registration> {
    if runId in s.runs then Some(s.runs[runId]) else None
  }

  function DecisionOf(s: Store, q: Request, d: Digest): Decision {
    Classify(Snapshot(s, q.runId), d.body(q.body), CountsOf(q.body), RequestMinute(q))
  }

  /** A named minute nobody has written, for a run nobody has registered. */
  predicate NewSource(s: Store, q: Request) {
    q.runId != "" && q.until != "" && RequestMinute(q).date != "" && q.runId !in s.runs
      && Vacant(s.files, RequestMinute(q))
  }

  /** A run that is registered with these rows or not at all, and its pair is there and closes for this request. */
  predicate KnownSource(s: Store, q: Request, d: Digest) {
    && q.runId != "" && q.until != "" && RequestMinute(q).date != "" && DecisionOf(s, q, d) != Block
    && PairCloses(s.files, RequestMinute(q), ExpectedOf(CallOf(q, true), d), d)
  }

  /** The last fetch as it was recorded, and the pair on disk at its minute, in every field. */
  ghost predicate FiledInFull(s: Store, q: Request, d: Digest) {
    var m := Minute(q.root, if q.argsDate != "" then q.argsDate else q.scopeDate, q.until);
    && s.fetched != []
    && s.fetched[|s.fetched| - 1]
       == Fetched(q.runId, d.body(q.body), Counts(Some(|q.body.stock|), Some(|q.body.index|)), m)
    && m in s.files.payloads && s.files.payloads[m].Object? && m in s.files.reports && s.files.reports[m].Object?
    && d.body(s.files.payloads[m].doc.body) == d.body(q.body)
    && InFull(s.files.payloads[m].doc, s.files.reports[m].doc, m, (q.runId, q.subscription, q.context), q.until, d)
  }

  lemma AcceptedIsFiled(a: Files, b: Store, q: Request, mustExist: bool, result: WriteResult, d: Digest)
    requires HashesAreNamed(d) && Named(CallOf(q, mustExist)) && !result.Refused?
    requires WriteStep(a, b.files, CallOf(q, mustExist), result, d)
    requires b.fetched != [] && b.fetched[|b.fetched| - 1] == FetchedOf(q, d)
    ensures FiledInFull(b, q, d)
  {
    hide PairCloses, InFull;
    var c := CallOf(q, mustExist);
    CallNamesItsMinute(c);
    if result.Written? {
      WrittenInFull(a, c, d);
    } else {
      ClosesInFull(a, c, d);
    }
  }

  ghost predicate FetchStep(a: Store, b: Store, q: Request, ready: bool, d: Digest) {
    && b.runs == a.runs
    && (DecisionOf(a, q, d) == Block || q.runId == "" ==> b == a && !ready)
    && (!ready ==> b.fetched == a.fetched)
    && (ready ==> b.fetched == a.fetched + [FetchedOf(q, d)])
    && (b == a || exists result ::
          var c := CallOf(q, DecisionOf(a, q, d) == ReuseExisting);
          WriteStep(a.files, b.files, c, result, d) && (ready <==> !result.Refused?))
  }

  function Registered(f: Fetched): Registration {
    Registration(PASSED, 0, f.hash, f.counts, Some(f.minute), 1, 1, 0)
  }

  /** The two counts are the same, or one is missing and the other zero. */
  predicate AsGood(a: Option<nat>, b: Option<nat>) {
    a == b || (a == None && b == Some(0)) || (a == Some(0) && b == None)
  }

  /**
   The lineage check accepts exactly what registering the candidate itself would
   have stored, up to counts that are missing and read as zero.
   */
  lemma LineageAcceptsWhatWasRegistered(r: Registration, f: Fetched)
    requires f.hash != ""
    ensures Classify(Some(r), f.hash, f.counts, f.minute) == ReuseExisting
            <==> r.(counts := f.counts) == Registered(f)
                 && AsGood(r.counts.stock, f.counts.stock) && AsGood(r.counts.index, f.counts.index)
    ensures Classify(Some(Registered(f)), f.hash, f.counts, f.minute) == ReuseExisting
  {
  }

  ghost predicate RegisterStep(a: Store, b: Store, f: Fetched, ok: bool) {
    && f in a.fetched && b.files == a.files && b.fetched == a.fetched
    && (b.runs == a.runs || (f.runId !in a.runs && b.runs == a.runs[f.runId := Registered(f)]))
    && (ok ==> f.runId in b.runs && b.runs[f.runId].status == PASSED && b.runs[f.runId].hash == f.hash)
  }

  ghost predicate StoreStep(a: Store, b: Store, d: Digest) {
    (exists q, ready :: FetchStep(a, b, q, ready, d)) || (exists f, ok :: RegisterStep(a, b, f, ok))
  }

  /** The pair at `m` belongs to run `runId` and carries `hash`, in its fields and in its rows. */
  predicate CarriesPair(f: Files, m: Minute, hash: string, runId: string, d: Digest) {
    && m in f.payloads && f.payloads[m].Object? && m in f.reports && f.reports[m].Object?
    && var p := f.payloads[m].doc;
       p.hash == hash && p.sourceHash == hash && d.body(p.body) == hash && p.runId == runId
       && f.reports[m].doc.hash == hash && f.reports[m].doc.fileHash == d.file(p)
  }

  ghost predicate StoreSound(s: Store, d: Digest) {
    && (forall id :: id in s.runs ==>
          s.runs[id].path.Some? && CarriesPair(s.files, s.runs[id].path.value, s.runs[id].hash, id, d))
    && (forall f :: f in s.fetched ==> CarriesPair(s.files, f.minute, f.hash, f.runId, d))
  }

  lemma PairStays(a: Files, b: Files, m: Minute, hash: string, runId: string, d: Digest)
    requires FilesKept(a, b) && CarriesPair(a, m, hash, runId, d)
    ensures CarriesPair(b, m, hash, runId, d)
  {
  }

  lemma FetchedPairIsThere(a: Store, b: Store, q: Request, result: WriteResult, d: Digest)
    requires !result.Refused?
    requires WriteStep(a.files, b.files, CallOf(q, DecisionOf(a, q, d) == ReuseExisting), result, d)
    ensures var f := FetchedOf(q, d); CarriesPair(b.files, f.minute, f.hash, f.runId, d)
  {
  }

  lemma FetchKeepsSound(a: Store, b: Store, q: Request, ready: bool, d: Digest)
    requires StoreSound(a, d) && FetchStep(a, b, q, ready, d)
    ensures StoreSound(b, d) && FilesKept(a.files, b.files)
  {
    hide CarriesPair, DecisionOf, PairCloses, FilesKept;
    if b != a {
      var result :|
        var c := CallOf(q, DecisionOf(a, q, d) == ReuseExisting);
        WriteStep(a.files, b.files, c, result, d) && (ready <==> !result.Refused?);
      forall id | id in b.runs
        ensures b.runs[id].path.Some? && CarriesPair(b.files, b.runs[id].path.value, b.runs[id].hash, id, d)
      {
        PairStays(a.files, b.files, a.runs[id].path.value, a.runs[id].hash, id, d);
      }
      if ready {
        FetchedPairIsThere(a, b, q, result, d);
      }
      forall f | f in b.fetched
        ensures CarriesPair(b.files, f.minute, f.hash, f.runId, d)
      {
        if f in a.fetched {
          PairStays(a.files, b.files, f.minute, f.hash, f.runId, d);
        }
      }
    } else {
      NothingLost(a.files);
    }
  }

  lemma NothingLost(f: Files)
    ensures FilesKept(f, f)
  {
  }

  lemma StepKeepsSound(a: Store, b: Store, d: Digest)
    requires StoreSound(a, d) && StoreStep(a, b, d)
    ensures StoreSound(b, d) && FilesKept(a.files, b.files)
    ensures forall id :: id in a.runs ==> id in b.runs && b.runs[id] == a.runs[id]
  {
    hide CarriesPair, FetchStep;
    if q, ready :| FetchStep(a, b, q, ready, d) {
      FetchKeepsSound(a, b, q, ready, d);
      RunsUntouched(a, b, q, ready, d);
    } else {
      var f, ok :| RegisterStep(a, b, f, ok);
      NothingLost(a.files);
    }
  }

  lemma RunsUntouched(a: Store, b: Store, q: Request, ready: bool, d: Digest)
    requires FetchStep(a, b, q, ready, d)
    ensures b.runs == a.runs
  {
  }

  /** Any number of fetches and registrations, in any order, with any failures. */
  ghost predicate History(states: seq<Store>, d: Digest) {
    states != [] && forall i :: 0 <= i < |states| - 1 ==> StoreStep(states[i], states[i + 1], d)
  }

  /**
   Over any history that starts sound: a registered run keeps its hash for ever, and
   in every later state the pair on disk at its recorded path carries that hash.
   */
  lemma {:induction false} RegisteredHashIsForever(states: seq<Store>, i: nat, j: nat, id: string, d: Digest)
    requires History(states, d) && StoreSound(states[0], d) && i <= j < |states|
    requires id in states[i].runs
    ensures id in states[j].runs && states[j].runs[id] == states[i].runs[id]
    ensures states[i].runs[id].path.Some?
    ensures CarriesPair(states[j].files, states[i].runs[id].path.value, states[i].runs[id].hash, id, d)
    decreases j
  {
    hide StoreStep, CarriesPair;
    HistoryStaysSound(states, j, d);
    if i < j {
      RegisteredHashIsForever(states, i, j - 1, id, d);
      HistoryStaysSound(states, j - 1, d);
      StepKeepsSound(states[j - 1], states[j], d);
    }
  }

  lemma {:induction false} HistoryStaysSound(states: seq<Store>, j: nat, d: Digest)
    requires History(states, d) && StoreSound(states[0], d) && j < |states|
    ensures StoreSound(states[j], d)
    decreases j
  {
    hide StoreStep, StoreSound;
    if j > 0 {
      HistoryStaysSound(states, j - 1, d);
      assert StoreStep(states[j - 1], states[j - 1 + 1], d);
      StepKeepsSound(states[j - 1], states[j], d);
    }
  }

  /** The run was fetched for this request and registered from that fetch. */
  ghost predicate FiledAndRegistered(s: Store, q: Request, d: Digest) {
    && q.runId != "" && q.until != "" && RequestMinute(q).date != "" && q.runId in s.runs
    && s.runs[q.runId] == Registration("passed", 0, d.body(q.body), Counts(Some(|q.body.stock|), Some(|q.body.index|)),
                                       Some(RequestMinute(q)), 1, 1, 0)
    && FiledInFull(s, q, d)
  }

  lemma RegisteredIsKnown(s: Store, q: Request, d: Digest)
    requires HashesAreNamed(d) && FiledAndRegistered(s, q, d)
    ensures KnownSource(s, q, d)
  {
    hide InFull, PairCloses;
    CallNamesItsMinute(CallOf(q, true));
    ClosesInFull(s.files, CallOf(q, true), d);
  }

  lemma KnownStays(a: Store, b: Store, q: Request, d: Digest)
    requires KnownSource(a, q, d) && q.runId in a.runs && q.runId in b.runs && b.runs[q.runId] == a.runs[q.runId]
    requires FilesKept(a.files, b.files)
    ensures KnownSource(b, q, d)
  {
    hide PayloadCloses, ReportCloses, Classify;
  }

  /**
   A request that was fetched and registered can be fetched again at any later time,
   whatever other requests did in between: its run is known and its pair closes.
   */
  lemma {:induction false} RefetchStaysPossible(states: seq<Store>, i: nat, j: nat, q: Request, d: Digest)
    requires HashesAreNamed(d) && History(states, d) && StoreSound(states[0], d) && i <= j < |states|
    requires FiledAndRegistered(states[i], q, d)
    ensures KnownSource(states[j], q, d) && q.runId in states[j].runs
    decreases j
  {
    hide StoreStep, StoreSound, KnownSource, FilesKept;
    if i == j {
      RegisteredIsKnown(states[i], q, d);
    } else {
      RefetchStaysPossible(states, i, j - 1, q, d);
      HistoryStaysSound(states, j - 1, d);
      assert StoreStep(states[j - 1], states[j - 1 + 1], d);
      StepKeepsSound(states[j - 1], states[j], d);
      KnownStays(states[j - 1], states[j], q, d);
    }
  }

  /** A candidate whose hash differs from its run's registered hash changes no file and no row. */
  lemma DifferentCandidateIsBlocked(a: Store, b: Store, q: Request, ready: bool, d: Digest)
    requires FetchStep(a, b, q, ready, d) && q.runId in a.runs && a.runs[q.runId].hash != d.body(q.body)
    ensures b == a && !ready
  {
  }

  /** So does a candidate for a minute whose pair belongs to other rows or another run. */
  lemma TakenMinuteIsBlocked(a: Store, b: Store, q: Request, ready: bool, hash: string, runId: string, d: Digest)
    requires FetchStep(a, b, q, ready, d) && CarriesPair(a.files, RequestMinute(q), hash, runId, d)
    requires hash != d.body(q.body) || runId != q.runId
    ensures b == a && !ready
  {
  }

  // ----- The calls themselves

  /** Apart from the two names of minute `m`, which were free, nothing differs. */
  ghost predicate OnlyAt(before: Files, after: Files, m: Minute) {
    after.payloads - {m} == before.payloads && after.reports - {m} == before.reports
  }

  class Backend {
    var files: Files
    var runs: map<string, Registration>
    var fetched: seq<Fetched>
    var clock: nat
    const fails: nat -> bool
    const d: Digest

    constructor (s: Store, d: Digest, fails: nat -> bool)
      ensures View() == s && clock == 0 && this.d == d && this.fails == fails
    {
      files, runs, fetched, clock := s.files, s.runs, s.fetched, 0;
      this.d, this.fails := d, fails;
    }

    ghost function View(): Store
      reads this
    {
      Store(files, runs, fetched)
    }

    ghost predicate Faultless() {
      forall t :: !fails(t)
    }

    /** Call number `clock`. */
    method Attempt() returns (ok: bool)
      modifies this`clock
      ensures ok == !fails(old(clock)) && clock == old(clock) + 1
    {
      ok := !fails(clock);
      clock := clock + 1;
    }

    method PutPayload(m: Minute, entry: Entry<Payload>, ghost before: Files)
      requires OnlyAt(before, files, m)
      modifies this`files
      ensures OnlyAt(before, files, m)
      ensures files == old(files).(payloads := old(files).payloads[m := entry])
    {
      files := files.(payloads := files.payloads[m := entry]);
    }

    method PutReport(m: Minute, entry: Entry<Report>, ghost before: Files)
      requires OnlyAt(before, files, m)
      modifies this`files
      ensures OnlyAt(before, files, m)
      ensures files == old(files).(reports := old(files).reports[m := entry])
    {
      files := files.(reports := files.reports[m := entry]);
    }

    /** The lstat made at time `t` and the unlink after it both work. */
    ghost predicate Removes(t: nat) {
      !fails(t) && !fails(t + 1)
    }

    /** When removing a file that is looked up at time `t` is over. */
    ghost function AfterRemoval(t: nat): nat {
      if fails(t) then t + 1 else t + 2
    }

    /**
     Removes what this attempt created and could identify: the report first, then,
     even if that failed, the payload. Files it does not own are left alone.
     */
    method Discard(m: Minute, ownPayload: bool, ownReport: bool, ghost before: Files) returns (cleaned: bool)
      requires OnlyAt(before, files, m)
      modifies this`files, this`clock
      ensures OnlyAt(before, files, m)
      ensures var t := old(clock);
              var u := if ownReport then AfterRemoval(t) else t;
              && files.reports == (if ownReport && Removes(t) then old(files).reports - {m} else old(files).reports)
              && files.payloads == (if ownPayload && Removes(u) then old(files).payloads - {m} else old(files).payloads)
              && (cleaned <==> (ownReport ==> Removes(t)) && (ownPayload ==> Removes(u)))
    {
      cleaned := true;
      if ownReport {
        var removed := Attempt();
        if removed {
          removed := Attempt();
        }
        if removed {
          files := files.(reports := files.reports - {m});
        }
        cleaned := removed;
      }
      if ownPayload {
        var removed := Attempt();
        if removed {
          removed := Attempt();
        }
        if removed {
          files := files.(payloads := files.payloads - {m});
        }
        cleaned := cleaned && removed;
      }
    }

    /**
     A writer whose first call is made at time `t` gets as far as creating a file
     whose identity it cannot read: the second call fails, or the fifth after four that work.
     */
    ghost predicate LosesFile(t: nat) {
      !fails(t) && (fails(t + 1) || (!fails(t + 2) && !fails(t + 3) && fails(t + 4)))
    }

    /**
     Writes the pair of one minute, once. A pair that is there is reused or refused
     but never touched. A failed attempt whose cleanup passed leaves the directory as
     it was, unless the identity of a file it created could not be read: that file
     stays, although the cleanup reports no failure.
     */
    method Write(c: Call) returns (result: WriteResult)
      modifies this`files, this`clock
      ensures WriteStep(old(files), files, c, result, d)
      ensures result == Refused(true) ==>
                (files == old(files) <==> !(Creates(old(files), c) && LosesFile(old(clock))))
      ensures Creates(old(files), c) && LosesFile(old(clock)) ==> result.Refused?
      ensures result.Reused? ==> files == old(files)
      ensures !result.Refused? ==> Named(c)
      ensures PairCloses(old(files), MinuteOf(c), ExpectedOf(c, d), d) ==> files == old(files)
      ensures Faultless() ==>
                (!result.Refused?
                 <==> Creates(old(files), c)
                      || (Named(c) && PairCloses(old(files), MinuteOf(c), ExpectedOf(c, d), d)))
      ensures Faultless() && Creates(old(files), c) ==> result.Written?
      ensures Faultless() && Named(c) && PairCloses(old(files), MinuteOf(c), ExpectedOf(c, d), d) ==> result.Reused?
    {
      hide PairCloses, PayloadToWrite, ReportToWrite;
      if !Named(c) {
        return Refused(true);
      }
      var m := MinuteOf(c);
      ClosingPairIsThere(files, m, ExpectedOf(c, d), d);
      var payloadExists, reportExists := m in files.payloads, m in files.reports;
      if !payloadExists && !reportExists && c.requireExisting {
        return Refused(true);
      }
      if payloadExists || reportExists {
        var ok := Attempt();
        var closes := ok && PairCloses(files, m, ExpectedOf(c, d), d);
        return if closes then Reused(d.body(c.payload.body)) else Refused(true);
      }
      result := Create(c);
    }

    /** The payload's three calls: exclusive create, identity, write. */
    method CreatePayload(c: Call, m: Minute, ghost before: Files) returns (failed: Option<WriteResult>)
      requires m == MinuteOf(c) && Creates(before, c) && files == before
      modifies this`files, this`clock
      ensures var t := old(clock);
              (failed == None <==> !fails(t) && !fails(t + 1) && !fails(t + 2))
              && (failed.Some? && !fails(t) && fails(t + 1) ==>
                    failed == Some(Refused(true)) && files == before.(payloads := before.payloads[m := Unreadable]))
              && (failed == Some(Refused(true)) ==> (files == before <==> fails(t) || !fails(t + 1)))
      ensures failed.Some? ==> failed.value.Refused? && WriteStep(before, files, c, failed.value, d)
      ensures failed == None ==> clock == old(clock) + 3 && OnlyAt(before, files, m)
                                 && files == before.(payloads := before.payloads[m := Object(PayloadToWrite(c, d))])
    {
      hide WriteStep, OnlyAt, PayloadToWrite, Removes, AfterRemoval, MinuteOf;
      Unchanged(files, m);
      var ok := Attempt();
      if !ok {
        var result := Refuse(c, m, false, false, before);
        return Some(result);
      }
      PutPayload(m, Unreadable, before);
      ok := Attempt();
      if !ok {
        var result := Refuse(c, m, false, false, before);
        return Some(result);
      }
      ok := Attempt();
      if !ok {
        var result := Refuse(c, m, true, false, before);
        return Some(result);
      }
      PutPayload(m, Object(PayloadToWrite(c, d)), before);
      return None;
    }

    /** Both names are free: payload first, then the report. */
    method Create(c: Call) returns (result: WriteResult)
      requires Creates(files, c)
      modifies this`files, this`clock
      ensures WriteStep(old(files), files, c, result, d)
      ensures result == Refused(true) ==> (files == old(files) <==> !LosesFile(old(clock)))
      ensures LosesFile(old(clock)) ==>
                if fails(old(clock) + 1) then
                  result == Refused(true)
                    && files == old(files).(payloads := old(files).payloads[MinuteOf(c) := Unreadable])
                else
                  && result == Refused(Removes(old(clock) + 5))
                  && files.reports == old(files).reports[MinuteOf(c) := Unreadable]
                  && (Removes(old(clock) + 5) ==> files.payloads == old(files).payloads)
      ensures Faultless() ==> result.Written?
    {
      hide WriteStep, OnlyAt, PayloadToWrite, ReportToWrite, MinuteOf, Removes, AfterRemoval;
      var m := MinuteOf(c);
      ghost var before := files;
      var failed := CreatePayload(c, m, before);
      if failed.Some? {
        return failed.value;
      }
      var ok := Attempt();
      if !ok {
        result := Refuse(c, m, true, false, before);
        return;
      }
      PutReport(m, Unreadable, before);
      ok := Attempt();
      if !ok {
        result := Refuse(c, m, true, false, before);
        return;
      }
      ok := Attempt();
      if !ok {
        result := Refuse(c, m, true, true, before);
        return;
      }
      PutReport(m, Object(ReportToWrite(c, d)), before);
      result := Written(d.body(c.payload.body));
      WrittenStep(before, files, c, d);
    }

    method Refuse(c: Call, m: Minute, ownPayload: bool, ownReport: bool, ghost before: Files)
      returns (result: WriteResult)
      requires m == MinuteOf(c) && Creates(before, c) && OnlyAt(before, files, m)
      modifies this`files, this`clock
      ensures WriteStep(before, files, c, result, d) && result.Refused?
      ensures result == Refused(true) ==>
                (files == before
                 <==> (ownPayload || m !in old(files).payloads) && (ownReport || m !in old(files).reports))
      ensures !ownReport ==> files.reports == old(files).reports
      ensures !ownReport && !ownPayload ==> files == old(files) && result == Refused(true)
      ensures !ownReport && ownPayload ==> result == Refused(Removes(old(clock)))
      ensures !ownReport && ownPayload && Removes(old(clock)) ==> files.payloads == before.payloads
    {
      hide WriteStep, OnlyAt;
      var cleaned := Discard(m, ownPayload, ownReport, before);
      result := Refused(cleaned);
      RefusedStep(before, files, c, cleaned, d);
    }

    /** The lineage check decides first; only then may the writer run. */
    method Fetch(q: Request) returns (ready: bool)
      modifies this`files, this`fetched, this`clock
      ensures FetchStep(old(View()), View(), q, ready, d)
      ensures Faultless() ==> (ready <==> NewSource(old(View()), q) || KnownSource(old(View()), q, d))
      ensures KnownSource(old(View()), q, d) ==> files == old(files)
      ensures ready && HashesAreNamed(d) ==> FiledInFull(View(), q, d)
    {
      hide WriteStep, Classify;
      if q.runId == "" {
        return false;
      }
      var read := Attempt();
      if !read {
        return false;
      }
      var registered := if q.runId in runs then Some(runs[q.runId]) else None;
      var decision := Classify(registered, d.body(q.body), CountsOf(q.body), RequestMinute(q));
      AbsentRunIsNew(registered, d.body(q.body), CountsOf(q.body), RequestMinute(q));
      if decision == Block {
        return false;
      }
      var result := Write(CallOf(q, decision == ReuseExisting));
      if result.Refused? {
        return false;
      }
      fetched := fetched + [FetchedOf(q, d)];
      if HashesAreNamed(d) {
        AcceptedIsFiled(old(files), View(), q, decision == ReuseExisting, result, d);
      }
      return true;
    }

    /**
     Files one earlier fetch under its run id, once. `effects` says that the payload
     claims outbox or metric writes; `refs` counts downstream uses of the run.
     */
    method Register(f: Fetched, effects: bool, refs: nat) returns (ok: bool)
      requires f in fetched
      modifies this`runs, this`clock
      ensures RegisterStep(old(View()), View(), f, ok)
      ensures ok && f.runId !in old(runs) ==>
                runs == old(runs)[f.runId := Registration("passed", 0, f.hash, f.counts, Some(f.minute), 1, 1, 0)]
      ensures effects ==> !ok && runs == old(runs)
      ensures f.runId in old(runs) && ok ==> refs == 0
      ensures Faultless() && f.runId != "" && f.hash != "" && !effects ==>
                (ok <==> f.runId !in old(runs)
                         || (old(runs)[f.runId].status == PASSED && old(runs)[f.runId].hash == f.hash && refs == 0))
    {
      if f.runId == "" || f.hash == "" || effects {
        return false;
      }
      var read := Attempt();
      if !read {
        return false;
      }
      if f.runId in runs {
        var existing := runs[f.runId];
        return existing.status == PASSED && existing.hash == f.hash && refs == 0;
      }
      var stored := Attempt();
      if !stored {
        return false;
      }
      runs := runs[f.runId := Registered(f)];
      ok := Attempt();
    }
  }

  /**
   A first write whose only failing call reads the identity of a file just created,
   the payload or the report: the cleanup passes and one file of the two stays.
   */
  method LostFileStays(c: Call, d: Digest, report: bool) returns (backend: Backend, result: WriteResult)
    requires Named(c) && !c.requireExisting
    ensures fresh(backend) && result == Refused(true)
    ensures MinuteOf(c) in backend.files.payloads <==> !report
    ensures MinuteOf(c) in backend.files.reports <==> report
  {
    backend := new Backend(Store(Files(map[], map[]), map[], []), d, t => t == if report then 4 else 1);
    result := backend.Create(c);
  }

  lemma ClosingPairIsThere(f: Files, m: Minute, e: Expected, d: Digest)
    ensures PairCloses(f, m, e, d) ==> m in f.payloads && m in f.reports
  {
  }

  lemma Unchanged(f: Files, m: Minute)
    requires Vacant(f, m)
    ensures OnlyAt(f, f, m)
  {
  }

  lemma RefusedStep(before: Files, after: Files, c: Call, cleaned: bool, d: Digest)
    requires Creates(before, c) && OnlyAt(before, after, MinuteOf(c))
    ensures WriteStep(before, after, c, Refused(cleaned), d)
    ensures Vacant(after, MinuteOf(c)) <==> after == before
    ensures MinuteOf(c) !in after.payloads ==> after.payloads == before.payloads
  {
  }

  lemma WrittenStep(before: Files, after: Files, c: Call, d: Digest)
    requires Creates(before, c) && after == WithPair(before, c, d)
    ensures WriteStep(before, after, c, Written(d.body(c.payload.body)), d)
  {
  }

  lemma AbsentRunIsNew(registered: Option<Registration>, hash: string, counts: Counts, m: Minute)
    ensures Classify(registered, hash, counts, m) == WriteNew <==> registered == None
  {
  }
}
