/**
 The one-shot materializer: open the owner-write window on the release root,
 stage, extract, promote by rename, seal, restore the root, and check everything
 again. Every system call may fail, and other processes may add names at any time.
 */
module Materializer {
  import opened Bytes
  import opened Extraction
  import opened ReleaseTree
  import opened ReleaseWalk
  import opened ReleaseCheck
  import opened ReleaseSealing

  const EXIT_USAGE: nat := 64
  const EXIT_IDENTITY: nat := 65
  const EXIT_FROZEN_INPUT: nat := 66
  const EXIT_ROOT_PREFLIGHT: nat := 67
  const EXIT_TARGET_EXISTS: nat := 68
  const EXIT_STAGING_EXISTS: nat := 69
  const EXIT_ROOT_WINDOW: nat := 70
  const EXIT_STAGING_CREATE: nat := 71
  const EXIT_MATERIALIZE: nat := 72
  const EXIT_PROMOTE: nat := 73
  const EXIT_ROOT_RESTORE: nat := 74
  const EXIT_POSTCONDITION: nat := 75

  type Inode = i: nat | 0 < i witness 1

  /** The names the helper knows in the release root, and everybody else's. */
  datatype Name = Historical | Recovery2 | Recovery3 | Staging | Target | Foreign(id: nat)

  datatype Event = WindowOpened | Made | Promoted | RestoreTried(worked: bool)

  /**
   The release root as a value: its mode, what its names are bound to, the
   directories behind them, and which names other processes have added.
   */
  datatype Disk = Disk(mode: nat, names: map<Name, Inode>, trees: map<Inode, Tree>, next: Inode, arrived: set<Name>)

  /** Every known inode is below `next`, and every tree is one a file system can hold. */
  ghost predicate Sound(d: Disk) {
    && (forall n :: n in d.names ==> d.names[n] < d.next)
    && (forall i :: i in d.trees ==> i < d.next && d.trees[i].Dir? && WellFormed(d.trees[i].entries))
  }

  /** Nothing that was in `a` was rebound, removed or altered, and every new name has a new inode. */
  ghost predicate Kept(a: Disk, b: Disk) {
    && a.next <= b.next
    && (forall n :: n in a.names ==> n in b.names && b.names[n] == a.names[n])
    && (forall n :: n in b.names && n !in a.names ==> a.next <= b.names[n])
    && (forall i :: i in a.trees ==> i in b.trees && b.trees[i] == a.trees[i])
  }

  /** From `a` to `b` other processes may have added names; nothing else happened. */
  ghost predicate Watched(a: Disk, b: Disk) {
    && Kept(a, b) && b.mode == a.mode && b.trees == a.trees && a.arrived <= b.arrived
    && (forall n :: n in b.names && n !in a.names ==> n in b.arrived)
  }

  /** What the run is given: its checks on the invocation, the frozen files, and the recorded inodes. */
  datatype Run = Run(
    usageOk: bool, identityOk: bool, frozenOk: bool, helperAbsent: bool,
    archive: seq<byte>, manifest: seq<byte>, x: Expected, expected: Tally,
    inherits: bool, unpacked: seq<Named>,
    historical: Inode, recovery2: Inode, recovery3: Inode, interrupted: Tally)

  /** The new staging directory before anything is put into it. */
  function NewStaging(run: Run): Meta {
    Meta(MODE_0700, 2, run.inherits)
  }

  function SealedRoot(tree: Tree): Tree
    requires tree.Dir?
  {
    Dir(tree.meta.(mode := MODE_0555), tree.entries)
  }

  function Unpacked(run: Run): (t: Tree)
    ensures t.Dir?
  {
    Dir(NewStaging(run), run.unpacked)
  }

  /** `unpacked` is what the creating calls leave on disk when extraction reaches its end. */
  ghost predicate Consistent(run: Run) {
    && NUL !in run.x.commit
    && WellFormed(run.unpacked)
    && var files := Outcome(run.archive, run.manifest, START, 0, run.x);
       files.Some? ==> Holds(run.unpacked, files.value)
  }

  predicate ExactHistorical(run: Run, name: Name, inode: Inode, tree: Tree)
    requires name.Historical? || name.Recovery2? || name.Recovery3?
  {
    match name
    case Historical => inode == run.historical && WorkDirectory(tree) && tree.entries == []
    case Recovery2 => inode == run.recovery2 && ExactInterrupted(tree, run.manifest, run.interrupted, run.x.blobId)
    case Recovery3 => inode == run.recovery3 && ExactRelease(tree, run.manifest, run.expected, run.x.blobId)
  }

  /** What a passing check of an earlier staging establishes when reads of its directories may fail. */
  ghost predicate LooksHistorical(run: Run, name: Name, inode: Inode, tree: Tree)
    requires name.Historical? || name.Recovery2? || name.Recovery3?
  {
    match name
    case Historical => inode == run.historical && WorkDirectory(tree)
    case Recovery2 => inode == run.recovery2 && LooksInterrupted(tree, run.manifest, run.interrupted, run.x.blobId)
    case Recovery3 => inode == run.recovery3 && LooksReleased(run, tree)
  }

  /** And when that is enough: the first must be empty, the others must have their true counts and no links. */
  lemma LooksAreExact(run: Run, name: Name, inode: Inode, tree: Tree)
    requires name.Historical? || name.Recovery2? || name.Recovery3?
    requires LooksHistorical(run, name, inode, tree)
    ensures ExactHistorical(run, name, inode, tree)
            <==> if name.Historical? then tree.entries == []
                 else FilesAndFolders(tree.entries)
                      && Plus(Tally(0, 0), tree.entries) == if name.Recovery2? then run.interrupted else run.expected
  {
    hide LooksRight, IsRight, FilesAndFolders, Count, FirstVerified, ManifestVerified;
    match name
    case Historical =>
    case Recovery2 => RightWhenCountsAgree(Interrupted, tree.entries, run.interrupted);
    case Recovery3 => PassedIsExact(tree, run.manifest, run.expected, run.x.blobId);
  }

  predicate Released(run: Run, tree: Tree) {
    ExactRelease(tree, run.manifest, run.expected, run.x.blobId)
  }

  ghost predicate LooksReleased(run: Run, tree: Tree) {
    LooksExact(tree, run.manifest, run.expected, run.x.blobId)
  }

  /** The expected counts are those of what the archive unpacks to. */
  predicate CountsAgree(run: Run) {
    Plus(Tally(0, 0), run.unpacked) == run.expected
  }

  /** A directory with files and folders only, as many as were unpacked. */
  predicate FullyUnpacked(run: Run, tree: Tree) {
    tree.Dir? && FilesAndFolders(tree.entries) && Plus(Tally(0, 0), tree.entries) == Plus(Tally(0, 0), run.unpacked)
  }

  /** Sealing loses nothing of what was unpacked. */
  lemma SealedIsFull(run: Run, sealed: Tree)
    requires sealed.Dir? && OnlySealed(run.unpacked, sealed.entries) && FilesAndFolders(run.unpacked)
    ensures FullyUnpacked(run, sealed)
  {
    hide OnlySealed, FilesAndFolders, Count;
    OnlySealedCountsTheSame(run.unpacked, sealed.entries, false);
    OnlySealedCountsTheSame(run.unpacked, sealed.entries, true);
    OnlySealedIsKnown(run.unpacked, sealed.entries);
  }

  lemma UnpackedIsReleased(run: Run, tree: Tree)
    requires FullyUnpacked(run, tree) && LooksReleased(run, tree)
    ensures Released(run, tree) <==> CountsAgree(run)
  {
    hide FilesAndFolders, ExactRelease, LooksExact, Count;
    PassedIsExact(tree, run.manifest, run.expected, run.x.blobId);
  }

  ghost predicate LooksInPlace(run: Run, d: Disk, name: Name)
    requires name.Historical? || name.Recovery2? || name.Recovery3?
  {
    name in d.names && d.names[name] in d.trees && LooksHistorical(run, name, d.names[name], d.trees[d.names[name]])
  }

  predicate InPlace(run: Run, d: Disk, name: Name)
    requires name.Historical? || name.Recovery2? || name.Recovery3?
  {
    name in d.names && d.names[name] in d.trees && ExactHistorical(run, name, d.names[name], d.trees[d.names[name]])
  }

  /** `cut(inode, t)`: a directory read made at time `t`, in the directory behind `inode` or below it, fails. */
  type Cuts = (Inode, nat) -> bool

  ghost predicate Listable(cut: Cuts, inode: Inode) {
    forall t :: !cut(inode, t)
  }

  ghost predicate Unlistable(cut: Cuts, inode: Inode) {
    forall t :: cut(inode, t)
  }

  /** An earlier staging passed its check: it looks as recorded, and if it can be read it is. */
  ghost predicate Checked(run: Run, d: Disk, cut: Cuts, name: Name)
    requires name.Historical? || name.Recovery2? || name.Recovery3?
  {
    LooksInPlace(run, d, name) && (Listable(cut, d.names[name]) ==> InPlace(run, d, name))
  }

  ghost predicate HistoryChecked(run: Run, d: Disk, cut: Cuts) {
    Checked(run, d, cut, Historical) && Checked(run, d, cut, Recovery2) && Checked(run, d, cut, Recovery3)
  }

  /** Each earlier staging has its recorded inode; the first is a private empty directory. */
  lemma InPlaceMeans(run: Run, d: Disk, tree: Tree)
    ensures Historical in d.names && d.names[Historical] in d.trees && d.trees[d.names[Historical]] == tree ==>
              (InPlace(run, d, Historical)
               <==> && d.names[Historical] == run.historical && tree.Dir? && tree.entries == []
                    && tree.meta.trusted && tree.meta.mode == 448)
    ensures Recovery2 in d.names && d.names[Recovery2] in d.trees && d.trees[d.names[Recovery2]] == tree ==>
              (InPlace(run, d, Recovery2)
               <==> d.names[Recovery2] == run.recovery2
                    && ExactInterrupted(tree, run.manifest, run.interrupted, run.x.blobId))
    ensures Recovery3 in d.names && d.names[Recovery3] in d.trees && d.trees[d.names[Recovery3]] == tree ==>
              (InPlace(run, d, Recovery3)
               <==> d.names[Recovery3] == run.recovery3
                    && ExactRelease(tree, run.manifest, run.expected, run.x.blobId))
  {
  }

  /** The three earlier staging directories are there and as recorded. */
  predicate HistoryInPlace(run: Run, d: Disk) {
    InPlace(run, d, Historical) && InPlace(run, d, Recovery2) && InPlace(run, d, Recovery3)
  }

  /**
   What certainly passes when no other call fails: a readable staging as recorded, or
   the private directory that should be empty when it cannot be read at all.
   */
  ghost predicate Passes(run: Run, d: Disk, cut: Cuts, name: Name)
    requires name.Historical? || name.Recovery2? || name.Recovery3?
  {
    && LooksInPlace(run, d, name)
    && ((Listable(cut, d.names[name]) && InPlace(run, d, name)) || (name.Historical? && Unlistable(cut, d.names[name])))
  }

  ghost predicate HistoryPasses(run: Run, d: Disk, cut: Cuts) {
    Passes(run, d, cut, Historical) && Passes(run, d, cut, Recovery2) && Passes(run, d, cut, Recovery3)
  }

  /** All a run needs, besides calls that work and names that stay free, to finish with exit 0. */
  ghost predicate InOrder(run: Run, d: Disk, cut: Cuts) {
    && run.usageOk && run.identityOk && run.frozenOk && run.helperAbsent
    && d.mode == MODE_0555 && HistoryPasses(run, d, cut)
    && (forall i :: d.next <= i ==> Listable(cut, i))
    && Target !in d.names && Staging !in d.names
    && Unpacks(run.archive, run.manifest, run.x, run.expected, Unpacked(run))
  }

  /** No directory read fails. */
  ghost predicate AllListable(cut: Cuts) {
    forall inode :: Listable(cut, inode)
  }

  /** What the checks before the window answer when no call fails: the first one that does not hold, as a number. */
  ghost function PreflightAnswer(run: Run, d: Disk, trusted: bool): nat {
    if !run.usageOk then 64
    else if !run.identityOk then 65
    else if !run.frozenOk then 66
    else if !trusted || d.mode != 365 || !run.helperAbsent then 67
    else if !HistoryInPlace(run, d) then 69
    else if Target in d.names then 68
    else if Staging in d.names then 69
    else 0
  }

  /** And the whole run: a new directory that is not as expected, or an archive that does not unpack, ends it. */
  ghost function Answer(run: Run, d: Disk, trusted: bool): nat {
    var first := PreflightAnswer(run, d, trusted);
    if first != 0 then first
    else if !run.inherits then 71
    else if !Unpacks(run.archive, run.manifest, run.x, run.expected, Unpacked(run)) then 72
    else 0
  }

  /**
   What a run did. `made` is the directory it created; `handle` the one it holds
   open; `known` the inode it read back from the handle, 0 before that.
   */
  datatype Report = Report(
    primary: nat, post: nat, window: bool, promoted: bool, restored: bool,
    made: Option<Inode>, handle: Option<Inode>, known: nat)

  const UNTOUCHED := Report(0, 0, false, false, false, None, None, 0)

  /** Where the directory the run created is now. */
  ghost predicate Standing(r: Report, before: Disk, d: Disk) {
    && Kept(before, d) && before.arrived <= d.arrived
    && (r.promoted ==> r.made.Some?) && (r.made.Some? ==> r.window)
    && (r.handle.Some? ==> r.handle == r.made)
    && (r.known != 0 ==> r.made == Some(r.known))
    && (r.made.Some? ==>
          && before.next <= r.made.value && r.made.value in d.trees
          && var home := if r.promoted then Target else Staging;
             home !in before.names && home in d.names && d.names[home] == r.made.value)
    && (forall n :: n in d.names && n !in before.names && n !in d.arrived ==>
          r.made.Some? && n == if r.promoted then Target else Staging)
  }

  /** What the steps before restoring the root write into the log. */
  function Steps(r: Report): seq<Event> {
    (if r.window then [WindowOpened] else []) + (if r.made.Some? then [Made] else [])
      + (if r.promoted then [Promoted] else [])
  }

  /** The whole run: a window that was opened is always followed by an attempt to restore the root. */
  function Trace(r: Report): seq<Event> {
    Steps(r) + if r.window then [RestoreTried(r.restored)] else []
  }

  function ExitCode(r: Report): nat {
    if r.primary != 0 then r.primary else r.post
  }

  /** Failures after the primary result never hide each other: the first one stays. */
  function Recorded(r: Report, result: nat): Report {
    if r.post == 0 then r.(post := result) else r
  }

  /** A failed step changes only the primary result. */
  function Failed(r: Report, ghost before: Disk, ghost d: Disk, result: nat): (failed: Report)
    requires Standing(r, before, d)
    ensures Standing(failed, before, d) && failed == r.(primary := result)
  {
    r.(primary := result)
  }

  /** The inode is read back from the open handle. */
  function Known(r: Report, ghost before: Disk, ghost d: Disk): (k: Report)
    requires Standing(r, before, d) && r.made.Some? && r.handle == r.made
    ensures Standing(k, before, d) && k == r.(known := r.made.value)
  {
    r.(known := r.made.value)
  }

  /** A failed check on the way out is recorded unless one was recorded before. */
  function Posted(r: Report, ghost before: Disk, ghost d: Disk, result: nat): (posted: Report)
    requires Standing(r, before, d)
    ensures Standing(posted, before, d) && posted == Recorded(r, result)
  {
    Recorded(r, result)
  }

  lemma NothingStands(d: Disk)
    ensures Standing(UNTOUCHED, d, d)
  {
  }

  /** The two names a run uses are taken, or free, as before. */
  predicate SameOwnNames(before: map<Name, Inode>, after: map<Name, Inode>) {
    (Staging in after <==> Staging in before) && (Target in after <==> Target in before)
  }

  class ReleaseRoot {
    var mode: nat
    var names: map<Name, Inode>
    var trees: map<Inode, Tree>
    var next: Inode
    var clock: nat
    var arrived: set<Name>
    var log: seq<Event>
    const fails: Faults
    const cut: Cuts
    const arrivals: nat -> set<Name>
    const trusted: bool

    constructor (d: Disk, fails: Faults, cut: Cuts, arrivals: nat -> set<Name>, trusted: bool)
      requires Sound(d)
      ensures Valid() && View() == d && log == []
      ensures this.fails == fails && this.cut == cut && this.arrivals == arrivals && this.trusted == trusted
    {
      mode, names, trees, next := d.mode, d.names, d.trees, d.next;
      clock, arrived, log := 0, d.arrived, [];
      this.fails, this.cut, this.arrivals, this.trusted := fails, cut, arrivals, trusted;
    }

    ghost function View(): Disk
      reads this
    {
      Disk(mode, names, trees, next, arrived)
    }

    ghost predicate Valid()
      reads this
    {
      Sound(View())
    }

    /** No other process takes the two names the run needs. */
    ghost predicate Undisturbed() {
      forall t :: Staging !in arrivals(t) && Target !in arrivals(t)
    }

    /** Calls work and the names stay free. */
    ghost predicate Smooth() {
      Faultless(fails) && Undisturbed()
    }

    /** The reads of the directory behind `inode` and of those below it, one oracle for all. */
    function Reads(inode: Inode): Faults {
      (t: nat) => cut(inode, t)
    }

    /** The root is sound and kept everything it had at `d`. */
    ghost predicate Since(d: Disk)
      reads this
    {
      Sound(d) && Sound(View()) && Kept(d, View())
    }

    /** Time passes: other processes may add names that are free, and the call about to be made may fail. */
    method Call(ghost before: Disk) returns (ok: bool)
      requires Since(before)
      modifies this`names, this`next, this`clock, this`arrived
      ensures Since(before) && Watched(old(View()), View())
      ensures Undisturbed() ==> SameOwnNames(old(names), names)
      ensures Faultless(fails) ==> ok
    {
      var added := arrivals(clock) - names.Keys;
      names := (map n | n in added :: next) + names;
      next, arrived := next + 1, arrived + added;
      ok := !fails(clock);
      clock := clock + 1;
    }

    method OpenDirectory(name: Name, ghost before: Disk) returns (handle: Option<Inode>)
      requires Since(before)
      modifies this`names, this`next, this`clock, this`arrived
      ensures Since(before) && Watched(old(View()), View())
      ensures Undisturbed() ==> SameOwnNames(old(names), names)
      ensures handle.Some? ==>
                && name in names && names[name] == handle.value && handle.value in trees
                && trees[handle.value].Dir? && WellFormed(trees[handle.value].entries)
      ensures Faultless(fails) && name in old(names) && old(names)[name] in trees ==> handle == Some(old(names)[name])
    {
      var ok := Call(before);
      return if ok && name in names && names[name] in trees then Some(names[name]) else None;
    }

    method IsExactRelease(run: Run, inode: Inode, tree: Tree, ghost before: Disk) returns (ok: bool)
      requires Since(before) && tree.Dir? && WellFormed(tree.entries)
      modifies this`names, this`next, this`clock, this`arrived
      ensures Since(before) && Watched(old(View()), View())
      ensures Undisturbed() ==> SameOwnNames(old(names), names)
      ensures ok ==> LooksReleased(run, tree) && (Listable(cut, inode) ==> Released(run, tree))
      ensures Faultless(fails) && Listable(cut, inode) ==> (ok <==> Released(run, tree))
    {
      hide Sound, Kept, Watched, WellFormed, ExactRelease, LooksExact;
      var worked := Call(before);
      var time;
      ok, time := ExactSealedFullReleaseTree(
        tree, run.manifest, run.expected, run.x.blobId, fails, Reads(inode), clock);
      ok := ok && worked;
      clock := time;
    }

    method IsInterrupted(run: Run, inode: Inode, tree: Tree, ghost before: Disk) returns (ok: bool)
      requires Since(before) && tree.Dir? && WellFormed(tree.entries)
      modifies this`names, this`next, this`clock, this`arrived
      ensures Since(before) && Watched(old(View()), View())
      ensures Undisturbed() ==> SameOwnNames(old(names), names)
      ensures ok ==> LooksInterrupted(tree, run.manifest, run.interrupted, run.x.blobId)
      ensures ok && Listable(cut, inode) ==> ExactInterrupted(tree, run.manifest, run.interrupted, run.x.blobId)
      ensures Faultless(fails) && Listable(cut, inode) ==>
                (ok <==> ExactInterrupted(tree, run.manifest, run.interrupted, run.x.blobId))
    {
      hide Sound, Kept, Watched, WellFormed, ExactInterrupted, LooksInterrupted;
      var worked := Call(before);
      var time;
      ok, time := ExactFailedStaging(
        tree, run.manifest, run.interrupted, run.x.blobId, fails, Reads(inode), clock);
      ok := ok && worked;
      clock := time;
    }

    method IsEmptyWorkDirectory(inode: Inode, tree: Tree, ghost before: Disk) returns (ok: bool)
      requires Since(before) && tree.Dir?
      modifies this`names, this`next, this`clock, this`arrived
      ensures Since(before) && Watched(old(View()), View())
      ensures Undisturbed() ==> SameOwnNames(old(names), names)
      ensures ok ==> WorkDirectory(tree) && (Listable(cut, inode) ==> tree.entries == [])
      ensures Faultless(fails) && WorkDirectory(tree) && (Unlistable(cut, inode) || tree.entries == []) ==> ok
    {
      var worked := Call(before);
      var empty, time := DirectoryEmpty(tree.entries, fails, Reads(inode), clock);
      ok := worked && WorkDirectory(tree) && empty;
      clock := time;
    }

    method IsExactHistorical(run: Run, name: Name, inode: Inode, tree: Tree, ghost before: Disk) returns (ok: bool)
      requires Since(before) && (name.Historical? || name.Recovery2? || name.Recovery3?)
      requires tree.Dir? && WellFormed(tree.entries)
      modifies this`names, this`next, this`clock, this`arrived
      ensures Since(before) && Watched(old(View()), View())
      ensures Undisturbed() ==> SameOwnNames(old(names), names)
      ensures ok ==> LooksHistorical(run, name, inode, tree)
      ensures ok && Listable(cut, inode) ==> ExactHistorical(run, name, inode, tree)
      ensures Faultless(fails) && Listable(cut, inode) && ExactHistorical(run, name, inode, tree) ==> ok
      ensures Faultless(fails) && Unlistable(cut, inode) && name.Historical? && LooksHistorical(run, name, inode, tree)
              ==> ok
    {
      hide Sound, Kept, Watched, ExactRelease, LooksExact, ExactInterrupted, LooksInterrupted, WellFormed;
      match name {
        case Historical =>
          ok := IsEmptyWorkDirectory(inode, tree, before);
          ok := ok && inode == run.historical;
        case Recovery2 =>
          ok := IsInterrupted(run, inode, tree, before);
          ok := ok && inode == run.recovery2;
        case Recovery3 =>
          ok := IsExactRelease(run, inode, tree, before);
          ok := ok && inode == run.recovery3;
      }
    }

    /** One earlier staging directory: still under its name, still the recorded inode, still as recorded. */
    method CheckHistory(run: Run, name: Name, ghost before: Disk) returns (ok: bool)
      requires Since(before) && (name.Historical? || name.Recovery2? || name.Recovery3?)
      modifies this`names, this`next, this`clock, this`arrived
      ensures Since(before) && Watched(old(View()), View())
      ensures Undisturbed() ==> SameOwnNames(old(names), names)
      ensures ok ==> Checked(run, View(), cut, name)
      ensures Faultless(fails) && Passes(run, before, cut, name) ==> ok
    {
      hide Sound, Kept, Watched, ExactHistorical, LooksHistorical, WellFormed;
      ghost var d0 := View();
      PassesStays(run, before, d0, cut, name);
      var handle := OpenDirectory(name, before);
      ghost var d1 := View();
      NameStays(d0, d1, name);
      var statted := Call(before);
      ghost var d2 := View();
      NameStays(d1, d2, name);
      WatchedTransitive(d0, d1, d2);
      if handle == None || !statted || name !in names || names[name] != handle.value {
        return false;
      }
      ok := IsExactHistorical(run, name, handle.value, trees[handle.value], before);
      WatchedTransitive(d0, d2, View());
      NameStays(d2, View(), name);
    }

    method CheckEarlierStagings(run: Run, ghost before: Disk)
      returns (historical: bool, recovery2: bool, recovery3: bool)
      requires Since(before)
      modifies this`names, this`next, this`clock, this`arrived
      ensures Since(before) && Watched(old(View()), View())
      ensures Undisturbed() ==> SameOwnNames(old(names), names)
      ensures historical && recovery2 && recovery3 ==> HistoryChecked(run, View(), cut)
      ensures Faultless(fails) && HistoryPasses(run, before, cut) ==> historical && recovery2 && recovery3
    {
      hide Sound, Kept, Watched, Checked, Passes;
      ghost var d0 := View();
      historical := CheckHistory(run, Historical, before);
      ghost var d1 := View();
      recovery2 := CheckHistory(run, Recovery2, before);
      ghost var d2 := View();
      recovery3 := CheckHistory(run, Recovery3, before);
      WatchedTransitive(d1, d2, View());
      WatchedTransitive(d0, d1, View());
      CheckedStays(run, d1, View(), cut, Historical);
      CheckedStays(run, d2, View(), cut, Recovery2);
    }

    /** Everything before the window: nothing is changed, and any doubt ends the run. */
    method Preflight(run: Run, ghost before: Disk) returns (exit: nat)
      requires Since(before)
      modifies this`names, this`next, this`clock, this`arrived
      ensures Since(before) && Watched(old(View()), View())
      ensures exit == 0 || EXIT_USAGE <= exit <= EXIT_STAGING_EXISTS
      ensures exit == 0 ==> trusted && mode == MODE_0555 && HistoryChecked(run, View(), cut)
      ensures Smooth() && trusted && InOrder(run, old(View()), cut) && before == old(View()) ==>
                exit == 0 && InOrder(run, View(), cut)
      ensures Smooth() && AllListable(cut) && before == old(View()) ==>
                exit == PreflightAnswer(run, before, trusted) && (exit == 0 ==> Target !in names && Staging !in names)
    {
      hide Sound, Kept, Watched, Checked, Passes, Unpacks, Unpacked, Listable, HistoryInPlace, HistoryChecked;
      hide HistoryPasses, AllListable;
      ghost var d0 := View();
      WatchedItself(d0);
      if !run.usageOk {
        return EXIT_USAGE;
      }
      if !run.identityOk {
        return EXIT_IDENTITY;
      }
      if !run.frozenOk {
        return EXIT_FROZEN_INPUT;
      }
      var statted := Call(before);
      ghost var d1 := View();
      if !statted || !trusted || mode != MODE_0555 || !run.helperAbsent {
        return EXIT_ROOT_PREFLIGHT;
      }
      var historical, recovery2, recovery3 := CheckEarlierStagings(run, before);
      ghost var d2 := View();
      WatchedTransitive(d0, d1, d2);
      HistoryWasThere(run, d0, d2, cut);
      AllPass(run, before, cut);
      if !historical || !recovery2 || !recovery3 {
        return EXIT_STAGING_EXISTS;
      }
      var looked := Call(before);
      ghost var d3 := View();
      WatchedTransitive(d0, d2, d3);
      if !looked || Target in names {
        return EXIT_TARGET_EXISTS;
      }
      looked := Call(before);
      WatchedTransitive(d0, d3, View());
      if !looked || Staging in names {
        return EXIT_STAGING_EXISTS;
      }
      HistoryStays(run, d2, d3, cut);
      HistoryStays(run, d3, View(), cut);
      OrderStays(run, d0, View(), cut);
      return 0;
    }

    /**
     The release looks exact, and it is exactly when the expected counts are the true
     ones, which they are when its directories can be read.
     */
    ghost predicate Delivered(run: Run, tree: Tree, inode: Inode) {
      && FullyUnpacked(run, tree) && LooksReleased(run, tree)
      && (Released(run, tree) <==> CountsAgree(run))
      && (Listable(cut, inode) ==> CountsAgree(run))
    }

    // ----- Up to the promoted release

    /** Fills the staging directory; other processes cannot reach into it. */
    method Extract(run: Run, r: Report, ghost before: Disk) returns (ok: bool)
      requires Since(before) && Consistent(run) && Standing(r, before, View())
      requires r.made == Some(r.known) && r.known in trees && trees[r.known] == Dir(NewStaging(run), [])
      modifies this`names, this`trees, this`next, this`clock, this`arrived
      ensures Since(before) && Standing(r, before, View())
      ensures Undisturbed() ==> SameOwnNames(old(names), names)
      ensures r.known in trees && trees[r.known].Dir? && trees[r.known].meta == NewStaging(run)
      ensures ok ==> FullyUnpacked(run, trees[r.known])
      ensures ok && CountsAgree(run) ==> Released(run, SealedRoot(trees[r.known]))
      ensures Faultless(fails) && Listable(cut, r.known) ==>
                (ok <==> Unpacks(run.archive, run.manifest, run.x, run.expected, Unpacked(run)))
    {
      hide Outcome, Holds, Unpacks, Count, ExactRelease, WorkDirectory, OnlySealed, FilesAndFolders;
      hide Sound, Kept, Standing, WellFormed, FullyUnpacked;
      var worked := Step(r, before);
      var sealed, time;
      ok, sealed, time := ExtractAndVerify(
        run.archive, run.manifest, run.x, run.expected, Unpacked(run), fails, Reads(r.known), clock);
      OnlySealedIsWellFormed(run.unpacked, sealed.entries);
      if ok {
        SealedIsFull(run, sealed);
      }
      FillMade(r, sealed, before);
      clock := time;
      ok := ok && worked;
    }

    method FillMade(r: Report, filled: Tree, ghost before: Disk)
      requires Since(before) && Standing(r, before, View()) && r.made.Some?
      requires filled.Dir? && WellFormed(filled.entries)
      modifies this`trees
      ensures Since(before) && Standing(r, before, View()) && trees == old(trees)[r.made.value := filled]
    {
      hide WellFormed;
      trees := trees[r.made.value := filled];
    }

    /** A call made while the run's own directory stands somewhere: it stays there. */
    method Step(r: Report, ghost before: Disk) returns (ok: bool)
      requires Since(before) && Standing(r, before, View())
      modifies this`names, this`next, this`clock, this`arrived
      ensures Since(before) && Standing(r, before, View())
      ensures r.made.Some? ==> r.made.value in trees
      ensures Undisturbed() ==> SameOwnNames(old(names), names)
      ensures Faultless(fails) ==> ok
    {
      hide Sound, Watched;
      ghost var d := View();
      ok := Call(before);
      StandingStays(r, before, d, View());
    }

    method OpenMade(r0: Report, ghost before: Disk) returns (r: Report)
      requires Since(before) && Standing(r0, before, View()) && r0.made.Some? && !r0.promoted && r0.handle == None
      modifies this`names, this`next, this`clock, this`arrived
      ensures Since(before) && Standing(r, before, View())
      ensures r == r0.(handle := r.handle) && (r.handle == None || r.handle == r0.made) && r0.made.value in trees
      ensures Undisturbed() ==> SameOwnNames(old(names), names)
      ensures Faultless(fails) ==> r.handle.Some?
    {
      hide Sound, Watched;
      ghost var d := View();
      var handle := OpenDirectory(Staging, before);
      StandingStays(r0, before, d, View());
      r := r0.(handle := handle);
    }

    method MakeStaging(run: Run, r0: Report, ghost before: Disk) returns (r: Report)
      requires Since(before) && Standing(r0, before, View()) && r0.window && r0.made == None && Staging !in names
      modifies this`names, this`trees, this`next, this`log
      ensures Since(before) && Standing(r, before, View())
      ensures r.made.Some? && r == r0.(made := r.made)
      ensures r.made.value in trees && trees[r.made.value] == Dir(NewStaging(run), [])
      ensures Target in names <==> Target in old(names)
      ensures log == old(log) + [Made]
    {
      var inode := next;
      next := next + 1;
      names, trees, log := names[Staging := inode], trees[inode := Dir(NewStaging(run), [])], log + [Made];
      r := r0.(made := Some(inode));
    }

    /** From opening the window to a staging directory whose inode is known. */
    method Begin(run: Run, ghost before: Disk) returns (r: Report)
      requires Since(before) && Consistent(run) && before == View()
      modifies this`mode, this`names, this`trees, this`next, this`clock, this`arrived, this`log
      ensures Since(before) && Standing(r, before, View())
      ensures !r.promoted && !r.restored && r.post == 0
      ensures log == old(log) + Steps(r)
      ensures mode == if r.window then MODE_0755 else old(mode)
      ensures r.window <==> r.primary != EXIT_ROOT_WINDOW
      ensures !r.window ==> trees == old(trees) && r.made == None
      ensures r.primary == 0 || r.primary == EXIT_ROOT_WINDOW || r.primary == EXIT_STAGING_CREATE
      ensures r.primary == 0 ==>
                r.handle.Some? && r.known != 0 && r.made == Some(r.known) && r.known in trees
                  && trees[r.known] == Dir(NewStaging(run), [])
      ensures Smooth() && Target !in before.names && Staging !in before.names ==>
                r.primary == (if run.inherits then 0 else 71) && Target !in names
    {
      hide Sound, Consistent, WellFormed, Kept, Standing;
      r := UNTOUCHED;
      NothingStands(before);
      var ok := Step(r, before);
      if !ok {
        return Failed(r, before, View(), EXIT_ROOT_WINDOW);
      }
      r := OpenWindow(r, before);
      ok := Step(r, before);
      if !ok || Staging in names {
        return Failed(r, before, View(), EXIT_STAGING_CREATE);
      }
      r := MakeStaging(run, r, before);
      r := OpenMade(r, before);
      ok := Step(r, before);
      var inode := r.made.value;
      if r.handle == None || !ok || !WorkDirectory(trees[inode]) {
        return Failed(r, before, View(), EXIT_STAGING_CREATE);
      }
      r := Known(r, before, View());
    }

    method OpenWindow(r0: Report, ghost before: Disk) returns (r: Report)
      requires Since(before) && Standing(r0, before, View()) && r0.made == None && !r0.promoted
      modifies this`mode, this`log
      ensures Since(before) && Standing(r, before, View()) && r == r0.(window := true)
      ensures mode == MODE_0755 && log == old(log) + [WindowOpened]
    {
      mode, log := MODE_0755, log + [WindowOpened];
      r := r0.(window := true);
    }

    method Rename(r0: Report, ghost before: Disk) returns (r: Report)
      requires Since(before) && Standing(r0, before, View()) && r0.known != 0 && !r0.promoted && Target !in names
      modifies this`names, this`log
      ensures Since(before) && Standing(r, before, View()) && r == r0.(promoted := true)
      ensures Staging !in names && log == old(log) + [Promoted]
    {
      names, log := (names - {Staging})[Target := names[Staging]], log + [Promoted];
      r := r0.(promoted := true);
    }

    /** `fchmod` to 0555 through the open handle. */
    method SealMade(r: Report, ghost before: Disk)
      requires Since(before) && Standing(r, before, View()) && r.made.Some?
      modifies this`trees
      ensures Since(before) && Standing(r, before, View()) && r.made.value in old(trees)
      ensures trees == old(trees)[r.made.value := SealedRoot(old(trees)[r.made.value])]
    {
      var inode := r.made.value;
      trees := trees[inode := SealedRoot(trees[inode])];
    }

    method CheckRelease(run: Run, r: Report, ghost before: Disk) returns (ok: bool)
      requires Since(before) && Standing(r, before, View()) && r.made.Some?
      modifies this`names, this`next, this`clock, this`arrived
      ensures Since(before) && Standing(r, before, View()) && r.made.value in trees
      ensures Undisturbed() ==> SameOwnNames(old(names), names)
      ensures ok ==> LooksReleased(run, trees[r.made.value])
      ensures ok && Listable(cut, r.made.value) ==> Released(run, trees[r.made.value])
      ensures Faultless(fails) && Listable(cut, r.made.value) ==> (ok <==> Released(run, trees[r.made.value]))
    {
      ghost var d := View();
      ok := IsExactRelease(run, r.made.value, trees[r.made.value], before);
      StandingStays(r, before, d, View());
    }

    /** Renames the staging directory to its final name, which must be free, then seals and checks it. */
    method Promote(run: Run, r0: Report, ghost before: Disk) returns (r: Report)
      requires Since(before) && Standing(r0, before, View()) && r0.made == Some(r0.known)
      requires r0.primary == 0 && !r0.promoted && r0.known != 0 && r0.known in trees
      requires FullyUnpacked(run, trees[r0.known])
      modifies this`names, this`trees, this`next, this`clock, this`arrived, this`log
      ensures Since(before) && Standing(r, before, View())
      ensures r == r0.(primary := r.primary, promoted := r.promoted)
      ensures r.primary == 0 || r.primary == EXIT_PROMOTE
      ensures log == old(log) + if r.promoted then [Promoted] else []
      ensures r.primary == 0 ==> r.promoted && r.known in trees && Delivered(run, trees[r.known], r.known)
      ensures (&& Smooth() && Listable(cut, r0.known) && Target !in old(names) && old(trees)[r0.known].Dir?
               && Released(run, SealedRoot(old(trees)[r0.known])))
              ==> r.primary == 0 && Staging !in names
    {
      hide Sound, Released, LooksReleased, WellFormed, Kept, Standing, Listable, FilesAndFolders, Count;
      r := r0;
      var ok := Step(r, before);
      if !ok || Target in names {
        return Failed(r, before, View(), EXIT_PROMOTE);
      }
      r := Rename(r, before);
      ok := Step(r, before);
      if !ok {
        return Failed(r, before, View(), EXIT_PROMOTE);
      }
      SealMade(r, before);
      ok := Step(r, before);
      if !ok {
        return Failed(r, before, View(), EXIT_PROMOTE);
      }
      ok := CheckRelease(run, r, before);
      if !ok {
        return Failed(r, before, View(), EXIT_PROMOTE);
      }
      UnpackedIsReleased(run, trees[r.known]);
      ok := Step(r, before);
      if !ok {
        return Failed(r, before, View(), EXIT_PROMOTE);
      }
    }

    /** Everything between the preflight and the restoring of the root. */
    method Stage(run: Run, ghost before: Disk) returns (r: Report)
      requires Since(before) && Consistent(run) && before == View()
      modifies this`mode, this`names, this`trees, this`next, this`clock, this`arrived, this`log
      ensures Since(before) && Standing(r, before, View()) && !r.restored && r.post == 0
      ensures log == old(log) + Steps(r)
      ensures mode == if r.window then MODE_0755 else old(mode)
      ensures r.window <==> r.primary != EXIT_ROOT_WINDOW
      ensures !r.window ==> trees == old(trees) && r.made == None
      ensures r.primary == 0 || EXIT_ROOT_WINDOW <= r.primary <= EXIT_PROMOTE
      ensures r.promoted ==> r.known != 0 && (r.primary == 0 || r.primary == EXIT_PROMOTE)
      ensures r.primary == 0 ==>
                && r.promoted && r.made == Some(r.known) && r.known in trees
                && Delivered(run, trees[r.known], r.known)
      ensures Smooth() && InOrder(run, before, cut) ==> r.primary == 0 && Staging !in names
      ensures Smooth() && AllListable(cut) && Target !in before.names && Staging !in before.names ==>
                && (r.primary == if !run.inherits then 71 else if !Unpacks(
                      run.archive, run.manifest, run.x, run.expected, Unpacked(run)) then 72 else 0)
                && (r.primary == 0 ==> Staging !in names)
    {
      hide Sound, Consistent, WellFormed, HistoryPasses, Outcome, Count, ExactRelease, LooksReleased, FilesAndFolders;
      hide Standing, Kept, Listable, Released;
      r := Begin(run, before);
      if r.primary != 0 {
        return;
      }
      NewIsListable(run, r, before, View(), cut);
      var ok := Extract(run, r, before);
      if !ok {
        return Failed(r, before, View(), EXIT_MATERIALIZE);
      }
      r := Promote(run, r, before);
    }

    // ----- The way out, taken after every outcome

    /** An unpromoted staging directory is sealed and kept. */
    method SealStaging(r0: Report, ghost before: Disk) returns (r: Report)
      requires Since(before) && Standing(r0, before, View()) && r0.post == 0
      modifies this`names, this`trees, this`next, this`clock, this`arrived
      ensures Since(before) && Standing(r, before, View())
      ensures r == r0.(post := r.post, handle := r.handle) && (r.post == 0 || r.post == EXIT_POSTCONDITION)
      ensures r.made == None || r.promoted ==> r == r0 && trees == old(trees)
      ensures Undisturbed() ==> (Staging in names <==> Staging in old(names))
    {
      hide Sound, Kept, Standing;
      r := r0;
      if r.made == None || r.promoted {
        return;
      }
      if r.handle == None {
        r := OpenMade(r, before);
      }
      if r.handle.Some? {
        var ok := Step(r, before);
        if !ok {
          return Posted(r, before, View(), EXIT_POSTCONDITION);
        }
        SealMade(r, before);
        ok := Step(r, before);
        if !ok {
          return Posted(r, before, View(), EXIT_POSTCONDITION);
        }
        ok := Step(r, before);
        if !ok || !ExactMeta(trees[r.made.value].meta, MODE_0555) {
          return Posted(r, before, View(), EXIT_POSTCONDITION);
        }
      }
    }

    /** A window that was opened is always closed again, or at least tried. */
    method Restore(r0: Report, ghost before: Disk) returns (r: Report)
      requires Since(before) && Standing(r0, before, View()) && !r0.restored
      modifies this`mode, this`names, this`next, this`clock, this`arrived, this`log
      ensures Since(before) && Standing(r, before, View())
      ensures r == r0.(post := r.post, restored := r.restored)
      ensures r.post == if r.window && !r.restored && r0.post == 0 then EXIT_ROOT_RESTORE else r0.post
      ensures mode == if r.restored then MODE_0555 else old(mode)
      ensures log == old(log) + if r.window then [RestoreTried(r.restored)] else []
      ensures Undisturbed() ==> (Staging in names <==> Staging in old(names))
      ensures Faultless(fails) ==> r.restored == r.window
    {
      hide Sound, Kept, Standing;
      r := r0;
      if r.window {
        var ok := Step(r, before);
        r := CloseWindow(r, ok, before);
        if !ok {
          r := Posted(r, before, View(), EXIT_ROOT_RESTORE);
        }
      }
    }

    method CloseWindow(r0: Report, worked: bool, ghost before: Disk) returns (r: Report)
      requires Since(before) && Standing(r0, before, View())
      modifies this`mode, this`log
      ensures Since(before) && Standing(r, before, View()) && r == r0.(restored := worked)
      ensures mode == if worked then MODE_0555 else old(mode)
      ensures log == old(log) + [RestoreTried(worked)]
    {
      if worked {
        mode := MODE_0555;
      }
      log := log + [RestoreTried(worked)];
      r := r0.(restored := worked);
    }

    method CheckRoot(r0: Report, ghost before: Disk) returns (r: Report)
      requires Since(before) && Standing(r0, before, View())
      modifies this`names, this`next, this`clock, this`arrived
      ensures Since(before) && Standing(r, before, View()) && r == r0.(post := r.post)
      ensures r0.post != 0 ==> r.post == r0.post
      ensures r.post == 0 ==> trusted && mode == MODE_0555
      ensures r.post == r0.post || r.post == EXIT_ROOT_RESTORE
      ensures Undisturbed() ==> (Staging in names <==> Staging in old(names))
      ensures Faultless(fails) && trusted && mode == MODE_0555 ==> r == r0
    {
      hide Sound, Kept, Standing;
      r := r0;
      var statted := Step(r, before);
      if !statted || !trusted || mode != MODE_0555 {
        r := Posted(r, before, View(), EXIT_ROOT_RESTORE);
      }
    }

    method CheckHistories(run: Run, r0: Report, ghost before: Disk) returns (r: Report)
      requires Since(before) && Standing(r0, before, View())
      modifies this`names, this`next, this`clock, this`arrived
      ensures Since(before) && Standing(r, before, View()) && r == r0.(post := r.post)
      ensures r0.post != 0 ==> r.post == r0.post
      ensures r.post == 0 ==> HistoryChecked(run, View(), cut)
      ensures r.post == r0.post || r.post == EXIT_POSTCONDITION
      ensures Undisturbed() ==> (Staging in names <==> Staging in old(names))
      ensures Faultless(fails) && HistoryPasses(run, before, cut) ==> r == r0
    {
      hide Sound, Kept, Standing, HistoryChecked, HistoryPasses, Watched;
      r := r0;
      ghost var d := View();
      var historical, recovery2, recovery3 := CheckEarlierStagings(run, before);
      StandingStays(r, before, d, View());
      if !historical || !recovery2 || !recovery3 {
        r := Posted(r, before, View(), EXIT_POSTCONDITION);
      }
    }

    /** The promoted release, looked up again by name. */
    method CheckTarget(run: Run, r: Report, ghost before: Disk) returns (valid: bool)
      requires Since(before) && Standing(r, before, View()) && r.promoted && r.known != 0
      requires r.known in trees && FullyUnpacked(run, trees[r.known])
      modifies this`names, this`next, this`clock, this`arrived
      ensures Since(before) && Standing(r, before, View())
      ensures valid ==>
                && Target in names && names[Target] == r.known && r.known in trees
                && Delivered(run, trees[r.known], r.known) && Staging !in names
      ensures Smooth() && Listable(cut, r.known) && Released(run, trees[r.known]) && Staging !in old(names) ==> valid
    {
      hide Released, LooksReleased, WellFormed, FilesAndFolders, Count, Listable;
      ghost var d := View();
      var handle := OpenDirectory(Target, before);
      StandingStays(r, before, d, View());
      if handle == None || handle.value != r.known {
        return false;
      }
      var exact := CheckRelease(run, r, before);
      if !exact {
        return false;
      }
      UnpackedIsReleased(run, trees[r.known]);
      var looked := Step(r, before);
      valid := looked && Staging !in names;
    }

    /** A run that failed before promotion: its staging directory is still there, sealed. */
    method CheckPreserved(r: Report, ghost before: Disk) returns (preserved: bool)
      requires Since(before) && Standing(r, before, View()) && r.made.Some? && !r.promoted
      modifies this`names, this`next, this`clock, this`arrived
      ensures Since(before) && Standing(r, before, View())
      ensures preserved ==>
                && Staging in names && names[Staging] == r.known && r.known in trees
                && trees[r.known].Dir? && ExactMeta(trees[r.known].meta, MODE_0555)
    {
      var statted := Step(r, before);
      preserved := r.handle.Some? && statted && Staging in names && names[Staging] == r.handle.value
                   && r.handle.value == r.known && ExactMeta(trees[r.handle.value].meta, MODE_0555);
    }

    method Finish(run: Run, r0: Report, ghost before: Disk) returns (r: Report)
      requires Since(before) && Standing(r0, before, View()) && r0.post == 0 && !r0.restored
      requires HistoryChecked(run, before, cut) && (r0.promoted ==> r0.known != 0)
      requires r0.primary == 0 ==> r0.promoted && r0.known in trees && FullyUnpacked(run, trees[r0.known])
      modifies this`mode, this`names, this`trees, this`next, this`clock, this`arrived, this`log
      ensures Since(before) && Standing(r, before, View())
      ensures r == r0.(post := r.post, handle := r.handle, restored := r.restored)
      ensures r.post == 0 || r.post == EXIT_ROOT_RESTORE || r.post == EXIT_POSTCONDITION
      ensures log == old(log) + if r.window then [RestoreTried(r.restored)] else []
      ensures mode == if r.restored then MODE_0555 else old(mode)
      ensures r.window && !r.restored ==> r.post != 0 && (r.promoted || r.made == None ==> r.post == 74)
      ensures r.made == None ==> trees == old(trees)
      ensures HistoryChecked(run, View(), cut) && (r.post == 0 ==> trusted && mode == MODE_0555)
      ensures r.post == 0 && r.primary == 0 ==>
                && Target in names && names[Target] == r.known && r.known in trees
                && Delivered(run, trees[r.known], r.known) && Staging !in names
      ensures r.post == 0 && r.made.Some? && !r.promoted ==>
                && Staging in names && names[Staging] == r.known && r.known in trees
                && trees[r.known].Dir? && ExactMeta(trees[r.known].meta, MODE_0555)
      ensures (Smooth() && trusted && r0.primary == 0 && r0.window && Staging !in old(names)
               && HistoryPasses(run, before, cut) && Listable(cut, r0.known)
               && Released(run, old(trees)[r0.known])) ==> r.post == 0
    {
      hide Sound, Kept, Standing, HistoryChecked, HistoryPasses, Released, Delivered, FullyUnpacked, Listable;
      hide Watched, ExactMeta;
      r := SealStaging(r0, before);
      r := Restore(r, before);
      r := CheckRoot(r, before);
      r := CheckHistories(run, r, before);
      if r.primary == 0 && r.promoted {
        var valid := CheckTarget(run, r, before);
        if !valid {
          r := Posted(r, before, View(), EXIT_POSTCONDITION);
        }
      } else if r.made.Some? && !r.promoted {
        var preserved := CheckPreserved(r, before);
        if !preserved {
          r := Posted(r, before, View(), EXIT_POSTCONDITION);
        }
      }
      HistoryStays(run, before, View(), cut);
    }

    /**
     One run. Whatever calls fail and whatever names appear meanwhile: a window that
     was opened is followed by an attempt to restore the root; nothing that was there
     is rebound, removed or altered; the directory this run made is under staging or
     target; and exit 0 means the target name is bound to it, the staging name is free,
     the root is sealed, and the checks of the release and of the earlier stagings
     passed. What was made then is the exact sealed release if and only if the expected
     counts are the true ones; the earlier stagings are as recorded if they can be read.
     */
    method Materialize(run: Run) returns (exit: nat, r: Report)
      requires Valid() && Consistent(run)
      modifies this
      ensures Valid() && Kept(old(View()), View())
      ensures log == old(log) + Trace(r)
      ensures exit == 0 || EXIT_USAGE <= exit <= EXIT_POSTCONDITION
      ensures r.window && r.primary != 0 ==> exit == r.primary
      ensures r.window && r.primary == 0 ==> exit == r.post
      ensures !r.window ==> exit != 0 && mode == old(mode) && trees == old(trees)
      ensures r.window ==> mode == if r.restored then 365 else 493
      ensures r.window && !r.restored ==> exit != 0 && r.post != 0 && (r.promoted || r.made == None ==> r.post == 74)
      ensures r.window ==> r.post in {0, 74, 75} && r.primary in {0, 71, 72, 73}
      ensures exit == 0 ==>
                && r.promoted && r.known !in old(trees) && mode == MODE_0555 && HistoryChecked(run, View(), cut)
                && Target in names && names[Target] == r.known && r.known in trees
                && Delivered(run, trees[r.known], r.known) && Staging !in names
      ensures r.made.Some? ==>
                var home := if r.promoted then Target else Staging;
                home !in old(names) && home in names && names[home] == r.made.value && r.made.value in trees
      ensures r.window && r.post == 0 && r.made.Some? && !r.promoted ==>
                && Staging in names && names[Staging] == r.known && r.known in trees
                && trees[r.known].Dir? && ExactMeta(trees[r.known].meta, MODE_0555)
      ensures forall n :: n in names && n !in old(names) && n !in arrived ==>
                r.made.Some? && names[n] == r.made.value && n == if r.promoted then Target else Staging
      ensures Smooth() && trusted && InOrder(run, old(View()), cut) ==> exit == 0
      ensures Smooth() && AllListable(cut) ==> exit == Answer(run, old(View()), trusted)
    {
      hide Sound, Standing, HistoryChecked, HistoryPasses, Released, LooksReleased, FullyUnpacked;
      hide Watched, ExactMeta, Kept, Listable, Unpacks, InOrder, AllListable, PreflightAnswer, CountsAgree, Consistent;
      ghost var d0 := View();
      WatchedItself(d0);
      r := UNTOUCHED;
      exit := Preflight(run, d0);
      ghost var d1 := View();
      if exit != 0 {
        NothingMade(d0, d1);
        return;
      }
      WatchedItself(d1);
      r := Stage(run, d1);
      CanFinish(run, r, d1, View(), cut);
      r := Finish(run, r, d1);
      exit := ExitCode(r);
      WholeRun(r, d0, d1, View());
    }
  }

  /** Only the earlier staging that should be empty cannot be read. */
  function HistoricalUnreadable(run: Run): Cuts {
    (inode: Inode, t: nat) => inode == run.historical
  }

  /**
   The run does not notice: with everything else in order, and that staging directory
   not empty but impossible to read, it finishes with exit 0.
   */
  method UnreadStagingPasses(run: Run, d: Disk) returns (root: ReleaseRoot, exit: nat)
    requires Sound(d) && Consistent(run) && InOrder(run, d, HistoricalUnreadable(run))
    requires d.trees[d.names[Historical]].entries != []
    ensures fresh(root) && exit == 0 && !InPlace(run, root.View(), Historical)
  {
    hide Sound, Consistent, InOrder, HistoryChecked, Kept, Steps, ExactMeta, InPlace, HistoricalUnreadable;
    var cut := HistoricalUnreadable(run);
    root := new ReleaseRoot(d, t => false, cut, t => {}, true);
    var report;
    exit, report := root.Materialize(run);
    NotEmptyStays(run, d, root.View(), cut);
  }

  lemma NotEmptyStays(run: Run, a: Disk, b: Disk, cut: Cuts)
    requires Kept(a, b) && InOrder(run, a, cut) && a.trees[a.names[Historical]].entries != []
    ensures !InPlace(run, b, Historical)
  {
    hide Unpacks, Listable, Unlistable;
  }

  lemma WatchedItself(d: Disk)
    ensures Watched(d, d) && Kept(d, d)
  {
  }

  lemma NothingMade(a: Disk, b: Disk)
    requires Watched(a, b)
    ensures Kept(a, b) && forall n :: n in b.names && n !in a.names ==> n in b.arrived
  {
  }

  /** The preflight and what follows it, seen as one run. */
  lemma WholeRun(r: Report, d0: Disk, d1: Disk, d2: Disk)
    requires Sound(d0) && Watched(d0, d1) && Standing(r, d1, d2)
    ensures Kept(d0, d2)
    ensures forall n :: n in d2.names && n !in d0.names && n !in d2.arrived ==>
              r.made.Some? && d2.names[n] == r.made.value && n == if r.promoted then Target else Staging
    ensures r.made.Some? ==>
              var home := if r.promoted then Target else Staging;
              && r.made.value !in d0.trees && r.made.value in d2.trees
              && home !in d0.names && home in d2.names && d2.names[home] == r.made.value
  {
  }

  /** Other processes cannot move what the run made. */
  lemma StandingStays(r: Report, before: Disk, a: Disk, b: Disk)
    requires Standing(r, before, a) && Watched(a, b) && Kept(before, b)
    ensures Standing(r, before, b)
  {
  }

  lemma WatchedTransitive(a: Disk, b: Disk, c: Disk)
    requires Watched(a, b) && Watched(b, c)
    ensures Watched(a, c)
  {
  }

  lemma NameStays(a: Disk, b: Disk, name: Name)
    requires Watched(a, b)
    ensures name in a.names && a.names[name] in a.trees ==>
              && name in b.names && b.names[name] == a.names[name] && b.names[name] in b.trees
              && b.trees[b.names[name]] == a.trees[a.names[name]]
  {
  }

  lemma PassesStays(run: Run, a: Disk, b: Disk, cut: Cuts, name: Name)
    requires (name.Historical? || name.Recovery2? || name.Recovery3?) && (Kept(a, b) || Watched(a, b))
    ensures Passes(run, a, cut, name) ==> Passes(run, b, cut, name)
  {
    hide ExactHistorical, LooksHistorical, Listable, Unlistable;
  }

  lemma CheckedStays(run: Run, a: Disk, b: Disk, cut: Cuts, name: Name)
    requires (name.Historical? || name.Recovery2? || name.Recovery3?) && (Kept(a, b) || Watched(a, b))
    ensures Checked(run, a, cut, name) ==> Checked(run, b, cut, name)
  {
    hide ExactHistorical, LooksHistorical, Listable;
  }

  lemma HistoryStays(run: Run, a: Disk, b: Disk, cut: Cuts)
    requires Kept(a, b) || Watched(a, b)
    ensures HistoryChecked(run, a, cut) ==> HistoryChecked(run, b, cut)
    ensures HistoryPasses(run, a, cut) ==> HistoryPasses(run, b, cut)
  {
    hide Kept, Watched, Passes, Checked;
    CheckedStays(run, a, b, cut, Historical);
    CheckedStays(run, a, b, cut, Recovery2);
    CheckedStays(run, a, b, cut, Recovery3);
    PassesStays(run, a, b, cut, Historical);
    PassesStays(run, a, b, cut, Recovery2);
    PassesStays(run, a, b, cut, Recovery3);
  }

  lemma OrderStays(run: Run, a: Disk, b: Disk, cut: Cuts)
    requires Watched(a, b)
    ensures InOrder(run, a, cut) && Target !in b.names && Staging !in b.names ==> InOrder(run, b, cut)
  {
    hide HistoryPasses, Unpacks, Listable;
    HistoryStays(run, a, b, cut);
  }

  /** A run that is in order can list the directory it makes. */
  lemma NewIsListable(run: Run, r: Report, before: Disk, d: Disk, cut: Cuts)
    requires Standing(r, before, d)
    ensures InOrder(run, before, cut) && r.made.Some? ==> Listable(cut, r.made.value)
  {
    hide HistoryPasses, Unpacks, Listable;
  }

  /** Other processes cannot bring an earlier staging about: what is in place now was in place before. */
  lemma WasInPlace(run: Run, a: Disk, b: Disk, name: Name)
    requires (name.Historical? || name.Recovery2? || name.Recovery3?) && Sound(a) && Watched(a, b)
    ensures InPlace(run, b, name) ==> InPlace(run, a, name)
  {
    hide ExactHistorical;
  }

  lemma HistoryWasThere(run: Run, a: Disk, b: Disk, cut: Cuts)
    requires Sound(a) && Watched(a, b)
    ensures AllListable(cut) && HistoryChecked(run, b, cut) ==> HistoryInPlace(run, a)
  {
    hide InPlace, Sound, Watched, Listable, LooksInPlace;
    WasInPlace(run, a, b, Historical);
    WasInPlace(run, a, b, Recovery2);
    WasInPlace(run, a, b, Recovery3);
    if AllListable(cut) && HistoryChecked(run, b, cut) {
      CheckedIsInPlace(run, b, cut, Historical);
      CheckedIsInPlace(run, b, cut, Recovery2);
      CheckedIsInPlace(run, b, cut, Recovery3);
    }
  }

  /** Before the way out: the earlier stagings will pass again, and the new directory can be listed. */
  lemma CanFinish(run: Run, r: Report, before: Disk, d: Disk, cut: Cuts)
    requires Sound(before) && Standing(r, before, d) && HistoryChecked(run, before, cut)
    ensures InOrder(run, before, cut) || AllListable(cut) ==>
              HistoryPasses(run, before, cut) && (r.made.Some? ==> Listable(cut, r.made.value))
  {
    hide HistoryPasses, HistoryChecked, HistoryInPlace, Unpacks, Listable, Standing, Sound, Watched, Kept;
    NewIsListable(run, r, before, d, cut);
    WatchedItself(before);
    HistoryWasThere(run, before, before, cut);
    AllPass(run, before, cut);
  }

  lemma CheckedIsInPlace(run: Run, d: Disk, cut: Cuts, name: Name)
    requires (name.Historical? || name.Recovery2? || name.Recovery3?) && AllListable(cut) && Checked(run, d, cut, name)
    ensures InPlace(run, d, name)
  {
    hide LooksHistorical, ExactHistorical, Listable;
    assert Listable(cut, d.names[name]);
  }

  lemma AllPass(run: Run, d: Disk, cut: Cuts)
    ensures AllListable(cut) && HistoryInPlace(run, d) ==> HistoryPasses(run, d, cut)
  {
    hide InPlace, Passes, Listable;
    if AllListable(cut) && HistoryInPlace(run, d) {
      InPlacePasses(run, d, cut, Historical);
      InPlacePasses(run, d, cut, Recovery2);
      InPlacePasses(run, d, cut, Recovery3);
    }
  }

  lemma InPlacePasses(run: Run, d: Disk, cut: Cuts, name: Name)
    requires (name.Historical? || name.Recovery2? || name.Recovery3?) && AllListable(cut) && InPlace(run, d, name)
    ensures Passes(run, d, cut, name)
  {
    hide Listable;
    assert Listable(cut, d.names[name]);
    ExactLooks(run, name, d.names[name], d.trees[d.names[name]]);
  }

  lemma ExactLooks(run: Run, name: Name, inode: Inode, tree: Tree)
    requires (name.Historical? || name.Recovery2? || name.Recovery3?) && ExactHistorical(run, name, inode, tree)
    ensures LooksHistorical(run, name, inode, tree)
  {
    hide Shortened, AllFit, Count, FirstVerified, ManifestVerified;
    if !name.Historical? {
      WholeIsShortened(tree.entries);
    }
  }
}
