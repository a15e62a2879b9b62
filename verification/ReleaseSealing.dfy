/** From an accepted extraction to a sealed release that passes the final check. */
module ReleaseSealing {
  import opened Bytes
  import opened Paths
  import opened Manifest
  import opened Tar
  import opened Extraction
  import opened ExtractionSoundness
  import opened ReleaseTree
  import opened ReleaseWalk
  import opened ReleaseCheck

  /** A file as the extractor leaves it (one link, sealed mode), or any folder: folders are checked when sealing. */
  predicate AsExtracted(node: Tree, n: Node) {
    match n
    case Folder => node.Dir?
    case Regular(executable, content) => node == Plain(Meta(SealedMode(executable), 1, true), content)
  }

  /** The staging directory on disk holds `files` and nothing else. */
  ghost predicate Holds(entries: seq<Named>, files: Files) {
    forall q :: HeldAt(entries, files, q)
  }

  predicate HeldAt(entries: seq<Named>, files: Files, q: Place) {
    (q in files <==> Find(entries, q).Some?) && (q in files ==> AsExtracted(Find(entries, q).value, files[q]))
  }

  predicate Acceptable(node: Tree) {
    match node
    case Dir(meta, _) => meta.trusted
    case Plain(meta, _) => ExactFile(meta)
    case _ => false
  }

  lemma {:induction false} AcceptablePlacesSeal(entries: seq<Named>)
    requires WellFormed(entries)
    requires forall q :: Find(entries, q).Some? ==> Acceptable(Find(entries, q).value)
    ensures Sealable(entries)
    decreases entries
  {
    forall i | 0 <= i < |entries|
      ensures SealableNode(entries[i].node)
    {
      var Named(name, node) := entries[i];
      LookupIsUnique(entries, i);
      assert Find(entries, [name]) == Some(node);
      if node.Dir? {
        forall q | Find(node.entries, q).Some?
          ensures Acceptable(Find(node.entries, q).value)
        {
          assert Find(entries, [name] + q) == Find(node.entries, q) by {
            assert ([name] + q)[1..] == q;
          }
        }
        AcceptablePlacesSeal(node.entries);
      }
    }
  }

  lemma {:induction false} SealablePlaces(entries: seq<Named>, q: Place)
    requires Sealable(entries) && Find(entries, q).Some?
    ensures SealableNode(Find(entries, q).value)
    decreases |q|
  {
    var node := Lookup(entries, q[0]).value;
    assert SealableNode(node);
    if |q| > 1 {
      SealablePlaces(node.entries, q[1..]);
    }
  }

  /** A held tree can be sealed exactly when the extracted folders are the expected ones. */
  lemma HeldTreeSeals(entries: seq<Named>, files: Files)
    requires WellFormed(entries) && Holds(entries, files)
    ensures Sealable(entries) <==>
              forall q :: q in files && files[q].Folder? ==>
                Find(entries, q).Some? && Acceptable(Find(entries, q).value)
  {
    hide Find, WellFormed, Sealable;
    if Sealable(entries) {
      forall q | q in files && files[q].Folder?
        ensures Find(entries, q).Some? && Acceptable(Find(entries, q).value)
      {
        assert HeldAt(entries, files, q);
        SealablePlaces(entries, q);
      }
    } else if forall q :: q in files && files[q].Folder? ==>
                Find(entries, q).Some? && Acceptable(Find(entries, q).value) {
      forall q | Find(entries, q).Some?
        ensures Acceptable(Find(entries, q).value)
      {
        assert HeldAt(entries, files, q);
      }
      AcceptablePlacesSeal(entries);
      assert false;
    }
  }

  // ----- Every accepted archive has such a tree

  /** The folders above everything are there, and every name can be used. */
  ghost predicate Closed(files: Files) {
    forall q :: q in files ==>
      && q != [] && |q[|q| - 1]| <= NAME_MAX
      && forall i :: 0 < i < |q| ==> FolderAt(files, q[..i])
  }

  predicate FolderAt(files: Files, q: Place) {
    q in files && files[q].Folder?
  }

  lemma PuttingStaysClosed(files: Files, place: Place, node: Node)
    requires Closed(files) && place != [] && |place[|place| - 1]| <= NAME_MAX && place !in files
    requires forall i :: 0 < i < |place| ==> FolderAt(files, place[..i])
    ensures Closed(files[place := node])
  {
    var after := files[place := node];
    forall q, i | q in after && 0 < i < |q|
      ensures FolderAt(after, q[..i])
    {
      assert FolderAt(files, q[..i]);
    }
  }

  lemma {:induction false} ParentsStayClosed(files: Files, place: Place, n: nat)
    requires n <= |place| && Closed(files) && WithParents(files, place, n).Some?
    ensures var after := WithParents(files, place, n).value;
            && Closed(after)
            && (forall i :: 0 < i <= n ==> FolderAt(after, place[..i]))
            && RegularPlaces(after) == RegularPlaces(files)
  {
    hide Closed;
    if n > 0 {
      ParentsStayClosed(files, place, n - 1);
      var before, here := WithParents(files, place, n - 1).value, place[..n];
      assert forall i :: 0 < i < n ==> here[..i] == place[..i];
      if here !in before {
        PuttingStaysClosed(before, here, Folder);
        assert WithParents(files, place, n).value == before[here := Folder];
      }
    }
  }

  function RegularPlaces(files: Files): set<Place> {
    set q | q in files && files[q].Regular?
  }

  /** One more node is one more file, or none if it is a folder. */
  lemma PuttingCounts(files: Files, place: Place, node: Node)
    requires place !in files
    ensures |RegularPlaces(files[place := node])| == |RegularPlaces(files)| + if node.Regular? then 1 else 0
  {
    assert RegularPlaces(files[place := node]) == RegularPlaces(files) + if node.Regular? then {place} else {};
  }

  lemma PlacingStaysClosed(item: Item, entries: seq<Entry>, p: Progress, blobId: seq<byte> -> seq<byte>)
    requires (item.Directory? || item.File?) && Closed(p.files) && FirstNext(item, entries, p, blobId).Some?
    ensures var after := FirstNext(item, entries, p, blobId).value.files;
            Closed(after) && |RegularPlaces(after)| == |RegularPlaces(p.files)| + if item.File? then 1 else 0
  {
    hide Components, Closed, RegularPlaces, WithParents;
    var place := Components(EffectivePath(p, item.own).value);
    var parents := OpenParent(p.files, place).value;
    ParentsStayClosed(p.files, place, |place| - 1);
    if place !in parents {
      var node := if item.File? then Regular(item.executable, item.content) else Folder;
      PuttingStaysClosed(parents, place, node);
      PuttingCounts(parents, place, node);
    }
  }

  lemma {:induction false} ReplayStaysClosed(
    items: seq<Item>, entries: seq<Entry>, p: Progress, blobId: seq<byte> -> seq<byte>)
    requires Closed(p.files) && Replay(items, entries, p, blobId).Some?
    ensures var (end, left) := Replay(items, entries, p, blobId).value;
            && Closed(end.files) && |left| <= |entries|
            && |RegularPlaces(end.files)| == |RegularPlaces(p.files)| + |entries| - |left|
    decreases items
  {
    hide Closed, AfterFile, AfterDirectory;
    if items != [] {
      var item := items[0];
      var next := FirstNext(item, entries, p, blobId).value;
      if item.Directory? || item.File? {
        PlacingStaysClosed(item, entries, p, blobId);
      }
      ReplayStaysClosed(items[1..], if item.File? then entries[1..] else entries, next, blobId);
    }
  }

  /** Every accepted file has its own place: none is put over another. */
  lemma AcceptedFilesAreApart(archive: seq<byte>, manifest: seq<byte>, x: Expected, files: Files)
    requires Outcome(archive, manifest, START, 0, x) == Some(files)
    ensures Closed(files) && |RegularPlaces(files)| == x.files
  {
    ReplayStaysClosed(Items(archive, x.commit).value, Entries(manifest).value, START, x.blobId);
  }

  lemma HeldCounts(entries: seq<Named>, files: Files)
    requires WellFormed(entries) && Holds(entries, files)
    ensures Count(entries, false) == |RegularPlaces(files)|
  {
    hide Find, WellFormed, Count, PlacesOf;
    CountIsPlaces(entries, false);
    forall q
      ensures q in PlacesOf(entries, false) <==> q in RegularPlaces(files)
    {
      PlacesAreFound(entries, false, q);
      assert HeldAt(entries, files, q);
    }
    assert PlacesOf(entries, false) == RegularPlaces(files);
  }

  function PlacesBelow(files: Files, name: seq<byte>): (places: set<Place>)
    ensures forall r :: r in places <==> r != [] && [name] + r in files
  {
    assert forall q: Place :: |q| > 1 && q[0] == name ==> q == [name] + q[1..];
    assert forall r: Place :: ([name] + r)[1..] == r;
    set q | q in files && |q| > 1 && q[0] == name :: q[1..]
  }

  function Below(files: Files, name: seq<byte>): Files {
    map r | r in PlacesBelow(files, name) :: files[[name] + r]
  }

  function Beside(files: Files, name: seq<byte>): Files {
    map q | q in files && q != [] && q[0] != name :: files[q]
  }

  lemma BelowIsInside(files: Files, name: seq<byte>, r: Place)
    ensures r in Below(files, name) <==> r != [] && [name] + r in files
    ensures r in Below(files, name) ==> Below(files, name)[r] == files[[name] + r]
  {
  }

  lemma PartsStayClosed(files: Files, name: seq<byte>)
    requires Closed(files) && [name] in files
    ensures Closed(Below(files, name)) && Closed(Beside(files, name))
    ensures |Below(files, name)| < |files| && |Beside(files, name)| < |files|
  {
    var below, beside := Below(files, name), Beside(files, name);
    forall r, i | r in below && 0 < i < |r|
      ensures FolderAt(below, r[..i])
    {
      BelowIsInside(files, name, r);
      BelowIsInside(files, name, r[..i]);
      assert ([name] + r)[..i + 1] == [name] + r[..i];
    }
    forall r | r in below
      ensures r != [] && |r[|r| - 1]| <= NAME_MAX
    {
      BelowIsInside(files, name, r);
    }
    forall q, i | q in beside && 0 < i < |q|
      ensures FolderAt(beside, q[..i])
    {
      assert FolderAt(files, q[..i]);
    }
    PartsAreSmaller(files, name);
  }

  lemma PartsAreSmaller(files: Files, name: seq<byte>)
    requires [name] in files
    ensures |Below(files, name)| < |files| && |Beside(files, name)| < |files|
  {
    var below, beside := Below(files, name), Beside(files, name);
    UnderKeepsSize(name, below.Keys);
    forall q | q in Under(name, below.Keys)
      ensures q in files && q != [name]
    {
      UnderIsBelow(name, below.Keys, q);
      BelowIsInside(files, name, q[1..]);
      assert q == [name] + q[1..];
    }
    SmallerSet(Under(name, below.Keys), files.Keys, [name]);
    SmallerSet(beside.Keys, files.Keys, [name]);
  }

  lemma SmallerSet(part: set<Place>, whole: set<Place>, q: Place)
    requires part <= whole && q in whole && q !in part
    ensures |part| < |whole|
  {
    assert part <= whole - {q};
    SubsetSize(part, whole - {q});
  }

  lemma {:induction false} SubsetSize(a: set<Place>, b: set<Place>)
    requires a <= b
    ensures |a| <= |b|
  {
    if a != {} {
      var q :| q in a;
      SubsetSize(a - {q}, b - {q});
    }
  }

  const MADE: Meta := Meta(MODE_0700, 2, true)

  /** One entry in front of the others holds what is below it and what is beside it. */
  lemma JoinedHolds(files: Files, name: seq<byte>, node: Tree, beside: seq<Named>)
    requires Closed(files) && [name] in files && AsExtracted(node, files[[name]])
    requires node.Dir? ==> Holds(node.entries, Below(files, name))
    requires Holds(beside, Beside(files, name))
    ensures Holds([Named(name, node)] + beside, files)
  {
    hide WellFormed;
    var entries := [Named(name, node)] + beside;
    forall q
      ensures HeldAt(entries, files, q)
    {
      if q != [] && q[0] == name {
        assert Lookup(entries, name) == Some(node);
        if |q| == 1 {
          assert q == [name];
        } else {
          BelowIsInside(files, name, q[1..]);
          assert q == [name] + q[1..];
          assert q in files ==> FolderAt(files, q[..1]) && q[..1] == [name];
          if node.Dir? {
            assert HeldAt(node.entries, Below(files, name), q[1..]);
          }
        }
      } else if q != [] {
        assert Lookup(entries, q[0]) == Lookup(beside, q[0]) by {
          assert entries[1..] == beside;
        }
        assert HeldAt(beside, Beside(files, name), q);
      }
    }
  }

  lemma JoinedIsSound(name: seq<byte>, node: Tree, beside: seq<Named>)
    requires |name| <= NAME_MAX && WellFormed(beside) && Sealable(beside) && Find(beside, [name]) == None
    requires SealableNode(node) && (node.Dir? ==> WellFormed(node.entries))
    ensures WellFormed([Named(name, node)] + beside) && Sealable([Named(name, node)] + beside)
  {
    var entries := [Named(name, node)] + beside;
    assert forall i :: 0 < i < |entries| ==> entries[i] == beside[i - 1];
    assert Lookup(beside, name) == None;
  }

  /** Any closed set of files is held by some directory, which can be sealed. */
  lemma {:induction false} TreeExists(files: Files) returns (entries: seq<Named>)
    requires Closed(files)
    ensures WellFormed(entries) && Holds(entries, files) && Sealable(entries)
    decreases |files|
  {
    hide Closed, Find, Below, Beside, Holds, WellFormed, Sealable;
    if files == map[] {
      entries := [];
      NothingHoldsNothing();
    } else {
      var name := FirstName(files);
      PartsStayClosed(files, name);
      var beside := TreeExists(Beside(files, name));
      BesideHasNot(files, name, beside);
      var node;
      match files[[name]] {
        case Folder =>
          var below := TreeExists(Below(files, name));
          node := Dir(MADE, below);
        case Regular(executable, content) =>
          ModesAreReadOnly();
          node := Plain(Meta(SealedMode(executable), 1, true), content);
      }
      entries := [Named(name, node)] + beside;
      JoinedHolds(files, name, node, beside);
      JoinedIsSound(name, node, beside);
    }
  }

  lemma NothingHoldsNothing()
    ensures WellFormed([]) && Holds([], map[]) && Sealable([])
  {
  }

  lemma FirstName(files: Files) returns (name: seq<byte>)
    requires Closed(files) && files != map[]
    ensures [name] in files && |name| <= NAME_MAX
  {
    var q :| q in files;
    name := q[0];
    assert q[..1] == [name];
    if |q| > 1 {
      assert FolderAt(files, q[..1]);
    } else {
      assert q == [name];
    }
  }

  lemma BesideHasNot(files: Files, name: seq<byte>, beside: seq<Named>)
    requires Holds(beside, Beside(files, name))
    ensures Find(beside, [name]) == None
  {
    assert HeldAt(beside, Beside(files, name), [name]);
  }

  /** For every accepted archive there is a staging directory that holds it, can be sealed, and counts as unpacked. */
  lemma AcceptedOutcomeHasATree(archive: seq<byte>, manifest: seq<byte>, x: Expected, files: Files)
    returns (staged: Tree)
    requires Outcome(archive, manifest, START, 0, x) == Some(files)
    ensures staged.Dir? && WellFormed(staged.entries) && Holds(staged.entries, files)
    ensures Unpacks(archive, manifest, x, Plus(Tally(0, 0), staged.entries), staged)
  {
    hide Outcome, Closed, WellFormed, Holds, Sealable, Plus;
    AcceptedFilesAreApart(archive, manifest, x, files);
    var entries := TreeExists(files);
    staged := Dir(MADE, entries);
  }

  // ----- The whole-release check accepts what was extracted and sealed

  lemma {:induction false} RegularIsPlaced(placed: seq<Placed>, k: nat)
    requires k < |RegularOnly(placed)|
    ensures RegularOnly(placed)[k] in placed
  {
    if placed[0].node.Regular? {
      if k > 0 {
        RegularIsPlaced(placed[1..], k - 1);
      }
    } else {
      RegularIsPlaced(placed[1..], k);
    }
  }

  lemma ListedIsVerified(entries: seq<Named>, files: Files, m: Placed, e: Entry, blobId: seq<byte> -> seq<byte>)
    requires Holds(entries, files) && Stored(m, files) && Listed(m, e, blobId)
    ensures Verified(SealedEntries(entries), e, blobId)
  {
    hide Find, Components;
    var place := Components(e.path);
    ModesAreReadOnly();
    assert files[place] == m.node && HeldAt(entries, files, place);
    SealingKeepsPlaces(entries, place);
  }

  /**
   Once what the extractor accepted has been sealed, and its root too, the
   whole-release check after promotion passes, with the counts sealing found.
   */
  lemma AcceptedExtractionPasses(archive: seq<byte>, manifest: seq<byte>, x: Expected, files: Files, staged: Tree)
    requires Outcome(archive, manifest, START, 0, x) == Some(files)
    requires staged.Dir? && staged.meta.trusted && WellFormed(staged.entries) && Holds(staged.entries, files)
    requires Sealable(staged.entries)
    ensures ExactRelease(SealedNode(staged), manifest, Plus(Tally(0, 0), staged.entries), x.blobId)
  {
    hide Outcome, Builds, WellFormed, Sealable, Holds, AllFit, Count, Listed, Verified, Stored;
    var items, entries := ExtractionIsSound(archive, manifest, x, files);
    AcceptedFilesAreApart(archive, manifest, x, files);
    HeldCounts(staged.entries, files);
    SealedTreeCountsTheSame(staged.entries, Tally(0, 0));
    ModesAreReadOnly();
    var placed := PlacedOf(items, None);
    var regular := RegularOnly(placed);
    forall e | e in entries
      ensures Verified(SealedEntries(staged.entries), e, x.blobId)
    {
      var k :| 0 <= k < |entries| && entries[k] == e;
      RegularIsPlaced(placed, k);
      EverythingIsStored(files, placed, regular[k]);
      ListedIsVerified(staged.entries, files, regular[k], e, x.blobId);
    }
  }

  lemma EverythingIsStored(files: Files, placed: seq<Placed>, m: Placed)
    requires Builds(map[], files, placed) && m in placed
    ensures Stored(m, files)
  {
    hide Stored, Accounted;
  }

  /** What the sealed staging directory must look like afterwards for extraction to count as done. */
  ghost predicate Unpacks(archive: seq<byte>, manifest: seq<byte>, x: Expected, expected: Tally, staged: Tree)
    requires staged.Dir?
  {
    && Outcome(archive, manifest, START, 0, x).Some?
    && Sealable(staged.entries)
    && Plus(Tally(0, 0), staged.entries) == expected
    && WorkDirectory(staged)
  }

  lemma {:induction false} PlacesAreKnown(entries: seq<Named>)
    requires WellFormed(entries)
    requires forall q :: Find(entries, q).Some? ==> Find(entries, q).value.Dir? || Find(entries, q).value.Plain?
    ensures FilesAndFolders(entries)
    decreases entries
  {
    forall i | 0 <= i < |entries|
      ensures FileOrFolder(entries[i].node)
    {
      var Named(name, node) := entries[i];
      LookupIsUnique(entries, i);
      assert Find(entries, [name]) == Some(node);
      if node.Dir? {
        forall q | Find(node.entries, q).Some?
          ensures Find(node.entries, q).value.Dir? || Find(node.entries, q).value.Plain?
        {
          assert Find(entries, [name] + q) == Find(node.entries, q) by {
            assert ([name] + q)[1..] == q;
          }
        }
        PlacesAreKnown(node.entries);
      }
    }
  }

  /** The extractor makes files and folders only. */
  lemma HeldIsKnown(entries: seq<Named>, files: Files)
    requires WellFormed(entries) && Holds(entries, files)
    ensures FilesAndFolders(entries)
  {
    hide Find, WellFormed, FilesAndFolders;
    forall q | Find(entries, q).Some?
      ensures Find(entries, q).value.Dir? || Find(entries, q).value.Plain?
    {
      assert HeldAt(entries, files, q);
    }
    PlacesAreKnown(entries);
  }

  /** Of an accepted extraction the number of files is right; only the number of folders can be another one. */
  lemma OnlyFoldersCanDiffer(
    archive: seq<byte>, manifest: seq<byte>, x: Expected, expected: Tally, files: Files, entries: seq<Named>)
    requires Outcome(archive, manifest, START, 0, x) == Some(files) && expected.files == x.files
    requires WellFormed(entries) && Holds(entries, files)
    ensures Plus(Tally(0, 0), entries) == expected <==> |PlacesOf(entries, true)| == expected.directories
  {
    hide Outcome, Closed, WellFormed, Holds, Count, PlacesOf;
    AcceptedFilesAreApart(archive, manifest, x, files);
    HeldCounts(entries, files);
    CountIsPlaces(entries, true);
  }

  /** Everything was extracted and is there, whether or not sealing saw all of it. */
  ghost predicate Extracted(archive: seq<byte>, manifest: seq<byte>, x: Expected, staged: Tree)
    requires staged.Dir?
  {
    Outcome(archive, manifest, START, 0, x).Some? && WorkDirectory(staged) && FilesAndFolders(staged.entries)
  }

  /** What was unpacked and nothing else: files with one link, mode 0555 if executable and 0444 if not, folders 0555. */
  ghost predicate LeftBehind(entries: seq<Named>, files: Files) {
    forall q :: LeftAt(entries, files, q)
  }

  predicate LeftAt(entries: seq<Named>, files: Files, q: Place) {
    var found := Find(entries, q);
    if q !in files then found == None
    else
      match files[q]
      case Folder => found.Some? && found.value.Dir? && found.value.meta.trusted && found.value.meta.mode == 365
      case Regular(executable, content) =>
        found == Some(Plain(Meta(if executable then 365 else 292, 1, true), content))
  }

  lemma SealedIsLeftBehind(entries: seq<Named>, files: Files)
    requires Holds(entries, files) && Sealable(entries)
    ensures LeftBehind(SealedEntries(entries), files)
  {
    hide Find, Sealable;
    forall q
      ensures LeftAt(SealedEntries(entries), files, q)
    {
      assert HeldAt(entries, files, q);
      SealingKeepsPlaces(entries, q);
      if q in files {
        SealablePlaces(entries, q);
      }
    }
  }

  /**
   Extracts, seals and counts. `staged` is the staging directory as the creating
   calls leave it on disk; only folder modes below it change after that. Where a
   directory read fails, sealing misses what it was not shown; success is still
   the whole result exactly when the true counts are the expected ones.
   */
  method ExtractAndVerify(
    archive: seq<byte>, manifest: seq<byte>, x: Expected, expected: Tally, staged: Tree,
    fails: Faults, cut: Faults, now: nat)
    returns (ok: bool, sealed: Tree, time: nat)
    requires NUL !in x.commit
    requires staged.Dir? && WellFormed(staged.entries)
    requires var files := Outcome(archive, manifest, START, 0, x); files.Some? ==> Holds(staged.entries, files.value)
    ensures sealed.Dir? && sealed.meta == staged.meta && OnlySealed(staged.entries, sealed.entries)
    ensures ok ==>
              && Extracted(archive, manifest, x, staged)
              && (Unpacks(archive, manifest, x, expected, staged) <==> Plus(Tally(0, 0), staged.entries) == expected)
    ensures ok && Unpacks(archive, manifest, x, expected, staged) ==>
              ExactRelease(Dir(staged.meta.(mode := MODE_0555), sealed.entries), manifest, expected, x.blobId)
    ensures ok && Unpacks(archive, manifest, x, expected, staged) ==>
              LeftBehind(sealed.entries, Outcome(archive, manifest, START, 0, x).value)
    ensures ok && Faultless(cut) ==> Unpacks(archive, manifest, x, expected, staged)
    ensures Faultless(fails) && Faultless(cut) ==> (ok <==> Unpacks(archive, manifest, x, expected, staged))
  {
    hide Outcome, WellFormed, Holds, Sealable, ExactRelease, OnlySealed, Count, Shortened, Partly, FilesAndFolders;
    hide LeftBehind;
    UntouchedIsOnlySealed(staged.entries);
    sealed := staged;
    var extracted;
    extracted, time := ExtractArchive(archive, manifest, x, fails, now);
    if extracted == None {
      return false, sealed, time;
    }
    HeldIsKnown(staged.entries, extracted.value);
    ghost var seen;
    var entries, total;
    ok, seen, entries, total, time := SealAndCount(staged.entries, Tally(0, 0), fails, cut, time);
    sealed := Dir(staged.meta, entries);
    ok := ok && total == expected && !fails(time) && !fails(time + 1) && WorkDirectory(sealed);
    time := time + 2;
    if ok && Plus(Tally(0, 0), staged.entries) == expected {
      NothingMissed(staged.entries, seen);
      PartlyOfAll(staged.entries);
      AcceptedExtractionPasses(archive, manifest, x, extracted.value, staged);
      SealedIsLeftBehind(staged.entries, extracted.value);
    }
  }

  lemma {:induction false} OnlySealedIsWellFormed(before: seq<Named>, after: seq<Named>)
    requires WellFormed(before) && OnlySealed(before, after)
    ensures WellFormed(after)
    decreases before
  {
    forall i | 0 <= i < |after| && after[i].node.Dir?
      ensures WellFormed(after[i].node.entries)
    {
      OnlySealedIsWellFormed(before[i].node.entries, after[i].node.entries);
    }
  }

  /** Sealing changes neither what kind of entries there are nor how many. */
  lemma {:induction false} OnlySealedCountsTheSame(before: seq<Named>, after: seq<Named>, folders: bool)
    requires OnlySealed(before, after)
    ensures Count(after, folders) == Count(before, folders)
    decreases before
  {
    if before != [] {
      OnlySealedCountsTheSame(before[1..], after[1..], folders);
      if before[0].node.Dir? {
        OnlySealedCountsTheSame(before[0].node.entries, after[0].node.entries, folders);
      }
    }
  }

  lemma {:induction false} OnlySealedIsKnown(before: seq<Named>, after: seq<Named>)
    requires OnlySealed(before, after) && FilesAndFolders(before)
    ensures FilesAndFolders(after)
    decreases before
  {
    forall i | 0 <= i < |after|
      ensures FileOrFolder(after[i].node)
    {
      assert FileOrFolder(before[i].node);
      if before[i].node.Dir? {
        OnlySealedIsKnown(before[i].node.entries, after[i].node.entries);
      }
    }
  }
}
