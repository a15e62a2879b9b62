/**
 Checking a release against the manifest: every listed file verified, the whole
 tree walked, and the counts compared. Every system call may fail.
 */
module ReleaseCheck {
  import opened Bytes
  import opened Paths
  import opened Manifest
  import opened Extraction
  import opened ReleaseTree
  import opened ReleaseWalk

  function SealedMode(executable: bool): nat {
    if executable then MODE_0555 else MODE_0444
  }

  /** The file an entry lists is there, sealed, and has the listed contents. */
  predicate Verified(entries: seq<Named>, e: Entry, blobId: seq<byte> -> seq<byte>) {
    var found := Find(entries, Components(e.path));
    && found.Some? && found.value.Plain?
    && ExactMeta(found.value.meta, SealedMode(e.executable))
    && blobId(found.value.content) == e.oid
  }

  predicate AllVerified(entries: seq<Named>, listed: seq<Entry>, blobId: seq<byte> -> seq<byte>) {
    forall e :: e in listed ==> Verified(entries, e, blobId)
  }

  lemma {:induction false} FoundNamesAreShort(entries: seq<Named>, place: Place, n: nat)
    requires WellFormed(entries) && n < |place| && Find(entries, place).Some?
    ensures |place[n]| <= NAME_MAX
    decreases n
  {
    var node := Lookup(entries, place[0]).value;
    var i :| 0 <= i < |entries| && entries[i] == Named(place[0], node);
    if n > 0 {
      FoundNamesAreShort(node.entries, place[1..], n - 1);
    }
  }

  /** Follows `path` name by name from the release root, without creating anything. */
  method OpenExisting(entries: seq<Named>, path: seq<byte>, fails: Faults, now: nat)
    returns (found: Option<Tree>, time: nat)
    requires WellFormed(entries)
    ensures found.Some? ==> found == Find(entries, Components(path))
    ensures Faultless(fails) ==> found == Find(entries, Components(path))
  {
    hide Components, WellFormed;
    ghost var place := Components(path);
    var current, segment := entries, 0;
    ghost var n := 0;
    time := now;
    assert path[0..] == path && place[0..] == place;
    while true
      invariant 0 <= segment <= |path| && n < |place|
      invariant place[n..] == Components(path[segment..])
      invariant Find(current, place[n..]) == Find(entries, place)
      invariant WellFormed(current)
      decreases |path| - segment
    {
      var slash := FindSlash(path, segment);
      var part := path[segment..slash];
      SplitStep(path, segment, slash, place, n);
      assert place[n..][0] == part;
      if |part| > NAME_MAX {
        if Find(entries, place).Some? {
          FoundNamesAreShort(current, place[n..], 0);
        }
        return None, time;
      }
      var node := Lookup(current, part);
      if node == None || fails(time) {
        return None, time + 1;
      }
      if slash == |path| {
        assert place[n..] == [part];
        return node, time + 1;
      }
      assert place[n..][1..] == place[n + 1..];
      if !node.value.Dir? {
        return None, time + 1;
      }
      LookedUpIsWellFormed(current, part);
      current, segment, n, time := node.value.entries, slash + 1, n + 1, time + 1;
    }
  }

  lemma LookedUpIsWellFormed(entries: seq<Named>, name: seq<byte>)
    requires WellFormed(entries) && Lookup(entries, name).Some? && Lookup(entries, name).value.Dir?
    ensures WellFormed(Lookup(entries, name).value.entries)
  {
  }

  /** The manifest is exactly `count` entries and each of them is verified in the tree. */
  predicate ManifestVerified(entries: seq<Named>, manifest: seq<byte>, count: nat, blobId: seq<byte> -> seq<byte>) {
    var listed := Entries(manifest);
    listed.Some? && |listed.value| == count && AllVerified(entries, listed.value, blobId)
  }

  lemma FirstEntryStops(entries: seq<Named>, manifest: seq<byte>, count: nat, blobId: seq<byte> -> seq<byte>)
    requires FirstEntry(manifest) == None && 0 < count
    ensures !ManifestVerified(entries, manifest, count, blobId)
  {
  }

  lemma FirstEntryVerified(
    entries: seq<Named>, manifest: seq<byte>, e: Entry, count: nat, blobId: seq<byte> -> seq<byte>)
    requires FirstEntry(manifest) == Some(e) && 0 < count
    ensures ManifestVerified(entries, manifest, count, blobId)
            <==> (Verified(entries, e, blobId)
                  && ManifestVerified(entries, manifest[EntryLength(e)..], count - 1, blobId))
  {
  }

  lemma NothingLeft(entries: seq<Named>, manifest: seq<byte>, blobId: seq<byte> -> seq<byte>)
    ensures ManifestVerified(entries, manifest, 0, blobId) <==> manifest == []
  {
  }

  /** Reads `count` manifest entries, checks each against the tree, and expects the manifest to end there. */
  method VerifyFullManifestTree(
    entries: seq<Named>, manifest: seq<byte>, count: nat, blobId: seq<byte> -> seq<byte>, fails: Faults, now: nat)
    returns (ok: bool, time: nat)
    requires WellFormed(entries)
    ensures ok ==> ManifestVerified(entries, manifest, count, blobId)
    ensures Faultless(fails) ==> (ok <==> ManifestVerified(entries, manifest, count, blobId))
  {
    hide WellFormed, Find, FirstEntry, Entries, ManifestVerified, Components;
    time := now + 1;
    if fails(now) {
      return false, time;
    }
    var from, index := 0, 0;
    assert manifest[0..] == manifest;
    while index < count
      invariant 0 <= index <= count && from <= |manifest|
      invariant ManifestVerified(entries, manifest, count, blobId)
                <==> ManifestVerified(entries, manifest[from..], count - index, blobId)
    {
      ghost var rest := manifest[from..];
      var entry, next := ReadManifestEntry(manifest, from);
      if entry == None {
        FirstEntryStops(entries, rest, count - index, blobId);
        return false, time;
      }
      if fails(time) {
        return false, time;
      }
      var e := entry.value;
      assert rest[EntryLength(e)..] == manifest[next..];
      FirstEntryVerified(entries, rest, e, count - index, blobId);
      var found;
      found, time := OpenExisting(entries, e.path, fails, time + 1);
      if found == None || !found.value.Plain? || fails(time)
        || !ExactMeta(found.value.meta, SealedMode(e.executable)) || blobId(found.value.content) != e.oid
      {
        return false, time;
      }
      from, index, time := next, index + 1, time + 1;
    }
    NothingLeft(entries, manifest[from..], blobId);
    ok := !fails(time) && from == |manifest|;
  }

  // ----- Walking what was verified

  /** What was seen of the tree fits, and the counts of what was seen are the expected ones. */
  ghost predicate LooksRight(layout: Layout, entries: seq<Named>, expected: Tally) {
    exists seen :: Shortened(entries, seen) && AllFit(layout, seen) && Plus(Tally(0, 0), seen) == expected
  }

  predicate IsRight(layout: Layout, entries: seq<Named>, expected: Tally) {
    AllFit(layout, entries) && Plus(Tally(0, 0), entries) == expected
  }

  /** Whatever reads failed: a tree that looks right is right exactly when it has no links and its true counts agree. */
  lemma RightWhenCountsAgree(layout: Layout, entries: seq<Named>, expected: Tally)
    requires LooksRight(layout, entries, expected)
    ensures IsRight(layout, entries, expected)
            <==> FilesAndFolders(entries) && Plus(Tally(0, 0), entries) == expected
  {
    hide AllFit, Shortened, Count, FilesAndFolders;
    var seen :| Shortened(entries, seen) && AllFit(layout, seen) && Plus(Tally(0, 0), seen) == expected;
    if FilesAndFolders(entries) && Plus(Tally(0, 0), entries) == expected {
      NothingMissed(entries, seen);
    }
    if AllFit(layout, entries) {
      FittingAreKnown(layout, entries);
    }
  }

  lemma {:induction false} FittingAreKnown(layout: Layout, entries: seq<Named>)
    requires AllFit(layout, entries)
    ensures FilesAndFolders(entries)
    decreases entries
  {
    forall i | 0 <= i < |entries|
      ensures FileOrFolder(entries[i].node)
    {
      assert Fits(layout, entries[i].node);
      if entries[i].node.Dir? {
        FittingAreKnown(layout, entries[i].node.entries);
      }
    }
  }

  /** Walks the tree and compares the counts. */
  method CountsAsExpected(
    layout: Layout, entries: seq<Named>, expected: Tally, fails: Faults, cut: Faults, now: nat)
    returns (ok: bool, time: nat)
    ensures ok ==> LooksRight(layout, entries, expected)
    ensures ok && Faultless(cut) ==> IsRight(layout, entries, expected)
    ensures Faultless(fails) && Faultless(cut) ==> (ok <==> IsRight(layout, entries, expected))
  {
    hide AllFit, Shortened, Count;
    ghost var seen;
    var total;
    ok, seen, total, time := CountTree(layout, entries, Tally(0, 0), fails, cut, now);
    ok := ok && total == expected;
  }

  /** The release as a whole: its own mode, its manifest and its counts. */
  method ExactSealedFullReleaseTree(
    release: Tree, manifest: seq<byte>, expected: Tally, blobId: seq<byte> -> seq<byte>,
    fails: Faults, cut: Faults, now: nat)
    returns (ok: bool, time: nat)
    requires release.Dir? ==> WellFormed(release.entries)
    ensures ok ==> LooksExact(release, manifest, expected, blobId)
    ensures ok && Faultless(cut) ==> ExactRelease(release, manifest, expected, blobId)
    ensures Faultless(fails) && Faultless(cut) ==> (ok <==> ExactRelease(release, manifest, expected, blobId))
  {
    hide WellFormed, ManifestVerified, LooksRight, IsRight;
    time := now + 1;
    if !release.Dir? || fails(now) || !ExactMeta(release.meta, MODE_0555) {
      return false, time;
    }
    ok, time := VerifyFullManifestTree(release.entries, manifest, expected.files, blobId, fails, time);
    if ok {
      ok, time := CountsAsExpected(Sealed, release.entries, expected, fails, cut, time);
    }
  }

  predicate ExactRelease(release: Tree, manifest: seq<byte>, expected: Tally, blobId: seq<byte> -> seq<byte>) {
    && release.Dir? && ExactMeta(release.meta, MODE_0555)
    && ManifestVerified(release.entries, manifest, expected.files, blobId)
    && IsRight(Sealed, release.entries, expected)
  }

  /** What the whole check establishes when directory reads may fail: all of it, but only of what was seen. */
  ghost predicate LooksExact(release: Tree, manifest: seq<byte>, expected: Tally, blobId: seq<byte> -> seq<byte>) {
    && release.Dir? && ExactMeta(release.meta, MODE_0555)
    && ManifestVerified(release.entries, manifest, expected.files, blobId)
    && LooksRight(Sealed, release.entries, expected)
  }

  /** A release that passed is exact if and only if it has no links and its true counts are the expected ones. */
  lemma PassedIsExact(release: Tree, manifest: seq<byte>, expected: Tally, blobId: seq<byte> -> seq<byte>)
    requires LooksExact(release, manifest, expected, blobId)
    ensures ExactRelease(release, manifest, expected, blobId)
            <==> FilesAndFolders(release.entries) && Plus(Tally(0, 0), release.entries) == expected
  {
    hide ManifestVerified, LooksRight, IsRight, Count;
    RightWhenCountsAgree(Sealed, release.entries, expected);
  }

  // ----- Earlier staging directories

  /** `directory_empty`: one read decides, and a failing read counts as the end. */
  method DirectoryEmpty(entries: seq<Named>, fails: Faults, cut: Faults, now: nat) returns (empty: bool, time: nat)
    ensures empty <==> !fails(now) && (entries == [] || cut(now + 1))
  {
    if fails(now) {
      return false, now + 1;
    }
    return entries == [] || cut(now + 1), now + 2;
  }

  /** The first `count` manifest entries can be read and each is verified in the tree; more may follow. */
  predicate FirstVerified(entries: seq<Named>, manifest: seq<byte>, count: nat, blobId: seq<byte> -> seq<byte>) {
    count == 0
    || (var e := FirstEntry(manifest);
        && e.Some? && Verified(entries, e.value, blobId)
        && FirstVerified(entries, manifest[EntryLength(e.value)..], count - 1, blobId))
  }

  /** A staging directory whose sealing was interrupted, as it was recorded. */
  predicate ExactInterrupted(staging: Tree, manifest: seq<byte>, expected: Tally, blobId: seq<byte> -> seq<byte>) {
    && WorkDirectory(staging)
    && FirstVerified(staging.entries, manifest, expected.files, blobId)
    && IsRight(Interrupted, staging.entries, expected)
  }

  ghost predicate LooksInterrupted(
    staging: Tree, manifest: seq<byte>, expected: Tally, blobId: seq<byte> -> seq<byte>) {
    && WorkDirectory(staging)
    && FirstVerified(staging.entries, manifest, expected.files, blobId)
    && LooksRight(Interrupted, staging.entries, expected)
  }

  lemma FirstStep(entries: seq<Named>, manifest: seq<byte>, count: nat, blobId: seq<byte> -> seq<byte>)
    requires 0 < count
    ensures FirstVerified(entries, manifest, count, blobId)
            <==> (var e := FirstEntry(manifest);
                  && e.Some? && Verified(entries, e.value, blobId)
                  && FirstVerified(entries, manifest[EntryLength(e.value)..], count - 1, blobId))
  {
  }

  lemma NoneFirst(entries: seq<Named>, manifest: seq<byte>, blobId: seq<byte> -> seq<byte>)
    ensures FirstVerified(entries, manifest, 0, blobId)
  {
  }

  /** Reads `count` manifest entries and checks each against the tree; what follows in the manifest is not read. */
  method VerifyFirstEntries(
    entries: seq<Named>, manifest: seq<byte>, count: nat, blobId: seq<byte> -> seq<byte>, fails: Faults, now: nat)
    returns (ok: bool, time: nat)
    requires WellFormed(entries)
    ensures ok ==> FirstVerified(entries, manifest, count, blobId)
    ensures Faultless(fails) ==> (ok <==> FirstVerified(entries, manifest, count, blobId))
  {
    hide WellFormed, Find, FirstEntry, FirstVerified, Components;
    time := now + 1;
    if fails(now) {
      return false, time;
    }
    var from, index := 0, 0;
    assert manifest[0..] == manifest;
    while index < count
      invariant 0 <= index <= count && from <= |manifest|
      invariant FirstVerified(entries, manifest, count, blobId)
                <==> FirstVerified(entries, manifest[from..], count - index, blobId)
    {
      ghost var rest := manifest[from..];
      FirstStep(entries, rest, count - index, blobId);
      var entry, next := ReadManifestEntry(manifest, from);
      if entry == None || fails(time) {
        return false, time;
      }
      var e := entry.value;
      assert rest[EntryLength(e)..] == manifest[next..];
      var found;
      found, time := OpenExisting(entries, e.path, fails, time + 1);
      if found == None || !found.value.Plain? || fails(time)
        || !ExactMeta(found.value.meta, SealedMode(e.executable)) || blobId(found.value.content) != e.oid
      {
        return false, time;
      }
      from, index, time := next, index + 1, time + 1;
    }
    NoneFirst(entries, manifest[from..], blobId);
    ok := true;
  }

  method ExactFailedStaging(
    staging: Tree, manifest: seq<byte>, expected: Tally, blobId: seq<byte> -> seq<byte>,
    fails: Faults, cut: Faults, now: nat)
    returns (ok: bool, time: nat)
    requires staging.Dir? ==> WellFormed(staging.entries)
    ensures ok ==> LooksInterrupted(staging, manifest, expected, blobId)
    ensures ok && Faultless(cut) ==> ExactInterrupted(staging, manifest, expected, blobId)
    ensures Faultless(fails) && Faultless(cut) ==> (ok <==> ExactInterrupted(staging, manifest, expected, blobId))
  {
    hide WellFormed, FirstVerified, LooksRight, IsRight;
    time := now + 1;
    if fails(now) || !WorkDirectory(staging) {
      return false, time;
    }
    ok, time := VerifyFirstEntries(staging.entries, manifest, expected.files, blobId, fails, time);
    if ok {
      ok, time := CountsAsExpected(Interrupted, staging.entries, expected, fails, cut, time);
    }
  }

  // ----- The counting argument

  function ListedPlaces(listed: seq<Entry>): set<Place> {
    set e | e in listed :: Components(e.path)
  }

  /** The folders a listing needs: every proper, non-empty prefix of a listed place. */
  function Ancestors(listed: seq<Entry>): set<Place> {
    set e, i | e in listed && 0 < i < |Components(e.path)| :: Components(e.path)[..i]
  }

  predicate Distinct(listed: seq<Entry>) {
    forall i, j :: 0 <= i < j < |listed| ==> listed[i].path != listed[j].path
  }

  lemma {:induction false} DistinctPlaces(listed: seq<Entry>)
    requires Distinct(listed)
    ensures |ListedPlaces(listed)| == |listed|
  {
    if listed != [] {
      var tail := listed[1..];
      DistinctPlaces(tail);
      var first := Components(listed[0].path);
      forall e | e in tail
        ensures Components(e.path) != first
      {
        var i :| 0 <= i < |tail| && tail[i] == e;
        assert listed[i + 1] == e;
        if Components(e.path) == first {
          ComponentsAreInjective(e.path, listed[0].path);
        }
      }
      assert forall e :: e in listed <==> e == listed[0] || e in tail;
      assert ListedPlaces(listed) == ListedPlaces(tail) + {first};
    }
  }

  /** A folder leads to everything that is found. */
  lemma {:induction false} FoundHasFolders(entries: seq<Named>, place: Place, n: nat)
    requires 0 < n < |place| && Find(entries, place).Some?
    ensures Find(entries, place[..n]).Some? && Find(entries, place[..n]).value.Dir?
    decreases n
  {
    var node := Lookup(entries, place[0]).value;
    assert place[..n][0] == place[0];
    if n > 1 {
      FoundHasFolders(node.entries, place[1..], n - 1);
      assert place[..n][1..] == place[1..][..n - 1];
    }
  }

  lemma EqualWhenAsMany<T>(a: set<T>, b: set<T>)
    requires a <= b && |a| == |b|
    ensures a == b
  {
    assert b == a + (b - a);
    DisjointSizes(a, b - a);
  }

  lemma ListedAreThere(entries: seq<Named>, listed: seq<Entry>, blobId: seq<byte> -> seq<byte>)
    requires WellFormed(entries) && AllVerified(entries, listed, blobId)
    ensures ListedPlaces(listed) <= PlacesOf(entries, false)
    ensures Ancestors(listed) <= PlacesOf(entries, true)
  {
    hide WellFormed, Find, Components, PlacesOf;
    forall e | e in listed
      ensures Components(e.path) in PlacesOf(entries, false)
      ensures forall i :: 0 < i < |Components(e.path)| ==> Components(e.path)[..i] in PlacesOf(entries, true)
    {
      var place := Components(e.path);
      assert Verified(entries, e, blobId);
      PlacesAreFound(entries, false, place);
      forall i | 0 < i < |place|
        ensures place[..i] in PlacesOf(entries, true)
      {
        FoundHasFolders(entries, place, i);
        PlacesAreFound(entries, true, place[..i]);
      }
    }
  }

  /** The release holds the listed files and the folders they need, and nothing else. */
  predicate HoldsExactly(entries: seq<Named>, listed: seq<Entry>) {
    PlacesOf(entries, false) == ListedPlaces(listed) && PlacesOf(entries, true) == Ancestors(listed)
  }

  /**
   Checking each listed file and then only counting is as good as comparing the
   sets: for a listing of distinct paths, the counts agree exactly when the tree
   holds the listed files, the folders above them, and nothing else.
   */
  lemma CountingSuffices(entries: seq<Named>, listed: seq<Entry>, blobId: seq<byte> -> seq<byte>)
    requires WellFormed(entries) && Distinct(listed) && AllVerified(entries, listed, blobId)
    ensures Plus(Tally(0, 0), entries) == Tally(|listed|, |Ancestors(listed)|) <==> HoldsExactly(entries, listed)
  {
    hide WellFormed, AllVerified, PlacesOf, Count, ListedPlaces, Ancestors, Distinct;
    CountIsPlaces(entries, false);
    CountIsPlaces(entries, true);
    DistinctPlaces(listed);
    ListedAreThere(entries, listed, blobId);
    if Plus(Tally(0, 0), entries) == Tally(|listed|, |Ancestors(listed)|) {
      EqualWhenAsMany(ListedPlaces(listed), PlacesOf(entries, false));
      EqualWhenAsMany(Ancestors(listed), PlacesOf(entries, true));
    }
  }

  /** What the final check establishes, in terms of the manifest alone. */
  lemma ExactReleaseIsTheManifest(release: Tree, manifest: seq<byte>, expected: Tally, blobId: seq<byte> -> seq<byte>)
    requires release.Dir? && WellFormed(release.entries) && Entries(manifest).Some?
    requires var listed := Entries(manifest).value;
             Distinct(listed) && expected == Tally(|listed|, |Ancestors(listed)|)
    ensures var listed := Entries(manifest).value;
            ExactRelease(release, manifest, expected, blobId)
            <==> ExactMeta(release.meta, MODE_0555) && AllFit(Sealed, release.entries)
                 && AllVerified(release.entries, listed, blobId) && HoldsExactly(release.entries, listed)
  {
    hide WellFormed, AllVerified, HoldsExactly, Count, Distinct, AllFit, Ancestors;
    var listed := Entries(manifest).value;
    if AllVerified(release.entries, listed, blobId) {
      CountingSuffices(release.entries, listed, blobId);
    }
  }

  // ----- The same place by place, with modes as numbers

  /** What may stand at a place: a folder of mode 0555 (0755 while work goes on), or a file that nobody may write. */
  ghost predicate FitsAtPlace(finished: bool, node: Tree) {
    match node
    case Dir(meta, _) => meta.trusted && meta.mode == if finished then 365 else 493
    case Plain(meta, _) => meta.trusted && meta.mode in {292, 365} && (finished ==> meta.links == 1)
    case _ => false
  }

  ghost predicate EveryPlaceFits(finished: bool, entries: seq<Named>) {
    forall q :: Find(entries, q).Some? ==> FitsAtPlace(finished, Find(entries, q).value)
  }

  lemma FittingByPlace(layout: Layout, entries: seq<Named>)
    requires WellFormed(entries)
    ensures AllFit(layout, entries) <==> EveryPlaceFits(layout.Sealed?, entries)
  {
    hide WellFormed, AllFit, Find, FitsAtPlace;
    if AllFit(layout, entries) {
      forall q | Find(entries, q).Some?
        ensures FitsAtPlace(layout.Sealed?, Find(entries, q).value)
      {
        FittingAtPlace(layout, entries, q);
      }
    } else if EveryPlaceFits(layout.Sealed?, entries) {
      FittingPlacesFit(layout, entries);
    }
  }

  lemma {:induction false} FittingPlacesFit(layout: Layout, entries: seq<Named>)
    requires WellFormed(entries)
    requires EveryPlaceFits(layout.Sealed?, entries)
    ensures AllFit(layout, entries)
    decreases entries
  {
    forall i | 0 <= i < |entries|
      ensures Fits(layout, entries[i].node)
    {
      var Named(name, node) := entries[i];
      LookupIsUnique(entries, i);
      assert Find(entries, [name]) == Some(node);
      if node.Dir? {
        forall q | Find(node.entries, q).Some?
          ensures FitsAtPlace(layout.Sealed?, Find(node.entries, q).value)
        {
          assert Find(entries, [name] + q) == Find(node.entries, q) by {
            assert ([name] + q)[1..] == q;
          }
        }
        FittingPlacesFit(layout, node.entries);
      }
    }
  }

  lemma {:induction false} FittingAtPlace(layout: Layout, entries: seq<Named>, q: Place)
    requires AllFit(layout, entries) && Find(entries, q).Some?
    ensures FitsAtPlace(layout.Sealed?, Find(entries, q).value)
    decreases |q|
  {
    var node := Lookup(entries, q[0]).value;
    assert Fits(layout, node);
    if |q| > 1 {
      FittingAtPlace(layout, node.entries, q[1..]);
    }
  }

  /** The file an entry lists stands at its place with mode 0555 if it is executable and 0444 if it is not. */
  ghost predicate StandsAsListed(entries: seq<Named>, e: Entry, blobId: seq<byte> -> seq<byte>) {
    var found := Find(entries, Components(e.path));
    && found.Some? && found.value.Plain? && blobId(found.value.content) == e.oid
    && found.value.meta.trusted && found.value.meta.mode == if e.executable then 365 else 292
  }

  lemma VerifiedInNumbers(entries: seq<Named>, e: Entry, blobId: seq<byte> -> seq<byte>)
    ensures Verified(entries, e, blobId) <==> StandsAsListed(entries, e, blobId)
  {
    hide Find, Components;
    ModesAreReadOnly();
  }

  /** Exactness by places and numbers: the manifest's files, the modes, and the counts. */
  lemma ExactReleaseByPlace(release: Tree, manifest: seq<byte>, expected: Tally, blobId: seq<byte> -> seq<byte>)
    requires release.Dir? && WellFormed(release.entries)
    ensures ExactRelease(release, manifest, expected, blobId)
            <==> (&& release.meta.trusted && release.meta.mode == 365
                  && Entries(manifest).Some? && |Entries(manifest).value| == expected.files
                  && (forall e :: e in Entries(manifest).value ==> StandsAsListed(release.entries, e, blobId))
                  && EveryPlaceFits(true, release.entries)
                  && |PlacesOf(release.entries, false)| == expected.files
                  && |PlacesOf(release.entries, true)| == expected.directories)
  {
    hide Find, AllFit, Verified, StandsAsListed, EveryPlaceFits, WellFormed, PlacesOf, Count, Entries;
    ModesAreReadOnly();
    FittingByPlace(Sealed, release.entries);
    CountIsPlaces(release.entries, false);
    CountIsPlaces(release.entries, true);
    forall e
      ensures Verified(release.entries, e, blobId) <==> StandsAsListed(release.entries, e, blobId)
    {
      VerifiedInNumbers(release.entries, e, blobId);
    }
  }

  /** The same of the staging directory whose sealing was interrupted: the first entries, however many follow. */
  lemma {:induction false} FirstVerifiedInNumbers(
    entries: seq<Named>, manifest: seq<byte>, count: nat, blobId: seq<byte> -> seq<byte>)
    requires Entries(manifest).Some?
    ensures FirstVerified(entries, manifest, count, blobId)
            <==> (count <= |Entries(manifest).value|
                  && forall k :: 0 <= k < count ==> StandsAsListed(entries, Entries(manifest).value[k], blobId))
    decreases count
  {
    hide Find, Verified, StandsAsListed, FirstEntry;
    if count > 0 && FirstEntry(manifest).Some? {
      var e := FirstEntry(manifest).value;
      VerifiedInNumbers(entries, e, blobId);
      var rest := manifest[EntryLength(e)..];
      FirstVerifiedInNumbers(entries, rest, count - 1, blobId);
      var listed, others := Entries(manifest).value, Entries(rest).value;
      assert listed == [e] + others;
      if count <= |listed| && forall k :: 0 <= k < count ==> StandsAsListed(entries, listed[k], blobId) {
        assert listed[0] == e;
        assert forall k :: 0 <= k < count - 1 ==> others[k] == listed[k + 1];
      }
      if FirstVerified(entries, manifest, count, blobId) {
        assert forall k :: 0 < k < count ==> listed[k] == others[k - 1];
      }
    }
  }

  lemma InterruptedByPlace(staging: Tree, manifest: seq<byte>, expected: Tally, blobId: seq<byte> -> seq<byte>)
    requires staging.Dir? && WellFormed(staging.entries) && Entries(manifest).Some?
    ensures ExactInterrupted(staging, manifest, expected, blobId)
            <==> (&& staging.meta.trusted && staging.meta.mode == 448
                  && expected.files <= |Entries(manifest).value|
                  && (forall k :: 0 <= k < expected.files ==>
                        StandsAsListed(staging.entries, Entries(manifest).value[k], blobId))
                  && EveryPlaceFits(false, staging.entries)
                  && |PlacesOf(staging.entries, false)| == expected.files
                  && |PlacesOf(staging.entries, true)| == expected.directories)
  {
    hide Find, AllFit, FirstVerified, StandsAsListed, EveryPlaceFits, WellFormed, PlacesOf, Count, Entries;
    FittingByPlace(Interrupted, staging.entries);
    CountIsPlaces(staging.entries, false);
    CountIsPlaces(staging.entries, true);
    FirstVerifiedInNumbers(staging.entries, manifest, expected.files, blobId);
  }
}
