/**
 Walking a release tree: sealing it, and counting it. Every system call may fail.
 A call on an entry that fails is noticed; a directory read that fails is not: it
 looks like the end of the directory, and the walk goes on with what it was given.
 */
module ReleaseWalk {
  import opened Bytes
  import opened Extraction
  import opened ReleaseTree

  const MODE_0444: nat := 292
  const MODE_0555: nat := 365
  const MODE_0700: nat := 448
  const MODE_0755: nat := 493
  const PERMISSION_BITS: nat := 512

  // ----- What a walk expects

  /** `exact_release_entry`: the expected owner and attributes, exactly this mode, and no write bit. */
  predicate ExactMeta(meta: Meta, mode: nat) {
    meta.trusted && meta.mode == mode && !HasWriteBit(mode)
  }

  predicate ReadOnlyMode(mode: nat) {
    mode == MODE_0444 || mode == MODE_0555
  }

  predicate ExactFile(meta: Meta) {
    meta.links == 1 && ReadOnlyMode(meta.mode) && meta.trusted
  }

  /** A private directory somebody is still working in. */
  predicate WorkDirectory(staged: Tree) {
    staged.Dir? && staged.meta.trusted && staged.meta.mode == MODE_0700
  }

  /** Everything below can be sealed: trusted folders of any mode, read-only files with one link, nothing else. */
  predicate Sealable(entries: seq<Named>)
    decreases entries
  {
    forall i :: 0 <= i < |entries| ==> SealableNode(entries[i].node)
  }

  predicate SealableNode(node: Tree)
    decreases node
  {
    match node
    case Dir(meta, sub) => meta.trusted && Sealable(sub)
    case Plain(meta, _) => ExactFile(meta)
    case _ => false
  }

  /** How a release looks that is finished, and one whose sealing was interrupted. */
  datatype Layout = Sealed | Interrupted

  predicate FolderFits(layout: Layout, meta: Meta) {
    meta.trusted && meta.mode == if layout.Sealed? then MODE_0555 else MODE_0755
  }

  predicate FileFits(layout: Layout, meta: Meta) {
    ReadOnlyMode(meta.mode) && meta.trusted && (layout.Sealed? ==> meta.links == 1)
  }

  /** Everything below is a file or a folder that fits the layout. */
  predicate AllFit(layout: Layout, entries: seq<Named>)
    decreases entries
  {
    forall i :: 0 <= i < |entries| ==> Fits(layout, entries[i].node)
  }

  predicate Fits(layout: Layout, node: Tree)
    decreases node
  {
    match node
    case Dir(meta, sub) => FolderFits(layout, meta) && AllFit(layout, sub)
    case Plain(meta, _) => FileFits(layout, meta)
    case _ => false
  }

  /** Nothing below is a link or a special file. */
  predicate FilesAndFolders(entries: seq<Named>)
    decreases entries
  {
    forall i :: 0 <= i < |entries| ==> FileOrFolder(entries[i].node)
  }

  predicate FileOrFolder(node: Tree)
    decreases node
  {
    node.Plain? || (node.Dir? && FilesAndFolders(node.entries))
  }

  lemma ModesAreReadOnly()
    ensures !HasWriteBit(MODE_0444) && !HasWriteBit(MODE_0555)
    ensures MODE_0444 < PERMISSION_BITS && MODE_0555 < PERMISSION_BITS
  {
  }

  // ----- Listings that end early

  /** `seen` lists `entries` from the start but may end early, in this folder or in any below. */
  ghost predicate Shortened(entries: seq<Named>, seen: seq<Named>)
    decreases entries
  {
    |seen| <= |entries| && forall i :: 0 <= i < |seen| ==> ShortenedNode(entries[i], seen[i])
  }

  ghost predicate ShortenedNode(entry: Named, seen: Named)
    decreases entry
  {
    && seen.name == entry.name
    && if entry.node.Dir? then
         seen.node.Dir? && seen.node.meta == entry.node.meta && Shortened(entry.node.entries, seen.node.entries)
       else seen.node == entry.node
  }

  lemma {:induction false} WholeIsShortened(entries: seq<Named>)
    ensures Shortened(entries, entries)
    decreases entries
  {
    forall i | 0 <= i < |entries|
      ensures ShortenedNode(entries[i], entries[i])
    {
      if entries[i].node.Dir? {
        WholeIsShortened(entries[i].node.entries);
      }
    }
  }

  /** A listing that ends early hides what is wrong, and makes nothing wrong that is right. */
  lemma {:induction false} ShortenedFits(layout: Layout, entries: seq<Named>, seen: seq<Named>)
    requires Shortened(entries, seen) && AllFit(layout, entries)
    ensures AllFit(layout, seen)
    decreases entries
  {
    forall i | 0 <= i < |seen|
      ensures Fits(layout, seen[i].node)
    {
      assert ShortenedNode(entries[i], seen[i]) && Fits(layout, entries[i].node);
      if entries[i].node.Dir? {
        ShortenedFits(layout, entries[i].node.entries, seen[i].node.entries);
      }
    }
  }

  lemma {:induction false} ShortenedSeals(entries: seq<Named>, seen: seq<Named>)
    requires Shortened(entries, seen) && Sealable(entries)
    ensures Sealable(seen)
    decreases entries
  {
    forall i | 0 <= i < |seen|
      ensures SealableNode(seen[i].node)
    {
      assert ShortenedNode(entries[i], seen[i]) && SealableNode(entries[i].node);
      if entries[i].node.Dir? {
        ShortenedSeals(entries[i].node.entries, seen[i].node.entries);
      }
    }
  }

  /** What is below the first entry, if it is a folder. */
  function FirstBelow(entries: seq<Named>): seq<Named>
    requires entries != []
  {
    if entries[0].node.Dir? then entries[0].node.entries else []
  }

  lemma ShortenedParts(entries: seq<Named>, seen: seq<Named>)
    requires Shortened(entries, seen) && seen != []
    ensures Shortened(FirstBelow(entries), FirstBelow(seen)) && Shortened(entries[1..], seen[1..])
    ensures entries[0].node.Dir? <==> seen[0].node.Dir?
    ensures entries[0].node.Plain? <==> seen[0].node.Plain?
  {
    assert ShortenedNode(entries[0], seen[0]);
    forall i | 0 <= i < |seen[1..]|
      ensures ShortenedNode(entries[1..][i], seen[1..][i])
    {
      assert ShortenedNode(entries[i + 1], seen[i + 1]);
    }
  }

  lemma CountStep(entries: seq<Named>, folders: bool)
    requires entries != []
    ensures Count(entries, folders)
            == (if OfKind(entries[0].node, folders) then 1 else 0)
               + Count(FirstBelow(entries), folders) + Count(entries[1..], folders)
  {
  }

  lemma {:induction false} ShortenedCountsLess(entries: seq<Named>, seen: seq<Named>, folders: bool)
    requires Shortened(entries, seen)
    ensures Count(seen, folders) <= Count(entries, folders)
    decreases entries
  {
    hide Count;
    if seen == [] {
      NoneCounted(folders);
    } else {
      ShortenedParts(entries, seen);
      CountStep(entries, folders);
      CountStep(seen, folders);
      if entries[0].node.Dir? {
        ShortenedCountsLess(entries[0].node.entries, seen[0].node.entries, folders);
      }
      ShortenedCountsLess(entries[1..], seen[1..], folders);
    }
  }

  lemma NoneCounted(folders: bool)
    ensures Count([], folders) == 0
  {
  }

  /** With files and folders only, both counts come out right only if nothing was missed. */
  lemma {:induction false} NothingMissed(entries: seq<Named>, seen: seq<Named>)
    requires Shortened(entries, seen) && FilesAndFolders(entries)
    requires Count(seen, false) == Count(entries, false) && Count(seen, true) == Count(entries, true)
    ensures seen == entries
    decreases entries
  {
    hide Count;
    if entries != [] {
      CountStep(entries, false);
      CountStep(entries, true);
      assert FileOrFolder(entries[0].node);
      if seen == [] {
        NoneCounted(false);
        NoneCounted(true);
        assert false;
      }
      CountStep(seen, false);
      CountStep(seen, true);
      ShortenedParts(entries, seen);
      PartsCountLess(entries, seen);
      assert FilesAndFolders(FirstBelow(entries)) && FilesAndFolders(entries[1..]);
      if entries[0].node.Dir? {
        NothingMissed(entries[0].node.entries, seen[0].node.entries);
      }
      NothingMissed(entries[1..], seen[1..]);
      assert ShortenedNode(entries[0], seen[0]);
      assert entries == [entries[0]] + entries[1..] && seen == [seen[0]] + seen[1..];
    }
  }

  lemma PartsCountLess(entries: seq<Named>, seen: seq<Named>)
    requires entries != [] && seen != []
    requires Shortened(FirstBelow(entries), FirstBelow(seen)) && Shortened(entries[1..], seen[1..])
    ensures forall folders :: Count(FirstBelow(seen), folders) <= Count(FirstBelow(entries), folders)
    ensures forall folders :: Count(seen[1..], folders) <= Count(entries[1..], folders)
  {
    hide Count, Shortened;
    forall folders
      ensures Count(FirstBelow(seen), folders) <= Count(FirstBelow(entries), folders)
      ensures Count(seen[1..], folders) <= Count(entries[1..], folders)
    {
      ShortenedCountsLess(FirstBelow(entries), FirstBelow(seen), folders);
      ShortenedCountsLess(entries[1..], seen[1..], folders);
    }
  }

  // ----- Counting

  /** The counters of a walk. */
  datatype Tally = Tally(files: nat, directories: nat)

  function Plus(a: Tally, entries: seq<Named>): Tally {
    Tally(a.files + Count(entries, false), a.directories + Count(entries, true))
  }

  lemma {:induction false} CountSplits(entries: seq<Named>, i: nat, folders: bool)
    requires i < |entries|
    ensures Count(entries[..i + 1], folders) ==
            Count(entries[..i], folders)
            + (if OfKind(entries[i].node, folders) then 1 else 0)
            + (if entries[i].node.Dir? then Count(entries[i].node.entries, folders) else 0)
    decreases i
  {
    if i == 0 {
      assert entries[..1] == [entries[0]] && entries[..1][1..] == [];
    } else {
      CountSplits(entries[1..], i - 1, folders);
      assert entries[..i + 1][1..] == entries[1..][..i] && entries[..i][1..] == entries[1..][..i - 1];
      assert entries[1..][i - 1] == entries[i];
    }
  }

  lemma PlusStep(tally: Tally, entries: seq<Named>, i: nat)
    requires i < |entries|
    ensures Plus(tally, entries[..i + 1]) == (
              var node := entries[i].node;
              var before := Plus(tally, entries[..i]);
              if node.Dir? then var t := Plus(before, node.entries); t.(directories := t.directories + 1)
              else if node.Plain? then before.(files := before.files + 1)
              else before)
  {
    CountSplits(entries, i, false);
    CountSplits(entries, i, true);
  }

  lemma OneMoreCounted(tally: Tally, seen: seq<Named>, next: Named)
    ensures Plus(tally, seen + [next]) == (
              var before := Plus(tally, seen);
              if next.node.Dir? then var t := Plus(before, next.node.entries); t.(directories := t.directories + 1)
              else if next.node.Plain? then before.(files := before.files + 1)
              else before)
  {
    assert (seen + [next])[..|seen|] == seen && (seen + [next])[..|seen| + 1] == seen + [next];
    PlusStep(tally, seen + [next], |seen|);
  }

  lemma NothingCounted(tally: Tally)
    ensures Plus(tally, []) == tally
  {
  }

  lemma OneMoreFits(layout: Layout, seen: seq<Named>, next: Named)
    ensures AllFit(layout, seen + [next]) <==> AllFit(layout, seen) && Fits(layout, next.node)
  {
    assert (seen + [next])[|seen|] == next;
    assert forall i :: 0 <= i < |seen| ==> (seen + [next])[i] == seen[i];
  }

  lemma OneMoreShown(entries: seq<Named>, seen: seq<Named>, next: Named)
    requires |seen| < |entries| && Shortened(entries[..|seen|], seen) && ShortenedNode(entries[|seen|], next)
    ensures Shortened(entries[..|seen| + 1], seen + [next])
  {
    hide ShortenedNode;
    var shown := seen + [next];
    forall i | 0 <= i < |shown|
      ensures ShortenedNode(entries[..|seen| + 1][i], shown[i])
    {
      if i < |seen| {
        assert ShortenedNode(entries[..|seen|][i], seen[i]);
      }
    }
  }

  lemma PrefixIsShortened(entries: seq<Named>, seen: seq<Named>, i: nat)
    requires i <= |entries| && Shortened(entries[..i], seen)
    ensures Shortened(entries, seen)
  {
    hide ShortenedNode;
    forall j | 0 <= j < |seen|
      ensures ShortenedNode(entries[j], seen[j])
    {
      assert ShortenedNode(entries[..i][j], seen[j]);
    }
  }

  /** What the walk was shown of an entry: itself, but of a folder only what `below` lists. */
  function Shown(entry: Named, below: seq<Named>): Named {
    if entry.node.Dir? then Named(entry.name, Dir(entry.node.meta, below)) else entry
  }

  lemma ShownIsShortened(entry: Named, below: seq<Named>)
    requires entry.node.Dir? ==> Shortened(entry.node.entries, below)
    ensures ShortenedNode(entry, Shown(entry, below))
  {
  }

  /**
   Counts a tree that should already fit the layout; changes nothing. `cut(t)` says
   that the directory read made at time `t` fails. `seen` is what the reads delivered,
   up to the first entry that does not fit.
   */
  method CountTree(layout: Layout, entries: seq<Named>, tally: Tally, fails: Faults, cut: Faults, now: nat)
    returns (ok: bool, ghost seen: seq<Named>, total: Tally, time: nat)
    ensures Shortened(entries, seen)
    ensures ok ==> AllFit(layout, seen) && total == Plus(tally, seen)
    ensures Faultless(fails) ==> (ok <==> AllFit(layout, seen))
    ensures ok && Faultless(cut) ==> seen == entries
    ensures (forall t :: cut(t)) ==> seen == []
    ensures Faultless(fails) && Faultless(cut) ==> (ok <==> AllFit(layout, entries))
    decreases entries
  {
    hide Count, Shortened, ShortenedNode, AllFit;
    ok, seen, total, time := true, [], tally, now + 1;
    NothingCounted(tally);
    NothingSeen(layout, entries);
    if fails(now) {
      return false, seen, total, time;
    }
    var i := 0;
    while ok && i < |entries| && !cut(time)
      invariant 0 <= i <= |entries| && |seen| == i && Shortened(entries[..i], seen)
      invariant ok ==> AllFit(layout, seen) && total == Plus(tally, seen)
      invariant Faultless(fails) && !ok ==> !AllFit(layout, seen)
      invariant ok && Faultless(cut) ==> seen == entries[..i]
      invariant (forall t :: cut(t)) ==> i == 0
      decreases |entries| - i
    {
      var node := entries[i].node;
      ghost var below := if node.Dir? then node.entries else [];
      WholeIsShortened(below);
      time := time + 1;
      if fails(time) || node.Link? || node.Special? {
        ok := false;
      } else if node.Dir? {
        ok := !fails(time + 1) && FolderFits(layout, node.meta);
        time := time + 2;
        if ok {
          ok, below, total, time := CountTree(layout, node.entries, total, fails, cut, time);
        }
        total := total.(directories := total.directories + 1);
      } else {
        if FileFits(layout, node.meta) && !fails(time + 1) {
          total := total.(files := total.files + 1);
        } else {
          ok := false;
        }
        time := time + 2;
      }
      ghost var next := Shown(entries[i], below);
      OneMoreFits(layout, seen, next);
      OneMoreCounted(tally, seen, next);
      ShownIsShortened(entries[i], below);
      OneMoreShown(entries, seen, next);
      seen, i := seen + [next], i + 1;
    }
    time := time + 1;
    PrefixIsShortened(entries, seen, i);
    assert entries[..|entries|] == entries;
    if Faultless(fails) && AllFit(layout, entries) {
      ShortenedFits(layout, entries, seen);
    }
  }

  lemma NothingSeen(layout: Layout, entries: seq<Named>)
    ensures AllFit(layout, []) && Shortened(entries, []) && Shortened(entries[..0], [])
  {
  }

  /** A folder with nothing but a link in it passes, with no file and no folder counted, when its first read fails. */
  method UnreadFolderPasses(layout: Layout) returns (ok: bool, total: Tally)
    ensures var entries := [Named([97], Link)]; ok && total == Tally(0, 0) && !AllFit(layout, entries)
  {
    var entries, time := [Named([97], Link)], 0;
    ghost var seen;
    ok, seen, total, time := CountTree(layout, entries, Tally(0, 0), t => false, t => true, 0);
    NothingSeen(layout, entries);
    NothingCounted(Tally(0, 0));
    assert !Fits(layout, entries[0].node);
  }

  // ----- Sealing

  function SealedNode(node: Tree): (sealed: Tree)
    ensures node.Dir? <==> sealed.Dir?
    decreases node, 0
  {
    if node.Dir? then Dir(node.meta.(mode := MODE_0555), SealedEntries(node.entries)) else node
  }

  function SealedEntries(entries: seq<Named>): (sealed: seq<Named>)
    ensures |sealed| == |entries|
    ensures forall i :: 0 <= i < |entries| ==> sealed[i] == Named(entries[i].name, SealedNode(entries[i].node))
    decreases entries, 1
  {
    if entries == [] then []
    else [Named(entries[0].name, SealedNode(entries[0].node))] + SealedEntries(entries[1..])
  }

  /** What sealing leaves of `entries` when it was shown `seen` of them. */
  function Partly(entries: seq<Named>, seen: seq<Named>): (partly: seq<Named>)
    ensures |partly| == |entries|
    ensures forall i :: 0 <= i < |entries| ==>
              partly[i] == if i < |seen| then Named(entries[i].name, PartlyNode(entries[i].node, seen[i].node))
                           else entries[i]
    decreases entries, 1
  {
    if entries == [] || seen == [] then entries
    else [Named(entries[0].name, PartlyNode(entries[0].node, seen[0].node))] + Partly(entries[1..], seen[1..])
  }

  function PartlyNode(node: Tree, seen: Tree): Tree
    decreases node, 0
  {
    if node.Dir? && seen.Dir? then Dir(node.meta.(mode := MODE_0555), Partly(node.entries, seen.entries)) else node
  }

  lemma {:induction false} PartlyOfAll(entries: seq<Named>)
    ensures Partly(entries, entries) == SealedEntries(entries)
    decreases entries
  {
    forall i | 0 <= i < |entries|
      ensures Partly(entries, entries)[i] == SealedEntries(entries)[i]
    {
      if entries[i].node.Dir? {
        PartlyOfAll(entries[i].node.entries);
      }
    }
  }

  /** `after` is `before` with some folder modes set to 0555 and nothing else changed. */
  ghost predicate OnlySealed(before: seq<Named>, after: seq<Named>)
    decreases before
  {
    && |before| == |after|
    && forall i :: 0 <= i < |before| ==>
         && before[i].name == after[i].name
         && if before[i].node.Dir? then
              && after[i].node.Dir?
              && (after[i].node.meta == before[i].node.meta
                || after[i].node.meta == before[i].node.meta.(mode := MODE_0555))
              && OnlySealed(before[i].node.entries, after[i].node.entries)
            else after[i].node == before[i].node
  }

  lemma {:induction false} UntouchedIsOnlySealed(entries: seq<Named>)
    ensures OnlySealed(entries, entries)
    decreases entries
  {
    forall i | 0 <= i < |entries| && entries[i].node.Dir?
      ensures OnlySealed(entries[i].node.entries, entries[i].node.entries)
    {
      UntouchedIsOnlySealed(entries[i].node.entries);
    }
  }

  lemma OneMoreSealed(entries: seq<Named>, sealed: seq<Named>, i: nat, meta: Meta, below: seq<Named>)
    requires OnlySealed(entries, sealed) && i < |entries| && entries[i].node.Dir?
    requires OnlySealed(entries[i].node.entries, below)
    requires meta == entries[i].node.meta || meta == entries[i].node.meta.(mode := MODE_0555)
    ensures OnlySealed(entries, sealed[i := Named(entries[i].name, Dir(meta, below))])
  {
  }

  lemma OneMoreSeals(seen: seq<Named>, next: Named)
    ensures Sealable(seen + [next]) <==> Sealable(seen) && SealableNode(next.node)
  {
    assert (seen + [next])[|seen|] == next;
    assert forall i :: 0 <= i < |seen| ==> (seen + [next])[i] == seen[i];
  }

  lemma NothingToSeal()
    ensures Sealable([])
  {
  }

  /** A folder this step of the walk has not finished, or one it has. */
  lemma SealedStep(entry: Named, below: seq<Named>, meta: Meta, sealed: seq<Named>)
    requires entry.node.Dir? && sealed == Partly(entry.node.entries, below)
    requires meta == entry.node.meta.(mode := MODE_0555)
    ensures Named(entry.name, Dir(meta, sealed))
            == Named(entry.name, PartlyNode(entry.node, Shown(entry, below).node))
  {
  }

  /**
   Walks a directory, sealing every folder below it bottom-up and counting files
   and folders; stops at the first entry that is not as expected, and without notice
   where a directory read fails. Whatever happens, nothing but folder modes has
   changed; success means that what was seen is sealed and counted, and the rest is
   as it was.
   */
  method SealAndCount(entries: seq<Named>, tally: Tally, fails: Faults, cut: Faults, now: nat)
    returns (ok: bool, ghost seen: seq<Named>, sealed: seq<Named>, total: Tally, time: nat)
    ensures Shortened(entries, seen) && OnlySealed(entries, sealed)
    ensures ok ==> Sealable(seen) && sealed == Partly(entries, seen) && total == Plus(tally, seen)
    ensures Faultless(fails) ==> (ok <==> Sealable(seen))
    ensures ok && Faultless(cut) ==> seen == entries
    ensures Faultless(fails) && Faultless(cut) ==> (ok <==> Sealable(entries))
    decreases entries
  {
    hide HasWriteBit, Count, OnlySealed, Shortened, ShortenedNode, Sealable, Partly, PartlyNode;
    ModesAreReadOnly();
    ok, seen, sealed, total, time := true, [], entries, tally, now + 1;
    UntouchedIsOnlySealed(entries);
    NothingCounted(tally);
    NothingSeen(Sealed, entries);
    NothingToSeal();
    if fails(now) {
      return false, seen, sealed, total, time;
    }
    var i := 0;
    while ok && i < |entries| && !cut(time)
      invariant 0 <= i <= |entries| == |sealed| && |seen| == i && Shortened(entries[..i], seen)
      invariant OnlySealed(entries, sealed)
      invariant forall j :: i <= j < |entries| ==> sealed[j] == entries[j]
      invariant ok ==> Sealable(seen) && total == Plus(tally, seen)
      invariant ok ==> forall j :: 0 <= j < i ==>
                         sealed[j] == Named(entries[j].name, PartlyNode(entries[j].node, seen[j].node))
      invariant Faultless(fails) && !ok ==> !Sealable(seen)
      invariant ok && Faultless(cut) ==> seen == entries[..i]
      decreases |entries| - i
    {
      var node := entries[i].node;
      ghost var below := if node.Dir? then node.entries else [];
      WholeIsShortened(below);
      time := time + 1;
      if fails(time) || node.Link? || node.Special? {
        ok := false;
      } else if node.Dir? {
        var inside;
        ok, below, inside, total, time := SealAndCount(node.entries, total, fails, cut, time + 1);
        var meta := node.meta;
        if ok && !fails(time) {
          meta := meta.(mode := MODE_0555);
          ok := !fails(time + 1) && !fails(time + 2) && ExactMeta(meta, MODE_0555);
          SealedStep(entries[i], below, meta, inside);
        } else {
          ok := false;
        }
        time := time + 3;
        OneMoreSealed(entries, sealed, i, meta, inside);
        sealed := sealed[i := Named(entries[i].name, Dir(meta, inside))];
        total := total.(directories := total.directories + 1);
      } else {
        var mode := node.meta.mode % PERMISSION_BITS;
        if node.meta.links == 1 && (mode == MODE_0444 || mode == MODE_0555) && !fails(time + 1)
          && ExactMeta(node.meta, mode) {
          total := total.(files := total.files + 1);
        } else {
          ok := false;
        }
        time := time + 2;
        FileIsKept(entries[i]);
      }
      ghost var next := Shown(entries[i], below);
      OneMoreSeals(seen, next);
      OneMoreCounted(tally, seen, next);
      ShownIsShortened(entries[i], below);
      OneMoreShown(entries, seen, next);
      seen, i := seen + [next], i + 1;
    }
    time := time + 1;
    PrefixIsShortened(entries, seen, i);
    assert entries[..|entries|] == entries;
    assert ok ==> sealed == Partly(entries, seen);
    if Faultless(fails) && Sealable(entries) {
      ShortenedSeals(entries, seen);
    }
  }

  lemma FileIsKept(entry: Named)
    requires !entry.node.Dir?
    ensures Named(entry.name, PartlyNode(entry.node, Shown(entry, []).node)) == entry
  {
  }

  // ----- Sealing leads to a tree that passes

  lemma {:induction false} SealingSeals(entries: seq<Named>)
    requires Sealable(entries)
    ensures AllFit(Sealed, SealedEntries(entries))
    decreases entries
  {
    ModesAreReadOnly();
    var sealed := SealedEntries(entries);
    forall i | 0 <= i < |sealed|
      ensures Fits(Sealed, sealed[i].node)
    {
      if entries[i].node.Dir? {
        SealingSeals(entries[i].node.entries);
      }
    }
  }

  lemma {:induction false} SealingKeepsCounts(entries: seq<Named>, folders: bool)
    ensures Count(SealedEntries(entries), folders) == Count(entries, folders)
    decreases entries
  {
    if entries != [] {
      var sealed := SealedEntries(entries);
      assert sealed[1..] == SealedEntries(entries[1..]);
      SealingKeepsCounts(entries[1..], folders);
      if entries[0].node.Dir? {
        SealingKeepsCounts(entries[0].node.entries, folders);
      }
    }
  }

  lemma {:induction false} SealingKeepsLookup(entries: seq<Named>, name: seq<byte>)
    ensures var found := Lookup(entries, name);
            Lookup(SealedEntries(entries), name) == if found == None then None else Some(SealedNode(found.value))
  {
    if entries != [] && entries[0].name != name {
      assert SealedEntries(entries)[1..] == SealedEntries(entries[1..]);
      SealingKeepsLookup(entries[1..], name);
    }
  }

  lemma {:induction false} SealingKeepsPlaces(entries: seq<Named>, place: Place)
    ensures var found := Find(entries, place);
            Find(SealedEntries(entries), place) == if found == None then None else Some(SealedNode(found.value))
    decreases |place|
  {
    if place != [] {
      SealingKeepsLookup(entries, place[0]);
      var node := Lookup(entries, place[0]);
      if node.Some? && |place| > 1 && node.value.Dir? {
        SealingKeepsPlaces(node.value.entries, place[1..]);
      }
    }
  }

  /** A tree that was sealed and counted gives the same counts when checked. */
  lemma SealedTreeCountsTheSame(entries: seq<Named>, tally: Tally)
    requires Sealable(entries)
    ensures AllFit(Sealed, SealedEntries(entries))
    ensures Plus(tally, SealedEntries(entries)) == Plus(tally, entries)
  {
    SealingSeals(entries);
    SealingKeepsCounts(entries, false);
    SealingKeepsCounts(entries, true);
  }

  lemma {:induction false} SealingKeepsWellFormed(entries: seq<Named>)
    requires WellFormed(entries)
    ensures WellFormed(SealedEntries(entries))
    decreases entries
  {
    var sealed := SealedEntries(entries);
    forall i | 0 <= i < |sealed| && sealed[i].node.Dir?
      ensures WellFormed(sealed[i].node.entries)
    {
      SealingKeepsWellFormed(entries[i].node.entries);
    }
  }
}
