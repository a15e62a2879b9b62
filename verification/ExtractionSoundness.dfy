/** What a successful extraction says about the archive, the manifest and the tree it built. */
module ExtractionSoundness {
  import opened Bytes
  import opened Paths
  import opened Manifest
  import opened Tar
  import opened Extraction

  /** A member that names a place: its path once overrides are resolved, and what it puts there. */
  datatype Placed = Placed(path: Option<seq<byte>>, node: Node)

  /** The placing members in order; an override goes to the next of them and to no other. */
  function PlacedOf(items: seq<Item>, pending: Option<seq<byte>>): seq<Placed> {
    if items == [] then []
    else
      match items[0]
      case GlobalHeader => PlacedOf(items[1..], pending)
      case ExtendedHeader(path) => PlacedOf(items[1..], Some(path))
      case Directory(own) =>
        [Placed(if pending.Some? then pending else own, Folder)] + PlacedOf(items[1..], None)
      case File(own, executable, content) =>
        [Placed(if pending.Some? then pending else own, Regular(executable, content))] + PlacedOf(items[1..], None)
  }

  function RegularOnly(placed: seq<Placed>): seq<Placed> {
    if placed == [] then []
    else (if placed[0].node.Regular? then [placed[0]] else []) + RegularOnly(placed[1..])
  }

  /** The file stored is the one the entry lists: same path, same executable bit, same blob. */
  predicate Listed(m: Placed, e: Entry, blobId: seq<byte> -> seq<byte>) {
    m.path == Some(e.path) && m.node.Regular? && m.node.executable == e.executable && blobId(m.node.content) == e.oid
  }

  predicate AllListed(files: seq<Placed>, entries: seq<Entry>, blobId: seq<byte> -> seq<byte>) {
    |files| <= |entries| && forall k :: 0 <= k < |files| ==> Listed(files[k], entries[k], blobId)
  }

  function FirstNext(item: Item, entries: seq<Entry>, p: Progress, blobId: seq<byte> -> seq<byte>): Option<Progress> {
    match item
    case Directory(own) => AfterDirectory(p, own)
    case File(_, _, _) => if entries == [] then None else AfterFile(p, item, entries[0], blobId)
    case _ => AfterHeader(p, item)
  }

  lemma PlacedStep(items: seq<Item>, pending: Option<seq<byte>>, path: Option<seq<byte>>, node: Node)
    requires items != []
    requires items[0].Directory? || items[0].File?
    requires node == if items[0].File? then Regular(items[0].executable, items[0].content) else Folder
    requires path == if pending.Some? then pending else items[0].own
    ensures RegularOnly(PlacedOf(items, pending))
            == (if items[0].File? then [Placed(path, node)] else []) + RegularOnly(PlacedOf(items[1..], None))
  {
    assert PlacedOf(items, pending) == [Placed(path, node)] + PlacedOf(items[1..], None);
    assert PlacedOf(items, pending)[1..] == PlacedOf(items[1..], None);
  }

  lemma HeaderPlacesNothing(items: seq<Item>, entries: seq<Entry>, p: Progress, blobId: seq<byte> -> seq<byte>)
    requires items != [] && !items[0].Directory? && !items[0].File? && FirstNext(items[0], entries, p, blobId).Some?
    ensures PlacedOf(items, p.pending) == PlacedOf(items[1..], FirstNext(items[0], entries, p, blobId).value.pending)
  {
  }

  lemma OneMoreListed(m: Placed, files: seq<Placed>, e: Entry, entries: seq<Entry>, blobId: seq<byte> -> seq<byte>)
    requires Listed(m, e, blobId) && AllListed(files, entries, blobId)
    ensures AllListed([m] + files, [e] + entries, blobId)
  {
    hide Listed;
  }

  lemma TakenIsListed(item: Item, entries: seq<Entry>, p: Progress, blobId: seq<byte> -> seq<byte>)
    requires item.File? && FirstNext(item, entries, p, blobId).Some?
    ensures Listed(Placed(EffectivePath(p, item.own), Regular(item.executable, item.content)), entries[0], blobId)
  {
  }

  /** In archive order, the regular files are the manifest's entries in manifest order. */
  lemma {:induction false} FilesFollowManifest(
    items: seq<Item>, entries: seq<Entry>, p: Progress, blobId: seq<byte> -> seq<byte>)
    requires Replay(items, entries, p, blobId).Some?
    ensures var files := RegularOnly(PlacedOf(items, p.pending));
            && AllListed(files, entries, blobId)
            && Replay(items, entries, p, blobId).value.1 == entries[|files|..]
    decreases items
  {
    hide Listed, RegularOnly, PlacedOf, Replay, FirstNext;
    if items == [] {
      NoneListed(entries, p, blobId);
    } else {
      var item := items[0];
      ReplayStep(items, entries, p, blobId);
      var next := FirstNext(item, entries, p, blobId).value;
      var later := if item.File? then entries[1..] else entries;
      FilesFollowManifest(items[1..], later, next, blobId);
      var tail := RegularOnly(PlacedOf(items[1..], next.pending));
      if item.File? {
        var m := Placed(EffectivePath(p, item.own), Regular(item.executable, item.content));
        PlacedStep(items, p.pending, m.path, m.node);
        TakenIsListed(item, entries, p, blobId);
        OneMoreListed(m, tail, entries[0], later, blobId);
        assert entries == [entries[0]] + later;
        assert later[|tail|..] == entries[|tail| + 1..];
      } else if item.Directory? {
        PlacedStep(items, p.pending, EffectivePath(p, item.own), Folder);
        assert [] + tail == tail;
      } else {
        HeaderPlacesNothing(items, entries, p, blobId);
      }
    }
  }

  lemma ReplayStep(items: seq<Item>, entries: seq<Entry>, p: Progress, blobId: seq<byte> -> seq<byte>)
    requires items != [] && Replay(items, entries, p, blobId).Some?
    ensures items[0].File? ==> entries != []
    ensures var next := FirstNext(items[0], entries, p, blobId);
            && next.Some? && (items[0].Directory? || items[0].File? ==> next.value.pending == None)
            && Replay(items[1..], if items[0].File? then entries[1..] else entries, next.value, blobId)
               == Replay(items, entries, p, blobId)
  {
  }

  lemma NoneListed(entries: seq<Entry>, p: Progress, blobId: seq<byte> -> seq<byte>)
    ensures RegularOnly(PlacedOf([], p.pending)) == [] && AllListed([], entries, blobId)
    ensures Replay([], entries, p, blobId) == Some((p, entries))
  {
  }

  /** Every extended header is followed, over global headers only, by the member that uses its path. */
  ghost predicate Used(items: seq<Item>, i: nat, j: nat) {
    && i < j < |items|
    && (items[j].Directory? || items[j].File?)
    && forall m :: i < m < j ==> items[m].GlobalHeader?
  }

  lemma {:induction false} PendingIsUsed(
    items: seq<Item>, entries: seq<Entry>, p: Progress, blobId: seq<byte> -> seq<byte>)
    returns (j: nat)
    requires Replay(items, entries, p, blobId).Some? && Replay(items, entries, p, blobId).value.0.pending == None
    requires p.pending.Some?
    ensures j < |items| && (items[j].Directory? || items[j].File?)
    ensures forall m :: 0 <= m < j ==> items[m].GlobalHeader?
    ensures PlacedOf(items, p.pending) != [] && PlacedOf(items, p.pending)[0].path == p.pending
    decreases items
  {
    j := 0;
    if items[0].GlobalHeader? {
      var k := PendingIsUsed(items[1..], entries, FirstNext(items[0], entries, p, blobId).value, blobId);
      j := k + 1;
      assert items[j] == items[1..][k];
    }
  }

  lemma {:induction false} EveryOverrideIsUsed(
    items: seq<Item>, entries: seq<Entry>, p: Progress, blobId: seq<byte> -> seq<byte>, i: nat)
    returns (j: nat)
    requires Replay(items, entries, p, blobId).Some? && Replay(items, entries, p, blobId).value.0.pending == None
    requires i < |items| && items[i].ExtendedHeader?
    ensures Used(items, i, j)
    ensures PlacedOf(items[i..], None) != [] && PlacedOf(items[i..], None)[0].path == Some(items[i].path)
    decreases items
  {
    var next := FirstNext(items[0], entries, p, blobId).value;
    var later := if items[0].File? then entries[1..] else entries;
    var k;
    if i == 0 {
      k := PendingIsUsed(items[1..], later, next, blobId);
      assert items[0..] == items;
    } else {
      k := EveryOverrideIsUsed(items[1..], later, next, blobId, i - 1);
      assert items[1..][i - 1..] == items[i..];
    }
    j := k + 1;
    assert items[j] == items[1..][k];
    assert forall m :: i < m < j ==> items[m] == items[1..][m - 1];
  }

  // ----- The tree

  /** `after` keeps everything in `before` and adds only folders on the way to `place`. */
  ghost predicate AddsParents(before: Files, after: Files, place: Place, n: nat)
    requires n <= |place|
  {
    && (forall q :: q in before ==> q in after && after[q] == before[q])
    && (forall q :: q in after && q !in before ==> after[q] == Folder && exists i :: 0 < i <= n && q == place[..i])
    && (forall i :: 0 < i <= n ==> place[..i] in after && after[place[..i]] == Folder)
  }

  lemma EnterAdds(files: Files, here: Place)
    requires here != [] && Enter(files, here).Some?
    ensures var after := Enter(files, here).value;
            && (forall q :: q in files ==> q in after && after[q] == files[q])
            && (forall q :: q in after && q !in files ==> q == here)
            && here in after && after[here] == Folder
  {
  }

  lemma {:induction false} WithParentsAdds(files: Files, place: Place, n: nat)
    requires n <= |place| && WithParents(files, place, n).Some?
    ensures AddsParents(files, WithParents(files, place, n).value, place, n)
  {
    hide Enter, Components;
    if n > 0 {
      WithParentsAdds(files, place, n - 1);
      EnterAdds(WithParents(files, place, n - 1).value, place[..n]);
    }
  }

  ghost predicate Leads(m: Placed, q: Place) {
    m.path.Some? && exists i :: 0 < i <= |Components(m.path.value)| && q == Components(m.path.value)[..i]
  }

  ghost predicate Stored(m: Placed, files: Files) {
    && m.path.Some?
    && Components(m.path.value) in files
    && (m.node.Regular? ==> files[Components(m.path.value)] == m.node)
    && forall i :: 0 < i < |Components(m.path.value)| ==>
         Components(m.path.value)[..i] in files && files[Components(m.path.value)[..i]] == Folder
  }

  ghost predicate Accounted(q: Place, before: Files, after: Files, placed: seq<Placed>) {
    || q !in after
    || q in before
    || (after[q] == Folder && exists m :: m in placed && Leads(m, q))
    || exists m :: m in placed && m.path.Some? && Components(m.path.value) == q && m.node == after[q]
  }

  /** `after` holds what `before` held, everything placed, the folders leading there, and nothing else. */
  ghost predicate Builds(before: Files, after: Files, placed: seq<Placed>) {
    && (forall q :: q in before ==> q in after && after[q] == before[q])
    && (forall m :: m in placed ==> Stored(m, after))
    && (forall q :: q in after ==> Accounted(q, before, after, placed))
  }

  function Put(parents: Files, place: Place, node: Node): Files {
    if place in parents then parents else parents[place := node]
  }

  lemma PuttingStores(before: Files, parents: Files, path: seq<byte>, node: Node)
    requires var place := Components(path); AddsParents(before, parents, place, |place| - 1)
    requires node.Regular? ==> Components(path) !in parents
    ensures Stored(Placed(Some(path), node), Put(parents, Components(path), node))
  {
    hide Components;
  }

  lemma PuttingAccounts(before: Files, parents: Files, path: seq<byte>, node: Node, r: Place)
    requires var place := Components(path); AddsParents(before, parents, place, |place| - 1)
    ensures Accounted(r, before, Put(parents, Components(path), node), [Placed(Some(path), node)])
  {
    hide Components;
    var m := Placed(Some(path), node);
    assert m in [m];
    if r in parents && r !in before {
      assert Leads(m, r);
    }
  }

  lemma PuttingBuilds(before: Files, parents: Files, path: seq<byte>, node: Node)
    requires var place := Components(path); AddsParents(before, parents, place, |place| - 1)
    requires node.Regular? ==> Components(path) !in parents
    ensures Builds(before, Put(parents, Components(path), node), [Placed(Some(path), node)])
  {
    hide Components, Accounted, Stored;
    PuttingStores(before, parents, path, node);
    forall r
      ensures Accounted(r, before, Put(parents, Components(path), node), [Placed(Some(path), node)])
    {
      PuttingAccounts(before, parents, path, node, r);
    }
  }

  lemma PlacingBuilds(item: Item, entries: seq<Entry>, p: Progress, blobId: seq<byte> -> seq<byte>)
    requires (item.Directory? || item.File?) && FirstNext(item, entries, p, blobId).Some?
    ensures var q := FirstNext(item, entries, p, blobId).value;
            q.pending == None && Builds(p.files, q.files, PlacedOf([item], p.pending))
  {
    hide Components, Builds, WithParents, AddsParents;
    var path := EffectivePath(p, item.own).value;
    var place := Components(path);
    WithParentsAdds(p.files, place, |place| - 1);
    var node := if item.File? then Regular(item.executable, item.content) else Folder;
    assert [item][1..] == [] && PlacedOf([], None) == [];
    assert PlacedOf([item], p.pending) == [Placed(Some(path), node)];
    PuttingBuilds(p.files, OpenParent(p.files, place).value, path, node);
  }

  lemma BuildsChains(a: Files, b: Files, c: Files, first: seq<Placed>, rest: seq<Placed>)
    requires Builds(a, b, first) && Builds(b, c, rest)
    ensures Builds(a, c, first + rest)
  {
  }

  lemma PlacedSplits(items: seq<Item>, pending: Option<seq<byte>>)
    requires items != [] && (items[0].Directory? || items[0].File?)
    ensures PlacedOf(items, pending) == PlacedOf([items[0]], pending) + PlacedOf(items[1..], None)
  {
  }

  lemma {:induction false} ReplayBuilds(
    items: seq<Item>, entries: seq<Entry>, p: Progress, blobId: seq<byte> -> seq<byte>)
    requires Replay(items, entries, p, blobId).Some?
    ensures Builds(p.files, Replay(items, entries, p, blobId).value.0.files, PlacedOf(items, p.pending))
    decreases items
  {
    if items != [] {
      var item := items[0];
      var next := FirstNext(item, entries, p, blobId).value;
      var later := if item.File? then entries[1..] else entries;
      ReplayBuilds(items[1..], later, next, blobId);
      if item.Directory? || item.File? {
        PlacingBuilds(item, entries, p, blobId);
        var end := Replay(items, entries, p, blobId).value.0.files;
        BuildsChains(p.files, next.files, end, PlacedOf([item], p.pending), PlacedOf(items[1..], None));
        PlacedSplits(items, p.pending);
      }
    }
  }

  function HeaderCount(items: seq<Item>, global: bool): nat {
    if items == [] then 0
    else
      (if global then (if items[0].GlobalHeader? then 1 else 0) else (if items[0].ExtendedHeader? then 1 else 0))
      + HeaderCount(items[1..], global)
  }

  lemma {:induction false} ReplayCountsHeaders(
    items: seq<Item>, entries: seq<Entry>, p: Progress, blobId: seq<byte> -> seq<byte>)
    requires Replay(items, entries, p, blobId).Some?
    ensures var end := Replay(items, entries, p, blobId).value.0;
            && end.globals == p.globals + HeaderCount(items, true)
            && end.extended == p.extended + HeaderCount(items, false)
    decreases items
  {
    hide OpenParent, Components;
    if items != [] {
      var next := FirstNext(items[0], entries, p, blobId).value;
      ReplayCountsHeaders(items[1..], if items[0].File? then entries[1..] else entries, next, blobId);
    }
  }

  /**
   Success means: one global header and as many overrides as expected, each used;
   the archive holds the manifest's files in the manifest's order,
   and the tree is exactly those files plus the folders leading to the members.
   */
  lemma ExtractionIsSound(archive: seq<byte>, manifest: seq<byte>, x: Expected, files: Files)
    returns (items: seq<Item>, entries: seq<Entry>)
    requires Outcome(archive, manifest, START, 0, x) == Some(files)
    ensures Items(archive, x.commit) == Some(items) && Entries(manifest) == Some(entries)
    ensures |entries| == x.files && |RegularOnly(PlacedOf(items, None))| == |entries|
    ensures AllListed(RegularOnly(PlacedOf(items, None)), entries, x.blobId)
    ensures Builds(map[], files, PlacedOf(items, None))
    ensures forall i :: 0 <= i < |items| && items[i].ExtendedHeader? ==> exists j :: Used(items, i, j)
    ensures HeaderCount(items, true) == 1 && HeaderCount(items, false) == x.extended
  {
    items, entries := Items(archive, x.commit).value, Entries(manifest).value;
    FilesFollowManifest(items, entries, START, x.blobId);
    ReplayCountsHeaders(items, entries, START, x.blobId);
    ReplayBuilds(items, entries, START, x.blobId);
    forall i | 0 <= i < |items| && items[i].ExtendedHeader?
      ensures exists j :: Used(items, i, j)
    {
      var j := EveryOverrideIsUsed(items, entries, START, x.blobId, i);
    }
  }
}
