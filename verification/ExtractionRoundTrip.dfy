/** Writing files and folders as an archive and a manifest, and extracting them back. */
module ExtractionRoundTrip {
  import opened Bytes
  import opened Octal
  import opened Paths
  import opened Pax
  import opened Manifest
  import opened Tar
  import opened Extraction
  import opened ExtractionSoundness

  /**
   How a path is written: in a `path` record before the member, or in the member's
   own header, all in the name field or split at a slash, with or without a slash
   after it.
   */
  datatype Naming = InRecord | InHeader(prefix: seq<byte>, name: seq<byte>, slash: bool)

  /** A file or folder to archive, with the mode and type its member gets. */
  datatype Source = Source(path: seq<byte>, naming: Naming, mode: nat, typeflag: byte, content: seq<byte>)

  predicate IsFolder(s: Source) {
    s.typeflag == 53
  }

  function PlaceOf(s: Source): Place {
    Components(s.path)
  }

  function NodeOf(s: Source): Node {
    if IsFolder(s) then Folder else Regular(OwnerExecutes(s.mode), s.content)
  }

  function NameField(s: Source): seq<byte> {
    match s.naming
    case InRecord => []
    case InHeader(_, name, slash) => if slash then name + [SLASH] else name
  }

  function PrefixField(s: Source): seq<byte> {
    if s.naming.InRecord? then [] else s.naming.prefix
  }

  function FieldsOf(s: Source): Fields {
    Fields(NameField(s), s.mode, |s.content|, s.typeflag, PrefixField(s))
  }

  predicate Archivable(s: Source) {
    && UsablePath(s.path) && NUL !in s.path && NameFits(s)
    && (forall part :: part in PlaceOf(s) ==> |part| <= 255)
    && |s.content| < 8_589_934_592 && Placing(FieldsOf(s))
  }

  predicate NameFits(s: Source) {
    match s.naming
    case InRecord => true
    case InHeader(prefix, name, _) =>
      && s.path == (if prefix == [] then name else prefix + [SLASH] + name)
      && |prefix| < 155 && |NameField(s)| <= 100
  }

  /** No path names a file's path, or goes through it; folders may be named and entered any number of times. */
  ghost predicate Disjoint(sources: seq<Source>) {
    forall i, j :: 0 <= i < |sources| && 0 <= j < |sources| && i != j ==> Apart(sources[i], sources[j])
  }

  predicate Apart(r: Source, s: Source) {
    IsFolder(r) || !(PlaceOf(r) <= PlaceOf(s))
  }

  function SourceMember(s: Source): seq<byte> {
    Member(FieldsOf(s), s.content)
  }

  /** The bytes of one source: its override header when it needs one, then the member itself. */
  function SourceBytes(s: Source): seq<byte> {
    if s.naming.InRecord? then WriteExtended(s.path) + SourceMember(s) else SourceMember(s)
  }

  function WriteMembers(sources: seq<Source>): seq<byte> {
    if sources == [] then [] else SourceBytes(sources[0]) + WriteMembers(sources[1..])
  }

  function WriteArchive(sources: seq<Source>, commit: seq<byte>): seq<byte> {
    WriteGlobal(commit) + (WriteMembers(sources) + Zeros(2 * BLOCK_SIZE))
  }

  function EntryOf(s: Source, blobId: seq<byte> -> seq<byte>): Entry {
    Entry(s.path, OwnerExecutes(s.mode), blobId(s.content))
  }

  /** The manifest lists the files, in order. */
  function EntriesOf(sources: seq<Source>, blobId: seq<byte> -> seq<byte>): (entries: seq<Entry>)
    ensures |entries| == FileCount(sources)
    ensures forall e :: e in entries ==> exists s :: s in sources && !IsFolder(s) && e == EntryOf(s, blobId)
  {
    if sources == [] then []
    else (if IsFolder(sources[0]) then [] else [EntryOf(sources[0], blobId)]) + EntriesOf(sources[1..], blobId)
  }

  function FileCount(sources: seq<Source>): nat {
    if sources == [] then 0 else (if IsFolder(sources[0]) then 0 else 1) + FileCount(sources[1..])
  }

  function RecordCount(sources: seq<Source>): nat {
    if sources == [] then 0 else (if sources[0].naming.InRecord? then 1 else 0) + RecordCount(sources[1..])
  }

  function MemberItem(s: Source): (item: Item)
    ensures item.Directory? <==> IsFolder(s)
    ensures item.File? <==> !IsFolder(s)
    ensures item.File? ==> item.executable == OwnerExecutes(s.mode) && item.content == s.content
  {
    var own := OwnPath(WriteHeader(FieldsOf(s)));
    if IsFolder(s) then Directory(own) else File(own, OwnerExecutes(s.mode), s.content)
  }

  function SourceItems(s: Source): seq<Item> {
    if s.naming.InRecord? then [ExtendedHeader(s.path), MemberItem(s)] else [MemberItem(s)]
  }

  function MemberItems(sources: seq<Source>): seq<Item> {
    if sources == [] then [] else SourceItems(sources[0]) + MemberItems(sources[1..])
  }

  // ----- The bytes read back as the members

  lemma ChunkReadsFirst(chunk: seq<byte>, item: Item, rest: seq<byte>, commit: seq<byte>)
    requires Encodes(chunk, item, commit)
    ensures Items(chunk + rest, commit) == Prepend(item, Items(rest, commit))
  {
    var all := chunk + rest;
    FirstItemIgnoresRest(chunk, item, rest, commit);
    assert all[..BLOCK_SIZE] == chunk[..BLOCK_SIZE];
    HeaderIsNotZero(all[..BLOCK_SIZE]);
    assert all[|chunk|..] == rest;
    ItemsStep(all, commit);
  }

  lemma MemberItemReadsBack(s: Source, commit: seq<byte>)
    requires Archivable(s)
    ensures Encodes(SourceMember(s), MemberItem(s), commit)
    ensures s.naming.InHeader? ==> MemberItem(s).own == Some(s.path)
  {
    hide Encodes, OwnPath, WriteHeader, SafePath;
    EntryReadsBack(FieldsOf(s), s.content, commit);
    if s.naming.InHeader? {
      WrittenPath(FieldsOf(s), s.naming.name, s.naming.slash, s.path);
    }
  }

  lemma TwoChunksRead(a: seq<byte>, i: Item, b: seq<byte>, j: Item, rest: seq<byte>, commit: seq<byte>)
    requires Encodes(a, i, commit) && Encodes(b, j, commit) && Items(rest, commit).Some?
    ensures Items(b + rest, commit) == Some([j] + Items(rest, commit).value)
    ensures Items((a + b) + rest, commit) == Some([i, j] + Items(rest, commit).value)
  {
    hide Items, Encodes;
    ChunkReadsFirst(b, j, rest, commit);
    ChunkReadsFirst(a, i, b + rest, commit);
    assert (a + b) + rest == a + (b + rest);
    assert [i] + ([j] + Items(rest, commit).value) == [i, j] + Items(rest, commit).value;
  }

  lemma SourceReadsBack(s: Source, rest: seq<byte>, commit: seq<byte>)
    requires Archivable(s) && Items(rest, commit).Some?
    ensures Items(SourceBytes(s) + rest, commit) == Some(SourceItems(s) + Items(rest, commit).value)
  {
    hide Items, Encodes, SourceMember, MemberItem, WriteExtended;
    MemberItemReadsBack(s, commit);
    ExtendedReadsBack(s.path, commit);
    TwoChunksRead(WriteExtended(s.path), ExtendedHeader(s.path), SourceMember(s), MemberItem(s), rest, commit);
  }

  lemma {:induction false} MembersReadBack(sources: seq<Source>, commit: seq<byte>)
    requires forall s :: s in sources ==> Archivable(s)
    ensures Items(WriteMembers(sources) + Zeros(2 * BLOCK_SIZE), commit) == Some(MemberItems(sources))
    decreases sources
  {
    hide Archivable, SourceBytes, SourceItems;
    var tail := Zeros(2 * BLOCK_SIZE);
    if sources == [] {
      assert WriteMembers(sources) + tail == tail;
    } else {
      hide Items;
      var rest := WriteMembers(sources[1..]) + tail;
      MembersReadBack(sources[1..], commit);
      SourceReadsBack(sources[0], rest, commit);
      assert WriteMembers(sources) + tail == SourceBytes(sources[0]) + rest;
    }
  }

  // ----- The members play back into the tree

  /** `files` is the given sources, the folders above them, and nothing else. */
  ghost predicate ExactTree(files: Files, sources: seq<Source>) {
    && (forall s :: s in sources ==> PlaceOf(s) in files && files[PlaceOf(s)] == NodeOf(s))
    && (forall s, i :: s in sources && 0 < i < |PlaceOf(s)| ==>
          PlaceOf(s)[..i] in files && files[PlaceOf(s)[..i]] == Folder)
    && (forall q :: q in files ==> IsSource(q, sources) || IsAbove(q, sources))
  }

  ghost predicate IsSource(q: Place, sources: seq<Source>) {
    exists s :: s in sources && q == PlaceOf(s)
  }

  ghost predicate IsAbove(q: Place, sources: seq<Source>) {
    exists s, i :: s in sources && 0 < i < |PlaceOf(s)| && q == PlaceOf(s)[..i]
  }

  lemma FreeOrFolder(files: Files, placed: seq<Source>, here: Place)
    requires ExactTree(files, placed) && forall r :: r in placed ==> IsFolder(r) || here != PlaceOf(r)
    ensures here in files ==> files[here] == Folder
  {
  }

  /** Every folder on the way to a new source is free or already a folder. */
  lemma {:induction false} ParentsOpen(files: Files, placed: seq<Source>, s: Source, n: nat)
    requires Archivable(s) && n < |PlaceOf(s)| && ExactTree(files, placed)
    requires forall r :: r in placed ==> Apart(r, s)
    ensures WithParents(files, PlaceOf(s), n).Some?
  {
    hide PlaceOf, ExactTree, NameFits, Placing;
    if n > 0 {
      ParentsOpen(files, placed, s, n - 1);
      var here := PlaceOf(s)[..n];
      assert here[n - 1] == PlaceOf(s)[n - 1] && PlaceOf(s)[n - 1] in PlaceOf(s);
      FreeOrFolder(files, placed, here);
      WithParentsAdds(files, PlaceOf(s), n - 1);
      var before := WithParents(files, PlaceOf(s), n - 1).value;
      assert here in before ==> before[here] == Folder;
    }
  }

  lemma PlaceIsFree(files: Files, placed: seq<Source>, s: Source)
    requires ExactTree(files, placed) && !IsFolder(s)
    requires forall r :: r in placed ==> Apart(r, s) && Apart(s, r)
    ensures PlaceOf(s) !in files
  {
    hide PlaceOf;
    forall r | r in placed
      ensures PlaceOf(r) != PlaceOf(s) && forall i :: 0 < i < |PlaceOf(r)| ==> PlaceOf(s) != PlaceOf(r)[..i]
    {
      assert Apart(s, r);
    }
  }

  lemma {:induction false} ParentsAreThere(files: Files, place: Place, n: nat)
    requires n <= |place| && forall i :: 0 < i <= n ==> place[..i] in files && files[place[..i]] == Folder
    requires forall i :: 0 <= i < n ==> |place[i]| <= NAME_MAX
    ensures WithParents(files, place, n) == Some(files)
  {
    if n > 0 {
      ParentsAreThere(files, place, n - 1);
      assert place[..n][n - 1] == place[n - 1];
    }
  }

  /** A folder member that names a file already there is taken, and changes nothing. */
  lemma FolderOverFileIsIgnored(p: Progress, placed: seq<Source>, s: Source, own: Option<seq<byte>>)
    requires ExactTree(p.files, placed) && s in placed && !IsFolder(s) && Archivable(s)
    requires EffectivePath(p, own) == Some(s.path)
    ensures AfterDirectory(p, own) == Some(p.(pending := None))
  {
    hide Components, NameFits, Placing, WithParents;
    var place := PlaceOf(s);
    assert forall i :: 0 <= i < |place| ==> place[i] in place;
    ParentsAreThere(p.files, place, |place| - 1);
  }

  /** What is made of a source whose parents are there. */
  function Taken(parents: Files, s: Source): Files {
    if PlaceOf(s) in parents then parents else parents[PlaceOf(s) := NodeOf(s)]
  }

  lemma FolderExtracts(
    p: Progress, placed: seq<Source>, s: Source, own: Option<seq<byte>>)
    requires Archivable(s) && IsFolder(s) && ExactTree(p.files, placed)
    requires forall r :: r in placed ==> Apart(r, s)
    requires EffectivePath(p, own) == Some(s.path)
    ensures var q := AfterDirectory(p, own);
            q.Some? && q.value == p.(files := q.value.files, pending := None) && ExactTree(q.value.files, placed + [s])
  {
    hide ExactTree, Components, WithParents, NameFits, Placing;
    var place := PlaceOf(s);
    assert place[|place| - 1] in place;
    ParentsOpen(p.files, placed, s, |place| - 1);
    WithParentsAdds(p.files, place, |place| - 1);
    FreeOrFolder(p.files, placed, place);
    StillExact(p.files, OpenParent(p.files, place).value, placed, s);
  }

  lemma FileExtracts(
    p: Progress, placed: seq<Source>, s: Source, own: Option<seq<byte>>, blobId: seq<byte> -> seq<byte>)
    requires Archivable(s) && !IsFolder(s) && ExactTree(p.files, placed)
    requires forall r :: r in placed ==> Apart(r, s) && Apart(s, r)
    requires EffectivePath(p, own) == Some(s.path)
    ensures var q := AfterFile(p, File(own, OwnerExecutes(s.mode), s.content), EntryOf(s, blobId), blobId);
            q.Some? && q.value == p.(files := q.value.files, pending := None) && ExactTree(q.value.files, placed + [s])
  {
    hide ExactTree, Components, WithParents, NameFits, Placing;
    var place := PlaceOf(s);
    assert place[|place| - 1] in place;
    ParentsOpen(p.files, placed, s, |place| - 1);
    WithParentsAdds(p.files, place, |place| - 1);
    PlaceIsFree(p.files, placed, s);
    var parents := OpenParent(p.files, place).value;
    assert place !in parents;
    StillExact(p.files, parents, placed, s);
  }

  lemma StillExact(before: Files, parents: Files, placed: seq<Source>, s: Source)
    requires ExactTree(before, placed)
    requires AddsParents(before, parents, PlaceOf(s), |PlaceOf(s)| - 1)
    requires PlaceOf(s) in parents ==> parents[PlaceOf(s)] == NodeOf(s)
    ensures ExactTree(Taken(parents, s), placed + [s])
  {
    hide PlaceOf, NodeOf;
  }

  lemma ReplayStep(item: Item, more: seq<Item>, entries: seq<Entry>, p: Progress, blobId: seq<byte> -> seq<byte>)
    requires FirstNext(item, entries, p, blobId).Some?
    ensures Replay([item] + more, entries, p, blobId)
         == Replay(more, if item.File? then entries[1..] else entries,
                   FirstNext(item, entries, p, blobId).value, blobId)
  {
  }

  /** The manifest entries of one source: one for a file, none for a folder. */
  function OwnEntries(s: Source, blobId: seq<byte> -> seq<byte>): seq<Entry> {
    if IsFolder(s) then [] else [EntryOf(s, blobId)]
  }

  /** A member plays back once its path is known, whatever follows. */
  lemma MemberPlaysBack(
    p: Progress, placed: seq<Source>, s: Source, more: seq<Item>, entries: seq<Entry>, blobId: seq<byte> -> seq<byte>)
    returns (q: Progress)
    requires Archivable(s) && ExactTree(p.files, placed)
    requires forall r :: r in placed ==> Apart(r, s) && Apart(s, r)
    requires EffectivePath(p, MemberItem(s).own) == Some(s.path)
    ensures Replay([MemberItem(s)] + more, OwnEntries(s, blobId) + entries, p, blobId)
            == Replay(more, entries, q, blobId)
    ensures q == p.(files := q.files, pending := None) && ExactTree(q.files, placed + [s])
  {
    hide Replay, ExactTree, AfterFile, AfterDirectory, PlaceOf, Archivable, MemberItem, EffectivePath;
    var all := OwnEntries(s, blobId) + entries;
    if IsFolder(s) {
      FolderExtracts(p, placed, s, MemberItem(s).own);
      q := AfterDirectory(p, MemberItem(s).own).value;
      assert all == entries;
    } else {
      FileExtracts(p, placed, s, MemberItem(s).own, blobId);
      q := AfterFile(p, MemberItem(s), EntryOf(s, blobId), blobId).value;
      assert all[1..] == entries;
    }
    ReplayStep(MemberItem(s), more, all, p, blobId);
  }

  /** One source plays back from its own members and its own entries, whatever follows. */
  lemma SourcePlaysBack(
    p: Progress, placed: seq<Source>, s: Source, more: seq<Item>, entries: seq<Entry>, blobId: seq<byte> -> seq<byte>)
    returns (q: Progress)
    requires Archivable(s) && p.pending == None && ExactTree(p.files, placed)
    requires forall r :: r in placed ==> Apart(r, s) && Apart(s, r)
    requires s.naming.InHeader? ==> MemberItem(s).own == Some(s.path)
    ensures Replay(SourceItems(s) + more, OwnEntries(s, blobId) + entries, p, blobId)
            == Replay(more, entries, q, blobId)
    ensures q == p.(files := q.files, extended := p.extended + if s.naming.InRecord? then 1 else 0)
    ensures ExactTree(q.files, placed + [s])
  {
    hide Replay, ExactTree, PlaceOf, Archivable, MemberItem, OwnEntries;
    var p1 := if s.naming.InRecord? then p.(pending := Some(s.path), extended := p.extended + 1) else p;
    q := MemberPlaysBack(p1, placed, s, more, entries, blobId);
    if s.naming.InRecord? {
      ReplayStep(ExtendedHeader(s.path), [MemberItem(s)] + more, OwnEntries(s, blobId) + entries, p, blobId);
      assert SourceItems(s) + more == [ExtendedHeader(s.path)] + ([MemberItem(s)] + more);
    }
  }

  lemma NoneCollides(placed: seq<Source>, sources: seq<Source>)
    requires sources != [] && Disjoint(placed + sources)
    ensures forall r :: r in placed ==> Apart(r, sources[0]) && Apart(sources[0], r)
  {
    hide Apart;
    var all := placed + sources;
    forall r | r in placed
      ensures Apart(r, sources[0]) && Apart(sources[0], r)
    {
      var i :| 0 <= i < |placed| && placed[i] == r;
      assert all[i] == r && all[|placed|] == sources[0];
    }
  }

  lemma MembersOfAll(sources: seq<Source>, blobId: seq<byte> -> seq<byte>)
    requires sources != []
    ensures MemberItems(sources) == SourceItems(sources[0]) + MemberItems(sources[1..])
    ensures EntriesOf(sources, blobId) == OwnEntries(sources[0], blobId) + EntriesOf(sources[1..], blobId)
    ensures RecordCount(sources) == (if sources[0].naming.InRecord? then 1 else 0) + RecordCount(sources[1..])
  {
  }

  lemma NothingPlaysBack(p: Progress, blobId: seq<byte> -> seq<byte>)
    ensures Replay(MemberItems([]), EntriesOf([], blobId), p, blobId) == Some((p, []))
  {
  }

  lemma {:induction false} SourcesPlayBack(
    p: Progress, placed: seq<Source>, sources: seq<Source>, blobId: seq<byte> -> seq<byte>)
    returns (end: Progress)
    requires Disjoint(placed + sources) && forall s :: s in sources ==> Archivable(s)
    requires p.pending == None && ExactTree(p.files, placed)
    requires forall s :: s in sources && s.naming.InHeader? ==> MemberItem(s).own == Some(s.path)
    ensures Replay(MemberItems(sources), EntriesOf(sources, blobId), p, blobId) == Some((end, []))
    ensures end == p.(files := end.files, extended := p.extended + RecordCount(sources))
    ensures ExactTree(end.files, placed + sources)
    decreases sources
  {
    hide MemberItem, Archivable, PlaceOf, ExactTree, Disjoint, Replay, SourceItems, OwnEntries, EntriesOf, MemberItems;
    hide Apart, RecordCount;
    if sources == [] {
      assert placed + sources == placed;
      NothingPlaysBack(p, blobId);
      NoRecords();
      end := p;
    } else {
      var s, rest := sources[0], sources[1..];
      assert s in sources && forall r :: r in rest ==> r in sources;
      NoneCollides(placed, sources);
      var q := SourcePlaysBack(p, placed, s, MemberItems(rest), EntriesOf(rest, blobId), blobId);
      assert (placed + [s]) + rest == placed + sources;
      end := SourcesPlayBack(q, placed + [s], rest, blobId);
      MembersOfAll(sources, blobId);
    }
  }

  lemma NoRecords()
    ensures RecordCount([]) == 0
  {
  }

  lemma ArchiveReadsBack(sources: seq<Source>, commit: seq<byte>)
    requires NUL !in commit && |commit| < PATH_MAX && forall s :: s in sources ==> Archivable(s)
    ensures Items(WriteArchive(sources, commit), commit) == Prepend(GlobalHeader, Some(MemberItems(sources)))
  {
    MembersReadBack(sources, commit);
    GlobalReadsBack(commit);
    ChunkReadsFirst(WriteGlobal(commit), GlobalHeader, WriteMembers(sources) + Zeros(2 * BLOCK_SIZE), commit);
  }

  /**
   Any list of files and folders with usable paths, none of them at or below a file's,
   is extracted back: exactly those files with their contents and execute bits, those
   folders, the folders above them, and nothing else. Members may come in any order
   and with any of the modes and ways of naming.
   */
  lemma WrittenArchiveExtracts(sources: seq<Source>, x: Expected) returns (files: Files)
    requires Disjoint(sources) && forall s :: s in sources ==> Archivable(s)
    requires NUL !in x.commit && |x.commit| < PATH_MAX
    requires x.files == FileCount(sources) && x.extended == RecordCount(sources)
    requires forall s :: s in sources && !IsFolder(s) ==> ValidEntry(EntryOf(s, x.blobId))
    ensures Outcome(WriteArchive(sources, x.commit), PrintManifest(EntriesOf(sources, x.blobId)), START, 0, x)
      == Some(files)
    ensures ExactTree(files, sources)
  {
    hide WriteArchive, MemberItems, MemberItem, Archivable, PlaceOf, FileCount, RecordCount;
    hide Items, Entries, PrintManifest, ValidEntry, Components, Replay;
    var entries := EntriesOf(sources, x.blobId);
    EntriesArePrinted(PrintManifest(entries), entries);
    ArchiveReadsBack(sources, x.commit);
    forall s | s in sources && s.naming.InHeader?
      ensures MemberItem(s).own == Some(s.path)
    {
      MemberItemReadsBack(s, x.commit);
    }
    assert [] + sources == sources;
    var end := SourcesPlayBack(START.(globals := 1), [], sources, x.blobId);
    SettleSkipsItem(GlobalHeader, Some(MemberItems(sources)), Some(entries), START, 0, x);
    files := end.files;
  }
}
