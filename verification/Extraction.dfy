/**
 Extraction of the release archive in lock-step with the git manifest, into a
 staging directory that starts empty. Content hashing is a parameter, and every
 system call may fail.
 */
module Extraction {
  import opened Bytes
  import opened Octal
  import opened Paths
  import opened Pax
  import opened Manifest
  import opened Tar

  /** A place below the staging directory, as its list of names; the staging directory itself is `[]`. */
  type Place = seq<seq<byte>>

  datatype Node = Folder | Regular(executable: bool, content: seq<byte>)

  type Files = map<Place, Node>

  /** What the reader remembers between members. */
  datatype Progress = Progress(
    files: Files,
    pending: Option<seq<byte>>,
    globals: nat,
    extended: nat)

  const START := Progress(map[], None, 0, 0)

  /** The frozen expectations: the commit, the number of extended headers and of files, and the blob hash. */
  datatype Expected = Expected(commit: seq<byte>, extended: nat, files: nat, blobId: seq<byte> -> seq<byte>)

  /** `mkdir` (an existing name is fine), then `open` as a directory. */
  function Enter(files: Files, here: Place): Option<Files>
    requires here != []
  {
    if |here[|here| - 1]| > NAME_MAX then None
    else if here !in files then Some(files[here := Folder])
    else if files[here] == Folder then Some(files)
    else None
  }

  /** Enters the first `n` names of `place` one after the other. */
  function WithParents(files: Files, place: Place, n: nat): (result: Option<Files>)
    requires n <= |place|
  {
    if n == 0 then Some(files)
    else
      var before := WithParents(files, place, n - 1);
      if before == None then None else Enter(before.value, place[..n])
  }

  function OpenParent(files: Files, place: Place): Option<Files>
    requires place != []
  {
    if |place[|place| - 1]| > NAME_MAX then None else WithParents(files, place, |place| - 1)
  }

  function EffectivePath(p: Progress, own: Option<seq<byte>>): Option<seq<byte>> {
    if p.pending.Some? then p.pending else own
  }

  function AfterDirectory(p: Progress, own: Option<seq<byte>>): Option<Progress> {
    var path := EffectivePath(p, own);
    if path == None then None
    else
      var place := Components(path.value);
      var parents := OpenParent(p.files, place);
      if parents == None then None
      else
        var files := if place in parents.value then parents.value else parents.value[place := Folder];
        Some(p.(files := files, pending := None))
  }

  function AfterFile(p: Progress, f: Item, e: Entry, blobId: seq<byte> -> seq<byte>): Option<Progress>
    requires f.File?
  {
    var path := EffectivePath(p, f.own);
    if path == None || path.value != e.path || f.executable != e.executable || blobId(f.content) != e.oid then None
    else
      var place := Components(path.value);
      var parents := OpenParent(p.files, place);
      if parents == None || place in parents.value then None
      else Some(p.(files := parents.value[place := Regular(f.executable, f.content)], pending := None))
  }

  function AfterHeader(p: Progress, item: Item): Option<Progress>
    requires item.GlobalHeader? || item.ExtendedHeader?
  {
    match item
    case GlobalHeader => if p.globals != 0 then None else Some(p.(globals := 1))
    case ExtendedHeader(path) =>
      if p.pending.Some? then None else Some(p.(pending := Some(path), extended := p.extended + 1))
  }

  /** Plays archive members against manifest entries; what is left of the entries comes back too. */
  function Replay(items: seq<Item>, entries: seq<Entry>, p: Progress, blobId: seq<byte> -> seq<byte>)
    : Option<(Progress, seq<Entry>)>
  {
    if items == [] then Some((p, entries))
    else
      var next :=
        match items[0]
        case Directory(own) => AfterDirectory(p, own)
        case File(_, _, _) => if entries == [] then None else AfterFile(p, items[0], entries[0], blobId)
        case _ => AfterHeader(p, items[0]);
      if next == None then None
      else Replay(items[1..], if items[0].File? then entries[1..] else entries, next.value, blobId)
  }

  predicate Complete(p: Progress, left: seq<Entry>, count: nat, x: Expected) {
    p.pending == None && left == [] && count == x.files && p.globals == 1 && p.extended == x.extended
  }

  /** What playing decoded members against decoded entries leaves behind, if all of it is in order. */
  function Settle(items: Option<seq<Item>>, entries: Option<seq<Entry>>, p: Progress, done: nat, x: Expected)
    : Option<Files>
  {
    if items == None || entries == None then None
    else
      var end := Replay(items.value, entries.value, p, x.blobId);
      if end.Some? && Complete(end.value.0, end.value.1, done + |entries.value|, x)
      then Some(end.value.0.files) else None
  }

  /**
   Extraction in three separate phases: read the whole archive, read the whole
   manifest, play one against the other. `done` files were extracted before.
   */
  function Outcome(archive: seq<byte>, manifest: seq<byte>, p: Progress, done: nat, x: Expected): Option<Files> {
    Settle(Items(archive, x.commit), Entries(manifest), p, done, x)
  }

  // ----- The streaming extractor

  /** `fails(t)` says whether the system call made at time `t` fails. */
  type Faults = nat -> bool

  ghost predicate Faultless(fails: Faults) {
    forall t :: !fails(t)
  }

  /** What the part of `path` before its next slash is, in terms of the place `path` names. */
  lemma SplitStep(path: seq<byte>, segment: nat, slash: nat, place: Place, n: nat)
    requires segment <= slash <= |path| && (slash < |path| ==> path[slash] == SLASH)
    requires forall i :: segment <= i < slash ==> path[i] != SLASH
    requires n < |place| && place[n..] == Components(path[segment..])
    ensures path[segment..slash] == place[n]
    ensures place[..n] + [place[n]] == place[..n + 1]
    ensures if slash == |path| then n + 1 == |place|
            else n + 1 < |place| && place[n + 1..] == Components(path[slash + 1..])
  {
    var rest := path[segment..];
    assert IndexFrom(rest, SLASH, 0) == slash - segment;
    assert rest[..slash - segment] == path[segment..slash];
    assert place[n..][0] == place[n] && place[n..][1..] == place[n + 1..];
    if slash < |path| {
      assert rest[slash - segment + 1..] == path[slash + 1..];
    } else {
      assert rest == path[segment..slash];
    }
  }

  method OpenParentOf(files: Files, path: seq<byte>, fails: Faults, now: nat)
    returns (parents: Option<Files>, time: nat)
    ensures parents.Some? ==> parents == OpenParent(files, Components(path))
    ensures Faultless(fails) ==> parents == OpenParent(files, Components(path))
  {
    hide Components;
    ghost var place := Components(path);
    var current: Place, segment, made := [], 0, files;
    time := now;
    assert path[0..] == path;
    while true
      invariant 0 <= segment <= |path| && |current| < |place|
      invariant current == place[..|current|] && place[|current|..] == Components(path[segment..])
      invariant WithParents(files, place, |current|) == Some(made)
      decreases |path| - segment
    {
      var slash := FindSlash(path, segment);
      var part := path[segment..slash];
      SplitStep(path, segment, slash, place, |current|);
      if slash == |path| {
        return if |part| > NAME_MAX || fails(time) then None else Some(made), time + 1;
      }
      current := current + [part];
      var entered := Enter(made, current);
      ParentsStayBlocked(files, place, |current|);
      if entered == None || fails(time) {
        return None, time + 1;
      }
      made, segment, time := entered.value, slash + 1, time + 1;
    }
  }

  /** A name of more than 255 bytes anywhere in the path cannot be opened. */
  lemma {:induction false} LongNameIsRefused(files: Files, place: Place, i: nat)
    requires i < |place| && |place[i]| > 255
    ensures OpenParent(files, place) == None
  {
    if i < |place| - 1 {
      assert place[..i + 1][i] == place[i];
      assert WithParents(files, place, i + 1) == None;
      ParentsStayBlockedTo(files, place, i + 1, |place| - 1);
    }
  }

  lemma ParentsStayBlocked(files: Files, place: Place, n: nat)
    requires n < |place|
    ensures WithParents(files, place, n) == None ==> OpenParent(files, place) == None
  {
    var m := |place| - 1;
    if WithParents(files, place, n) == None {
      ParentsStayBlockedTo(files, place, n, m);
    }
  }

  lemma {:induction false} ParentsStayBlockedTo(files: Files, place: Place, n: nat, m: nat)
    requires n <= m <= |place| && WithParents(files, place, n) == None
    ensures WithParents(files, place, m) == None
    decreases m
  {
    if n < m {
      ParentsStayBlockedTo(files, place, n, m - 1);
    }
  }

  /** Where the streaming extractor stands in both inputs, and what it has built. */
  datatype Cursor = Cursor(archive: nat, manifest: nat, progress: Progress, count: nat)

  ghost predicate Within(c: Cursor, archive: seq<byte>, manifest: seq<byte>) {
    c.archive <= |archive| && c.manifest <= |manifest|
  }

  ghost function Remaining(c: Cursor, archive: seq<byte>, manifest: seq<byte>, x: Expected): Option<Files>
    requires Within(c, archive, manifest)
  {
    Outcome(archive[c.archive..], manifest[c.manifest..], c.progress, c.count, x)
  }

  function NextProgress(p: Progress, item: Item): Option<Progress>
    requires !item.File?
  {
    if item.Directory? then AfterDirectory(p, item.own) else AfterHeader(p, item)
  }

  function Prepend<T>(head: T, tail: Option<seq<T>>): Option<seq<T>> {
    if tail == None then None else Some([head] + tail.value)
  }

  lemma SettleSkipsItem(
    item: Item, items: Option<seq<Item>>, entries: Option<seq<Entry>>, p: Progress, done: nat, x: Expected)
    requires !item.File?
    ensures var q := NextProgress(p, item);
            Settle(Prepend(item, items), entries, p, done, x)
            == if q == None then None else Settle(items, entries, q.value, done, x)
  {
  }

  lemma SettleSkipsFile(
    item: Item, items: Option<seq<Item>>, e: Entry, entries: Option<seq<Entry>>, p: Progress, done: nat, x: Expected)
    requires item.File?
    ensures var q := AfterFile(p, item, e, x.blobId);
            Settle(Prepend(item, items), Prepend(e, entries), p, done, x)
            == if q == None then None else Settle(items, entries, q.value, done + 1, x)
    ensures Settle(Prepend(item, items), Some([]), p, done, x) == None
  {
  }

  lemma ItemsStep(rest: seq<byte>, commit: seq<byte>)
    requires |rest| >= BLOCK_SIZE && !AllZero(rest[..BLOCK_SIZE])
    ensures Items(rest, commit) == (
            var first := FirstItem(rest, commit);
            if first == None then None else Prepend(first.value.0, Items(rest[first.value.1..], commit)))
  {
  }

  lemma EntriesStep(listing: seq<byte>, e: Entry)
    requires FirstEntry(listing) == Some(e)
    ensures Entries(listing) == Prepend(e, Entries(listing[EntryLength(e)..]))
  {
  }

  method ReadHeader(h: seq<byte>) returns (numbers: Option<(nat, nat)>)
    requires |h| == BLOCK_SIZE
    ensures numbers.Some? <==> ValidHeader(h) && ModeOf(h).Some? && SizeOf(h).Some?
    ensures numbers.Some? ==> numbers.value == (ModeOf(h).value, SizeOf(h).value)
  {
    if h[MAGIC_AT..MAGIC_END] != MAGIC {
      return None;
    }
    var checked := ValidTarChecksum(h);
    if !checked || h[LINK_AT] != NUL {
      return None;
    }
    var mode := ParseOctal(h[NAME_END..MODE_END]);
    var size := ParseOctal(h[SIZE_AT..SIZE_END]);
    return if mode == None || size == None then None else Some((mode.value % MODE_BITS, size.value));
  }

  lemma UnreadableHeader(archive: seq<byte>, at: nat, x: Expected)
    requires at + BLOCK_SIZE <= |archive|
    requires var h := archive[at..at + BLOCK_SIZE]; !ValidHeader(h) || ModeOf(h) == None || SizeOf(h) == None
    ensures FirstItem(archive[at..], x.commit) == None
  {
    assert archive[at..][..BLOCK_SIZE] == archive[at..at + BLOCK_SIZE];
  }

  /** The next member is not a file and takes `p` to `next`. */
  ghost predicate MovesTo(p: Progress, rest: seq<byte>, extent: nat, next: Option<Progress>, x: Expected) {
    var first := FirstItem(rest, x.commit);
    first.Some? && first.value.1 == extent && !first.value.0.File? && NextProgress(p, first.value.0) == next
  }

  /** There is no next member, or it is not a file and cannot be applied. */
  ghost predicate Stuck(p: Progress, rest: seq<byte>, x: Expected) {
    var first := FirstItem(rest, x.commit);
    first == None || (!first.value.0.File? && NextProgress(p, first.value.0) == None)
  }

  ghost predicate Readable(h: seq<byte>, mode: nat, size: nat) {
    |h| == BLOCK_SIZE && ValidHeader(h) && ModeOf(h) == Some(mode) && SizeOf(h) == Some(size)
  }

  lemma FirstItemAt(archive: seq<byte>, at: nat, mode: nat, size: nat, x: Expected)
    requires at + BLOCK_SIZE <= |archive|
    requires Readable(archive[at..at + BLOCK_SIZE], mode, size)
    ensures at + Extent(size) > |archive| ==> FirstItem(archive[at..], x.commit) == None
    ensures at + Extent(size) <= |archive| ==>
              var body := at + BLOCK_SIZE;
              var item := Meaning(archive[at..body], archive[body..body + size], x.commit);
              FirstItem(archive[at..], x.commit) == if item == None then None else Some((item.value, Extent(size)))
  {
    var rest := archive[at..];
    assert rest[..BLOCK_SIZE] == archive[at..at + BLOCK_SIZE];
    if at + Extent(size) <= |archive| {
      assert rest[BLOCK_SIZE..BLOCK_SIZE + size] == archive[at + BLOCK_SIZE..at + BLOCK_SIZE + size];
    }
  }

  /** A `g` or `x` member: its payload is read whole, then its padding. */
  method ReadExtended(archive: seq<byte>, at: nat, mode: nat, size: nat, p: Progress, x: Expected, fails: bool)
    returns (next: Option<Progress>)
    requires at + BLOCK_SIZE <= |archive| && NUL !in x.commit
    requires Readable(archive[at..at + BLOCK_SIZE], mode, size)
    requires archive[at + TYPE_AT] == TYPE_GLOBAL || archive[at + TYPE_AT] == TYPE_EXTENDED
    ensures next.Some? ==> MovesTo(p, archive[at..], Extent(size), next, x)
    ensures !fails && next == None ==> Stuck(p, archive[at..], x)
  {
    hide ValidHeader, ModeOf, SizeOf, FirstRecord, AcceptedRecord;
    var h := archive[at..at + BLOCK_SIZE];
    assert h[TYPE_AT] == archive[at + TYPE_AT];
    FirstItemAt(archive, at, mode, size, x);
    var global := h[TYPE_AT] == TYPE_GLOBAL;
    if mode != MODE_0666 || size == 0 || size > MAX_EXTENDED
      || (global && (p.globals != 0 || !(GLOBAL_NAME <= h[..NAME_END])))
      || (!global && p.pending.Some?)
      || at + Extent(size) > |archive| || fails
    {
      return None;
    }
    var payload := archive[at + BLOCK_SIZE..at + BLOCK_SIZE + size];
    var accepted, path := PaxRecords(payload, global, x.commit, p.pending.Some?);
    WholePayload(payload, global, x.commit);
    if !accepted {
      return None;
    }
    if global {
      return Some(p.(globals := p.globals + 1));
    }
    return Some(p.(pending := Some(path), extended := p.extended + 1));
  }

  lemma DirectoryAt(archive: seq<byte>, at: nat, mode: nat, size: nat, x: Expected)
    requires at + BLOCK_SIZE <= |archive|
    requires Readable(archive[at..at + BLOCK_SIZE], mode, size)
    requires archive[at + TYPE_AT] == TYPE_DIRECTORY && ModeAllowed(TYPE_DIRECTORY, mode)
    ensures FirstItem(archive[at..], x.commit) ==
            if size == 0 then Some((Directory(OwnPath(archive[at..at + BLOCK_SIZE])), Extent(0))) else None
  {
    assert archive[at..at + BLOCK_SIZE][TYPE_AT] == archive[at + TYPE_AT];
    assert Extent(0) == BLOCK_SIZE;
    FirstItemAt(archive, at, mode, size, x);
    if size == 0 {
      assert archive[at + BLOCK_SIZE..at + BLOCK_SIZE + size] == [];
    }
  }

  method ReadDirectory(
    archive: seq<byte>, at: nat, mode: nat, size: nat, p: Progress, x: Expected, fails: Faults, now: nat)
    returns (next: Option<Progress>, time: nat)
    requires at + BLOCK_SIZE <= |archive|
    requires Readable(archive[at..at + BLOCK_SIZE], mode, size)
    requires archive[at + TYPE_AT] == TYPE_DIRECTORY && ModeAllowed(TYPE_DIRECTORY, mode)
    ensures next.Some? ==> MovesTo(p, archive[at..], Extent(size), next, x)
    ensures Faultless(fails) && next == None ==> Stuck(p, archive[at..], x)
  {
    var own := OwnPath(archive[at..at + BLOCK_SIZE]);
    DirectoryAt(archive, at, mode, size, x);
    time := now;
    var path := EffectivePath(p, own);
    if path == None {
      return None, time;
    }
    var parents;
    parents, time := OpenParentOf(p.files, path.value, fails, time);
    if parents == None || size != 0 || fails(time) {
      return None, time;
    }
    var place := Components(path.value);
    var files := parents.value;
    if place !in files {
      files := files[place := Folder];
    }
    return Some(p.(files := files, pending := None)), time + 1;
  }

  /** The next member is a file, the next manifest entry is `e`, and together they take `p` to `next`. */
  ghost predicate FileMovesTo(
    p: Progress, rest: seq<byte>, extent: nat, listing: seq<byte>, e: Entry, next: Option<Progress>, x: Expected) {
    var first := FirstItem(rest, x.commit);
    && first.Some? && first.value.1 == extent && first.value.0.File?
    && FirstEntry(listing) == Some(e) && AfterFile(p, first.value.0, e, x.blobId) == next
  }

  ghost predicate FileStuck(p: Progress, rest: seq<byte>, listing: seq<byte>, x: Expected) {
    var first := FirstItem(rest, x.commit);
    || first == None
    || (first.value.0.File?
        && (FirstEntry(listing) == None || AfterFile(p, first.value.0, FirstEntry(listing).value, x.blobId) == None))
  }

  /** A regular file: its manifest entry is read, then its content is streamed and hashed. */
  method ReadFile(
    archive: seq<byte>, at: nat, mode: nat, size: nat, manifest: seq<byte>, from: nat,
    p: Progress, x: Expected, fails: Faults, now: nat)
    returns (next: Option<Progress>, after: nat, time: nat, ghost e: Entry)
    requires at + BLOCK_SIZE <= |archive| && from <= |manifest|
    requires Readable(archive[at..at + BLOCK_SIZE], mode, size)
    requires var t := archive[at + TYPE_AT]; (t == NUL || t == TYPE_FILE) && ModeAllowed(t, mode)
    ensures next.Some? ==>
              && FileMovesTo(p, archive[at..], Extent(size), manifest[from..], e, next, x)
              && after == from + EntryLength(e) <= |manifest|
    ensures Faultless(fails) && next == None ==> FileStuck(p, archive[at..], manifest[from..], x)
  {
    var h := archive[at..at + BLOCK_SIZE];
    assert h[TYPE_AT] == archive[at + TYPE_AT];
    FirstItemAt(archive, at, mode, size, x);
    time, after, e := now, from, Entry([], false, []);
    var path := EffectivePath(p, OwnPath(h));
    if path == None {
      return None, after, time, e;
    }
    var parents;
    parents, time := OpenParentOf(p.files, path.value, fails, time);
    if parents == None {
      return None, after, time, e;
    }
    var entry;
    entry, after := ReadManifestEntry(manifest, from);
    if entry == None {
      return None, after, time, e;
    }
    e := entry.value;
    var executable := IsExecutable(mode);
    var place := Components(path.value);
    if path.value != entry.value.path || executable != entry.value.executable
      || place in parents.value || at + Extent(size) > |archive| || fails(time)
    {
      return None, after, time, e;
    }
    var content := archive[at + BLOCK_SIZE..at + BLOCK_SIZE + size];
    if x.blobId(content) != entry.value.oid {
      return None, after, time, e;
    }
    var files := parents.value[place := Regular(executable, content)];
    return Some(p.(files := files, pending := None)), after, time + 1, e;
  }

  ghost predicate SameOutcome(c: Cursor, d: Cursor, archive: seq<byte>, manifest: seq<byte>, x: Expected) {
    && Within(c, archive, manifest) && Within(d, archive, manifest)
    && Remaining(c, archive, manifest, x) == Remaining(d, archive, manifest, x)
  }

  lemma AfterItem(c: Cursor, d: Cursor, archive: seq<byte>, manifest: seq<byte>, x: Expected)
    requires Within(c, archive, manifest) && c.archive + BLOCK_SIZE <= |archive|
    requires !AllZero(archive[c.archive..c.archive + BLOCK_SIZE])
    requires c.archive <= d.archive
      && MovesTo(c.progress, archive[c.archive..], d.archive - c.archive, Some(d.progress), x)
    requires d.manifest == c.manifest && d.count == c.count
    ensures SameOutcome(c, d, archive, manifest, x)
  {
    hide FirstItem, Items, Entries, Settle, NextProgress;
    var rest := archive[c.archive..];
    var (item, n) := FirstItem(rest, x.commit).value;
    assert rest[..BLOCK_SIZE] == archive[c.archive..c.archive + BLOCK_SIZE];
    assert rest[n..] == archive[d.archive..];
    ItemsStep(rest, x.commit);
    SettleSkipsItem(item, Items(rest[n..], x.commit), Entries(manifest[c.manifest..]), c.progress, c.count, x);
  }

  lemma AfterStuck(c: Cursor, archive: seq<byte>, manifest: seq<byte>, x: Expected)
    requires Within(c, archive, manifest) && c.archive + BLOCK_SIZE <= |archive|
    requires !AllZero(archive[c.archive..c.archive + BLOCK_SIZE])
    requires Stuck(c.progress, archive[c.archive..], x)
    ensures Remaining(c, archive, manifest, x) == None
  {
  }

  lemma AfterExtracted(c: Cursor, d: Cursor, e: Entry, archive: seq<byte>, manifest: seq<byte>, x: Expected)
    requires Within(c, archive, manifest) && c.archive + BLOCK_SIZE <= |archive|
    requires !AllZero(archive[c.archive..c.archive + BLOCK_SIZE])
    requires c.archive <= d.archive
    requires FileMovesTo(c.progress, archive[c.archive..], d.archive - c.archive, manifest[c.manifest..], e,
      Some(d.progress), x)
    requires d.manifest == c.manifest + EntryLength(e) && d.count == c.count + 1
    ensures SameOutcome(c, d, archive, manifest, x)
  {
    hide FirstItem, Items, Entries, Settle, AfterFile, FirstEntry;
    var rest, listing := archive[c.archive..], manifest[c.manifest..];
    var (item, n) := FirstItem(rest, x.commit).value;
    assert rest[..BLOCK_SIZE] == archive[c.archive..c.archive + BLOCK_SIZE];
    assert rest[n..] == archive[d.archive..] && listing[EntryLength(e)..] == manifest[d.manifest..];
    ItemsStep(rest, x.commit);
    EntriesStep(listing, e);
    SettleSkipsFile(item, Items(rest[n..], x.commit), e, Entries(listing[EntryLength(e)..]), c.progress, c.count, x);
    assert Settle(Items(rest, x.commit), Entries(listing), c.progress, c.count, x)
        == Settle(Items(rest[n..], x.commit), Entries(listing[EntryLength(e)..]), d.progress, d.count, x);
  }

  lemma AfterFileStuck(c: Cursor, archive: seq<byte>, manifest: seq<byte>, x: Expected)
    requires Within(c, archive, manifest) && c.archive + BLOCK_SIZE <= |archive|
    requires !AllZero(archive[c.archive..c.archive + BLOCK_SIZE])
    requires FileStuck(c.progress, archive[c.archive..], manifest[c.manifest..], x)
    ensures Remaining(c, archive, manifest, x) == None
  {
  }

  lemma ArchiveEndsEarly(c: Cursor, archive: seq<byte>, manifest: seq<byte>, x: Expected)
    requires Within(c, archive, manifest) && |archive| < c.archive + BLOCK_SIZE
    ensures Remaining(c, archive, manifest, x) == None
  {
  }

  /**
   The single streaming pass. Whatever call fails, success means what the three
   separate phases would have built, and without failing calls it succeeds
   exactly when they do.
   */
  method ExtractArchive(archive: seq<byte>, manifest: seq<byte>, x: Expected, fails: Faults, now: nat)
    returns (extracted: Option<Files>, time: nat)
    requires NUL !in x.commit
    ensures extracted.Some? ==> extracted == Outcome(archive, manifest, START, 0, x)
    ensures Faultless(fails) ==> extracted == Outcome(archive, manifest, START, 0, x)
  {
    hide FirstItem, Entries, Settle, AfterFile, FirstEntry, NextProgress;
    hide ChecksumValid, Items, Padding, OctalField, AfterDirectory, AfterHeader;
    var c := Cursor(0, 0, START, 0);
    ghost var first := c;
    time := now;
    assert archive[0..] == archive && manifest[0..] == manifest;
    while c.archive + BLOCK_SIZE <= |archive|
      invariant SameOutcome(first, c, archive, manifest, x)
      decreases |archive| - c.archive
    {
      var h := archive[c.archive..c.archive + BLOCK_SIZE];
      if fails(time) {
        return None, time;
      }
      time := time + 1;
      if AllZero(h) {
        extracted := Finish(archive, manifest, c, x, fails(time));
        return extracted, time + 1;
      }
      var numbers := ReadHeader(h);
      if numbers == None {
        UnreadableHeader(archive, c.archive, x);
        AfterStuck(c, archive, manifest, x);
        return None, time;
      }
      var (mode, size) := numbers.value;
      var typeflag := h[TYPE_AT];
      var next;
      var d := c;
      if typeflag == TYPE_GLOBAL || typeflag == TYPE_EXTENDED {
        next := ReadExtended(archive, c.archive, mode, size, c.progress, x, fails(time));
        time := time + 1;
      } else if !ModeAllowed(typeflag, mode) {
        FirstItemAt(archive, c.archive, mode, size, x);
        AfterStuck(c, archive, manifest, x);
        return None, time;
      } else if typeflag == TYPE_DIRECTORY {
        next, time := ReadDirectory(archive, c.archive, mode, size, c.progress, x, fails, time);
      } else {
        ghost var e;
        var after;
        next, after, time, e :=
          ReadFile(archive, c.archive, mode, size, manifest, c.manifest, c.progress, x, fails, time);
        if next == None {
          if Faultless(fails) {
            AfterFileStuck(c, archive, manifest, x);
          }
          return None, time;
        }
        d := Cursor(c.archive + Extent(size), after, next.value, c.count + 1);
        AfterExtracted(c, d, e, archive, manifest, x);
        c := d;
        continue;
      }
      if next == None {
        if Faultless(fails) {
          AfterStuck(c, archive, manifest, x);
        }
        return None, time;
      }
      d := c.(archive := c.archive + Extent(size), progress := next.value);
      AfterItem(c, d, archive, manifest, x);
      c := d;
    }
    ArchiveEndsEarly(c, archive, manifest, x);
    return None, time;
  }

  /** The zero tail, the end of the manifest and the final counts. */
  method Finish(archive: seq<byte>, manifest: seq<byte>, c: Cursor, x: Expected, fails: bool)
    returns (extracted: Option<Files>)
    requires Within(c, archive, manifest) && c.archive + BLOCK_SIZE <= |archive|
    requires AllZero(archive[c.archive..c.archive + BLOCK_SIZE])
    ensures extracted.Some? ==> extracted == Remaining(c, archive, manifest, x)
    ensures !fails ==> extracted == Remaining(c, archive, manifest, x)
  {
    ghost var rest := archive[c.archive..];
    assert rest[..BLOCK_SIZE] == archive[c.archive..c.archive + BLOCK_SIZE];
    if c.archive + 2 * BLOCK_SIZE > |archive| || fails {
      return None;
    }
    var index := c.archive + BLOCK_SIZE;
    while index < |archive|
      invariant c.archive + BLOCK_SIZE <= index <= |archive|
      invariant forall i :: c.archive + BLOCK_SIZE <= i < index ==> archive[i] == NUL
    {
      if archive[index] != NUL {
        assert rest[index - c.archive] != NUL;
        return None;
      }
      index := index + 1;
    }
    assert forall i :: 0 <= i < BLOCK_SIZE ==> rest[i] == rest[..BLOCK_SIZE][i];
    assert AllZero(rest);
    var p := c.progress;
    if p.pending.Some? || c.count != x.files || p.globals != 1 || p.extended != x.extended || c.manifest != |manifest| {
      return None;
    }
    return Some(p.files);
  }
}
