/**
 The archive format the materializer reads: 512-byte ustar headers, `g` and `x`
 extended headers, file contents padded to blocks, and a zero tail
 (POSIX.1-2017, pax, EXTENDED DESCRIPTION, "ustar Interchange Format").
 */
module Tar {
  import opened Bytes
  import opened Octal
  import opened Paths
  import opened Pax

  /** One archive member. `own` is the path its own header names, when that is safe. */
  datatype Item =
    | GlobalHeader
    | ExtendedHeader(path: seq<byte>)
    | Directory(own: Option<seq<byte>>)
    | File(own: Option<seq<byte>>, executable: bool, content: seq<byte>)

  const NAME_END: nat := 100
  const MODE_END: nat := 108
  const SIZE_AT: nat := 124
  const SIZE_END: nat := 136
  const TYPE_AT: nat := 156
  const LINK_AT: nat := 157
  const MAGIC_AT: nat := 257
  const MAGIC_END: nat := 265
  const PREFIX_AT: nat := 345
  const PREFIX_END: nat := 500
  const MAX_EXTENDED: nat := 8192
  const MODE_BITS: nat := 0x1_0000

  const MODE_0644: nat := 420
  const MODE_0664: nat := 436
  const MODE_0666: nat := 438
  const MODE_0755: nat := 493
  const MODE_0775: nat := 509

  const TYPE_FILE: byte := 48
  const TYPE_DIRECTORY: byte := 53
  const TYPE_GLOBAL: byte := 103
  const TYPE_EXTENDED: byte := 120

  /** `ustar`, a NUL and version `00`. */
  const MAGIC: seq<byte> := [117, 115, 116, 97, 114, 0, 48, 48]
  const GLOBAL_NAME: seq<byte> :=
    [112, 97, 120, 95, 103, 108, 111, 98, 97, 108, 95, 104, 101, 97, 100, 101, 114]

  predicate ValidHeader(h: seq<byte>)
    requires |h| == BLOCK_SIZE
  {
    h[MAGIC_AT..MAGIC_END] == MAGIC && ChecksumValid(h) && h[LINK_AT] == NUL
  }

  /** `ustar`, a zero byte, version `00`, a right checksum, and no link name. */
  lemma ValidHeaderMeans(h: seq<byte>)
    requires |h| == 512
    ensures ValidHeader(h)
            <==> (&& Spells(h[257..262], "ustar") && h[262] == 0 && Spells(h[263..265], "00")
                  && ChecksumValid(h) && h[157] == 0)
  {
    hide ChecksumValid;
    var magic := h[257..265];
    assert h[257..262] == magic[..5] && h[262] == magic[5] && h[263..265] == magic[6..];
    assert MAGIC[..5] == [117, 115, 116, 97, 114] && MAGIC[6..] == [48, 48];
    if ValidHeader(h) {
    } else if Spells(magic[..5], "ustar") && magic[5] == 0 && Spells(magic[6..], "00") {
      forall i | 0 <= i < 8
        ensures magic[i] == MAGIC[i]
      {
        if i < 5 {
          assert magic[i] == magic[..5][i];
        } else if i > 5 {
          assert magic[i] == magic[6..][i - 6];
        }
      }
      assert magic == MAGIC;
    }
  }

  /** The mode field, cut to the sixteen bits of the platform's mode type. */
  function ModeOf(h: seq<byte>): Option<nat>
    requires |h| == BLOCK_SIZE
  {
    var m := OctalField(h[NAME_END..MODE_END]);
    if m == None then None else Some(m.value % MODE_BITS)
  }

  function SizeOf(h: seq<byte>): Option<nat>
    requires |h| == BLOCK_SIZE
  {
    OctalField(h[SIZE_AT..SIZE_END])
  }

  function OwnPath(h: seq<byte>): (path: Option<seq<byte>>)
    requires |h| == BLOCK_SIZE
  {
    TarPath(h[..NAME_END], h[PREFIX_AT..PREFIX_END])
  }

  predicate ModeAllowed(typeflag: byte, mode: nat) {
    if typeflag == TYPE_DIRECTORY then mode == MODE_0755 || mode == MODE_0775
    else
      (typeflag == NUL || typeflag == TYPE_FILE)
      && (mode == MODE_0644 || mode == MODE_0664 || mode == MODE_0755 || mode == MODE_0775)
  }

  predicate IsExecutable(mode: nat) {
    mode == MODE_0755 || mode == MODE_0775
  }

  function Padding(size: nat): (p: nat)
    ensures p < BLOCK_SIZE && (size + p) % BLOCK_SIZE == 0
  {
    var rest := size % BLOCK_SIZE;
    var p := (BLOCK_SIZE - rest) % BLOCK_SIZE;
    assert p == if rest == 0 then 0 else BLOCK_SIZE - rest;
    WholeBlocks(if rest == 0 then size / BLOCK_SIZE else size / BLOCK_SIZE + 1, size + p);
    p
  }

  lemma WholeBlocks(blocks: nat, size: nat)
    requires size == blocks * BLOCK_SIZE
    ensures size % BLOCK_SIZE == 0
  {
  }

  /** Bytes one member occupies: its header, its payload and the padding after it. */
  function Extent(size: nat): (n: nat)
    ensures n % BLOCK_SIZE == 0 && BLOCK_SIZE + size <= n
  {
    BLOCK_SIZE + size + Padding(size)
  }

  /** What a header and its payload mean, if the reader accepts them. */
  function Meaning(h: seq<byte>, payload: seq<byte>, commit: seq<byte>): Option<Item>
    requires |h| == BLOCK_SIZE && ModeOf(h).Some?
  {
    var mode, typeflag := ModeOf(h).value, h[TYPE_AT];
    if typeflag == TYPE_GLOBAL then
      if mode == MODE_0666 && 0 < |payload| <= MAX_EXTENDED && GLOBAL_NAME <= h[..NAME_END]
         && AcceptedRecord(payload, COMMENT_KEY, commit)
      then Some(GlobalHeader) else None
    else if typeflag == TYPE_EXTENDED then
      if mode == MODE_0666 && 0 < |payload| <= MAX_EXTENDED && PathOverride(payload).Some?
      then Some(ExtendedHeader(PathOverride(payload).value)) else None
    else if !ModeAllowed(typeflag, mode) then None
    else if typeflag == TYPE_DIRECTORY then
      if payload == [] then Some(Directory(OwnPath(h))) else None
    else Some(File(OwnPath(h), IsExecutable(mode), payload))
  }

  /** The member at the start of `rest` and the bytes it occupies. */
  function FirstItem(rest: seq<byte>, commit: seq<byte>): (first: Option<(Item, nat)>)
    ensures first.Some? ==> BLOCK_SIZE <= first.value.1 <= |rest|
  {
    if |rest| < BLOCK_SIZE then None
    else
      var h := rest[..BLOCK_SIZE];
      if !ValidHeader(h) || ModeOf(h) == None || SizeOf(h) == None then None
      else
        var size := SizeOf(h).value;
        if Extent(size) > |rest| then None
        else
          var item := Meaning(h, rest[BLOCK_SIZE..BLOCK_SIZE + size], commit);
          if item == None then None else Some((item.value, Extent(size)))
  }

  predicate AtEnd(rest: seq<byte>) {
    |rest| >= 2 * BLOCK_SIZE && AllZero(rest)
  }

  /** The members of an archive: item after item up to at least two zero blocks and nothing but zeros. */
  function Items(rest: seq<byte>, commit: seq<byte>): Option<seq<Item>>
    decreases |rest|
  {
    if |rest| >= BLOCK_SIZE && AllZero(rest[..BLOCK_SIZE]) then
      if AtEnd(rest) then Some([]) else None
    else
      var first := FirstItem(rest, commit);
      if first == None then None
      else
        var more := Items(rest[first.value.1..], commit);
        if more == None then None else Some([first.value.0] + more.value)
  }

  // ----- Soundness: a decoded archive is its members' bytes and a zero tail

  /** `bytes` is one whole member that reads as `item`. */
  predicate Encodes(bytes: seq<byte>, item: Item, commit: seq<byte>) {
    FirstItem(bytes, commit) == Some((item, |bytes|)) && |bytes| % BLOCK_SIZE == 0
  }

  ghost function Flatten(chunks: seq<seq<byte>>): seq<byte> {
    if chunks == [] then [] else chunks[0] + Flatten(chunks[1..])
  }

  lemma FirstItemOfPrefix(rest: seq<byte>, commit: seq<byte>)
    requires FirstItem(rest, commit).Some?
    ensures var (item, n) := FirstItem(rest, commit).value; Encodes(rest[..n], item, commit)
  {
    var (item, n) := FirstItem(rest, commit).value;
    var size := SizeOf(rest[..BLOCK_SIZE]).value;
    assert rest[..n][..BLOCK_SIZE] == rest[..BLOCK_SIZE];
    assert rest[..n][BLOCK_SIZE..BLOCK_SIZE + size] == rest[BLOCK_SIZE..BLOCK_SIZE + size];
  }

  lemma FirstItemIgnoresRest(bytes: seq<byte>, item: Item, more: seq<byte>, commit: seq<byte>)
    requires Encodes(bytes, item, commit)
    ensures FirstItem(bytes + more, commit) == Some((item, |bytes|))
  {
    var rest := bytes + more;
    var size := SizeOf(bytes[..BLOCK_SIZE]).value;
    assert rest[..BLOCK_SIZE] == bytes[..BLOCK_SIZE];
    assert rest[BLOCK_SIZE..BLOCK_SIZE + size] == bytes[BLOCK_SIZE..BLOCK_SIZE + size];
  }

  lemma HeaderIsNotZero(h: seq<byte>)
    requires |h| == BLOCK_SIZE && ValidHeader(h)
    ensures !AllZero(h)
  {
  }

  ghost predicate Laid(
    archive: seq<byte>, items: seq<Item>, chunks: seq<seq<byte>>, tail: seq<byte>, commit: seq<byte>) {
    && |chunks| == |items|
    && (forall i :: 0 <= i < |items| ==> Encodes(chunks[i], items[i], commit))
    && AtEnd(tail)
    && archive == Flatten(chunks) + tail
  }

  /** An archive reads as `items` exactly when it is one chunk per item followed by a zero tail. */
  lemma {:induction false} ItemsAreLaidOut(archive: seq<byte>, items: seq<Item>, commit: seq<byte>)
    ensures Items(archive, commit) == Some(items) <==> exists chunks, tail :: Laid(archive, items, chunks, tail, commit)
  {
    if Items(archive, commit) == Some(items) {
      var chunks, tail := LayOut(archive, items, commit);
    }
    if exists chunks, tail :: Laid(archive, items, chunks, tail, commit) {
      var chunks, tail :| Laid(archive, items, chunks, tail, commit);
      ReadBack(archive, items, chunks, tail, commit);
    }
  }

  lemma {:induction false} LayOut(archive: seq<byte>, items: seq<Item>, commit: seq<byte>)
    returns (chunks: seq<seq<byte>>, tail: seq<byte>)
    requires Items(archive, commit) == Some(items)
    ensures Laid(archive, items, chunks, tail, commit)
    decreases |archive|
  {
    hide ValidHeader, Meaning, ModeOf, SizeOf;
    if items == [] {
      chunks, tail := [], archive;
    } else {
      var (item, n) := FirstItem(archive, commit).value;
      FirstItemOfPrefix(archive, commit);
      assert items[1..] == Items(archive[n..], commit).value;
      chunks, tail := LayOut(archive[n..], items[1..], commit);
      var all := [archive[..n]] + chunks;
      assert all[1..] == chunks;
      assert archive == archive[..n] + archive[n..] == Flatten(all) + tail;
      forall i | 0 <= i < |items|
        ensures Encodes(all[i], items[i], commit)
      {
        if i > 0 {
          assert Encodes(chunks[i - 1], items[1..][i - 1], commit);
        }
      }
      chunks := all;
    }
  }

  lemma {:induction false} ReadBack(
    archive: seq<byte>, items: seq<Item>, chunks: seq<seq<byte>>, tail: seq<byte>, commit: seq<byte>)
    requires Laid(archive, items, chunks, tail, commit)
    ensures Items(archive, commit) == Some(items)
    decreases |items|
  {
    hide ValidHeader, Meaning, ModeOf, SizeOf;
    if items == [] {
      assert archive == tail;
    } else {
      var rest := Flatten(chunks[1..]) + tail;
      assert archive == chunks[0] + rest;
      FirstItemIgnoresRest(chunks[0], items[0], rest, commit);
      assert archive[..BLOCK_SIZE] == chunks[0][..BLOCK_SIZE];
      HeaderIsNotZero(archive[..BLOCK_SIZE]);
      assert archive[|chunks[0]|..] == rest;
      ReadBack(rest, items[1..], chunks[1..], tail, commit);
      assert items == [items[0]] + items[1..];
    }
  }

  // ----- Writing members

  datatype Fields = Fields(name: seq<byte>, mode: nat, size: nat, typeflag: byte, prefix: seq<byte>)

  const PREFIX_SIZE: nat := PREFIX_END - PREFIX_AT

  const MAX_SIZE: nat := 0x2_0000_0000

  predicate Writable(f: Fields) {
    |f.name| <= NAME_END && |f.prefix| <= PREFIX_SIZE && f.mode < 0x20_0000 && f.size < MAX_SIZE
  }

  function ModeField(f: Fields): (s: seq<byte>)
    ensures |s| == MODE_END - NAME_END
  {
    OctalDigits(f.mode, 7) + [NUL]
  }

  function SizeField(f: Fields): (s: seq<byte>)
    ensures |s| == SIZE_END - SIZE_AT
  {
    OctalDigits(f.size, 11) + [NUL]
  }

  function HeaderByte(f: Fields, i: nat): byte {
    if i < |f.name| && i < NAME_END then f.name[i]
    else if NAME_END <= i < MODE_END then ModeField(f)[i - NAME_END]
    else if SIZE_AT <= i < SIZE_END then SizeField(f)[i - SIZE_AT]
    else if i == TYPE_AT then f.typeflag
    else if MAGIC_AT <= i < MAGIC_END then MAGIC[i - MAGIC_AT]
    else if PREFIX_AT <= i < PREFIX_END && i - PREFIX_AT < |f.prefix| then f.prefix[i - PREFIX_AT]
    else NUL
  }

  function WriteHeader(f: Fields): (h: seq<byte>)
    ensures |h| == BLOCK_SIZE
  {
    Stamp(seq(BLOCK_SIZE, i requires 0 <= i => HeaderByte(f, i)))
  }

  lemma WrittenBytes(f: Fields)
    ensures forall i :: 0 <= i < BLOCK_SIZE && !(CHECKSUM_AT <= i < CHECKSUM_END) ==>
              WriteHeader(f)[i] == HeaderByte(f, i)
  {
  }

  lemma WrittenNumbers(f: Fields)
    requires Writable(f)
    ensures ModeOf(WriteHeader(f)) == Some(f.mode % MODE_BITS)
    ensures SizeOf(WriteHeader(f)) == Some(f.size)
  {
    var h := WriteHeader(f);
    WrittenBytes(f);
    assert h[NAME_END..MODE_END] == ModeField(f);
    assert h[SIZE_AT..SIZE_END] == SizeField(f);
    assert PowerOf8(3) == 512;
    assert PowerOf8(5) == 0x8000;
    assert PowerOf8(7) == 0x20_0000;
    assert PowerOf8(9) == 0x800_0000;
    assert PowerOf8(11) == MAX_SIZE;
    PrintedOctalParsesBack(f.mode, 7, [NUL]);
    PrintedOctalParsesBack(f.size, 11, [NUL]);
  }

  lemma WrittenHeader(f: Fields)
    requires Writable(f)
    ensures ValidHeader(WriteHeader(f)) && WriteHeader(f)[TYPE_AT] == f.typeflag
    ensures f.name <= WriteHeader(f)[..NAME_END]
  {
    var h := WriteHeader(f);
    WrittenBytes(f);
    StampedHeaderValidates(seq(BLOCK_SIZE, i requires 0 <= i => HeaderByte(f, i)));
    assert h[MAGIC_AT..MAGIC_END] == MAGIC;
    assert f.name == h[..NAME_END][..|f.name|];
  }

  /** The two fields a path is read from hold what was written, and NULs after it. */
  lemma WrittenNames(f: Fields)
    requires Writable(f)
    ensures WriteHeader(f)[..NAME_END] == Padded(f.name, NAME_END)
    ensures WriteHeader(f)[PREFIX_AT..PREFIX_END] == Padded(f.prefix, PREFIX_SIZE)
  {
    hide WriteHeader, ModeField, SizeField;
    var h := WriteHeader(f);
    WrittenBytes(f);
    forall i | 0 <= i < NAME_END
      ensures h[..NAME_END][i] == Padded(f.name, NAME_END)[i]
    {
    }
    forall i | 0 <= i < PREFIX_SIZE
      ensures h[PREFIX_AT..PREFIX_END][i] == Padded(f.prefix, PREFIX_SIZE)[i]
    {
      assert h[PREFIX_AT..PREFIX_END][i] == h[PREFIX_AT + i] == HeaderByte(f, PREFIX_AT + i);
    }
  }

  /** Where everything stands in the 512 bytes. */
  lemma WrittenLayout(f: Fields)
    requires Writable(f)
    ensures var h := WriteHeader(f);
            && |h| == 512 && h[..100] == Padded(f.name, 100) && h[345..500] == Padded(f.prefix, 155)
            && h[100..108] == OctalDigits(f.mode, 7) + [0] && h[124..136] == OctalDigits(f.size, 11) + [0]
            && h[156] == f.typeflag && h[157] == 0
  {
    WrittenNames(f);
    WrittenBytes(f);
    var h := WriteHeader(f);
    assert h[100..108] == ModeField(f) && h[124..136] == SizeField(f);
  }

  /** A path written in the name field, or split between prefix and name, is the path the header names. */
  lemma WrittenPath(f: Fields, name: seq<byte>, slash: bool, path: seq<byte>)
    requires Writable(f) && |f.prefix| < PREFIX_SIZE && NUL !in path && SafePath(path) && |path| + 1 < PATH_MAX
    requires path == (if f.prefix == [] then name else f.prefix + [SLASH] + name)
    requires f.name == if slash then name + [SLASH] else name
    ensures OwnPath(WriteHeader(f)) == Some(path)
  {
    hide WriteHeader, SafePath, TarPath, Padded;
    WrittenNames(f);
    assert NUL !in f.prefix && NUL !in name by {
      assert forall b :: b in f.prefix || b in name ==> b in path;
    }
    SplitPathReadsBack(f.prefix, name, NAME_END, PREFIX_SIZE, slash);
  }

  function Member(f: Fields, payload: seq<byte>): (bytes: seq<byte>)
    requires f.size == |payload|
    ensures |bytes| == Extent(|payload|)
  {
    WriteHeader(f) + payload + Zeros(Padding(|payload|))
  }

  lemma MemberReadsBack(h: seq<byte>, payload: seq<byte>, item: Item, commit: seq<byte>)
    requires |h| == BLOCK_SIZE && ValidHeader(h) && SizeOf(h) == Some(|payload|) && ModeOf(h).Some?
    requires Meaning(h, payload, commit) == Some(item)
    ensures Encodes(h + payload + Zeros(Padding(|payload|)), item, commit)
  {
    var bytes := h + payload + Zeros(Padding(|payload|));
    assert |bytes| == Extent(|payload|);
    assert bytes[..BLOCK_SIZE] == h;
    assert bytes[BLOCK_SIZE..BLOCK_SIZE + |payload|] == payload;
  }

  /** Both header members have mode 0666; their types are `g` and `x`. */
  function WriteGlobal(commit: seq<byte>): seq<byte> {
    var payload := PrintRecord(COMMENT_KEY, commit);
    Member(Fields(GLOBAL_NAME, 438, |payload|, 103, []), payload)
  }

  function WriteExtended(path: seq<byte>): seq<byte> {
    var payload := PrintRecord(PATH_KEY, path);
    Member(Fields([], 438, |payload|, 120, []), payload)
  }

  lemma GlobalReadsBack(commit: seq<byte>)
    requires NUL !in commit && |commit| < PATH_MAX
    ensures Encodes(WriteGlobal(commit), GlobalHeader, commit)
  {
    var payload := PrintRecord(COMMENT_KEY, commit);
    var f := Fields(GLOBAL_NAME, 438, |payload|, 103, []);
    PrintedLengthIsSmall(COMMENT_KEY, commit);
    PrintedRecordParsesBack(COMMENT_KEY, commit);
    WrittenHeader(f);
    WrittenNumbers(f);
    MemberReadsBack(WriteHeader(f), payload, GlobalHeader, commit);
  }

  lemma ExtendedReadsBack(path: seq<byte>, commit: seq<byte>)
    requires UsablePath(path) && NUL !in path
    ensures Encodes(WriteExtended(path), ExtendedHeader(path), commit)
  {
    var payload := PrintRecord(PATH_KEY, path);
    var f := Fields([], 438, |payload|, 120, []);
    PrintedLengthIsSmall(PATH_KEY, path);
    PrintedPathParsesBack(path);
    WrittenHeader(f);
    WrittenNumbers(f);
    MemberReadsBack(WriteHeader(f), payload, ExtendedHeader(path), commit);
  }

  /** The modes and types of members that place something, as numbers. */
  predicate Placing(f: Fields) {
    if f.typeflag == 53 then f.mode in {493, 509} && f.size == 0
    else f.typeflag in {0, 48} && f.mode in {420, 436, 493, 509}
  }

  /** The owner's execute bit. */
  predicate OwnerExecutes(mode: nat) {
    mode / 64 % 2 == 1
  }

  /** A member with one of these modes reads back, as a folder or as a file that is executable if its mode says so. */
  lemma EntryReadsBack(f: Fields, content: seq<byte>, commit: seq<byte>)
    requires Writable(f) && Placing(f.(mode := f.mode % 65536)) && f.size == |content|
    ensures var own := OwnPath(WriteHeader(f));
            Encodes(Member(f, content),
                    if f.typeflag == 53 then Directory(own) else File(own, OwnerExecutes(f.mode), content), commit)
  {
    hide ValidHeader, ModeOf, SizeOf, OwnPath, Encodes, WriteHeader, Placing, Meaning, OwnerExecutes;
    WrittenHeader(f);
    WrittenNumbers(f);
    var h, own := WriteHeader(f), OwnPath(WriteHeader(f));
    PlacingMeans(f.(mode := f.mode % 65536), h, content, commit);
    SixteenBitsExecute(f.mode);
    MemberReadsBack(
      h, content, if f.typeflag == 53 then Directory(own) else File(own, OwnerExecutes(f.mode), content), commit);
  }

  lemma PlacingMeans(f: Fields, h: seq<byte>, content: seq<byte>, commit: seq<byte>)
    requires |h| == BLOCK_SIZE && ModeOf(h) == Some(f.mode) && h[TYPE_AT] == f.typeflag
    requires Placing(f) && f.size == |content|
    ensures Meaning(h, content, commit)
            == Some(if f.typeflag == 53 then Directory(OwnPath(h))
                    else File(OwnPath(h), OwnerExecutes(f.mode), content))
  {
    hide ModeOf, OwnPath;
    assert f.typeflag == 53 ==> content == [];
  }

  lemma SixteenBitsExecute(mode: nat)
    ensures OwnerExecutes(mode % 65536) == OwnerExecutes(mode)
  {
    var high, low := mode / 65536, mode % 65536;
    var bits := low / 64;
    Divided(mode, 1024 * high + bits, low % 64);
    EvenPart(1024 * high + bits, 512 * high + bits / 2, bits % 2);
  }

  lemma Divided(n: nat, q: nat, r: nat)
    requires n == 64 * q + r && r < 64
    ensures n / 64 == q
  {
  }

  lemma EvenPart(n: nat, half: nat, bit: nat)
    requires n == 2 * half + bit && bit < 2
    ensures n % 2 == bit
  {
  }

  /** Members of any other mode or type are refused. */
  lemma OtherEntriesAreRefused(f: Fields, content: seq<byte>, commit: seq<byte>)
    requires Writable(f) && !Placing(f.(mode := f.mode % 65536)) && f.size == |content|
    requires f.typeflag != 103 && f.typeflag != 120
    ensures FirstItem(Member(f, content), commit) == None
  {
    hide ValidHeader, OwnPath, WriteHeader, OctalField;
    WrittenHeader(f);
    WrittenNumbers(f);
    var bytes := Member(f, content);
    assert bytes[..BLOCK_SIZE] == WriteHeader(f);
    assert bytes[BLOCK_SIZE..BLOCK_SIZE + |content|] == content;
  }

  /** A header member is taken with mode 0666 and one to 8192 bytes of payload, which must be the expected record. */
  lemma HeaderMembers(f: Fields, payload: seq<byte>, commit: seq<byte>)
    requires Writable(f) && (f.typeflag == 103 || f.typeflag == 120) && f.size == |payload|
    ensures var first := FirstItem(Member(f, payload), commit);
            first.Some?
            <==> (&& f.mode % 65536 == 438 && 0 < |payload| <= 8192
                  && if f.typeflag == 103 then
                       AcceptedRecord(payload, COMMENT_KEY, commit) && NamedGlobal(Padded(f.name, 100))
                     else PathOverride(payload).Some?)
    ensures var first := FirstItem(Member(f, payload), commit);
            first.Some? ==>
              first.value.0 == if f.typeflag == 103 then GlobalHeader else ExtendedHeader(PathOverride(payload).value)
  {
    hide ValidHeader, OwnPath, WriteHeader, OctalField, AcceptedRecord, PathOverride, Padded;
    WrittenHeader(f);
    WrittenNumbers(f);
    WrittenNames(f);
    var bytes := Member(f, payload);
    assert bytes[..BLOCK_SIZE] == WriteHeader(f);
    assert bytes[BLOCK_SIZE..BLOCK_SIZE + |payload|] == payload;
    var name := Padded(f.name, 100);
    assert GLOBAL_NAME <= name <==> NamedGlobal(name) by {
      if NamedGlobal(name) {
        assert name[..17] == GLOBAL_NAME;
      }
    }
  }

  predicate NamedGlobal(name: seq<byte>) {
    17 <= |name| && Spells(name[..17], "pax_global_header")
  }
}
