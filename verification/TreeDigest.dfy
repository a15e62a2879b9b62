/**
 The byte stream a release tree is hashed from: per entry four fields (name, octal
 mode, kind, payload), each behind its length in eight big-endian bytes.
 */
module TreeDigest {
  import opened Bytes
  import opened Lexical

  /**
   What `lstat` says an entry is. A link counts as inside when its target resolves
   below the root; a file as owned when it belongs to the user who hashes.
   */
  datatype Kind =
    | Folder
    | Link(target: seq<byte>, inside: bool)
    | Regular(content: seq<byte>, owned: bool)
    | Special

  datatype Entry = Entry(name: seq<byte>, mode: nat, kind: Kind)

  /** What `lstat` says the root itself is; a root that is a link is no directory. */
  datatype Root = Root(directory: bool, owned: bool, mode: nat)

  const MAX_FILE: nat := 256 * 1024 * 1024

  const WORD: nat := 8

  const HEADING: seq<byte> :=
    [78, 54, 95, 65, 73, 95, 73, 77, 77, 85, 84, 65, 66, 76, 69, 95, 84, 82, 69, 69, 95, 86, 49, 0]

  const DIRECTORY: seq<byte> := [100, 105, 114, 101, 99, 116, 111, 114, 121]
  const SYMLINK: seq<byte> := [115, 121, 109, 108, 105, 110, 107]
  const FILE: seq<byte> := [102, 105, 108, 101]

  predicate RootReady(root: Option<Root>) {
    root.Some? && root.value.directory && root.value.owned && !HasWriteBit(root.value.mode)
  }

  /** What the scan before hashing refuses: links that leave the tree, and anything else that can be written. */
  predicate Unsafe(e: Entry) {
    if e.kind.Link? then !e.kind.inside else HasWriteBit(e.mode)
  }

  predicate Hashable(e: Entry) {
    && !Unsafe(e) && !e.kind.Special?
    && (e.kind.Regular? ==> e.kind.owned && |e.kind.content| <= MAX_FILE)
  }

  function KindName(k: Kind): seq<byte> {
    match k
    case Folder => DIRECTORY
    case Link(_, _) => SYMLINK
    case Regular(_, _) => FILE
    case Special => []
  }

  function PayloadOf(k: Kind): seq<byte> {
    match k
    case Folder => []
    case Link(target, _) => target
    case Regular(content, _) => content
    case Special => []
  }

  // ----- Framing

  function BigEndian(n: nat, width: nat): (s: seq<byte>)
    ensures |s| == width
  {
    if width == 0 then [] else BigEndian(n / 256, width - 1) + [n % 256]
  }

  function FromBigEndian(s: seq<byte>): nat {
    if s == [] then 0 else 256 * FromBigEndian(s[..|s| - 1]) + s[|s| - 1]
  }

  function PowerOf256(n: nat): nat {
    if n == 0 then 1 else 256 * PowerOf256(n - 1)
  }

  lemma {:induction false} LengthReadsBack(n: nat, width: nat)
    requires n < PowerOf256(width)
    ensures FromBigEndian(BigEndian(n, width)) == n
    decreases width
  {
    if width > 0 {
      LengthReadsBack(n / 256, width - 1);
      var s := BigEndian(n, width);
      assert s[..|s| - 1] == BigEndian(n / 256, width - 1);
    }
  }

  /** Eight bytes, the highest first. */
  lemma WordReads(s: seq<byte>)
    requires |s| == 8
    ensures FromBigEndian(s)
            == s[0] as int * 0x100_0000_0000_0000 + s[1] as int * 0x1_0000_0000_0000
               + s[2] as int * 0x100_0000_0000 + s[3] as int * 0x1_0000_0000 + s[4] as int * 0x100_0000
               + s[5] as int * 0x1_0000 + s[6] as int * 0x100 + s[7] as int
  {
    assert s[..7][..6] == s[..6] && s[..6][..5] == s[..5] && s[..5][..4] == s[..4] && s[..4][..3] == s[..3];
    assert s[..3][..2] == s[..2] && s[..2][..1] == s[..1] && s[..1][..0] == [];
    assert FromBigEndian(s[..1]) == s[0];
    assert FromBigEndian(s[..2]) == 256 * FromBigEndian(s[..1]) + s[1];
    assert FromBigEndian(s[..3]) == 256 * FromBigEndian(s[..2]) + s[2];
    assert FromBigEndian(s[..4]) == 256 * FromBigEndian(s[..3]) + s[3];
    assert FromBigEndian(s[..5]) == 256 * FromBigEndian(s[..4]) + s[4];
    assert FromBigEndian(s[..6]) == 256 * FromBigEndian(s[..5]) + s[5];
    assert FromBigEndian(s[..7]) == 256 * FromBigEndian(s[..6]) + s[6];
  }

  /** The length fits its eight bytes; otherwise encoding it is an error. */
  predicate Fits(field: seq<byte>) {
    |field| < PowerOf256(WORD)
  }

  function Frame(field: seq<byte>): seq<byte> {
    BigEndian(|field|, WORD) + field
  }

  /** Eight bytes of length, and then the field. */
  lemma FrameIsLengthAndField(field: seq<byte>)
    requires |field| < 0x1_0000_0000_0000_0000
    ensures |Frame(field)| == 8 + |field| && Frame(field)[8..] == field
    ensures FromBigEndian(Frame(field)[..8]) == |field|
  {
    EightBytes();
    LengthReadsBack(|field|, 8);
    assert Frame(field)[..8] == BigEndian(|field|, 8);
  }

  /** The frame at the start of a stream, and what follows it. */
  function ReadFrame(stream: seq<byte>): Option<(seq<byte>, seq<byte>)> {
    if |stream| < WORD then None
    else
      var n := FromBigEndian(stream[..WORD]);
      if |stream| < WORD + n then None else Some((stream[WORD..WORD + n], stream[WORD + n..]))
  }

  lemma FrameReadsBack(field: seq<byte>, rest: seq<byte>)
    requires Fits(field)
    ensures ReadFrame(Frame(field) + rest) == Some((field, rest))
  {
    hide PowerOf256, BigEndian, FromBigEndian;
    var stream := Frame(field) + rest;
    LengthReadsBack(|field|, WORD);
    assert stream[..WORD] == BigEndian(|field|, WORD);
    assert stream[WORD..WORD + |field|] == field && stream[WORD + |field|..] == rest;
  }

  // ----- Entries as four fields

  function OctalText(n: nat): (s: seq<byte>)
    ensures s != []
  {
    if n < 8 then [DIGIT_0 + n] else OctalText(n / 8) + [DIGIT_0 + n % 8]
  }

  lemma {:induction false} OctalTextIsInjective(a: nat, b: nat)
    requires OctalText(a) == OctalText(b)
    ensures a == b
    decreases a
  {
    var s, t := OctalText(a), OctalText(b);
    assert s[|s| - 1] == t[|t| - 1];
    if a >= 8 && b >= 8 {
      assert s[..|s| - 1] == OctalText(a / 8) && t[..|t| - 1] == OctalText(b / 8);
      OctalTextIsInjective(a / 8, b / 8);
    }
  }

  function OctalValue(s: seq<byte>): int {
    if s == [] then 0
    else
      var digit: int := s[|s| - 1];
      8 * OctalValue(s[..|s| - 1]) + digit - 48
  }

  /** The text is the number in octal digits, with no leading zero. */
  lemma {:induction false} OctalTextReads(n: nat)
    ensures OctalValue(OctalText(n)) == n && (n > 0 ==> OctalText(n)[0] > 48)
    ensures forall i :: 0 <= i < |OctalText(n)| ==> 48 <= OctalText(n)[i] <= 55
    decreases n
  {
    var s := OctalText(n);
    if n >= 8 {
      OctalTextReads(n / 8);
      assert s[..|s| - 1] == OctalText(n / 8);
    } else {
      assert s[..|s| - 1] == [] && OctalValue([]) == 0;
    }
  }

  datatype Fields = Fields(name: seq<byte>, mode: seq<byte>, kind: seq<byte>, payload: seq<byte>)

  function FieldsOf(e: Entry): Fields {
    Fields(e.name, OctalText(e.mode), KindName(e.kind), PayloadOf(e.kind))
  }

  /** The words of the stream: the heading ends with a zero byte. */
  lemma Words()
    ensures Spells(DIRECTORY, "directory") && Spells(SYMLINK, "symlink") && Spells(FILE, "file")
    ensures |HEADING| == 24 && Spells(HEADING[..23], "N6_AI_IMMUTABLE_TREE_V1") && HEADING[23] == 0
  {
  }

  /** What an entry contributes: name, octal mode, kind by name, and its link target or contents. */
  lemma FieldsAreThese(e: Entry)
    ensures var f := FieldsOf(e);
            && f.name == e.name && OctalValue(f.mode) == e.mode
            && match e.kind
               case Folder => Spells(f.kind, "directory") && f.payload == []
               case Link(target, _) => Spells(f.kind, "symlink") && f.payload == target
               case Regular(content, _) => Spells(f.kind, "file") && f.payload == content
               case Special => true
  {
    OctalTextReads(e.mode);
    Words();
  }

  lemma FieldsAreInjective(a: Entry, b: Entry)
    requires Hashable(a) && Hashable(b) && FieldsOf(a) == FieldsOf(b)
    ensures a == b
  {
    OctalTextIsInjective(a.mode, b.mode);
    assert |DIRECTORY| == 9 && |SYMLINK| == 7 && |FILE| == 4;
  }

  function FramedFields(f: Fields): seq<byte> {
    Frame(f.name) + (Frame(f.mode) + (Frame(f.kind) + Frame(f.payload)))
  }

  predicate FieldsFit(f: Fields) {
    Fits(f.name) && Fits(f.mode) && Fits(f.kind) && Fits(f.payload)
  }

  function ReadFields(stream: seq<byte>): (found: Option<(Fields, seq<byte>)>)
    ensures found.Some? ==> |found.value.1| < |stream|
  {
    var name := ReadFrame(stream);
    if name == None then None
    else
      var mode := ReadFrame(name.value.1);
      if mode == None then None
      else
        var kind := ReadFrame(mode.value.1);
        if kind == None then None
        else
          var payload := ReadFrame(kind.value.1);
          if payload == None then None
          else Some((Fields(name.value.0, mode.value.0, kind.value.0, payload.value.0), payload.value.1))
  }

  lemma FieldsReadBack(f: Fields, rest: seq<byte>)
    requires FieldsFit(f)
    ensures ReadFields(FramedFields(f) + rest) == Some((f, rest))
  {
    hide Frame, ReadFrame, Fits;
    var afterKind := Frame(f.payload) + rest;
    var afterMode := Frame(f.kind) + afterKind;
    var afterName := Frame(f.mode) + afterMode;
    FrameReadsBack(f.name, afterName);
    FrameReadsBack(f.mode, afterMode);
    FrameReadsBack(f.kind, afterKind);
    FrameReadsBack(f.payload, rest);
    assert FramedFields(f) + rest == Frame(f.name) + afterName;
  }

  // ----- Whole streams

  predicate Encodable(e: Entry) {
    Hashable(e) && FieldsFit(FieldsOf(e))
  }

  /** Nobody may write: no write bit for the owner, the group or others. */
  predicate ReadOnly(mode: nat) {
    mode / 128 % 2 == 0 && mode / 16 % 2 == 0 && mode / 2 % 2 == 0
  }

  /** Which entries may be hashed. */
  predicate MayBeHashed(e: Entry) {
    && |e.name| < 0x1_0000_0000_0000_0000 && |OctalText(e.mode)| < 0x1_0000_0000_0000_0000
    && match e.kind
       case Folder => ReadOnly(e.mode)
       case Link(target, inside) => inside && |target| < 0x1_0000_0000_0000_0000
       case Regular(content, owned) => ReadOnly(e.mode) && owned && |content| <= 268_435_456
       case Special => false
  }

  lemma EightBytes()
    ensures PowerOf256(8) == 0x1_0000_0000_0000_0000
  {
    assert PowerOf256(4) == 0x1_0000_0000;
  }

  lemma EncodableMeans(e: Entry)
    ensures Encodable(e) <==> MayBeHashed(e)
  {
    hide PowerOf256, OctalText;
    EightBytes();
  }

  function Stream(entries: seq<Entry>): seq<byte> {
    if entries == [] then []
    else FramedFields(FieldsOf(entries[0])) + Stream(entries[1..])
  }

  function Decode(stream: seq<byte>): Option<seq<Fields>>
    decreases |stream|
  {
    if stream == [] then Some([])
    else
      var first := ReadFields(stream);
      if first == None then None
      else
        var rest := Decode(first.value.1);
        if rest == None then None else Some([first.value.0] + rest.value)
  }

  function AllFields(entries: seq<Entry>): (all: seq<Fields>)
    ensures |all| == |entries| && forall i :: 0 <= i < |entries| ==> all[i] == FieldsOf(entries[i])
  {
    if entries == [] then [] else [FieldsOf(entries[0])] + AllFields(entries[1..])
  }

  /** The stream decodes back to the fields of its entries. */
  lemma {:induction false} StreamDecodes(entries: seq<Entry>)
    requires forall e :: e in entries ==> Encodable(e)
    ensures Decode(Stream(entries)) == Some(AllFields(entries))
    decreases |entries|
  {
    hide FramedFields, ReadFields, FieldsOf, FieldsFit;
    if entries != [] {
      assert Encodable(entries[0]);
      FieldsReadBack(FieldsOf(entries[0]), Stream(entries[1..]));
      StreamDecodes(entries[1..]);
      FramesAreNotEmpty(FieldsOf(entries[0]));
    }
  }

  lemma FramesAreNotEmpty(f: Fields)
    ensures FramedFields(f) != []
  {
  }

  /** Two lists of entries with the same stream are the same list. */
  lemma StreamIsInjective(a: seq<Entry>, b: seq<Entry>)
    requires forall e :: e in a ==> Encodable(e)
    requires forall e :: e in b ==> Encodable(e)
    requires Stream(a) == Stream(b)
    ensures a == b
  {
    hide FieldsOf, Stream, Decode;
    StreamDecodes(a);
    StreamDecodes(b);
    forall i | 0 <= i < |a|
      ensures a[i] == b[i]
    {
      assert a[i] in a && b[i] in b && Encodable(a[i]) && Encodable(b[i]);
      assert FieldsOf(a[i]) == AllFields(a)[i] == AllFields(b)[i] == FieldsOf(b[i]);
      FieldsAreInjective(a[i], b[i]);
    }
  }

  // ----- Sorting by name

  predicate Sorted(entries: seq<Entry>) {
    forall i, j :: 0 <= i < j < |entries| ==> Before(entries[i].name, entries[j].name)
  }

  predicate DistinctNames(entries: seq<Entry>) {
    forall i, j :: 0 <= i < j < |entries| ==> entries[i].name != entries[j].name
  }

  function Insert(e: Entry, entries: seq<Entry>): (out: seq<Entry>)
    ensures multiset(out) == multiset(entries) + multiset{e}
  {
    if entries == [] then [e]
    else if Before(e.name, entries[0].name) then [e] + entries
    else
      assert entries == [entries[0]] + entries[1..];
      [entries[0]] + Insert(e, entries[1..])
  }

  function Sort(entries: seq<Entry>): (out: seq<Entry>)
    ensures multiset(out) == multiset(entries)
  {
    if entries == [] then []
    else
      assert entries == [entries[0]] + entries[1..];
      Insert(entries[0], Sort(entries[1..]))
  }

  lemma {:induction false} InsertKeepsSorted(e: Entry, entries: seq<Entry>)
    requires Sorted(entries) && forall f :: f in entries ==> f.name != e.name
    ensures Sorted(Insert(e, entries))
    decreases |entries|
  {
    hide Before;
    if entries != [] {
      BeforeIsTotal(e.name, entries[0].name);
      if Before(e.name, entries[0].name) {
        forall j | 0 <= j < |entries|
          ensures Before(e.name, entries[j].name)
        {
          if j > 0 {
            BeforeIsTransitive(e.name, entries[0].name, entries[j].name);
          }
        }
      } else {
        var tail := Insert(e, entries[1..]);
        InsertKeepsSorted(e, entries[1..]);
        forall j | 0 <= j < |tail|
          ensures Before(entries[0].name, tail[j].name)
        {
          assert tail[j] in multiset(tail);
          assert tail[j] == e || tail[j] in entries[1..];
        }
      }
    }
  }

  lemma {:induction false} SortSorts(entries: seq<Entry>)
    requires DistinctNames(entries)
    ensures Sorted(Sort(entries))
    decreases |entries|
  {
    if entries != [] {
      var tail := Sort(entries[1..]);
      SortSorts(entries[1..]);
      forall f | f in tail
        ensures f.name != entries[0].name
      {
        assert f in multiset(tail);
        assert f in entries[1..];
      }
      InsertKeepsSorted(entries[0], tail);
    }
  }

  lemma SameFirst(a: seq<Entry>, b: seq<Entry>)
    requires Sorted(a) && Sorted(b) && multiset(a) == multiset(b) && a != [] && b != []
    ensures a[0] == b[0]
  {
    hide Before;
    assert a[0] in multiset(b) && b[0] in multiset(a);
    var i :| 0 <= i < |a| && a[i] == b[0];
    var j :| 0 <= j < |b| && b[j] == a[0];
    BeforeIsTotal(a[0].name, b[0].name);
  }

  lemma TailsKeepMultiset(a: seq<Entry>)
    requires a != []
    ensures multiset(a[1..]) == multiset(a) - multiset{a[0]}
  {
    assert a == [a[0]] + a[1..];
  }

  lemma {:induction false} SortedIsUnique(a: seq<Entry>, b: seq<Entry>)
    requires Sorted(a) && Sorted(b) && multiset(a) == multiset(b)
    ensures a == b
    decreases |a|
  {
    hide Before;
    assert |multiset(a)| == |a| && |multiset(b)| == |b|;
    if a != [] {
      SameFirst(a, b);
      TailsKeepMultiset(a);
      TailsKeepMultiset(b);
      SortedIsUnique(a[1..], b[1..]);
      assert a == [a[0]] + a[1..] && b == [b[0]] + b[1..];
    }
  }

  method ScanTree(enumerated: seq<Entry>) returns (unsafe: seq<Entry>)
    ensures unsafe == [] <==> forall e :: e in enumerated ==> !Unsafe(e)
  {
    hide Unsafe;
    unsafe := [];
    for i := 0 to |enumerated|
      invariant unsafe == [] <==> forall e :: e in enumerated[..i] ==> !Unsafe(e)
    {
      assert enumerated[..i + 1] == enumerated[..i] + [enumerated[i]];
      if Unsafe(enumerated[i]) {
        unsafe := unsafe + [enumerated[i]];
      }
    }
    assert enumerated[..|enumerated|] == enumerated;
  }

  /**
   Checks the root, scans the tree, then feeds the sorted entries to the hash one by
   one; an entry that may not be hashed or does not fit its frames stops it.
   */
  method HashedStream(root: Option<Root>, enumerated: seq<Entry>) returns (stream: Option<seq<byte>>)
    ensures stream.Some?
            <==> && root.Some? && root.value.directory && root.value.owned && ReadOnly(root.value.mode)
                 && forall e :: e in enumerated ==> MayBeHashed(e)
    ensures stream.Some? ==> stream.value == HEADING + Stream(Sort(enumerated))
  {
    hide Frame, FieldsOf, Stream, Sort, Unsafe, FieldsFit, MayBeHashed;
    forall e
      ensures Encodable(e) <==> MayBeHashed(e)
    {
      EncodableMeans(e);
    }
    if !RootReady(root) {
      return None;
    }
    var unsafe := ScanTree(enumerated);
    if unsafe != [] {
      return None;
    }
    var sorted := Sort(enumerated);
    SortKeepsEntries(enumerated);
    var fed := HEADING;
    NothingFed(sorted);
    for i := 0 to |sorted|
      invariant forall j :: 0 <= j < i ==> Encodable(sorted[j])
      invariant fed == HEADING + Stream(sorted[..i])
    {
      var e, f := sorted[i], FieldsOf(sorted[i]);
      if e.kind.Special? || (e.kind.Regular? && (!e.kind.owned || |e.kind.content| > MAX_FILE)) || !FieldsFit(f) {
        assert e in sorted && !Encodable(e);
        return None;
      }
      OneMoreEntry(fed, sorted, i);
      fed := fed + Frame(f.name);
      fed := fed + Frame(f.mode);
      fed := fed + Frame(f.kind);
      fed := fed + Frame(f.payload);
      assert e in enumerated && Encodable(e);
    }
    assert sorted[..|sorted|] == sorted;
    return Some(fed);
  }

  lemma NothingFed(entries: seq<Entry>)
    ensures HEADING == HEADING + Stream(entries[..0])
  {
  }

  lemma {:induction false} StreamSplits(a: seq<Entry>, b: seq<Entry>)
    ensures Stream(a + b) == Stream(a) + Stream(b)
    decreases |a|
  {
    hide FramedFields, FieldsOf;
    if a == [] {
      assert a + b == b;
    } else {
      StreamSplits(a[1..], b);
      assert (a + b)[1..] == a[1..] + b;
    }
  }

  lemma Regroup(h: seq<byte>, s: seq<byte>, a: seq<byte>, b: seq<byte>, c: seq<byte>, d: seq<byte>)
    ensures h + (s + (a + (b + (c + d)))) == h + s + a + b + c + d
  {
  }

  lemma OneMoreEntry(fed: seq<byte>, entries: seq<Entry>, i: nat)
    requires i < |entries| && fed == HEADING + Stream(entries[..i])
    ensures var f := FieldsOf(entries[i]);
            HEADING + Stream(entries[..i + 1]) == fed + Frame(f.name) + Frame(f.mode) + Frame(f.kind) + Frame(f.payload)
  {
    hide Frame, FieldsOf, Stream;
    var f := FieldsOf(entries[i]);
    assert entries[..i + 1] == entries[..i] + [entries[i]];
    StreamSplits(entries[..i], [entries[i]]);
    StreamOfOne(entries[i]);
    Regroup(HEADING, Stream(entries[..i]), Frame(f.name), Frame(f.mode), Frame(f.kind), Frame(f.payload));
  }

  lemma StreamOfOne(e: Entry)
    ensures Stream([e]) == FramedFields(FieldsOf(e))
  {
    hide FramedFields, FieldsOf;
    assert [e][1..] == [] && Stream([]) == [];
  }

  /**
   For trees that can be encoded: whatever order the entries are enumerated in, the
   hashed stream is the same exactly when the entries are.
   */
  lemma StreamIdentifiesTree(a: seq<Entry>, b: seq<Entry>)
    requires DistinctNames(a) && DistinctNames(b)
    requires forall e :: e in a ==> Encodable(e)
    requires forall e :: e in b ==> Encodable(e)
    ensures Stream(Sort(a)) == Stream(Sort(b)) <==> multiset(a) == multiset(b)
  {
    hide Stream, Encodable;
    SortSorts(a);
    SortSorts(b);
    SortKeepsEntries(a);
    SortKeepsEntries(b);
    if multiset(a) == multiset(b) {
      SortedIsUnique(Sort(a), Sort(b));
    }
    if Stream(Sort(a)) == Stream(Sort(b)) {
      StreamIsInjective(Sort(a), Sort(b));
    }
  }

  lemma SortKeepsEntries(entries: seq<Entry>)
    ensures forall e :: e in Sort(entries) <==> e in entries
  {
    assert forall e :: e in Sort(entries) <==> e in multiset(Sort(entries));
  }

  // ----- What listing the tree delivers

  predicate IsBelow(name: seq<byte>, folder: seq<byte>) {
    folder + [SLASH] <= name
  }

  /** `listable` says which folders can be listed; what is below another one is skipped without notice. */
  predicate Hidden(e: Entry, tree: seq<Entry>, listable: seq<byte> -> bool) {
    exists f :: f in tree && f.kind.Folder? && !listable(f.name) && IsBelow(e.name, f.name)
  }

  /** The entries of `part` that listing `tree` delivers. */
  function Listed(part: seq<Entry>, tree: seq<Entry>, listable: seq<byte> -> bool): (listed: seq<Entry>)
    ensures forall e :: e in listed <==> e in part && !Hidden(e, tree, listable)
  {
    if part == [] then []
    else
      assert forall e :: e in part <==> e == part[0] || e in part[1..];
      (if Hidden(part[0], tree, listable) then [] else [part[0]]) + Listed(part[1..], tree, listable)
  }

  lemma {:induction false} ListedAreDistinct(part: seq<Entry>, tree: seq<Entry>, listable: seq<byte> -> bool)
    requires DistinctNames(part)
    ensures DistinctNames(Listed(part, tree, listable))
    decreases |part|
  {
    hide Hidden;
    if part != [] {
      var tail := Listed(part[1..], tree, listable);
      ListedAreDistinct(part[1..], tree, listable);
      forall e | e in tail
        ensures e.name != part[0].name
      {
        var i :| 0 <= i < |part[1..]| && part[1..][i] == e;
        assert part[i + 1] == e;
      }
    }
  }

  lemma {:induction false} AllAreListed(part: seq<Entry>, tree: seq<Entry>, listable: seq<byte> -> bool)
    requires forall e :: e in part ==> !Hidden(e, tree, listable)
    ensures Listed(part, tree, listable) == part
    decreases |part|
  {
    hide Hidden;
    if part != [] {
      assert part[0] in part;
      AllAreListed(part[1..], tree, listable);
    }
  }

  /** An entry is listed unless a folder that cannot be listed stands above it in the path. */
  lemma ListedByPath(tree: seq<Entry>, e: Entry, listable: seq<byte> -> bool)
    ensures e in Listed(tree, tree, listable)
            <==> e in tree
                 && forall f :: f in tree && f.kind.Folder? && !listable(f.name) && |f.name| < |e.name| ==>
                      e.name[..|f.name|] != f.name || e.name[|f.name|] != 47
  {
    forall f: Entry
      ensures IsBelow(e.name, f.name)
              <==> |f.name| < |e.name| && e.name[..|f.name|] == f.name && e.name[|f.name|] == 47
    {
      BelowByPath(e.name, f.name);
    }
  }

  lemma BelowByPath(name: seq<byte>, folder: seq<byte>)
    ensures IsBelow(name, folder)
            <==> |folder| < |name| && name[..|folder|] == folder && name[|folder|] == 47
  {
    if |folder| < |name| && name[..|folder|] == folder && name[|folder|] == 47 {
      assert name[..|folder| + 1] == folder + [SLASH];
    }
  }

  predicate AllListable(tree: seq<Entry>, listable: seq<byte> -> bool) {
    forall e :: e in tree ==> !Hidden(e, tree, listable)
  }

  /**
   What equal digests say about two trees: their listings hold the same entries, and
   so do the trees themselves when nothing is hidden in either.
   */
  lemma StreamIdentifiesListing(
    a: seq<Entry>, b: seq<Entry>, listableA: seq<byte> -> bool, listableB: seq<byte> -> bool)
    requires DistinctNames(a) && DistinctNames(b)
    requires forall e :: e in a || e in b ==> Encodable(e)
    ensures var x, y := Listed(a, a, listableA), Listed(b, b, listableB);
            && (Stream(Sort(x)) == Stream(Sort(y)) <==> multiset(x) == multiset(y))
            && (AllListable(a, listableA) && AllListable(b, listableB) ==>
                  (Stream(Sort(x)) == Stream(Sort(y)) <==> multiset(a) == multiset(b)))
  {
    hide Hidden, Encodable, DistinctNames, Stream;
    ListedAreDistinct(a, a, listableA);
    ListedAreDistinct(b, b, listableB);
    StreamIdentifiesTree(Listed(a, a, listableA), Listed(b, b, listableB));
    if AllListable(a, listableA) {
      AllAreListed(a, a, listableA);
    }
    if AllListable(b, listableB) {
      AllAreListed(b, b, listableB);
    }
  }

  const MODE_0111: nat := 73

  /** A read-only folder nobody can list, and a file in it. */
  const CLOSED := Entry([102], MODE_0111, Folder)

  /** Whatever file is below such a folder, or none: both trees may be hashed, and the listings are the same. */
  lemma ClosedFolderHides(file: Entry, listable: seq<byte> -> bool)
    requires IsBelow(file.name, CLOSED.name) && !listable(CLOSED.name)
    ensures Encodable(CLOSED) && [CLOSED, file] != [CLOSED]
    ensures Listed([CLOSED, file], [CLOSED, file], listable) == [CLOSED] == Listed([CLOSED], [CLOSED], listable)
  {
    var tree := [CLOSED, file];
    assert |file.name| > |CLOSED.name|;
    assert CLOSED in tree && Hidden(file, tree, listable);
    assert !Hidden(CLOSED, tree, listable) && !Hidden(CLOSED, [CLOSED], listable);
    assert tree[1..] == [file] && [file][1..] == [] && [CLOSED][1..] == [];
    assert Listed([file], tree, listable) == [] + Listed([], tree, listable);
    assert Listed(tree, tree, listable) == [CLOSED] + Listed([file], tree, listable);
    ClosedIsEncodable();
  }

  lemma ClosedIsEncodable()
    ensures Encodable(CLOSED)
  {
    assert OctalText(MODE_0111) == OctalText(9) + [DIGIT_0 + 1];
    assert OctalText(9) == OctalText(1) + [DIGIT_0 + 1];
    assert PowerOf256(2) == 65536;
  }
}
