/** The NUL-separated git tree listing that names every file of the release. */
module Manifest {
  import opened Bytes
  import opened Paths

  datatype Entry = Entry(path: seq<byte>, executable: bool, oid: seq<byte>)

  const MODE_SIZE: nat := 6
  const OID_AT: nat := 12
  const OID_END: nat := 52
  const PATH_AT: nat := 53
  const RECORD_SIZE: nat := PATH_MAX + 96
  const MIN_RECORD: nat := 50

  const MODE_644: seq<byte> := [49, 48, 48, 54, 52, 52]
  const MODE_755: seq<byte> := [49, 48, 48, 55, 53, 53]
  const BLOB: seq<byte> := [SPACE, 98, 108, 111, 98, SPACE]

  predicate IsHex(b: byte) {
    48 <= b <= 57 || 97 <= b <= 102
  }

  predicate ValidEntry(e: Entry) {
    && SafePath(e.path) && |e.path| < PATH_MAX && NUL !in e.path
    && |e.oid| == OID_END - OID_AT && forall i :: 0 <= i < |e.oid| ==> IsHex(e.oid[i])
  }

  function PrintEntry(e: Entry): seq<byte> {
    (if e.executable then MODE_755 else MODE_644) + BLOB + e.oid + [TAB] + e.path + [NUL]
  }

  function PrintManifest(entries: seq<Entry>): seq<byte> {
    if entries == [] then [] else PrintEntry(entries[0]) + PrintManifest(entries[1..])
  }

  /** The entry at the start of `rest`, if a well-formed record starts there. */
  function FirstEntry(rest: seq<byte>): (entry: Option<Entry>)
    ensures entry.Some? ==> EntryLength(entry.value) <= |rest|
  {
    var end := IndexFrom(rest, NUL, 0);
    if end == |rest| || end + 1 >= RECORD_SIZE || end < PATH_AT then None
    else if rest[MODE_SIZE..OID_AT] != BLOB || rest[OID_END] != TAB then None
    else if rest[..MODE_SIZE] != MODE_644 && rest[..MODE_SIZE] != MODE_755 then None
    else
      var e := Entry(rest[PATH_AT..end], rest[..MODE_SIZE] == MODE_755, rest[OID_AT..OID_END]);
      if ValidEntry(e) then Some(e) else None
  }

  function EntryLength(e: Entry): nat {
    PATH_AT + |e.path| + 1
  }

  /** The whole listing: entry after entry with nothing left over. */
  function Entries(manifest: seq<byte>): Option<seq<Entry>>
    decreases |manifest|
  {
    if manifest == [] then Some([])
    else
      var e := FirstEntry(manifest);
      if e == None then None
      else
        var rest := Entries(manifest[EntryLength(e.value)..]);
        if rest == None then None else Some([e.value] + rest.value)
  }

  lemma FirstEntryIsPrinted(rest: seq<byte>, e: Entry)
    requires FirstEntry(rest) == Some(e)
    ensures ValidEntry(e) && rest[..EntryLength(e)] == PrintEntry(e)
  {
  }

  lemma PrintedLength(e: Entry)
    requires ValidEntry(e)
    ensures |PrintEntry(e)| == EntryLength(e)
  {
  }

  lemma PrintedEntryIsFirst(e: Entry, more: seq<byte>)
    requires ValidEntry(e)
    ensures FirstEntry(PrintEntry(e) + more) == Some(e)
  {
    var rest := PrintEntry(e) + more;
    var mode := if e.executable then MODE_755 else MODE_644;
    assert rest[..MODE_SIZE] == mode;
    assert rest[MODE_SIZE..OID_AT] == BLOB;
    assert rest[OID_AT..OID_END] == e.oid;
    assert rest[OID_END] == TAB;
    assert rest[PATH_AT..PATH_AT + |e.path|] == e.path;
    assert rest[PATH_AT + |e.path|] == NUL;
    NoEarlyNul(e, rest);
    assert MODE_755[3] != MODE_644[3];
  }

  predicate HexDigit(b: byte) {
    var c := b as char;
    '0' <= c <= '9' || 'a' <= c <= 'f'
  }

  /** An entry as text: mode, kind, forty hexadecimal digits, a tab, the path and a zero byte. */
  lemma PrintedText(e: Entry)
    requires ValidEntry(e)
    ensures |e.path| < 1024 && SafePath(e.path) && |e.oid| == 40 && forall b :: b in e.oid ==> HexDigit(b)
    ensures var text := PrintEntry(e);
            && |text| == 54 + |e.path|
            && Spells(text[..6], if e.executable then "100755" else "100644") && Spells(text[6..12], " blob ")
            && text[12..52] == e.oid && text[52] == 9 && text[53..53 + |e.path|] == e.path && text[53 + |e.path|] == 0
  {
    var text := PrintEntry(e);
    assert text[..6] == if e.executable then MODE_755 else MODE_644;
    assert text[6..12] == BLOB && text[12..52] == e.oid && text[53..53 + |e.path|] == e.path;
  }

  /** And these are all the conditions on an entry. */
  lemma ValidEntryMeans(e: Entry)
    requires |e.path| < 1024 && SafePath(e.path) && 0 !in e.path
    requires |e.oid| == 40 && forall b :: b in e.oid ==> HexDigit(b)
    ensures ValidEntry(e)
  {
    forall i | 0 <= i < |e.oid|
      ensures IsHex(e.oid[i])
    {
      assert e.oid[i] in e.oid;
    }
  }

  lemma NoEarlyNul(e: Entry, rest: seq<byte>)
    requires ValidEntry(e) && PrintEntry(e) <= rest
    ensures IndexFrom(rest, NUL, 0) == PATH_AT + |e.path|
  {
    var end := PATH_AT + |e.path|;
    forall i | 0 <= i < end
      ensures rest[i] != NUL
    {
      assert rest[i] == PrintEntry(e)[i];
      if OID_AT <= i < OID_END {
        assert rest[i] == e.oid[i - OID_AT];
      } else if PATH_AT <= i {
        assert rest[i] == e.path[i - PATH_AT] && rest[i] in e.path;
      }
    }
    assert rest[end] == PrintEntry(e)[end] == NUL;
  }

  /** A listing is read as `entries` exactly when it is their printed form. */
  lemma {:induction false} EntriesArePrinted(manifest: seq<byte>, entries: seq<Entry>)
    ensures Entries(manifest) == Some(entries)
            <==> manifest == PrintManifest(entries) && forall e :: e in entries ==> ValidEntry(e)
    decreases |entries|
  {
    hide FirstEntry, PrintEntry;
    if entries == [] {
    } else {
      var e, tail := entries[0], entries[1..];
      if Entries(manifest) == Some(entries) {
        FirstEntryIsPrinted(manifest, e);
        EntriesArePrinted(manifest[EntryLength(e)..], tail);
        assert manifest == manifest[..EntryLength(e)] + manifest[EntryLength(e)..];
        assert entries == [e] + tail;
      }
      if manifest == PrintManifest(entries) && forall e :: e in entries ==> ValidEntry(e) {
        PrintedEntryIsFirst(e, PrintManifest(tail));
        PrintedLength(e);
        assert manifest[EntryLength(e)..] == PrintManifest(tail);
        EntriesArePrinted(PrintManifest(tail), tail);
        assert entries == [e] + tail;
      }
    }
  }

  /**
   Reads one record byte by byte up to its NUL. A record shorter than the path
   offset cannot pass: its terminating NUL falls on a byte that must be
   hexadecimal or a tab.
   */
  method ReadManifestEntry(manifest: seq<byte>, from: nat) returns (entry: Option<Entry>, next: nat)
    requires from <= |manifest|
    ensures entry == FirstEntry(manifest[from..])
    ensures entry.Some? ==> next == from + EntryLength(entry.value) <= |manifest|
  {
    ghost var rest := manifest[from..];
    ghost var end := IndexFrom(rest, NUL, 0);
    next := from;
    var length := 0;
    var terminated := false;
    while length < RECORD_SIZE && !terminated
      invariant 0 <= length <= RECORD_SIZE && next == from + length <= |manifest|
      invariant terminated <==> length == end + 1
      invariant length <= end + 1
    {
      if next == |manifest| {
        return None, next;
      }
      terminated := manifest[next] == NUL;
      length, next := length + 1, next + 1;
    }
    var record := manifest[from..next];
    assert record == rest[..length];
    if length < MIN_RECORD || length == RECORD_SIZE || !terminated {
      return None, next;
    }
    assert record[..MODE_SIZE] == rest[..MODE_SIZE] && record[MODE_SIZE..OID_AT] == rest[MODE_SIZE..OID_AT];
    if record[MODE_SIZE..OID_AT] != BLOB {
      return None, next;
    }
    var executable;
    if record[..MODE_SIZE] == MODE_644 {
      executable := false;
    } else if record[..MODE_SIZE] == MODE_755 {
      executable := true;
    } else {
      return None, next;
    }
    if length <= OID_END || record[OID_END] != TAB {
      return None, next;
    }
    for index := OID_AT to OID_END
      invariant forall i :: OID_AT <= i < index ==> IsHex(record[i])
    {
      if !IsHex(record[index]) {
        assert rest[OID_AT..OID_END][index - OID_AT] == record[index];
        return None, next;
      }
    }
    var path := record[PATH_AT..length - 1];
    assert path == rest[PATH_AT..end] && record[OID_AT..OID_END] == rest[OID_AT..OID_END];
    var safe := SafeRelativePath(path);
    if !safe || |path| >= PATH_MAX {
      return None, next;
    }
    return Some(Entry(path, executable, record[OID_AT..OID_END])), next;
  }
}
