/**
 The octal number fields of a ustar header and its checksum
 (POSIX.1-2017, pax, EXTENDED DESCRIPTION, "ustar Interchange Format").
 */
module Octal {
  import opened Bytes

  const ULLONG_MAX: nat := 0xFFFF_FFFF_FFFF_FFFF
  const BLOCK_SIZE: nat := 512
  const CHECKSUM_AT: nat := 148
  const CHECKSUM_END: nat := 156

  predicate IsOctal(b: byte) {
    DIGIT_0 <= b <= DIGIT_7
  }

  predicate IsFill(b: byte) {
    b == NUL || b == SPACE
  }

  predicate AllOctal(text: seq<byte>, from: nat, end: nat)
    requires from <= end <= |text|
  {
    forall i :: from <= i < end ==> IsOctal(text[i])
  }

  predicate AllFill(text: seq<byte>, from: nat) {
    forall i :: from <= i < |text| ==> IsFill(text[i])
  }

  /** The number the digits `text[from..end]` denote, most significant digit first. */
  function OctalValue(text: seq<byte>, from: nat, end: nat): (v: nat)
    requires from <= end <= |text| && AllOctal(text, from, end)
  {
    if from == end then 0 else 8 * OctalValue(text, from, end - 1) + (text[end - 1] - DIGIT_0)
  }

  function SkipSpaces(text: seq<byte>, from: nat): (k: nat)
    requires from <= |text|
    ensures from <= k <= |text|
    ensures forall i :: from <= i < k ==> text[i] == SPACE
    ensures k < |text| ==> text[k] != SPACE
    decreases |text| - from
  {
    if from == |text| || text[from] != SPACE then from else SkipSpaces(text, from + 1)
  }

  function OctalRun(text: seq<byte>, from: nat): (k: nat)
    requires from <= |text|
    ensures from <= k <= |text|
    ensures AllOctal(text, from, k)
    ensures k < |text| ==> !IsOctal(text[k])
    decreases |text| - from
  {
    if from == |text| || !IsOctal(text[from]) then from else OctalRun(text, from + 1)
  }

  /** What a field holds: blanks, digits, then filler, with a value that fits 64 bits. */
  function OctalField(text: seq<byte>): Option<nat> {
    var i := SkipSpaces(text, 0);
    var j := OctalRun(text, i);
    if i < j && AllFill(text, j) && OctalValue(text, i, j) <= ULLONG_MAX
    then Some(OctalValue(text, i, j))
    else None
  }

  /** `text` is blanks, at least one octal digit and filler, and denotes `v`. */
  ghost predicate Denotes(text: seq<byte>, i: nat, j: nat, v: nat) {
    && i < j <= |text|
    && (forall k :: 0 <= k < i ==> text[k] == SPACE)
    && AllOctal(text, i, j)
    && AllFill(text, j)
    && OctalValue(text, i, j) == v
  }

  lemma DenotesFindsField(text: seq<byte>, i: nat, j: nat, v: nat)
    requires Denotes(text, i, j, v) && v <= ULLONG_MAX
    ensures OctalField(text) == Some(v)
  {
    assert IsOctal(text[i]);
    assert SkipSpaces(text, 0) == i;
    assert j < |text| ==> IsFill(text[j]);
    assert !(OctalRun(text, i) < j);
  }

  /** The field is read exactly when it denotes a 64-bit number, and as that number. */
  lemma OctalFieldIsExact(text: seq<byte>, v: nat)
    ensures OctalField(text) == Some(v) <==> v <= ULLONG_MAX && exists i, j :: Denotes(text, i, j, v)
  {
    if OctalField(text) == Some(v) {
      var i := SkipSpaces(text, 0);
      assert Denotes(text, i, OctalRun(text, i), v);
    }
    if v <= ULLONG_MAX && exists i, j :: Denotes(text, i, j, v) {
      var i, j :| Denotes(text, i, j, v);
      DenotesFindsField(text, i, j, v);
    }
  }

  lemma {:induction false} OctalPrefixIsSmaller(text: seq<byte>, from: nat, mid: nat, end: nat)
    requires from <= mid <= end <= |text| && AllOctal(text, from, end)
    ensures OctalValue(text, from, mid) <= OctalValue(text, from, end)
    decreases end
  {
    if mid < end {
      OctalPrefixIsSmaller(text, from, mid, end - 1);
    }
  }

  /**
   Reads a numeric header field. The guard before each shift is exact: no value
   that fits is refused and none that wraps is accepted, for a field of any length.
   */
  method ParseOctal(text: seq<byte>) returns (result: Option<nat>)
    ensures result == OctalField(text)
  {
    var value: nat := 0;
    var index := 0;
    var seen := false;
    while index < |text| && text[index] == SPACE
      invariant 0 <= index <= |text|
      invariant SkipSpaces(text, index) == SkipSpaces(text, 0)
    {
      index := index + 1;
    }
    ghost var i := index;
    ghost var j := OctalRun(text, i);
    while index < |text| && !IsFill(text[index])
      invariant i <= index <= j
      invariant OctalRun(text, index) == j
      invariant value == OctalValue(text, i, index) <= ULLONG_MAX
      invariant seen <==> i < index
    {
      if !IsOctal(text[index]) {
        return None;
      }
      OctalPrefixIsSmaller(text, i, index + 1, j);
      if value > ULLONG_MAX / 8 {
        return None;
      }
      value := 8 * value + (text[index] - DIGIT_0);
      seen := true;
      index := index + 1;
    }
    while index < |text|
      invariant j <= index <= |text|
      invariant forall k :: j <= k < index ==> IsFill(text[k])
    {
      if !IsFill(text[index]) {
        return None;
      }
      index := index + 1;
    }
    return if seen then Some(value) else None;
  }

  /** `v` written with exactly `width` octal digits, zero padded. */
  function OctalDigits(v: nat, width: nat): (s: seq<byte>)
    ensures |s| == width && AllOctal(s, 0, width)
  {
    if width == 0 then [] else OctalDigits(v / 8, width - 1) + [DIGIT_0 + v % 8]
  }

  function PowerOf8(n: nat): nat {
    if n == 0 then 1 else 8 * PowerOf8(n - 1)
  }

  lemma {:induction false} OctalValueOfPrefix(text: seq<byte>, more: seq<byte>, end: nat)
    requires end <= |text| && AllOctal(text, 0, end)
    ensures OctalValue(text + more, 0, end) == OctalValue(text, 0, end)
  {
    if end != 0 {
      OctalValueOfPrefix(text, more, end - 1);
    }
  }

  lemma {:induction false} OctalDigitsValue(v: nat, width: nat)
    requires v < PowerOf8(width)
    ensures OctalValue(OctalDigits(v, width), 0, width) == v
  {
    if width != 0 {
      OctalDigitsValue(v / 8, width - 1);
      OctalValueOfPrefix(OctalDigits(v / 8, width - 1), [DIGIT_0 + v % 8], width - 1);
    }
  }

  /** Zero-padded printing followed by any filler parses back. */
  lemma PrintedOctalParsesBack(v: nat, width: nat, fill: seq<byte>)
    requires 0 < width && v < PowerOf8(width) && v <= ULLONG_MAX && AllFill(fill, 0)
    ensures OctalField(OctalDigits(v, width) + fill) == Some(v)
  {
    OctalDigitsValue(v, width);
    OctalValueOfPrefix(OctalDigits(v, width), fill, width);
    DenotesFindsField(OctalDigits(v, width) + fill, 0, width, v);
  }

  /** The byte the checksum counts at position `i`: its own field reads as blanks. */
  function SummedByte(header: seq<byte>, i: nat): byte
    requires i < |header|
  {
    if CHECKSUM_AT <= i < CHECKSUM_END then SPACE else header[i]
  }

  function HeaderSum(header: seq<byte>, n: nat): (sum: nat)
    requires n <= |header|
    ensures sum <= 255 * n
  {
    if n == 0 then 0 else HeaderSum(header, n - 1) + SummedByte(header, n - 1)
  }

  predicate ChecksumValid(header: seq<byte>)
    requires |header| == BLOCK_SIZE
  {
    OctalField(header[CHECKSUM_AT..CHECKSUM_END]) == Some(HeaderSum(header, BLOCK_SIZE))
  }

  function ByteSum(s: seq<byte>): nat {
    if s == [] then 0 else ByteSum(s[..|s| - 1]) + s[|s| - 1]
  }

  lemma {:induction false} SumSplits(header: seq<byte>, n: nat)
    requires n <= |header|
    ensures n <= 148 ==> HeaderSum(header, n) == ByteSum(header[..n])
    ensures 148 <= n <= 156 ==> HeaderSum(header, n) == ByteSum(header[..148]) + 32 * (n - 148)
    ensures 156 <= n ==> HeaderSum(header, n) == ByteSum(header[..148]) + 256 + ByteSum(header[156..n])
    decreases n
  {
    if n > 0 {
      SumSplits(header, n - 1);
      assert n <= 148 ==> header[..n][..n - 1] == header[..n - 1];
      assert 156 < n ==> header[156..n][..n - 157] == header[156..n - 1];
    }
  }

  /** The number recorded in bytes 148 to 155 is the sum of all other bytes and of eight blanks. */
  lemma ChecksumMeans(header: seq<byte>)
    requires |header| == 512
    ensures ChecksumValid(header)
            <==> OctalField(header[148..156]) == Some(ByteSum(header[..148]) + 256 + ByteSum(header[156..]))
  {
    SumSplits(header, 512);
    assert header[156..512] == header[156..];
  }

  method ValidTarChecksum(header: seq<byte>) returns (valid: bool)
    requires |header| == BLOCK_SIZE
    ensures valid <==> ChecksumValid(header)
  {
    var recorded := ParseOctal(header[CHECKSUM_AT..CHECKSUM_END]);
    if recorded == None {
      return false;
    }
    var calculated := 0;
    for index := 0 to BLOCK_SIZE
      invariant calculated == HeaderSum(header, index)
    {
      calculated := calculated + if CHECKSUM_AT <= index < CHECKSUM_END then SPACE else header[index];
    }
    return calculated == recorded.value;
  }

  /** A header with its checksum field filled in: six digits, a NUL and a blank. */
  function Stamp(header: seq<byte>): (stamped: seq<byte>)
    requires |header| == BLOCK_SIZE
    ensures |stamped| == BLOCK_SIZE
    ensures forall i :: 0 <= i < BLOCK_SIZE && !(CHECKSUM_AT <= i < CHECKSUM_END) ==> stamped[i] == header[i]
  {
    header[..CHECKSUM_AT] + OctalDigits(HeaderSum(header, BLOCK_SIZE), 6) + [NUL, SPACE] + header[CHECKSUM_END..]
  }

  lemma {:induction false} SumIgnoresChecksumField(a: seq<byte>, b: seq<byte>, n: nat)
    requires n <= |a| == |b|
    requires forall i :: 0 <= i < n && !(CHECKSUM_AT <= i < CHECKSUM_END) ==> a[i] == b[i]
    ensures HeaderSum(a, n) == HeaderSum(b, n)
  {
    if n != 0 {
      SumIgnoresChecksumField(a, b, n - 1);
    }
  }

  /** Six octal digits always hold the sum of a block, so stamping always validates. */
  lemma StampedHeaderValidates(header: seq<byte>)
    requires |header| == BLOCK_SIZE
    ensures ChecksumValid(Stamp(header))
  {
    var sum := HeaderSum(header, BLOCK_SIZE);
    SumIgnoresChecksumField(header, Stamp(header), BLOCK_SIZE);
    assert PowerOf8(6) == 0x40000 by {
      assert PowerOf8(3) == 512;
      assert PowerOf8(4) == 4096;
    }
    PrintedOctalParsesBack(sum, 6, [NUL, SPACE]);
    assert Stamp(header)[CHECKSUM_AT..CHECKSUM_END] == OctalDigits(sum, 6) + [NUL, SPACE];
  }
}
