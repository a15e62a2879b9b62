/**
 Extended-header records
 (POSIX.1-2017, pax, EXTENDED DESCRIPTION, "pax Extended Header"):
 `LEN key=value newline`, where LEN counts the whole record, itself included.
 */
module Pax {
  import opened Bytes
  import opened Paths

  const SIZE_MAX: nat := 0xFFFF_FFFF_FFFF_FFFF
  const TWO_TO_64: nat := SIZE_MAX + 1

  const COMMENT_KEY: seq<byte> := [99, 111, 109, 109, 101, 110, 116]
  const PATH_KEY: seq<byte> := [112, 97, 116, 104]

  predicate IsDigit(b: byte) {
    DIGIT_0 <= b <= DIGIT_9
  }

  predicate AllDigits(s: seq<byte>, end: nat)
    requires end <= |s|
  {
    forall i :: 0 <= i < end ==> IsDigit(s[i])
  }

  /** How many bytes at the start of `s` are decimal digits. */
  function DigitRun(s: seq<byte>, from: nat): (k: nat)
    requires from <= |s|
    ensures from <= k <= |s|
    ensures forall i :: from <= i < k ==> IsDigit(s[i])
    ensures k < |s| ==> !IsDigit(s[k])
    decreases |s| - from
  {
    if from == |s| || !IsDigit(s[from]) then from else DigitRun(s, from + 1)
  }

  /** The number the first `end` digits of `s` denote. */
  function Decimal(s: seq<byte>, end: nat): (v: nat)
    requires end <= |s| && AllDigits(s, end)
  {
    if end == 0 then 0 else 10 * Decimal(s, end - 1) + (s[end - 1] - DIGIT_0)
  }

  /** What the program's 64-bit accumulator holds after the first `end` digits, unless its guard fired. */
  function Accumulated(s: seq<byte>, end: nat): (v: Option<nat>)
    requires end <= |s| && AllDigits(s, end)
    ensures v.Some? ==> v.value <= SIZE_MAX
  {
    if end == 0 then Some(0)
    else
      var before := Accumulated(s, end - 1);
      if before == None || before.value > SIZE_MAX / 10 then None
      else Some(Push(before.value, s[end - 1] - DIGIT_0))
  }

  /** One accumulation step in 64-bit arithmetic. */
  function Push(value: nat, digit: nat): (v: nat)
    ensures v <= SIZE_MAX
    ensures value * 10 + digit <= SIZE_MAX ==> v == value * 10 + digit
  {
    (value * 10 + digit) % TWO_TO_64
  }

  /** The bytes after the length field are a blank, a non-empty key, `=`, a value and a newline. */
  predicate Body(data: seq<byte>, digits: nat, key: seq<byte>, value: seq<byte>) {
    && 0 < digits
    && key != [] && EQUALS !in key && NUL !in key && NUL !in value
    && |data| == digits + |key| + |value| + 3
    && data[digits] == SPACE
    && data[digits + 1..digits + 1 + |key|] == key
    && data[digits + 1 + |key|] == EQUALS
    && data[digits + 2 + |key|..|data| - 1] == value
    && data[|data| - 1] == NEWLINE
  }

  /** `data` is one record whose length field counts every byte of `data`. */
  predicate ExactRecord(data: seq<byte>, key: seq<byte>, value: seq<byte>) {
    var digits := DigitRun(data, 0);
    Body(data, digits, key, value) && Decimal(data, digits) == |data|
  }

  /** What the program checks instead: its accumulator agrees with the byte count. */
  predicate AcceptedRecord(data: seq<byte>, key: seq<byte>, value: seq<byte>) {
    var digits := DigitRun(data, 0);
    Body(data, digits, key, value) && Accumulated(data, digits) == Some(|data|)
  }

  /** A `path` value the program takes as an override. */
  predicate UsablePath(value: seq<byte>) {
    value != [] && |value| < PATH_MAX && SafePath(value)
  }

  ghost predicate AcceptsPath(data: seq<byte>, path: seq<byte>) {
    AcceptedRecord(data, PATH_KEY, path) && UsablePath(path)
  }

  datatype Record = Record(length: nat, key: seq<byte>, value: seq<byte>)

  /** The first `=` in `s[from..limit]`, or `limit`. */
  function EqualsAt(s: seq<byte>, from: nat, limit: nat): (k: nat)
    requires from <= limit <= |s|
    ensures from <= k <= limit
    ensures forall i :: from <= i < k ==> s[i] != EQUALS
    ensures k < limit ==> s[k] == EQUALS
    decreases limit - from
  {
    if from == limit || s[from] == EQUALS then from else EqualsAt(s, from + 1, limit)
  }

  /** The record at the start of `rest`, as the program delimits it. */
  function FirstRecord(rest: seq<byte>): (record: Option<Record>)
    ensures record.Some? ==> 0 < record.value.length <= |rest|
  {
    var d := DigitRun(rest, 0);
    if d == 0 || d == |rest| || rest[d] != SPACE || Accumulated(rest, d) == None then None
    else
      var length := Accumulated(rest, d).value;
      if length < d + 3 || length > |rest| || rest[length - 1] != NEWLINE then None
      else
        var e := EqualsAt(rest, d + 1, length - 1);
        if e == d + 1 || e == length - 1 || NUL in rest[d + 1..e] || NUL in rest[e + 1..length - 1] then None
        else Some(Record(length, rest[d + 1..e], rest[e + 1..length - 1]))
  }

  lemma FewerDigits(s: seq<byte>, end: nat)
    requires 0 < end <= |s| && AllDigits(s, end)
    ensures AllDigits(s, end - 1)
  {
  }

  lemma SameDigits(s: seq<byte>, t: seq<byte>, end: nat)
    requires end <= |s| && end <= |t| && AllDigits(s, end) && s[..end] == t[..end]
    ensures AllDigits(t, end)
  {
    assert forall i :: 0 <= i < end ==> t[i] == t[..end][i] == s[..end][i] == s[i];
  }

  lemma {:induction false} AccumulatedOfPrefix(s: seq<byte>, t: seq<byte>, end: nat)
    requires end <= |s| && end <= |t| && AllDigits(s, end) && s[..end] == t[..end]
    ensures AllDigits(t, end)
    ensures Accumulated(s, end) == Accumulated(t, end)
    ensures Decimal(s, end) == Decimal(t, end)
  {
    hide AllDigits, Push, DigitRun;
    SameDigits(s, t, end);
    if end != 0 {
      FewerDigits(s, end);
      assert s[..end][..end - 1] == s[..end - 1] && t[..end][..end - 1] == t[..end - 1];
      assert s[end - 1] == s[..end][end - 1] == t[..end][end - 1] == t[end - 1];
      AccumulatedOfPrefix(s, t, end - 1);
    }
  }

  lemma {:induction false} RunOfPrefix(rest: seq<byte>, length: nat, from: nat)
    requires from <= length <= |rest|
    requires DigitRun(rest[..length], from) < length || DigitRun(rest, from) < length
    ensures DigitRun(rest[..length], from) == DigitRun(rest, from)
    decreases length - from
  {
  }

  /** Digits in front of a byte that is none are the length field. */
  lemma LengthFieldOf(digits: seq<byte>, rest: seq<byte>)
    requires AllDigits(digits, |digits|) && rest != [] && !IsDigit(rest[0])
    ensures DigitRun(digits + rest, 0) == |digits|
    ensures Decimal(digits + rest, |digits|) == Decimal(digits, |digits|)
    ensures Accumulated(digits + rest, |digits|) == Accumulated(digits, |digits|)
  {
    hide Decimal, Accumulated;
    var data := digits + rest;
    assert data[|digits|] == rest[0];
    assert AllDigits(data, |digits|);
    AccumulatedOfPrefix(digits, data, |digits|);
  }

  /** A record's length field reads the same whether or not bytes follow the record. */
  lemma SameLengthField(rest: seq<byte>, length: nat)
    requires length <= |rest|
    requires DigitRun(rest[..length], 0) < length || DigitRun(rest, 0) < length
    ensures var d := DigitRun(rest, 0);
            d == DigitRun(rest[..length], 0) && Accumulated(rest[..length], d) == Accumulated(rest, d)
  {
    RunOfPrefix(rest, length, 0);
    AccumulatedOfPrefix(rest[..length], rest, DigitRun(rest, 0));
  }

  lemma AcceptedRecordIsFirst(rest: seq<byte>, length: nat, key: seq<byte>, value: seq<byte>)
    requires length <= |rest| && AcceptedRecord(rest[..length], key, value)
    ensures FirstRecord(rest) == Some(Record(length, key, value))
  {
    hide DigitRun, Accumulated, Decimal;
    SameLengthField(rest, length);
    var d := DigitRun(rest, 0);
    var e := d + 1 + |key|;
    assert rest[d + 1..e] == key by {
      assert rest[..length][d + 1..e] == rest[d + 1..e];
    }
    assert rest[e + 1..length - 1] == value by {
      assert rest[..length][e + 1..length - 1] == rest[e + 1..length - 1];
    }
    FirstEquals(rest, d + 1, length - 1, e);
  }

  lemma FirstEquals(s: seq<byte>, from: nat, limit: nat, e: nat)
    requires from <= e < limit <= |s| && EQUALS !in s[from..e] && s[e] == EQUALS
    ensures EqualsAt(s, from, limit) == e
  {
  }

  /** Slices of a prefix are slices of the whole. */
  lemma SliceOfPrefix(rest: seq<byte>, length: nat, from: nat, end: nat)
    requires from <= end <= length <= |rest|
    ensures rest[..length][from..end] == rest[from..end]
  {
  }

  lemma EqualsSplitsBody(rest: seq<byte>, d: nat, length: nat)
    requires 0 < d && d + 3 <= length <= |rest| && rest[d] == SPACE && rest[length - 1] == NEWLINE
    requires var e := EqualsAt(rest, d + 1, length - 1);
             d + 1 < e < length - 1 && NUL !in rest[d + 1..e] && NUL !in rest[e + 1..length - 1]
    ensures var e := EqualsAt(rest, d + 1, length - 1);
            Body(rest[..length], d, rest[d + 1..e], rest[e + 1..length - 1])
  {
    var e := EqualsAt(rest, d + 1, length - 1);
    SliceOfPrefix(rest, length, d + 1, e);
    SliceOfPrefix(rest, length, e + 1, length - 1);
    assert EQUALS !in rest[d + 1..e];
  }

  lemma FirstRecordIsAccepted(rest: seq<byte>, r: Record)
    requires FirstRecord(rest) == Some(r)
    ensures AcceptedRecord(rest[..r.length], r.key, r.value)
  {
    hide DigitRun, Accumulated, Decimal, Body, EqualsAt;
    SameLengthField(rest, r.length);
    EqualsSplitsBody(rest, DigitRun(rest, 0), r.length);
  }

  lemma {:induction false} GuardStays(s: seq<byte>, k: nat, end: nat)
    requires k <= end <= |s| && AllDigits(s, end) && Accumulated(s, k) == None
    ensures Accumulated(s, end) == None
    decreases end
  {
    if k < end {
      GuardStays(s, k, end - 1);
    }
  }

  method ScanLength(rest: seq<byte>) returns (digits: nat, length: Option<nat>)
    ensures digits <= DigitRun(rest, 0)
    ensures length == Accumulated(rest, DigitRun(rest, 0))
    ensures length.Some? ==> digits == DigitRun(rest, 0)
  {
    digits := 0;
    var value: nat := 0;
    ghost var d := DigitRun(rest, 0);
    while digits < |rest| && DIGIT_0 <= rest[digits] <= DIGIT_9
      invariant 0 <= digits <= d && DigitRun(rest, digits) == d
      invariant Accumulated(rest, digits) == Some(value)
    {
      if value > SIZE_MAX / 10 {
        GuardStays(rest, digits + 1, d);
        return digits, None;
      }
      value := Push(value, rest[digits] - DIGIT_0);
      digits := digits + 1;
    }
    length := Some(value);
  }

  method DelimitRecord(rest: seq<byte>) returns (record: Option<Record>)
    ensures record == FirstRecord(rest)
  {
    hide Accumulated, DigitRun;
    var digits, scanned := ScanLength(rest);
    if scanned == None {
      return None;
    }
    var length := scanned.value;
    if digits == 0 || digits >= |rest| || rest[digits] != SPACE || length < digits + 3 || length > |rest| {
      return None;
    }
    if rest[length - 1] != NEWLINE {
      return None;
    }
    var start := digits + 1;
    var equals := start;
    while equals < length - 1 && rest[equals] != EQUALS
      invariant start <= equals <= length - 1
      invariant EqualsAt(rest, equals, length - 1) == EqualsAt(rest, start, length - 1)
    {
      equals := equals + 1;
    }
    if equals == start || equals >= length - 1 {
      return None;
    }
    var key, value := rest[start..equals], rest[equals + 1..length - 1];
    if NUL in key || NUL in value {
      return None;
    }
    return Some(Record(length, key, value));
  }

  /**
   Reads the payload of a `g` header (one comment naming the commit) or of an `x`
   header (one path override). Exactly one record must fill the whole payload.
   */
  method PaxRecords(data: seq<byte>, global: bool, commit: seq<byte>, hasPath: bool)
    returns (ok: bool, path: seq<byte>)
    requires NUL !in commit
    ensures global ==> (ok <==> AcceptedRecord(data, COMMENT_KEY, commit))
    ensures !global ==> (ok <==> !hasPath && exists value :: AcceptsPath(data, value))
    ensures !global && ok ==> AcceptsPath(data, path) && PathOverride(data) == Some(path)
  {
    path := [];
    var offset, records := 0, 0;
    ghost var first := FirstRecord(data);
    WholePayload(data, global, commit);
    while offset < |data|
      invariant 0 <= offset <= |data|
      invariant offset == 0 ==> records == 0
      invariant offset != 0 ==>
                  && records == 1 && first.Some? && first.value.length == offset
                  && (global ==> first.value.key == COMMENT_KEY && first.value.value == commit)
                  && (!global ==> first.value.key == PATH_KEY && first.value.value == path
                                  && UsablePath(path) && !hasPath)
    {
      assert offset == 0 ==> data[offset..] == data;
      var found := DelimitRecord(data[offset..]);
      if found == None {
        return false, path;
      }
      var Record(length, key, value) := found.value;
      if (global && key != COMMENT_KEY) || (!global && key != PATH_KEY) || records != 0 {
        return false, path;
      }
      if key == COMMENT_KEY {
        if value != commit {
          return false, path;
        }
      } else {
        if hasPath || |value| == 0 || |value| >= PATH_MAX {
          return false, path;
        }
        path := value;
        var safe := SafeRelativePath(path);
        if !safe {
          return false, path;
        }
      }
      records := records + 1;
      offset := offset + length;
    }
    ok := offset == |data| && records == 1;
  }

  /** The path a payload overrides with, if it is one accepted record. */
  function PathOverride(data: seq<byte>): (path: Option<seq<byte>>)
    ensures path.Some? ==> UsablePath(path.value) && NUL !in path.value
  {
    match FirstRecord(data)
    case Some(r) => if r.length == |data| && r.key == PATH_KEY && UsablePath(r.value) then Some(r.value) else None
    case None => None
  }

  lemma WholePayload(data: seq<byte>, global: bool, commit: seq<byte>)
    ensures AcceptedRecord(data, COMMENT_KEY, commit)
            <==> FirstRecord(data) == Some(Record(|data|, COMMENT_KEY, commit))
    ensures forall value ::
                            AcceptsPath(data, value)
                            <==> FirstRecord(data) == Some(Record(|data|, PATH_KEY, value)) && UsablePath(value)
    ensures forall value :: AcceptsPath(data, value) <==> PathOverride(data) == Some(value)
  {
    AcceptedMeansFirst(data, COMMENT_KEY, commit);
    forall value
      ensures AcceptsPath(data, value)
              <==> FirstRecord(data) == Some(Record(|data|, PATH_KEY, value)) && UsablePath(value)
    {
      AcceptedMeansFirst(data, PATH_KEY, value);
    }
  }

  /** An accepted record is the first one and leaves nothing behind it. */
  lemma AcceptedMeansFirst(data: seq<byte>, key: seq<byte>, value: seq<byte>)
    ensures AcceptedRecord(data, key, value) <==> FirstRecord(data) == Some(Record(|data|, key, value))
  {
    hide AcceptedRecord, FirstRecord;
    assert data[..|data|] == data;
    if AcceptedRecord(data, key, value) {
      AcceptedRecordIsFirst(data, |data|, key, value);
    } else if FirstRecord(data) == Some(Record(|data|, key, value)) {
      FirstRecordIsAccepted(data, Record(|data|, key, value));
    }
  }

  // ----- Exactness of the length field

  lemma {:induction false} AccumulatesExactly(s: seq<byte>, end: nat)
    requires end <= |s| && AllDigits(s, end) && Decimal(s, end) <= SIZE_MAX
    ensures Accumulated(s, end) == Some(Decimal(s, end))
  {
    if end != 0 {
      AccumulatesExactly(s, end - 1);
    }
  }

  /**
   While the length field denotes a number that fits 64 bits, acceptance is exactly
   "one record whose length field is the total byte count"; a longer field never is one.
   */
  lemma LengthFieldIsExact(data: seq<byte>, key: seq<byte>, value: seq<byte>)
    requires |data| <= SIZE_MAX
    ensures var field := Decimal(data, DigitRun(data, 0));
            if field <= SIZE_MAX then AcceptedRecord(data, key, value) <==> ExactRecord(data, key, value)
            else !ExactRecord(data, key, value)
  {
    var digits := DigitRun(data, 0);
    if Decimal(data, digits) <= SIZE_MAX {
      AccumulatesExactly(data, digits);
    }
  }

  function PowerOf10(n: nat): (p: nat)
    ensures 0 < p
  {
    if n == 0 then 1 else 10 * PowerOf10(n - 1)
  }

  lemma {:induction false} DecimalBound(s: seq<byte>, end: nat)
    requires end <= |s| && AllDigits(s, end)
    ensures Decimal(s, end) < PowerOf10(end)
  {
    if end != 0 {
      DecimalBound(s, end - 1);
    }
  }

  lemma {:induction false} PowersOf10Grow(m: nat, n: nat)
    requires m <= n
    ensures PowerOf10(m) <= PowerOf10(n)
  {
    if m < n {
      PowersOf10Grow(m, n - 1);
    }
  }

  /** A length field of at most nineteen digits always fits. */
  lemma NineteenDigitsFit(data: seq<byte>, key: seq<byte>, value: seq<byte>)
    requires |data| <= SIZE_MAX && DigitRun(data, 0) <= 19
    ensures AcceptedRecord(data, key, value) <==> ExactRecord(data, key, value)
  {
    DecimalBound(data, DigitRun(data, 0));
    PowersOf10Grow(DigitRun(data, 0), 19);
    PowersUpTo19();
    LengthFieldIsExact(data, key, value);
  }

  // ----- Printing a path override

  function Digits(n: nat): (s: seq<byte>)
    ensures 0 < |s| && AllDigits(s, |s|)
  {
    if n < 10 then [DIGIT_0 + n] else Digits(n / 10) + [DIGIT_0 + n % 10]
  }

  lemma {:induction false} DigitsDenote(n: nat)
    ensures Decimal(Digits(n), |Digits(n)|) == n
  {
    if n >= 10 {
      DigitsDenote(n / 10);
      AccumulatedOfPrefix(Digits(n / 10), Digits(n), |Digits(n)| - 1);
    }
  }

  /** `n` has no more digits than any power of ten above it needs, and exactly enough. */
  lemma {:induction false} DigitCount(n: nat, k: nat)
    requires 0 < k
    ensures n < PowerOf10(|Digits(n)|)
    ensures n < PowerOf10(k) ==> |Digits(n)| <= k
  {
    if n >= 10 {
      DigitCount(n / 10, if k == 1 then 1 else k - 1);
    }
  }

  lemma ExponentIsSmall(n: nat)
    ensures n < PowerOf10(n)
  {
  }

  const WRAPPED_LENGTH: nat := 184467440737095516189

  /** `184467440737095516189 path=a` and a newline: 29 bytes, accepted with a wrapped length. */
  function WrappedRecord(): seq<byte> {
    Digits(WRAPPED_LENGTH) + [SPACE] + PATH_KEY + [EQUALS, 97, NEWLINE]
  }

  lemma PowersUpTo19()
    ensures PowerOf10(18) == 1_000_000_000_000_000_000
    ensures PowerOf10(19) == 10_000_000_000_000_000_000
  {
    assert PowerOf10(5) == 100_000;
    assert PowerOf10(10) == 10_000_000_000;
    assert PowerOf10(15) == 1_000_000_000_000_000;
  }

  /** A nineteen-digit number: the guard lets all its digits through. */
  lemma NineteenDigits(n: nat)
    requires 1_000_000_000_000_000_000 <= n < 10_000_000_000_000_000_000
    ensures |Digits(n)| == 19 && Accumulated(Digits(n), 19) == Some(n)
  {
    hide Digits, Accumulated, Decimal, PowerOf10;
    PowersUpTo19();
    DigitCount(n, 19);
    if |Digits(n)| < 19 {
      PowersOf10Grow(|Digits(n)|, 18);
    }
    DigitsDenote(n);
    AccumulatesExactly(Digits(n), 19);
  }

  lemma DigitsStep(n: nat)
    requires 10 <= n
    ensures Digits(n) == Digits(n / 10) + [DIGIT_0 + n % 10]
  {
  }

  lemma AccumulatedStep(s: seq<byte>, end: nat)
    requires 0 < end <= |s| && AllDigits(s, end)
    requires var before := Accumulated(s, end - 1); before.Some? && before.value <= SIZE_MAX / 10
    ensures Accumulated(s, end) == Some(Push(Accumulated(s, end - 1).value, s[end - 1] - DIGIT_0))
  {
  }

  /** Two more digits: the first still fits the guard, the second wraps. */
  lemma OneMoreDigit(n: nat)
    requires 10 <= n && |Digits(n / 10)| > 0
    requires var before := Accumulated(Digits(n / 10), |Digits(n / 10)|);
             before.Some? && before.value <= SIZE_MAX / 10
    ensures |Digits(n)| == |Digits(n / 10)| + 1
    ensures Accumulated(Digits(n), |Digits(n)|)
            == Some(Push(Accumulated(Digits(n / 10), |Digits(n / 10)|).value, n % 10))
  {
    hide Push, Decimal, Digits, Accumulated;
    DigitsStep(n);
    AccumulatedOfPrefix(Digits(n / 10), Digits(n), |Digits(n / 10)|);
    AccumulatedStep(Digits(n), |Digits(n)|);
  }

  lemma WrappedLength()
    ensures var digits := Digits(WRAPPED_LENGTH);
            && |digits| == 21
            && Decimal(digits, 21) == WRAPPED_LENGTH && Accumulated(digits, 21) == Some(29)
  {
    hide Digits, Accumulated, Decimal;
    var n := WRAPPED_LENGTH;
    NineteenDigits(n / 100);
    OneMoreDigit(n / 10);
    OneMoreDigit(n);
    DigitsDenote(n);
  }

  /** The guard lets one digit too many through: acceptance alone does not make the field exact. */
  lemma LengthGuardIsLoose()
    ensures AcceptsPath(WrappedRecord(), [97]) && !ExactRecord(WrappedRecord(), PATH_KEY, [97])
  {
    hide SafePath, Components, FirstRecord, Decimal, Accumulated, Digits, DigitRun;
    var data, digits := WrappedRecord(), Digits(WRAPPED_LENGTH);
    var rest := [SPACE] + PATH_KEY + [EQUALS, 97, NEWLINE];
    WrappedLength();
    assert data == digits + rest;
    LengthFieldOf(digits, rest);
    assert Body(data, 21, PATH_KEY, [97]) by {
      assert data[21..] == rest;
      assert data[22..26] == PATH_KEY && data[27..28] == [97];
    }
    SafePathStep([97]);
  }

  /** The length that counts its own digits: the first candidate, or the one after it. */
  function TotalLength(rest: nat): nat {
    rest + |Digits(rest + |Digits(rest)|)|
  }

  lemma TotalLengthCountsItself(rest: nat)
    ensures TotalLength(rest) == rest + |Digits(TotalLength(rest))|
  {
    hide Digits;
    var d := |Digits(rest)|;
    var guess := rest + d;
    ExponentIsSmall(d);
    DigitCount(rest, d);
    DigitCount(guess, d + 1);
    DigitCount(guess + 1, d + 1);
    DigitCount(rest, |Digits(guess)|);
    if |Digits(guess)| == d + 1 {
      DigitCount(guess, d);
      DigitCount(guess + 1, d);
      if |Digits(guess + 1)| <= d {
        PowersOf10Grow(|Digits(guess + 1)|, d);
      }
    }
  }

  function PrintRecord(key: seq<byte>, value: seq<byte>): seq<byte> {
    Digits(TotalLength(|key| + |value| + 3)) + [SPACE] + key + [EQUALS] + value + [NEWLINE]
  }

  /** The record as text: its own length in decimal digits, a blank, the key, an equals sign, the value, a newline. */
  lemma PrintedText(key: seq<byte>, value: seq<byte>)
    ensures var data := PrintRecord(key, value);
            var d := |data| - |key| - |value| - 3;
            && 0 < d && AllDigits(data, d) && Decimal(data, d) == |data|
            && (forall i :: 0 <= i < d ==> 48 <= data[i] <= 57)
            && data[d] == 32 && data[d + 1..d + 1 + |key|] == key && data[d + 1 + |key|] == 61
            && data[d + 2 + |key|..|data| - 1] == value && data[|data| - 1] == 10
    ensures Spells(PATH_KEY, "path") && Spells(COMMENT_KEY, "comment")
  {
    var data := PrintRecord(key, value);
    PrintedLengthField(key, value);
    var d := DigitRun(data, 0);
    assert data[d + 1..d + 1 + |key|] == key && data[d + 2 + |key|..|data| - 1] == value;
    TotalLengthCountsItself(|key| + |value| + 3);
  }

  lemma UsablePathMeans(value: seq<byte>)
    ensures UsablePath(value) <==> 0 < |value| < 1024 && SafePath(value)
  {
  }

  lemma PrintedLengthField(key: seq<byte>, value: seq<byte>)
    ensures var data := PrintRecord(key, value);
            var d := DigitRun(data, 0);
            && d == |Digits(TotalLength(|key| + |value| + 3))|
            && Decimal(data, d) == |data|
  {
    var length := TotalLength(|key| + |value| + 3);
    var rest := [SPACE] + key + [EQUALS] + value + [NEWLINE];
    TotalLengthCountsItself(|key| + |value| + 3);
    DigitsDenote(length);
    LengthFieldOf(Digits(length), rest);
    assert PrintRecord(key, value) == Digits(length) + rest;
  }

  lemma PrintedLengthIsSmall(key: seq<byte>, value: seq<byte>)
    requires |key| <= 7 && |value| < PATH_MAX
    ensures 0 < |PrintRecord(key, value)| <= 2000
  {
    var rest := |key| + |value| + 3;
    assert PowerOf10(4) == 10000;
    DigitCount(rest, 4);
    DigitCount(rest + |Digits(rest)|, 4);
    TotalLengthCountsItself(rest);
  }

  /** A printed record is exact and is accepted, whatever its key and value, as long as its length fits 64 bits. */
  lemma PrintedRecordParsesBack(key: seq<byte>, value: seq<byte>)
    requires key != [] && EQUALS !in key && NUL !in key && NUL !in value
    requires |PrintRecord(key, value)| <= SIZE_MAX
    ensures ExactRecord(PrintRecord(key, value), key, value)
    ensures AcceptedRecord(PrintRecord(key, value), key, value)
  {
    hide DigitRun, Accumulated, Decimal, Digits, TotalLength;
    var data := PrintRecord(key, value);
    PrintedLengthField(key, value);
    var d := DigitRun(data, 0);
    assert data[d + 1..d + 1 + |key|] == key && data[d + 2 + |key|..|data| - 1] == value;
    LengthFieldIsExact(data, key, value);
  }

  /** Printing a safe path as one record always parses back to that path. */
  lemma PrintedPathParsesBack(path: seq<byte>)
    requires UsablePath(path) && NUL !in path
    ensures PathOverride(PrintRecord(PATH_KEY, path)) == Some(path)
    ensures AcceptsPath(PrintRecord(PATH_KEY, path), path)
  {
    PrintedLengthIsSmall(PATH_KEY, path);
    PrintedRecordParsesBack(PATH_KEY, path);
    WholePayload(PrintRecord(PATH_KEY, path), false, []);
  }
}
