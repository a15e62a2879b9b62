/** Byte strings, optional values and a few helpers shared by the models of this project. */
module Bytes {

  type byte = x: int | 0 <= x < 256

  datatype Option<+T> = None | Some(value: T)

  const NUL: byte := 0
  const NEWLINE: byte := 10
  const TAB: byte := 9
  const SPACE: byte := 32
  const DOT: byte := 46
  const SLASH: byte := 47
  const DIGIT_0: byte := 48
  const DIGIT_7: byte := 55
  const DIGIT_9: byte := 57
  const EQUALS: byte := 61

  /** The bytes are the codes of these characters. */
  predicate Spells(bytes: seq<byte>, text: string) {
    |bytes| == |text| && forall i :: 0 <= i < |text| ==> bytes[i] == text[i] as int
  }

  lemma NamedBytes()
    ensures Spells([NUL, NEWLINE, TAB, SPACE, DOT, SLASH, DIGIT_0, DIGIT_7, DIGIT_9, EQUALS], "\0\n\t ./079=")
  {
  }

  predicate AllZero(s: seq<byte>) {
    forall i :: 0 <= i < |s| ==> s[i] == NUL
  }

  function Zeros(n: nat): (s: seq<byte>)
    ensures |s| == n && AllZero(s)
  {
    seq(n, _ => NUL)
  }

  /** The first position at or after `from` holding `b`, or the length of `s`. */
  function IndexFrom(s: seq<byte>, b: byte, from: nat): (k: nat)
    requires from <= |s|
    ensures from <= k <= |s|
    ensures forall i :: from <= i < k ==> s[i] != b
    ensures k < |s| ==> s[k] == b
    decreases |s| - from
  {
    if from == |s| || s[from] == b then from else IndexFrom(s, b, from + 1)
  }

  /** Owner, group or others may write. */
  predicate HasWriteBit(mode: nat) {
    mode / 128 % 2 == 1 || mode / 16 % 2 == 1 || mode / 2 % 2 == 1
  }

  /** The first of two strings that is not empty. */
  function Or(a: string, b: string): string {
    if a != "" then a else b
  }

  /** One element, or none. */
  function If<T(==, !new)>(c: bool, x: T): (found: set<T>)
    ensures forall y :: y in found <==> c && y == x
  {
    if c then {x} else {}
  }
}
