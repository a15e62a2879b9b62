/** Relative paths: what the materializer accepts as a name below its staging directory. */
module Paths {
  import opened Bytes

  const PATH_MAX: nat := 1024
  const NAME_MAX: nat := 255

  /** The parts of a path between slashes; never empty, though a part may be. */
  function Components(path: seq<byte>): (parts: seq<seq<byte>>)
    ensures parts != []
  {
    var k := IndexFrom(path, SLASH, 0);
    if k == |path| then [path] else [path[..k]] + Components(path[k + 1..])
  }

  function JoinComponents(parts: seq<seq<byte>>): seq<byte>
    requires parts != []
  {
    if |parts| == 1 then parts[0] else parts[0] + [SLASH] + JoinComponents(parts[1..])
  }

  predicate SafeComponent(part: seq<byte>) {
    part != [] && part != [DOT] && part != [DOT, DOT]
  }

  /** No part is empty, `.` or `..`: the path stays below the directory it starts from. */
  predicate SafePath(path: seq<byte>) {
    forall part :: part in Components(path) ==> SafeComponent(part)
  }

  lemma {:induction false} JoinUndoesSplit(path: seq<byte>)
    ensures JoinComponents(Components(path)) == path
  {
    var k := IndexFrom(path, SLASH, 0);
    if k < |path| {
      JoinUndoesSplit(path[k + 1..]);
      var rest := Components(path[k + 1..]);
      assert ([path[..k]] + rest)[1..] == rest;
      assert path == path[..k] + [SLASH] + path[k + 1..];
    }
  }

  /** Different paths have different component lists. */
  lemma ComponentsAreInjective(p: seq<byte>, q: seq<byte>)
    requires Components(p) == Components(q)
    ensures p == q
  {
    JoinUndoesSplit(p);
    JoinUndoesSplit(q);
  }

  lemma SafePathStep(path: seq<byte>)
    ensures var k := IndexFrom(path, SLASH, 0);
            SafePath(path) <==> SafeComponent(path[..k]) && (k < |path| ==> SafePath(path[k + 1..]))
  {
    var k := IndexFrom(path, SLASH, 0);
    if k == |path| {
      assert path[..k] == path && path in Components(path);
    } else {
      assert path[..k] in Components(path);
      assert forall part :: part in Components(path) <==> part == path[..k] || part in Components(path[k + 1..]);
    }
  }

  lemma {:induction false} DoubleSlashIsUnsafe(path: seq<byte>, i: nat)
    requires i + 1 < |path| && path[i] == SLASH && path[i + 1] == SLASH
    ensures !SafePath(path)
    decreases path
  {
    var k := IndexFrom(path, SLASH, 0);
    SafePathStep(path);
    if k == i {
      SafePathStep(path[k + 1..]);
      assert IndexFrom(path[k + 1..], SLASH, 0) == 0;
    } else {
      DoubleSlashIsUnsafe(path[k + 1..], i - k - 1);
    }
  }

  /** The bytes from `i` to `j` are one part of the path: no slash inside, and a slash or an end on either side. */
  predicate PartAt(path: seq<byte>, i: nat, j: nat) {
    && i <= j <= |path| && (forall k :: i <= k < j ==> path[k] != 47)
    && (i == 0 || path[i - 1] == 47) && (j == |path| || path[j] == 47)
  }

  /** Not empty, not one dot, not two dots. */
  predicate GoodPart(path: seq<byte>, i: nat, j: nat)
    requires i <= j <= |path|
  {
    i < j && !(j == i + 1 && path[i] == 46) && !(j == i + 2 && path[i] == 46 && path[i + 1] == 46)
  }

  /** Safety said byte by byte: every part between slashes is a good one. */
  lemma {:induction false} SafePathByBytes(path: seq<byte>)
    ensures SafePath(path) <==> forall i: nat, j: nat :: PartAt(path, i, j) ==> GoodPart(path, i, j)
    decreases |path|
  {
    hide SafePath, Components;
    SafePathStep(path);
    var k := IndexFrom(path, SLASH, 0);
    assert PartAt(path, 0, k);
    assert SafeComponent(path[..k]) <==> GoodPart(path, 0, k);
    if k < |path| {
      var rest := path[k + 1..];
      SafePathByBytes(rest);
      forall i: nat, j: nat | PartAt(rest, i, j)
        ensures PartAt(path, k + 1 + i, k + 1 + j) && (GoodPart(rest, i, j) <==> GoodPart(path, k + 1 + i, k + 1 + j))
      {
        LaterPart(path, k, i, j);
      }
      forall i: nat, j: nat | PartAt(path, i, j)
        ensures (i == 0 && j == k) || (k < i && PartAt(rest, i - k - 1, j - k - 1))
      {
        if k < i {
          LaterPart(path, k, i - k - 1, j - k - 1);
        }
      }
    } else {
      assert forall i: nat, j: nat :: PartAt(path, i, j) ==> i == 0 && j == k;
    }
  }

  /** The parts after the first slash are those of what follows it. */
  lemma LaterPart(path: seq<byte>, k: nat, i: nat, j: nat)
    requires k < |path| && path[k] == 47
    ensures PartAt(path[k + 1..], i, j) <==> PartAt(path, k + 1 + i, k + 1 + j)
  {
    var rest := path[k + 1..];
    if PartAt(path, k + 1 + i, k + 1 + j) {
      forall m | i <= m < j
        ensures rest[m] != 47
      {
        assert path[k + 1 + m] != 47;
      }
    }
  }

  method SafeRelativePath(path: seq<byte>) returns (safe: bool)
    ensures safe <==> SafePath(path)
  {
    hide SafePath, Components;
    SafePathStep(path);
    if |path| == 0 || path[0] == SLASH {
      return false;
    }
    var i := 0;
    while i + 1 < |path|
    {
      if path[i] == SLASH && path[i + 1] == SLASH {
        DoubleSlashIsUnsafe(path, i);
        return false;
      }
      i := i + 1;
    }
    var part := 0;
    assert path[0..] == path;
    while true
      invariant 0 <= part <= |path|
      invariant SafePath(path) <==> SafePath(path[part..])
      decreases |path| - part
    {
      ghost var rest := path[part..];
      SafePathStep(rest);
      var slash := FindSlash(path, part);
      assert IndexFrom(rest, SLASH, 0) == slash - part;
      var piece := path[part..slash];
      assert piece == rest[..slash - part];
      if |piece| == 0
        || (|piece| == 1 && piece[0] == DOT)
        || (|piece| == 2 && piece[0] == DOT && piece[1] == DOT)
      {
        return false;
      }
      if slash == |path| {
        return true;
      }
      assert path[slash + 1..] == rest[slash - part + 1..];
      part := slash + 1;
    }
  }

  method FindSlash(path: seq<byte>, from: nat) returns (slash: nat)
    requires from <= |path|
    ensures from <= slash <= |path|
    ensures forall i :: from <= i < slash ==> path[i] != SLASH
    ensures slash < |path| ==> path[slash] == SLASH
  {
    slash := from;
    while slash < |path| && path[slash] != SLASH
      invariant from <= slash <= |path|
      invariant forall i :: from <= i < slash ==> path[i] != SLASH
    {
      slash := slash + 1;
    }
  }

  /** The text of a fixed-size field up to its first NUL. */
  function FieldText(field: seq<byte>): (text: seq<byte>)
    ensures NUL !in text
  {
    field[..IndexFrom(field, NUL, 0)]
  }

  /** The path a ustar header names: `prefix/name`, one trailing slash dropped. */
  function TarPath(name: seq<byte>, prefix: seq<byte>): (path: Option<seq<byte>>)
    ensures path.Some? ==> SafePath(path.value) && |path.value| < PATH_MAX && NUL !in path.value
  {
    if NUL !in prefix then None
    else
      var joined := if FieldText(prefix) == [] then FieldText(name) else FieldText(prefix) + [SLASH] + FieldText(name);
      var trimmed := if joined != [] && |joined| < PATH_MAX && joined[|joined| - 1] == SLASH
                     then joined[..|joined| - 1] else joined;
      if trimmed != [] && |trimmed| < PATH_MAX && SafePath(trimmed) then Some(trimmed) else None
  }

  /** A fixed-size field holding `text` and NULs after it. */
  function Padded(text: seq<byte>, size: nat): (field: seq<byte>)
    requires |text| <= size
    ensures |field| == size
  {
    text + Zeros(size - |text|)
  }

  lemma PaddedReadsBack(text: seq<byte>, size: nat)
    requires |text| <= size && NUL !in text
    ensures FieldText(Padded(text, size)) == text
  {
    var field := Padded(text, size);
    assert forall i :: 0 <= i < |text| ==> field[i] == text[i] && text[i] in text;
    assert |text| < size ==> field[|text|] == NUL;
    assert IndexFrom(field, NUL, 0) == |text|;
  }

  /** What the header joins, and how it is trimmed, when both fields are terminated texts. */
  lemma TarPathOf(nameField: seq<byte>, prefixField: seq<byte>, joined: seq<byte>, path: seq<byte>, slash: bool)
    requires NUL in prefixField && SafePath(path) && |path| + 1 < PATH_MAX
    requires var prefix, name := FieldText(prefixField), FieldText(nameField);
             joined == if prefix == [] then name else prefix + [SLASH] + name
    requires joined == if slash then path + [SLASH] else path
    ensures TarPath(nameField, prefixField) == Some(path)
  {
    hide SafePath, FieldText;
    SafePathHasNoTrailingSlash(path);
    assert slash ==> joined[..|joined| - 1] == path;
  }

  /**
   A path split between the prefix and the name field is the path the header names,
   with or without a slash after it; a prefix field without a NUL never is.
   */
  lemma SplitPathReadsBack(prefix: seq<byte>, name: seq<byte>, nameSize: nat, prefixSize: nat, slash: bool)
    requires NUL !in prefix && NUL !in name && |prefix| <= prefixSize
    requires var last := if slash then name + [SLASH] else name; |last| <= nameSize
    requires var path := if prefix == [] then name else prefix + [SLASH] + name; SafePath(path) && |path| + 1 < PATH_MAX
    ensures var last := if slash then name + [SLASH] else name;
            var path := if prefix == [] then name else prefix + [SLASH] + name;
            TarPath(Padded(last, nameSize), Padded(prefix, prefixSize))
            == if |prefix| < prefixSize then Some(path) else None
  {
    hide SafePath, FieldText, TarPath;
    var last := if slash then name + [SLASH] else name;
    var path := if prefix == [] then name else prefix + [SLASH] + name;
    var nameField, prefixField := Padded(last, nameSize), Padded(prefix, prefixSize);
    PaddedReadsBack(last, nameSize);
    PaddedReadsBack(prefix, prefixSize);
    if |prefix| < prefixSize {
      assert prefixField[|prefix|] == NUL;
      var joined := if prefix == [] then last else prefix + [SLASH] + last;
      assert slash ==> joined == path + [SLASH];
      TarPathOf(nameField, prefixField, joined, path, slash);
    } else {
      assert prefixField == prefix;
      UnterminatedPrefix(nameField, prefixField);
    }
  }

  lemma UnterminatedPrefix(nameField: seq<byte>, prefixField: seq<byte>)
    requires NUL !in prefixField
    ensures TarPath(nameField, prefixField) == None
  {
  }

  lemma {:induction false} SafePathHasNoTrailingSlash(path: seq<byte>)
    requires SafePath(path)
    ensures path != [] && path[|path| - 1] != SLASH
    decreases |path|
  {
    hide SafePath;
    var k := IndexFrom(path, SLASH, 0);
    SafePathStep(path);
    if k < |path| {
      SafePathHasNoTrailingSlash(path[k + 1..]);
    }
  }
}
