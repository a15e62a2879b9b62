/** Splitting the body of a CREATE TABLE statement at its top-level commas. */
module SqlSplit {
  import opened Bytes

  const QUOTE := '\''

  /** What `strip` removes. */
  predicate IsSpace(c: char) {
    var code := c as int;
    || 9 <= code <= 13 || 28 <= code <= 32 || code == 0x85 || code == 0xA0 || code == 0x1680
    || 0x2000 <= code <= 0x200A || code == 0x2028 || code == 0x2029 || code == 0x202F || code == 0x205F
      || code == 0x3000
  }

  function StripLeft(s: string): string {
    if s != [] && IsSpace(s[0]) then StripLeft(s[1..]) else s
  }

  function StripRight(s: string): string {
    if s != [] && IsSpace(s[|s| - 1]) then StripRight(s[..|s| - 1]) else s
  }

  function Strip(s: string): string {
    StripRight(StripLeft(s))
  }

  lemma {:induction false} StripLeftCuts(s: string) returns (a: nat)
    ensures a <= |s| && StripLeft(s) == s[a..] && forall i :: 0 <= i < a ==> IsSpace(s[i])
    ensures a < |s| ==> !IsSpace(s[a])
    decreases |s|
  {
    hide IsSpace;
    a := 0;
    if s != [] && IsSpace(s[0]) {
      var b := StripLeftCuts(s[1..]);
      a := b + 1;
      assert forall i :: 1 <= i < a ==> s[i] == s[1..][i - 1];
    }
  }

  lemma {:induction false} StripRightCuts(s: string) returns (b: nat)
    ensures b <= |s| && StripRight(s) == s[..b] && forall i :: b <= i < |s| ==> IsSpace(s[i])
    ensures b > 0 ==> !IsSpace(s[b - 1])
    decreases |s|
  {
    hide IsSpace;
    b := |s|;
    if s != [] && IsSpace(s[|s| - 1]) {
      b := StripRightCuts(s[..|s| - 1]);
    }
  }

  /** Stripping cuts white space off both ends and nothing else. */
  lemma StripCutsSpace(s: string) returns (a: nat, b: nat)
    ensures a <= b <= |s| && Strip(s) == s[a..b]
    ensures forall i :: 0 <= i < a || b <= i < |s| ==> IsSpace(s[i])
    ensures a < b ==> !IsSpace(s[a]) && !IsSpace(s[b - 1])
  {
    hide IsSpace;
    a := StripLeftCuts(s);
    var rest := s[a..];
    var n := StripRightCuts(rest);
    b := a + n;
    assert rest[..n] == s[a..b];
    assert forall i :: b <= i < |s| ==> s[i] == rest[i - a];
    if a < b {
      assert s[b - 1] == rest[n - 1];
    }
  }

  /** How deep in parentheses the scan is, and whether it is inside a quoted string. */
  datatype Mode = Mode(depth: int, quoted: bool)

  const OUTSIDE := Mode(0, false)

  /** A quote counts unless a backslash stands right before it. */
  predicate QuoteAt(text: string, i: nat)
    requires i < |text|
  {
    text[i] == QUOTE && (i == 0 || text[i - 1] != '\\')
  }

  /** A doubled quote inside a string is skipped as one. */
  predicate DoubledAt(text: string, i: nat, mode: Mode)
    requires i < |text|
  {
    QuoteAt(text, i) && mode.quoted && i + 1 < |text| && text[i + 1] == QUOTE
  }

  function Width(text: string, i: nat, mode: Mode): (w: nat)
    requires i < |text|
    ensures 0 < w && i + w <= |text|
  {
    if DoubledAt(text, i, mode) then 2 else 1
  }

  function NextMode(text: string, i: nat, mode: Mode): Mode
    requires i < |text|
  {
    if DoubledAt(text, i, mode) then mode
    else if QuoteAt(text, i) then mode.(quoted := !mode.quoted)
    else if mode.quoted then mode
    else if text[i] == '(' then mode.(depth := mode.depth + 1)
    else if text[i] == ')' then mode.(depth := mode.depth - 1)
    else mode
  }

  predicate SplitsAt(text: string, i: nat, mode: Mode)
    requires i < |text|
  {
    text[i] == ',' && mode == OUTSIDE
  }

  /** The pieces of `text[start..]` between top-level commas, scanning on from `i`. */
  function Pieces(text: string, start: nat, i: nat, mode: Mode): (pieces: seq<string>)
    requires start <= i <= |text|
    ensures pieces != []
    decreases |text| - i
  {
    if i == |text| then [text[start..]]
    else if SplitsAt(text, i, mode) then [text[start..i]] + Pieces(text, i + 1, i + 1, mode)
    else Pieces(text, start, i + Width(text, i, mode), NextMode(text, i, mode))
  }

  function RawSegments(text: string): (pieces: seq<string>)
    ensures pieces != []
  {
    Pieces(text, 0, 0, OUTSIDE)
  }

  function Stripped(pieces: seq<string>): (out: seq<string>)
    ensures |out| == |pieces| && forall i :: 0 <= i < |pieces| ==> out[i] == Strip(pieces[i])
  {
    seq(|pieces|, i requires 0 <= i < |pieces| => Strip(pieces[i]))
  }

  /** Every piece trimmed; an empty last piece is dropped, an empty earlier one is not. */
  function Columns(text: string): seq<string> {
    var all := Stripped(RawSegments(text));
    if all[|all| - 1] == [] then all[..|all| - 1] else all
  }

  lemma ScanOn(body: string, start: nat, i: nat, mode: Mode, found: seq<string>)
    requires start <= i < |body| && !SplitsAt(body, i, mode)
    ensures found + Pieces(body, start, i, mode)
      == found + Pieces(body, start, i + Width(body, i, mode), NextMode(body, i, mode))
  {
  }

  lemma PieceEnds(body: string, start: nat, i: nat, found: seq<string>)
    requires start <= i < |body| && SplitsAt(body, i, OUTSIDE)
    ensures found + Pieces(body, start, i, OUTSIDE) == (found + [body[start..i]]) + Pieces(body, i + 1, i + 1, OUTSIDE)
    ensures Stripped(found + [body[start..i]]) == Stripped(found) + [Strip(body[start..i])]
  {
  }

  lemma TailEnds(body: string, start: nat, mode: Mode, found: seq<string>)
    requires start <= |body| && found + Pieces(body, start, |body|, mode) == RawSegments(body)
    ensures Columns(body) == Stripped(found) + if Strip(body[start..]) == [] then [] else [Strip(body[start..])]
  {
  }

  lemma NothingFound(body: string)
    ensures [] + Pieces(body, 0, 0, OUTSIDE) == RawSegments(body) && Stripped([]) == []
  {
  }

  method SplitSqlColumns(body: string) returns (parts: seq<string>)
    ensures parts == Columns(body)
  {
    hide Strip, Stripped, Pieces, RawSegments, Columns;
    parts := [];
    var start, mode, index := 0, OUTSIDE, 0;
    ghost var found: seq<string> := [];
    NothingFound(body);
    while index < |body|
      invariant 0 <= start <= index <= |body|
      invariant found + Pieces(body, start, index, mode) == RawSegments(body)
      invariant parts == Stripped(found)
      decreases |body| - index
    {
      var c := body[index];
      if SplitsAt(body, index, mode) {
        PieceEnds(body, start, index, found);
      } else {
        ScanOn(body, start, index, mode, found);
      }
      if c == QUOTE && (index == 0 || body[index - 1] != '\\') {
        if mode.quoted && index + 1 < |body| && body[index + 1] == QUOTE {
          index := index + 2;
          continue;
        }
        mode := mode.(quoted := !mode.quoted);
      } else if !mode.quoted {
        if c == '(' {
          mode := mode.(depth := mode.depth + 1);
        } else if c == ')' {
          mode := mode.(depth := mode.depth - 1);
        } else if c == ',' && mode.depth == 0 {
          found := found + [body[start..index]];
          parts := parts + [Strip(body[start..index])];
          start := index + 1;
        }
      }
      index := index + 1;
    }
    TailEnds(body, start, mode, found);
    var tail := Strip(body[start..]);
    if tail != [] {
      parts := parts + [tail];
    }
  }

  // ----- Joining and splitting

  function Join(parts: seq<string>): string
    requires parts != []
  {
    if |parts| == 1 then parts[0] else parts[0] + [','] + Join(parts[1..])
  }

  lemma {:induction false} PiecesJoin(text: string, start: nat, i: nat, mode: Mode)
    requires start <= i <= |text|
    ensures Join(Pieces(text, start, i, mode)) == text[start..]
    decreases |text| - i
  {
    hide NextMode, Width;
    if i < |text| {
      if SplitsAt(text, i, mode) {
        PiecesJoin(text, i + 1, i + 1, mode);
        var rest := Pieces(text, i + 1, i + 1, mode);
        assert ([text[start..i]] + rest)[1..] == rest;
        assert text[start..] == text[start..i] + [text[i]] + text[i + 1..];
      } else {
        PiecesJoin(text, start, i + Width(text, i, mode), NextMode(text, i, mode));
      }
    }
  }

  /** Nothing is lost: the raw segments of any body, joined by commas, are the body. */
  lemma SegmentsRejoin(body: string)
    ensures Join(RawSegments(body)) == body
  {
    PiecesJoin(body, 0, 0, OUTSIDE);
    assert body[0..] == body;
  }

  /** Where the scan of `d` alone ends, unless it meets a top-level comma. */
  function Run(d: string, i: nat, mode: Mode): Option<Mode>
    requires i <= |d|
    decreases |d| - i
  {
    if i == |d| then Some(mode)
    else if SplitsAt(d, i, mode) then None
    else Run(d, i + Width(d, i, mode), NextMode(d, i, mode))
  }

  /** A column definition: quotes closed, parentheses balanced, no top-level comma. */
  predicate Definition(d: string) {
    Run(d, 0, OUTSIDE) == Some(OUTSIDE)
  }

  /** `d` stands at `at` in `text`, between commas or the ends of the text. */
  predicate StandsAt(text: string, at: nat, d: string) {
    && at + |d| <= |text| && text[at..at + |d|] == d
    && (at == 0 || text[at - 1] == ',')
    && (at + |d| == |text| || text[at + |d|] == ',')
  }

  lemma SameStep(text: string, at: nat, d: string, i: nat, mode: Mode)
    requires StandsAt(text, at, d) && i < |d|
    ensures SplitsAt(text, at + i, mode) <==> SplitsAt(d, i, mode)
    ensures Width(text, at + i, mode) == Width(d, i, mode) && NextMode(text, at + i, mode) == NextMode(d, i, mode)
  {
  }

  /** In context the scan passes through a definition as it does alone. */
  lemma {:induction false} ScanThrough(text: string, at: nat, d: string, i: nat, mode: Mode)
    requires StandsAt(text, at, d) && i <= |d| && Run(d, i, mode).Some?
    ensures Pieces(text, at, at + i, mode) == Pieces(text, at, at + |d|, Run(d, i, mode).value)
    decreases |d| - i
  {
    hide NextMode, Width, SplitsAt, StandsAt;
    if i < |d| {
      SameStep(text, at, d, i, mode);
      Inside(text, at, d);
      ScanThrough(text, at, d, i + Width(d, i, mode), NextMode(d, i, mode));
    }
  }

  lemma Inside(text: string, at: nat, d: string)
    requires StandsAt(text, at, d)
    ensures at + |d| <= |text|
  {
  }

  lemma {:induction false} JoinedPieces(text: string, at: nat, parts: seq<string>)
    requires parts != [] && forall d :: d in parts ==> Definition(d)
    requires at <= |text| && text[at..] == Join(parts) && (at == 0 || text[at - 1] == ',')
    ensures Pieces(text, at, at, OUTSIDE) == parts
    decreases |parts|
  {
    hide NextMode, Width;
    var d := parts[0];
    assert d in parts;
    if |parts| == 1 {
      assert text[at..at + |d|] == d;
      ScanThrough(text, at, d, 0, OUTSIDE);
    } else {
      var tail := Join(parts[1..]);
      assert text[at..] == d + [','] + tail;
      assert text[at..at + |d|] == text[at..][..|d|] == d;
      assert text[at + |d|] == text[at..][|d|] == ',';
      assert text[at + |d| + 1..] == text[at..][|d| + 1..] == tail;
      ScanThrough(text, at, d, 0, OUTSIDE);
      JoinedPieces(text, at + |d| + 1, parts[1..]);
      assert parts == [d] + parts[1..];
    }
  }

  predicate Trimmed(d: string) {
    d != [] && Strip(d) == d
  }

  /** Splitting undoes joining, for any non-empty list of trimmed definitions. */
  lemma SplitUndoesJoin(parts: seq<string>)
    requires parts != [] && forall d :: d in parts ==> Definition(d) && Trimmed(d)
    ensures Columns(Join(parts)) == parts
  {
    hide Definition, Strip;
    var text := Join(parts);
    assert text[0..] == text;
    JoinedPieces(text, 0, parts);
    assert forall i :: 0 <= i < |parts| ==> parts[i] in parts;
    assert Stripped(parts) == parts;
  }

  // ----- Definitions as they are written

  /** Plain text, a quoted string, or something in parentheses. */
  datatype Part = Plain(text: string) | Quoted(content: string) | Group(parts: seq<Part>)

  /** Inside a string a quote is written twice. */
  function Doubled(content: string): string {
    if content == "" then ""
    else (if content[0] == '\'' then "''" else [content[0]]) + Doubled(content[1..])
  }

  function Print(part: Part): (text: string)
    ensures text != "" || part.Plain?
    decreases part
  {
    match part
    case Plain(text) => text
    case Quoted(content) => "'" + Doubled(content) + "'"
    case Group(parts) => "(" + PrintAll(parts) + ")"
  }

  function PrintAll(parts: seq<Part>): string
    decreases parts
  {
    if parts == [] then "" else Print(parts[0]) + PrintAll(parts[1..])
  }

  /** A character that opens and closes nothing; a comma only inside parentheses. */
  predicate Ordinary(c: char, top: bool) {
    c != '\'' && c != '(' && c != ')' && c != '\\' && (top ==> c != ',')
  }

  /** No backslash anywhere, and no string right after another string. */
  predicate Written(part: Part, top: bool)
    decreases part
  {
    match part
    case Plain(text) => text != "" && forall i :: 0 <= i < |text| ==> Ordinary(text[i], top)
    case Quoted(content) => '\\' !in content
    case Group(parts) => AllWritten(parts, false)
  }

  predicate AllWritten(parts: seq<Part>, top: bool)
    decreases parts
  {
    parts != [] ==>
      && Written(parts[0], top) && AllWritten(parts[1..], top)
      && (|parts| > 1 && parts[0].Quoted? ==> !parts[1].Quoted?)
  }

  /** `part` stands in `text` at `i`. */
  predicate Holds(text: string, i: nat, part: string) {
    i + |part| <= |text| && text[i..i + |part|] == part
  }

  lemma HoldsBoth(text: string, i: nat, a: string, b: string)
    requires Holds(text, i, a + b)
    ensures Holds(text, i, a) && Holds(text, i + |a|, b)
    ensures forall k :: 0 <= k < |a| ==> text[i + k] == a[k]
  {
    var both := text[i..i + |a + b|];
    assert text[i..i + |a|] == both[..|a|] == a && text[i + |a|..i + |a| + |b|] == both[|a|..] == b;
    assert forall k :: 0 <= k < |a| ==> both[k] == a[k];
  }

  predicate NoQuoteAt(text: string, i: nat) {
    i < |text| ==> text[i] != '\''
  }

  lemma {:induction false} PlainRuns(d: string, i: nat, text: string, mode: Mode)
    requires Holds(d, i, text) && !mode.quoted && mode.depth >= 0
    requires forall k :: 0 <= k < |text| ==> Ordinary(text[k], mode.depth == 0)
    ensures Run(d, i, mode) == Run(d, i + |text|, mode)
    decreases |text|
  {
    if text != "" {
      assert d[i] == text[0] && d[i + 1..i + |text|] == text[1..];
      PlainRuns(d, i + 1, text[1..], mode);
    }
  }

  lemma {:induction false} StringRuns(d: string, i: nat, content: string, mode: Mode)
    requires Holds(d, i, Doubled(content) + "'") && mode.quoted && '\\' !in d
    requires NoQuoteAt(d, i + |Doubled(content)| + 1)
    ensures Run(d, i, mode) == Run(d, i + |Doubled(content)| + 1, mode.(quoted := false))
    decreases |content|
  {
    assert d[i] == (Doubled(content) + "'")[0] && (i > 0 ==> d[i - 1] in d);
    if content != "" {
      var first, rest := if content[0] == '\'' then "''" else [content[0]], Doubled(content[1..]) + "'";
      assert Doubled(content) + "'" == first + rest;
      HoldsBoth(d, i, first, rest);
      assert |first| == 2 ==> d[i + 1] == '\'';
      StringRuns(d, i + |first|, content[1..], mode);
    }
  }

  lemma {:induction false} PartRuns(d: string, i: nat, part: Part, mode: Mode)
    requires Holds(d, i, Print(part)) && !mode.quoted && mode.depth >= 0 && '\\' !in d
    requires Written(part, mode.depth == 0) && (part.Quoted? ==> NoQuoteAt(d, i + |Print(part)|))
    ensures Run(d, i, mode) == Run(d, i + |Print(part)|, mode)
    decreases part
  {
    match part {
      case Plain(text) =>
        PlainRuns(d, i, text, mode);
      case Quoted(content) =>
        var rest := Doubled(content) + "'";
        assert Print(part) == "'" + rest;
        HoldsBoth(d, i, "'", rest);
        assert i > 0 ==> d[i - 1] in d;
        StringRuns(d, i + 1, content, mode.(quoted := true));
      case Group(parts) =>
        GroupRuns(d, i, parts, mode);
    }
  }

  lemma ParenthesisRuns(d: string, i: nat, mode: Mode)
    requires i < |d| && (d[i] == '(' || d[i] == ')') && !mode.quoted
    ensures Run(d, i, mode)
            == Run(d, i + 1, mode.(depth := if d[i] == '(' then mode.depth + 1 else mode.depth - 1))
  {
  }

  lemma {:induction false} GroupRuns(d: string, i: nat, parts: seq<Part>, mode: Mode)
    requires Holds(d, i, "(" + PrintAll(parts) + ")") && !mode.quoted && mode.depth >= 0 && '\\' !in d
    requires AllWritten(parts, false)
    ensures Run(d, i, mode) == Run(d, i + |PrintAll(parts)| + 2, mode)
    decreases parts, 1
  {
    hide Run, Written, AllWritten, PrintAll;
    var inner := PrintAll(parts);
    assert "(" + inner + ")" == "(" + (inner + ")");
    HoldsBoth(d, i, "(", inner + ")");
    HoldsBoth(d, i + 1, inner, ")");
    assert d[i] == '(' && d[i + 1 + |inner|] == ')';
    ParenthesisRuns(d, i, mode);
    ParenthesisRuns(d, i + 1 + |inner|, mode.(depth := mode.depth + 1));
    PartsRun(d, i + 1, parts, mode.(depth := mode.depth + 1));
  }

  lemma {:induction false} PartsRun(d: string, i: nat, parts: seq<Part>, mode: Mode)
    requires Holds(d, i, PrintAll(parts)) && !mode.quoted && mode.depth >= 0 && '\\' !in d
    requires AllWritten(parts, mode.depth == 0) && NoQuoteAt(d, i + |PrintAll(parts)|)
    ensures Run(d, i, mode) == Run(d, i + |PrintAll(parts)|, mode)
    decreases parts, 0
  {
    if parts != [] {
      var first, rest := Print(parts[0]), PrintAll(parts[1..]);
      HoldsBoth(d, i, first, rest);
      if |parts| > 1 && parts[0].Quoted? {
        FirstCharacter(parts[1..], mode.depth == 0);
        assert d[i + |first|] == rest[0];
      }
      PartRuns(d, i, parts[0], mode);
      PartsRun(d, i + |first|, parts[1..], mode);
    }
  }

  lemma FirstCharacter(parts: seq<Part>, top: bool)
    requires parts != [] && !parts[0].Quoted? && AllWritten(parts, top)
    ensures PrintAll(parts) != "" && PrintAll(parts)[0] != '\''
  {
  }

  /** A quote right after a backslash neither opens nor closes a string, and is no half of a doubled one. */
  lemma EscapedQuoteIsOrdinary(text: string, i: nat, mode: Mode)
    requires 0 < i < |text| && text[i] == '\'' && text[i - 1] == '\\'
    ensures !SplitsAt(text, i, mode) && Width(text, i, mode) == 1 && NextMode(text, i, mode) == mode
  {
  }

  lemma {:induction false} DoubledHasNoBackslash(content: string)
    requires '\\' !in content
    ensures '\\' !in Doubled(content)
    decreases |content|
  {
    if content != "" {
      DoubledHasNoBackslash(content[1..]);
    }
  }

  lemma {:induction false} PrintHasNoBackslash(part: Part, top: bool)
    requires Written(part, top)
    ensures '\\' !in Print(part)
    decreases part
  {
    match part {
      case Plain(text) =>
      case Quoted(content) =>
        DoubledHasNoBackslash(content);
      case Group(parts) =>
        PrintedHaveNoBackslash(parts, false);
    }
  }

  lemma {:induction false} PrintedHaveNoBackslash(parts: seq<Part>, top: bool)
    requires AllWritten(parts, top)
    ensures '\\' !in PrintAll(parts)
    decreases parts
  {
    if parts != [] {
      PrintHasNoBackslash(parts[0], top);
      PrintedHaveNoBackslash(parts[1..], top);
    }
  }

  /** A column as it is written: parts without a top-level comma, beginning and ending with something visible. */
  predicate Column(parts: seq<Part>) {
    var text := PrintAll(parts);
    AllWritten(parts, true) && text != "" && !IsSpace(text[0]) && !IsSpace(text[|text| - 1])
  }

  lemma ColumnIsDefinition(parts: seq<Part>)
    requires Column(parts)
    ensures Definition(PrintAll(parts)) && Trimmed(PrintAll(parts))
  {
    hide IsSpace;
    var text := PrintAll(parts);
    PrintedHaveNoBackslash(parts, true);
    assert text[0..0 + |text|] == text;
    PartsRun(text, 0, parts, OUTSIDE);
    assert StripLeft(text) == text && StripRight(text) == text;
  }

  function PrintColumns(columns: seq<seq<Part>>): (texts: seq<string>)
    ensures |texts| == |columns| && forall i :: 0 <= i < |columns| ==> texts[i] == PrintAll(columns[i])
  {
    seq(|columns|, i requires 0 <= i < |columns| => PrintAll(columns[i]))
  }

  /** Columns written one after the other with commas between them are split into just those columns. */
  lemma WrittenColumnsSplit(columns: seq<seq<Part>>)
    requires columns != [] && forall c :: c in columns ==> Column(c)
    ensures Columns(Join(PrintColumns(columns))) == PrintColumns(columns)
  {
    hide Column, Definition, Trimmed, Columns, Join;
    var texts := PrintColumns(columns);
    forall d | d in texts
      ensures Definition(d) && Trimmed(d)
    {
      var i :| 0 <= i < |texts| && texts[i] == d;
      assert columns[i] in columns;
      ColumnIsDefinition(columns[i]);
    }
    SplitUndoesJoin(texts);
  }
}
