/** The parts of Python's `str` behaviour that the tool bodies rely on:
    ASCII case mapping, `count`, `split`, `splitlines`, `strip`, `join`,
    `str()` of a natural number, and the "prefix + marker" truncation that
    two of the tools share. Characters are Unicode scalar values, as Python's
    code points are. */
module PyText {

  // ---------------------------------------------------------------------
  // Case mapping, one character at a time (ASCII letters only)
  // ---------------------------------------------------------------------

  function LowerChar(c: char): char {
    if 'A' <= c <= 'Z' then (c as int + 32) as char else c
  }

  function UpperChar(c: char): char {
    if 'a' <= c <= 'z' then (c as int - 32) as char else c
  }

  /** `s.lower()` as a per-character map. */
  function Lower(s: string): (r: string)
    ensures |r| == |s|
    ensures forall i :: 0 <= i < |s| ==> r[i] == LowerChar(s[i])
  {
    seq(|s|, i requires 0 <= i < |s| => LowerChar(s[i]))
  }

  /** `s.upper()` as a per-character map. */
  function Upper(s: string): (r: string)
    ensures |r| == |s|
    ensures forall i :: 0 <= i < |s| ==> r[i] == UpperChar(s[i])
  {
    seq(|s|, i requires 0 <= i < |s| => UpperChar(s[i]))
  }

  /** Lower-casing forgets whether the text was upper-cased first. */
  lemma LowerOfUpper(s: string)
    ensures Lower(Upper(s)) == Lower(s)
  {
    forall i | 0 <= i < |s| ensures Lower(Upper(s))[i] == Lower(s)[i] {
      var c := s[i];
      if 'a' <= c <= 'z' {
        assert UpperChar(c) as int == c as int - 32;
      }
    }
  }

  /** Lower-casing twice is lower-casing once. */
  lemma LowerIdempotent(s: string)
    ensures Lower(Lower(s)) == Lower(s)
  {
    forall i | 0 <= i < |s| ensures Lower(Lower(s))[i] == Lower(s)[i] {
      var c := s[i];
      if 'A' <= c <= 'Z' {
        assert LowerChar(c) as int == c as int + 32;
      }
    }
  }

  // ---------------------------------------------------------------------
  // str.count: non-overlapping occurrences, scanned from the left
  // ---------------------------------------------------------------------

  function CountNonEmpty(s: string, sub: string): nat
    requires |sub| > 0
    decreases |s|
  {
    if |s| < |sub| then 0
    else if s[..|sub|] == sub then 1 + CountNonEmpty(s[|sub|..], sub)
    else CountNonEmpty(s[1..], sub)
  }

  /** `s.count(sub)`; an empty `sub` matches at each of the |s|+1 positions.
      Occurrences are counted without overlap, so they fit in `s`. */
  function Count(s: string, sub: string): (r: nat)
    ensures sub == [] ==> r == |s| + 1
    ensures sub != [] ==> r * |sub| <= |s|
  {
    if sub == [] then |s| + 1
    else
      CountNonEmptyFits(s, sub);
      CountNonEmpty(s, sub)
  }

  /** Occurrences of a one-character text are the positions holding it. */
  lemma {:induction false} CountSingleChar(s: string, c: char)
    ensures Count(s, [c]) == multiset(s)[c]
    decreases |s|
  {
    if |s| > 0 {
      assert s == [s[0]] + s[1..];
      assert multiset(s) == multiset{s[0]} + multiset(s[1..]);
      CountSingleChar(s[1..], c);
    }
  }

  lemma {:induction false} CountNonEmptyFits(s: string, sub: string)
    requires |sub| > 0
    ensures CountNonEmpty(s, sub) * |sub| <= |s|
    decreases |s|
  {
    if |s| >= |sub| {
      if s[..|sub|] == sub {
        CountNonEmptyFits(s[|sub|..], sub);
      } else {
        CountNonEmptyFits(s[1..], sub);
      }
    }
  }

  // ---------------------------------------------------------------------
  // Substrings, str.split(sep) and str.join
  // ---------------------------------------------------------------------

  /** `sep` occurs in `p` starting at position `i`. */
  predicate OccursAt(p: string, sep: string, i: int) {
    0 <= i && i + |sep| <= |p| && p[i..i + |sep|] == sep
  }

  /** `sep in p`. */
  predicate HasSub(p: string, sep: string) {
    exists i | 0 <= i <= |p| :: OccursAt(p, sep, i)
  }

  /** An occurrence inside a slice is an occurrence in the whole text. */
  lemma OccursInSlice(p: string, sep: string, a: nat, b: nat, i: int)
    requires a <= b <= |p|
    ensures OccursAt(p[a..b], sep, i) ==> OccursAt(p, sep, a + i)
  {
    if OccursAt(p[a..b], sep, i) {
      forall j | 0 <= j < |sep| ensures p[a + i + j] == sep[j] {
        assert p[a..b][i..i + |sep|][j] == sep[j];
      }
      assert p[a + i..a + i + |sep|] == sep;
    }
  }

  /** A substring of a text without `sep` is without `sep` too. */
  lemma NoSubInSlice(p: string, sep: string, a: nat, b: nat)
    requires a <= b <= |p|
    ensures !HasSub(p, sep) ==> !HasSub(p[a..b], sep)
  {
    forall i | 0 <= i <= |p[a..b]| ensures OccursAt(p[a..b], sep, i) ==> OccursAt(p, sep, a + i) {
      OccursInSlice(p, sep, a, b, i);
    }
  }

  /** An occurrence in `[c] + t` is at the front or is one in `t`. */
  lemma OccursAfterFirst(c: char, t: string, sep: string, i: int)
    requires |sep| > 0
    ensures OccursAt([c] + t, sep, i) ==>
      (i == 0 && ([c] + t)[..|sep|] == sep) || OccursAt(t, sep, i - 1)
  {
    var x := [c] + t;
    if OccursAt(x, sep, i) && i > 0 {
      assert t[i - 1..i - 1 + |sep|] == x[i..i + |sep|];
    }
  }

  /** `s.count(sub)` is non-zero exactly when `sub in s`. */
  lemma {:induction false} CountFindsSub(s: string, sub: string)
    requires |sub| > 0
    ensures Count(s, sub) > 0 <==> HasSub(s, sub)
    decreases |s|
  {
    if |s| < |sub| {
      assert !HasSub(s, sub);
    } else if s[..|sub|] == sub {
      assert OccursAt(s, sub, 0);
    } else {
      CountFindsSub(s[1..], sub);
      if HasSub(s, sub) {
        var i :| 0 <= i <= |s| && OccursAt(s, sub, i);
        assert i != 0;
        assert s[1..][i - 1..i - 1 + |sub|] == s[i..i + |sub|];
        assert OccursAt(s[1..], sub, i - 1);
      }
      if HasSub(s[1..], sub) {
        var i :| 0 <= i <= |s[1..]| && OccursAt(s[1..], sub, i);
        assert s[1..|s|] == s[1..];
        OccursInSlice(s, sub, 1, |s|, i);
      }
    }
  }

  /** `s.split(sep)` for a non-empty `sep`: the pieces between the
      non-overlapping occurrences of `sep`, found from the left. */
  function Split(s: string, sep: string): (r: seq<string>)
    requires |sep| > 0
    ensures |r| >= 1
    ensures |r[0]| <= |s| && r[0] == s[..|r[0]|]
    ensures forall p | p in r :: !HasSub(p, sep)
    decreases |s|
  {
    if |s| < |sep| then [s]
    else if s[..|sep|] == sep then
      var rest := Split(s[|sep|..], sep);
      [""] + rest
    else
      var rest := Split(s[1..], sep);
      var first := [s[0]] + rest[0];
      assert first == s[..|first|];
      assert rest[0] in rest;
      assert !HasSub(first, sep) by {
        forall i | 0 <= i <= |first|
          ensures OccursAt(first, sep, i) ==> (i == 0 && first[..|sep|] == sep) || OccursAt(rest[0], sep, i - 1)
        {
          OccursAfterFirst(s[0], rest[0], sep, i);
        }
        assert |first| >= |sep| ==> first[..|sep|] == s[..|sep|];
      }
      assert forall q | q in rest[1..] :: q in rest;
      assert rest[0] in rest;
      [first] + rest[1..]
  }

  /** Every character of a piece comes from the split text. */
  lemma {:induction false} SplitPiecesFromText(s: string, sep: string)
    requires |sep| > 0
    ensures forall p, c | p in Split(s, sep) && c in p :: c in s
    decreases |s|
  {
    if |s| >= |sep| {
      if s[..|sep|] == sep {
        var t := s[|sep|..];
        SplitPiecesFromText(t, sep);
        assert forall c | c in t :: c in s;
      } else {
        var t := s[1..];
        SplitPiecesFromText(t, sep);
        assert forall c | c in t :: c in s;
        var rest := Split(t, sep);
        assert rest[0] in rest;
        assert forall q | q in rest[1..] :: q in rest;
      }
    }
  }

  /** Python's identity `len(s.split(sep)) == s.count(sep) + 1`. */
  lemma {:induction false} SplitCount(s: string, sep: string)
    requires |sep| > 0
    ensures |Split(s, sep)| == Count(s, sep) + 1
    decreases |s|
  {
    if |s| >= |sep| {
      if s[..|sep|] == sep {
        SplitCount(s[|sep|..], sep);
      } else {
        SplitCount(s[1..], sep);
      }
    }
  }

  /** A text without `sep` splits into itself alone. */
  lemma {:induction false} SplitWithoutSep(s: string, sep: string)
    requires |sep| > 0
    requires !HasSub(s, sep)
    ensures Split(s, sep) == [s]
    decreases |s|
  {
    if |s| >= |sep| {
      assert !OccursAt(s, sep, 0);
      NoSubInSlice(s, sep, 1, |s|);
      assert s[1..|s|] == s[1..];
      SplitWithoutSep(s[1..], sep);
      assert [s[0]] + s[1..] == s;
    }
  }

  /** `sep.join(parts)`: no parts give "", and otherwise the text starts with
      the first part (`JoinLast`: and ends with the last). */
  function Join(parts: seq<string>, sep: string): (r: string)
    ensures parts == [] ==> r == ""
    ensures parts != [] ==> |parts[0]| <= |r| && r[..|parts[0]|] == parts[0]
    decreases |parts|
  {
    if |parts| == 0 then ""
    else if |parts| == 1 then parts[0]
    else parts[0] + sep + Join(parts[1..], sep)
  }

  /** A join ends with its last part. */
  lemma {:induction false} JoinLast(parts: seq<string>, sep: string)
    requires parts != []
    ensures var last := parts[|parts| - 1];
      |last| <= |Join(parts, sep)| && Join(parts, sep)[|Join(parts, sep)| - |last|..] == last
    decreases |parts|
  {
    if |parts| > 1 {
      var rest := parts[1..];
      JoinLast(rest, sep);
      assert rest[|rest| - 1] == parts[|parts| - 1];
      var j := Join(rest, sep);
      assert Join(parts, sep) == (parts[0] + sep) + j;
    }
  }

  lemma JoinCons(a: string, rest: seq<string>, sep: string)
    requires |rest| >= 1
    ensures Join([a] + rest, sep) == a + sep + Join(rest, sep)
  {
    assert ([a] + rest)[1..] == rest;
  }

  lemma JoinPrependChar(c: char, rest: seq<string>, sep: string)
    requires |rest| >= 1
    ensures Join([[c] + rest[0]] + rest[1..], sep) == [c] + Join(rest, sep)
  {
    var xs := [[c] + rest[0]] + rest[1..];
    if |rest| == 1 {
      assert xs == [[c] + rest[0]];
    } else {
      assert xs[1..] == rest[1..];
    }
  }

  /** Joining the pieces of a split with its separator gives back the text,
      so the split keeps every character, in order. */
  lemma {:induction false} JoinSplit(s: string, sep: string)
    requires |sep| > 0
    ensures Join(Split(s, sep), sep) == s
    decreases |s|
  {
    if |s| < |sep| {
      assert Split(s, sep) == [s];
    } else if s[..|sep|] == sep {
      var t := s[|sep|..];
      JoinSplit(t, sep);
      JoinAfterSep(sep, t, Split(t, sep));
      assert s[..|sep|] + t == s;
    } else {
      var t := s[1..];
      JoinSplit(t, sep);
      var rest := Split(t, sep);
      JoinPrependChar(s[0], rest, sep);
      assert s == [s[0]] + t;
    }
  }

  /** `sep + t` is "" joined to pieces that join to `t`. */
  lemma JoinAfterSep(sep: string, t: string, rest: seq<string>)
    requires |rest| >= 1 && Join(rest, sep) == t
    ensures Join([""] + rest, sep) == sep + t
  {
    JoinCons("", rest, sep);
    assert "" + sep + t == sep + t;
  }

  lemma {:induction false} SplitPrefixedPiece(p: string, c: char, rest: string)
    requires c !in p
    ensures Split(p + [c] + rest, [c]) == [p] + Split(rest, [c])
    decreases |p|
  {
    var s := p + [c] + rest;
    if |p| == 0 {
      assert s[..1] == [c];
      assert s[1..] == rest;
    } else {
      assert s[..1] != [c] by { assert s[0] == p[0]; }
      assert s[1..] == p[1..] + [c] + rest;
      SplitPrefixedPiece(p[1..], c, rest);
      assert [p[0]] + p[1..] == p;
    }
  }

  /** Splitting on a one-character separator undoes joining with it, when no
      part contains that character. */
  lemma {:induction false} SplitJoin(parts: seq<string>, c: char)
    requires |parts| >= 1
    requires forall p | p in parts :: c !in p
    ensures Split(Join(parts, [c]), [c]) == parts
    decreases |parts|
  {
    if |parts| == 1 {
      assert parts[0] in parts;
      assert !HasSub(parts[0], [c]) by {
        forall i | 0 <= i < |parts[0]| ensures !OccursAt(parts[0], [c], i) {
          assert parts[0][i] in parts[0];
          assert parts[0][i..i + 1] == [parts[0][i]];
        }
      }
      SplitWithoutSep(parts[0], [c]);
    } else {
      assert parts[0] in parts;
      assert forall p | p in parts[1..] :: p in parts;
      SplitJoin(parts[1..], c);
      SplitPrefixedPiece(parts[0], c, Join(parts[1..], [c]));
      assert [parts[0]] + parts[1..] == parts;
    }
  }

  // ---------------------------------------------------------------------
  // Whitespace, str.strip and str.splitlines
  // ---------------------------------------------------------------------

  /** `c.isspace()`. */
  predicate IsSpace(c: char) {
    c == '\t' || c == '\n' || c == '\U{0B}' || c == '\U{0C}' || c == '\r'
    || ('\U{1C}' <= c <= '\U{1F}') || c == ' ' || c == '\U{85}' || c == '\U{A0}'
    || c == '\U{1680}' || ('\U{2000}' <= c <= '\U{200A}')
    || c == '\U{2028}' || c == '\U{2029}' || c == '\U{202F}' || c == '\U{205F}'
    || c == '\U{3000}'
  }

  /** A character at which `str.splitlines` ends a line. */
  predicate IsLineBoundary(c: char) {
    c == '\n' || c == '\r' || c == '\U{0B}' || c == '\U{0C}'
    || ('\U{1C}' <= c <= '\U{1E}') || c == '\U{85}'
    || c == '\U{2028}' || c == '\U{2029}'
  }

  /** `s.lstrip()`: the longest suffix that does not start with whitespace. */
  function StripLeft(s: string): (r: string)
    ensures |r| <= |s| && r == s[|s| - |r|..]
    ensures forall i :: 0 <= i < |s| - |r| ==> IsSpace(s[i])
    ensures r == [] || !IsSpace(r[0])
    decreases |s|
  {
    if |s| > 0 && IsSpace(s[0]) then StripLeft(s[1..]) else s
  }

  /** `s.rstrip()`: the longest prefix that does not end with whitespace. */
  function StripRight(s: string): (r: string)
    ensures |r| <= |s| && r == s[..|r|]
    ensures forall i :: |r| <= i < |s| ==> IsSpace(s[i])
    ensures r == [] || !IsSpace(r[|r| - 1])
    decreases |s|
  {
    if |s| > 0 && IsSpace(s[|s| - 1]) then StripRight(s[..|s| - 1]) else s
  }

  /** `s.strip()`: `s` without its leading and trailing whitespace. */
  function Strip(s: string): (r: string)
    ensures StripOffset(s) + |r| <= |s| && r == s[StripOffset(s)..StripOffset(s) + |r|]
    ensures forall i | 0 <= i < StripOffset(s) :: IsSpace(s[i])
    ensures forall i | StripOffset(s) + |r| <= i < |s| :: IsSpace(s[i])
    ensures r == [] || (!IsSpace(r[0]) && !IsSpace(r[|r| - 1]))
  {
    var l := StripLeft(s);
    var r := StripRight(l);
    TrimmedSlice(s, l, r, |s| - |l|);
    r
  }

  /** Where `s.strip()` starts inside `s`. */
  function StripOffset(s: string): nat {
    |s| - |StripLeft(s)|
  }

  /** A prefix `r` of the suffix `l` of `s` is a slice of `s`, and what the
      prefix leaves over is what it leaves over in `s`. */
  lemma TrimmedSlice(s: string, l: string, r: string, k: nat)
    requires k <= |s| && l == s[k..]
    requires |r| <= |l| && r == l[..|r|]
    requires forall j :: |r| <= j < |l| ==> IsSpace(l[j])
    ensures k + |r| <= |s| && r == s[k..k + |r|]
    ensures forall i | k + |r| <= i < |s| :: IsSpace(s[i])
  {
    forall i | k + |r| <= i < |s| ensures IsSpace(s[i]) {
      assert s[i] == l[i - k];
    }
  }

  /** A text that neither starts nor ends with whitespace is its own strip. */
  lemma StripTrimmed(s: string)
    requires s == [] || (!IsSpace(s[0]) && !IsSpace(s[|s| - 1]))
    ensures Strip(s) == s
  {
  }

  function LineBreakWidth(s: string): nat
    requires |s| > 0
  {
    if s[0] == '\r' && |s| > 1 && s[1] == '\n' then 2 else 1
  }

  /** `s.splitlines()`: the lines of `s` without their line breaks; a final
      line break does not start an empty line, and `\r\n` is one break. */
  function SplitLines(s: string): (r: seq<string>)
    ensures forall l, i | l in r && 0 <= i < |l| :: !IsLineBoundary(l[i])
    ensures s != [] ==> |r| >= 1
    decreases |s|
  {
    if s == [] then []
    else if IsLineBoundary(s[0]) then [""] + SplitLines(s[LineBreakWidth(s)..])
    else
      var rest := SplitLines(s[1..]);
      if rest == [] then [[s[0]]]
      else [[s[0]] + rest[0]] + rest[1..]
  }

  lemma {:induction false} SplitLinesPrefixedLine(p: string, rest: string)
    requires forall i | 0 <= i < |p| :: !IsLineBoundary(p[i])
    ensures SplitLines(p + "\n" + rest) == [p] + SplitLines(rest)
    decreases |p|
  {
    var s := p + "\n" + rest;
    if |p| == 0 {
      assert s[0] == '\n';
      assert s[1..] == rest;
    } else {
      assert s[0] == p[0];
      assert s[1..] == p[1..] + "\n" + rest;
      SplitLinesPrefixedLine(p[1..], rest);
      assert [p[0]] + p[1..] == p;
    }
  }

  lemma {:induction false} SplitLinesOneLine(p: string)
    requires |p| > 0
    requires forall i | 0 <= i < |p| :: !IsLineBoundary(p[i])
    ensures SplitLines(p) == [p]
    decreases |p|
  {
    assert !IsLineBoundary(p[0]);
    if |p| > 1 {
      SplitLinesOneLine(p[1..]);
      assert SplitLines(p) == [[p[0]] + p[1..]];
      assert [p[0]] + p[1..] == p;
    } else {
      assert p[1..] == [];
      assert SplitLines(p) == [[p[0]]];
      assert p == [p[0]];
    }
  }

  /** `splitlines` undoes joining non-empty, break-free lines with `\n`. */
  lemma {:induction false} SplitLinesJoin(lines: seq<string>)
    requires forall l | l in lines :: |l| > 0
    requires forall l, i | l in lines && 0 <= i < |l| :: !IsLineBoundary(l[i])
    ensures SplitLines(Join(lines, "\n")) == lines
    decreases |lines|
  {
    if |lines| == 1 {
      assert lines[0] in lines;
      SplitLinesOneLine(lines[0]);
    } else if |lines| > 1 {
      assert lines[0] in lines;
      assert forall l | l in lines[1..] :: l in lines;
      SplitLinesJoin(lines[1..]);
      SplitLinesPrefixedLine(lines[0], Join(lines[1..], "\n"));
      assert [lines[0]] + lines[1..] == lines;
    }
  }

  // ---------------------------------------------------------------------
  // str() of a natural number
  // ---------------------------------------------------------------------

  predicate IsDigit(c: char) {
    '0' <= c <= '9'
  }

  function DigitChar(d: nat): (c: char)
    requires d < 10
    ensures IsDigit(c)
  {
    ('0' as int + d) as char
  }

  /** `str(n)` in decimal, with no leading zero. */
  function NatToDecimal(n: nat): (r: string)
    ensures |r| >= 1
    ensures forall i | 0 <= i < |r| :: IsDigit(r[i])
    ensures r[0] == '0' ==> n == 0 && r == "0"
    decreases n
  {
    if n < 10 then [DigitChar(n)] else NatToDecimal(n / 10) + [DigitChar(n % 10)]
  }

  /** The number a string of decimal digits denotes. */
  function DecimalValue(s: string): nat
    requires forall i | 0 <= i < |s| :: IsDigit(s[i])
    decreases |s|
  {
    if s == [] then 0
    else
      assert IsDigit(s[|s| - 1]);
      DecimalValue(s[..|s| - 1]) * 10 + (s[|s| - 1] as int - '0' as int)
  }

  /** Reading back the decimal text gives the number: `int(str(n)) == n`. */
  lemma {:induction false} DecimalRoundTrip(n: nat)
    ensures DecimalValue(NatToDecimal(n)) == n
    decreases n
  {
    if n >= 10 {
      DecimalRoundTrip(n / 10);
      var s := NatToDecimal(n);
      assert s[..|s| - 1] == NatToDecimal(n / 10);
    }
  }

  /** Distinct numbers have distinct decimal texts. */
  lemma DecimalInjective(m: nat, n: nat)
    requires NatToDecimal(m) == NatToDecimal(n)
    ensures m == n
  {
    DecimalRoundTrip(m);
    DecimalRoundTrip(n);
  }

  // ---------------------------------------------------------------------
  // Truncation to a maximum length, with a marker appended
  // ---------------------------------------------------------------------

  const TruncationMarker: string := "\n\n[Content truncated due to length...]"

  /** `text` if it has at most `maxLength` characters; otherwise its first
      `maxLength` characters followed by the truncation marker. */
  function Truncate(text: string, maxLength: nat): (r: string)
    ensures |text| <= maxLength ==> r == text
    ensures |text| > maxLength ==>
      |r| == maxLength + |TruncationMarker|
      && r[..maxLength] == text[..maxLength]
      && r[maxLength..] == TruncationMarker
  {
    if |text| > maxLength then text[..maxLength] + TruncationMarker else text
  }

  /** Truncating an already truncated text changes nothing. */
  lemma TruncateIdempotent(text: string, maxLength: nat)
    ensures Truncate(Truncate(text, maxLength), maxLength) == Truncate(text, maxLength)
  {
    var r := Truncate(text, maxLength);
    if |text| > maxLength {
      assert r[..maxLength] + TruncationMarker == r;
    }
  }

  /** A truncated text is never longer than the limit plus the marker, and
      it always keeps the text's first `maxLength` characters. */
  lemma TruncateBounds(text: string, maxLength: nat)
    ensures |Truncate(text, maxLength)| <= maxLength + |TruncationMarker|
    ensures var k := if |text| < maxLength then |text| else maxLength;
      Truncate(text, maxLength)[..k] == text[..k]
  {
  }
}
