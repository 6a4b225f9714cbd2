/** `fetch_url_content` of demo-tools/demo_tool_read_web_content.py, from the
    point where the page text has been extracted. Fetching the URL, parsing
    the HTML and dropping its script and style elements are outside the
    model: a download arrives as the exception that ended it or as the
    extracted text. */
module WebContent {
  import opened PyText

  /** How the fetch and the HTML extraction ended. */
  datatype Download =
    | RequestFailed(reason: string)     // a `requests` exception
    | ProcessingFailed(reason: string)  // any other exception
    | Extracted(text: string)           // `soup.get_text()`

  const MaxTextLength: nat := 8000

  // ---------------------------------------------------------------------
  // Whitespace cleanup
  // ---------------------------------------------------------------------

  /** The phrases of one line: the line is stripped, split at every double
      space, and each piece is stripped. */
  function Phrases(line: string): (r: seq<string>)
    ensures |r| >= 1
  {
    StripEach(Split(Strip(line), "  "))
  }

  /** Every text of `xs`, stripped. */
  function StripEach(xs: seq<string>): (r: seq<string>)
    ensures |r| == |xs|
    decreases |xs|
  {
    if xs == [] then [] else [Strip(xs[0])] + StripEach(xs[1..])
  }

  /** The results of `f` on every element of `xs`, concatenated in order. */
  function FlatMap(xs: seq<string>, f: string -> seq<string>): seq<string>
    decreases |xs|
  {
    if xs == [] then [] else f(xs[0]) + FlatMap(xs[1..], f)
  }

  /** The phrases of every line, in order. */
  function AllPhrases(lines: seq<string>): seq<string> {
    FlatMap(lines, Phrases)
  }

  /** The non-empty texts of `xs`, in order: every non-empty element is
      kept and nothing else is. */
  function NonEmpty(xs: seq<string>): (r: seq<string>)
    ensures |r| <= |xs|
    ensures forall x | x in r :: x != "" && x in xs
    ensures forall x | x in xs && x != "" :: x in r
    decreases |xs|
  {
    if xs == [] then []
    else
      var rest := NonEmpty(xs[1..]);
      assert forall x | x in xs && x != xs[0] :: x in xs[1..];
      (if xs[0] != "" then [xs[0]] else []) + rest
  }

  /** The chunks the cleanup keeps: each is non-empty, has no whitespace at
      either end, and holds no double space and no line break. */
  function Chunks(text: string): (r: seq<string>)
    ensures forall c | c in r :: IsChunk(c)
  {
    var lines := SplitLines(text);
    AllPhrasesAreChunks(lines);
    NonEmpty(AllPhrases(lines))
  }

  /** The cleanup: the chunks joined by line breaks. The result is empty
      only when no chunk is kept, and it never starts or ends with
      whitespace. */
  function CleanWhitespace(text: string): (r: string)
    ensures r == "" <==> Chunks(text) == []
    ensures r != "" ==> !IsSpace(r[0]) && !IsSpace(r[|r| - 1])
  {
    var cs := Chunks(text);
    var r := Join(cs, "\n");
    assert cs != [] ==>
      IsChunk(cs[0]) && IsChunk(cs[|cs| - 1]) && r[|r| - |cs[|cs| - 1]|..] == cs[|cs| - 1]
    by {
      if cs != [] {
        assert cs[0] in cs && cs[|cs| - 1] in cs;
        JoinLast(cs, "\n");
      }
    }
    r
  }

  predicate BreakFree(s: string) {
    forall i | 0 <= i < |s| :: !IsLineBoundary(s[i])
  }

  /** What every kept chunk looks like: non-empty, no whitespace at either
      end, no double space and no line break inside. */
  predicate IsChunk(c: string) {
    c != "" && !IsSpace(c[0]) && !IsSpace(c[|c| - 1]) && !HasSub(c, "  ") && BreakFree(c)
  }

  lemma BreakFreeSlice(s: string, a: nat, b: nat)
    requires a <= b <= |s| && BreakFree(s)
    ensures BreakFree(s[a..b])
  {
    assert forall i | 0 <= i < b - a :: s[a..b][i] == s[a + i];
  }

  lemma BreakFreeChars(s: string, t: string)
    requires BreakFree(s)
    requires forall c | c in t :: c in s
    ensures BreakFree(t)
  {
    forall i | 0 <= i < |t| ensures !IsLineBoundary(t[i]) {
      assert t[i] in t;
      var j :| 0 <= j < |s| && s[j] == t[i];
    }
  }

  /** Stripping keeps a text free of line breaks. */
  lemma StripKeepsBreakFree(s: string)
    requires BreakFree(s)
    ensures BreakFree(Strip(s))
  {
    BreakFreeSlice(s, StripOffset(s), StripOffset(s) + |Strip(s)|);
  }

  /** Stripping keeps a text free of double spaces. */
  lemma StripKeepsNoDouble(s: string)
    requires !HasSub(s, "  ")
    ensures !HasSub(Strip(s), "  ")
  {
    var a := StripOffset(s);
    var b := a + |Strip(s)|;
    assert Strip(s) == s[a..b];
    NoSubInSlice(s, "  ", a, b);
  }

  /** A piece of a split has no line break when the split text had none. */
  lemma PieceIsBreakFree(s: string, piece: string)
    requires BreakFree(s)
    requires piece in Split(s, "  ")
    ensures BreakFree(piece)
  {
    SplitPiecesFromText(s, "  ");
    BreakFreeChars(s, piece);
  }

  lemma {:induction false} StripEachMember(xs: seq<string>, p: string)
    requires p in StripEach(xs)
    ensures exists x | x in xs :: p == Strip(x)
    decreases |xs|
  {
    if p != Strip(xs[0]) {
      assert p in StripEach(xs[1..]);
      StripEachMember(xs[1..], p);
      assert forall x | x in xs[1..] :: x in xs;
    }
  }

  lemma {:induction false} FlatMapMember(xs: seq<string>, f: string -> seq<string>, p: string)
    requires p in FlatMap(xs, f)
    ensures exists x | x in xs :: p in f(x)
    decreases |xs|
  {
    if p !in f(xs[0]) {
      FlatMapMember(xs[1..], f, p);
      assert forall x | x in xs[1..] :: x in xs;
    }
  }

  /** A stripped piece of a break-free text split at double spaces is a
      chunk when it is not empty. */
  lemma StrippedPieceIsChunk(s: string, piece: string)
    requires BreakFree(s)
    requires piece in Split(s, "  ")
    requires Strip(piece) != ""
    ensures IsChunk(Strip(piece))
  {
    PieceIsBreakFree(s, piece);
    StripKeepsBreakFree(piece);
    StripKeepsNoDouble(piece);
  }

  lemma PhraseIsChunk(line: string, p: string)
    requires BreakFree(line)
    requires p in Phrases(line) && p != ""
    ensures IsChunk(p)
  {
    var sl := Strip(line);
    StripKeepsBreakFree(line);
    StripEachMember(Split(sl, "  "), p);
    var piece :| piece in Split(sl, "  ") && p == Strip(piece);
    StrippedPieceIsChunk(sl, piece);
  }

  lemma AllPhrasesAreChunks(lines: seq<string>)
    requires forall l | l in lines :: BreakFree(l)
    ensures forall p | p in AllPhrases(lines) && p != "" :: IsChunk(p)
  {
    forall p | p in AllPhrases(lines) && p != "" ensures IsChunk(p) {
      FlatMapMember(lines, Phrases, p);
      var l :| l in lines && p in Phrases(l);
      PhraseIsChunk(l, p);
    }
  }

  /** Splitting the cleaned text at its line breaks gives back the chunks,
      so no `\n`-separated part of it is empty or has whitespace at an end. */
  lemma CleanSplitsIntoChunks(text: string)
    requires CleanWhitespace(text) != ""
    ensures Split(CleanWhitespace(text), "\n") == Chunks(text)
    ensures forall part | part in Split(CleanWhitespace(text), "\n") ::
      part != "" && !IsSpace(part[0]) && !IsSpace(part[|part| - 1])
  {
    var cs := Chunks(text);
    assert cs != [];
    forall c | c in cs ensures '\n' !in c {
      BreakFreeHasNoNewline(c);
    }
    SplitJoin(cs, '\n');
  }

  lemma BreakFreeHasNoNewline(c: string)
    requires BreakFree(c)
    ensures '\n' !in c
  {
    forall i | 0 <= i < |c| ensures c[i] != '\n' {
      assert !IsLineBoundary(c[i]);
    }
  }

  lemma {:induction false} NonEmptyAppend(a: seq<string>, b: seq<string>)
    ensures NonEmpty(a + b) == NonEmpty(a) + NonEmpty(b)
    decreases |a|
  {
    if a == [] {
      assert a + b == b;
    } else {
      var head := if a[0] != "" then [a[0]] else [];
      assert (a + b)[0] == a[0];
      assert (a + b)[1..] == a[1..] + b;
      NonEmptyAppend(a[1..], b);
      calc {
        NonEmpty(a + b);
        head + NonEmpty(a[1..] + b);
        head + (NonEmpty(a[1..]) + NonEmpty(b));
        (head + NonEmpty(a[1..])) + NonEmpty(b);
        NonEmpty(a) + NonEmpty(b);
      }
    }
  }

  lemma {:induction false} NonEmptyKeepsAll(xs: seq<string>)
    requires forall x | x in xs :: x != ""
    ensures NonEmpty(xs) == xs
    decreases |xs|
  {
    if xs != [] {
      assert xs[0] in xs;
      assert forall x | x in xs[1..] :: x in xs;
      NonEmptyKeepsAll(xs[1..]);
      assert [xs[0]] + xs[1..] == xs;
    }
  }

  /** A chunk is its own only phrase. */
  lemma ChunkPhrases(c: string)
    requires IsChunk(c)
    ensures Phrases(c) == [c]
  {
    StripTrimmed(c);
    SplitWithoutSep(c, "  ");
    assert [c][1..] == [];
    assert StripEach([c]) == [Strip(c)] + StripEach([]);
  }

  lemma {:induction false} FlatMapSingletons(cs: seq<string>, f: string -> seq<string>)
    requires forall i | 0 <= i < |cs| :: f(cs[i]) == [cs[i]]
    ensures FlatMap(cs, f) == cs
    decreases |cs|
  {
    if cs != [] {
      var t := cs[1..];
      forall i | 0 <= i < |t| ensures f(t[i]) == [t[i]] {
        assert t[i] == cs[i + 1];
      }
      FlatMapSingletons(t, f);
      assert [cs[0]] + t == cs;
    }
  }

  lemma EmptyLinePhrases()
    ensures Phrases("") == [""]
  {
    StripTrimmed("");
    assert !HasSub("", "  ");
    SplitWithoutSep("", "  ");
    assert [""][1..] == [];
    assert StripEach([""]) == [Strip("")] + StripEach([]);
  }

  /** The chunks of a single line are that line's non-empty phrases. */
  lemma ChunksOfOneLine(line: string)
    requires BreakFree(line)
    ensures Chunks(line) == NonEmpty(Phrases(line))
  {
    if line == "" {
      EmptyLinePhrases();
      assert NonEmpty([""]) == [] + NonEmpty([]);
    } else {
      SplitLinesOneLine(line);
      assert [line][1..] == [];
      assert FlatMap([line], Phrases) == Phrases(line) + FlatMap([], Phrases);
      assert Phrases(line) + [] == Phrases(line);
    }
  }

  /** Chunks keep the order of the text: those of the first line come
      before those of the lines after it. */
  lemma ChunksInOrder(line: string, rest: string)
    requires BreakFree(line)
    ensures Chunks(line + "\n" + rest) == Chunks(line) + Chunks(rest)
  {
    SplitLinesPrefixedLine(line, rest);
    var lines := [line] + SplitLines(rest);
    assert lines[0] == line && lines[1..] == SplitLines(rest);
    NonEmptyAppend(Phrases(line), AllPhrases(SplitLines(rest)));
    ChunksOfOneLine(line);
  }

  /** A single trimmed phrase, single spaces and all, survives the cleanup
      unchanged. */
  lemma CleanKeepsChunk(c: string)
    requires IsChunk(c)
    ensures CleanWhitespace(c) == c
  {
    SplitLinesOneLine(c);
    ChunkPhrases(c);
    assert [c][0] == c;
    FlatMapSingletons([c], Phrases);
    NonEmptyKeepsAll([c]);
  }

  /** Cleaning a cleaned text changes nothing. */
  lemma CleanIdempotent(text: string)
    ensures CleanWhitespace(CleanWhitespace(text)) == CleanWhitespace(text)
  {
    var cs := Chunks(text);
    if cs == [] {
      assert CleanWhitespace(text) == "";
      assert Chunks("") == [];
    } else {
      SplitLinesJoin(cs);
      forall i | 0 <= i < |cs| ensures Phrases(cs[i]) == [cs[i]] {
        assert cs[i] in cs;
        ChunkPhrases(cs[i]);
      }
      FlatMapSingletons(cs, Phrases);
      NonEmptyKeepsAll(cs);
    }
  }

  // ---------------------------------------------------------------------
  // What the cleanup keeps
  // ---------------------------------------------------------------------

  /** The characters of `s` that are not whitespace, in order. */
  function Visible(s: string): string
    decreases |s|
  {
    if s == [] then [] else (if IsSpace(s[0]) then [] else [s[0]]) + Visible(s[1..])
  }

  /** The visible characters of every text of `xs`, in order. */
  function VisibleOfAll(xs: seq<string>): string
    decreases |xs|
  {
    if xs == [] then [] else Visible(xs[0]) + VisibleOfAll(xs[1..])
  }

  lemma {:induction false} VisibleAppend(a: string, b: string)
    ensures Visible(a + b) == Visible(a) + Visible(b)
    decreases |a|
  {
    if a == [] {
      assert a + b == b;
    } else {
      assert (a + b)[0] == a[0];
      assert (a + b)[1..] == a[1..] + b;
      VisibleAppend(a[1..], b);
    }
  }

  lemma {:induction false} VisibleOfSpaces(s: string)
    requires forall i | 0 <= i < |s| :: IsSpace(s[i])
    ensures Visible(s) == []
    decreases |s|
  {
    if s != [] {
      VisibleOfSpaces(s[1..]);
    }
  }

  lemma VisibleOfSpaceSlice(s: string, a: nat, b: nat)
    requires a <= b <= |s|
    requires forall i | a <= i < b :: IsSpace(s[i])
    ensures Visible(s[a..b]) == []
  {
    var t := s[a..b];
    assert forall i | 0 <= i < |t| :: t[i] == s[a + i];
    VisibleOfSpaces(t);
  }

  /** A text cut in three keeps the visible characters of the middle when
      the outer parts are whitespace. */
  lemma VisibleOfMiddle(front: string, mid: string, back: string)
    requires Visible(front) == [] && Visible(back) == []
    ensures Visible(front + mid + back) == Visible(mid)
  {
    VisibleAppend(front, mid);
    VisibleAppend(front + mid, back);
  }

  /** A slice with only whitespace outside it keeps every visible
      character. */
  lemma VisibleTrimmedSlice(s: string, a: nat, b: nat)
    requires a <= b <= |s|
    requires forall i | 0 <= i < a :: IsSpace(s[i])
    requires forall i | b <= i < |s| :: IsSpace(s[i])
    ensures Visible(s[a..b]) == Visible(s)
  {
    VisibleOfSpaceSlice(s, 0, a);
    VisibleOfSpaceSlice(s, b, |s|);
    CutInThree(s, a, b);
    VisibleOfMiddle(s[0..a], s[a..b], s[b..|s|]);
  }

  lemma CutInThree(s: string, a: nat, b: nat)
    requires a <= b <= |s|
    ensures s == s[0..a] + s[a..b] + s[b..|s|]
  {
  }

  /** Stripping removes only whitespace. */
  lemma VisibleStrip(s: string)
    ensures Visible(Strip(s)) == Visible(s)
  {
    VisibleTrimmedSlice(s, StripOffset(s), StripOffset(s) + |Strip(s)|);
  }

  lemma {:induction false} VisibleOfAllAppend(a: seq<string>, b: seq<string>)
    ensures VisibleOfAll(a + b) == VisibleOfAll(a) + VisibleOfAll(b)
    decreases |a|
  {
    if a == [] {
      assert a + b == b;
    } else {
      assert (a + b)[0] == a[0];
      assert (a + b)[1..] == a[1..] + b;
      VisibleOfAllAppend(a[1..], b);
    }
  }

  /** Joining with a whitespace separator adds no visible character. */
  lemma {:induction false} VisibleJoin(parts: seq<string>, sep: string)
    requires forall i | 0 <= i < |sep| :: IsSpace(sep[i])
    ensures Visible(Join(parts, sep)) == VisibleOfAll(parts)
    decreases |parts|
  {
    if |parts| == 1 {
      assert parts[1..] == [];
    } else if |parts| > 1 {
      VisibleJoin(parts[1..], sep);
      VisibleAppend(parts[0] + sep, Join(parts[1..], sep));
      VisibleAppend(parts[0], sep);
      VisibleOfSpaces(sep);
    }
  }

  lemma {:induction false} VisibleStripEach(xs: seq<string>)
    ensures VisibleOfAll(StripEach(xs)) == VisibleOfAll(xs)
    decreases |xs|
  {
    if xs != [] {
      VisibleStripEach(xs[1..]);
      VisibleStrip(xs[0]);
    }
  }

  /** Splitting at double spaces and stripping each piece keeps the
      visible characters. */
  lemma VisibleStrippedPieces(t: string)
    ensures VisibleOfAll(StripEach(Split(t, "  "))) == Visible(t)
  {
    var pieces := Split(t, "  ");
    assert VisibleOfAll(StripEach(pieces)) == VisibleOfAll(pieces) by {
      VisibleStripEach(pieces);
    }
    assert Visible(Join(pieces, "  ")) == VisibleOfAll(pieces) by {
      DoubleSpaceIsSpace();
      VisibleJoin(pieces, "  ");
    }
    JoinSplit(t, "  ");
  }

  lemma DoubleSpaceIsSpace()
    ensures forall i | 0 <= i < |"  "| :: IsSpace("  "[i])
  {
    assert forall i | 0 <= i < 2 :: "  "[i] == ' ';
  }

  /** The phrases of a line hold exactly its visible characters, in order. */
  lemma VisiblePhrases(line: string)
    ensures VisibleOfAll(Phrases(line)) == Visible(line)
  {
    VisibleStrippedPieces(Strip(line));
    VisibleStrip(line);
  }

  lemma {:induction false} VisibleAllPhrases(lines: seq<string>)
    ensures VisibleOfAll(AllPhrases(lines)) == VisibleOfAll(lines)
    decreases |lines|
  {
    if lines != [] {
      VisibleAllPhrases(lines[1..]);
      VisibleOfAllAppend(Phrases(lines[0]), AllPhrases(lines[1..]));
      VisiblePhrases(lines[0]);
    }
  }

  lemma {:induction false} VisibleNonEmpty(xs: seq<string>)
    ensures VisibleOfAll(NonEmpty(xs)) == VisibleOfAll(xs)
    decreases |xs|
  {
    if xs != [] {
      VisibleNonEmpty(xs[1..]);
      var head := if xs[0] != "" then [xs[0]] else [];
      VisibleOfAllAppend(head, NonEmpty(xs[1..]));
      if head != [] {
        assert head[1..] == [];
      }
    }
  }

  /** The lines of a text hold its visible characters, in order: line
      breaks are whitespace. */
  lemma {:induction false} VisibleSplitLines(s: string)
    ensures VisibleOfAll(SplitLines(s)) == Visible(s)
    decreases |s|
  {
    if s != [] {
      if IsLineBoundary(s[0]) {
        var w := LineBreakWidth(s);
        VisibleSplitLines(s[w..]);
        VisibleAfterBreak(s, w);
      } else {
        VisibleSplitLines(s[1..]);
        VisibleStartOfLine(s);
      }
    }
  }

  /** A text starting with a line break: the break adds an empty line. */
  lemma VisibleAfterBreak(s: string, w: nat)
    requires s != [] && IsLineBoundary(s[0]) && w == LineBreakWidth(s)
    requires VisibleOfAll(SplitLines(s[w..])) == Visible(s[w..])
    ensures VisibleOfAll(SplitLines(s)) == Visible(s)
  {
    assert s == s[..w] + s[w..];
    VisibleOfSpaces(s[..w]);
    VisibleAppend(s[..w], s[w..]);
    assert ([""] + SplitLines(s[w..]))[1..] == SplitLines(s[w..]);
  }

  /** A text starting with a character inside a line: the character opens
      the first line. */
  lemma VisibleStartOfLine(s: string)
    requires s != [] && !IsLineBoundary(s[0])
    requires VisibleOfAll(SplitLines(s[1..])) == Visible(s[1..])
    ensures VisibleOfAll(SplitLines(s)) == Visible(s)
  {
    var rest := SplitLines(s[1..]);
    assert s == [s[0]] + s[1..];
    VisibleAppend([s[0]], s[1..]);
    if rest == [] {
      assert SplitLines(s) == [[s[0]]];
      VisibleOfAllCons([s[0]], []);
    } else {
      assert SplitLines(s) == [[s[0]] + rest[0]] + rest[1..];
      assert rest == [rest[0]] + rest[1..];
      VisibleOpenLine(s[0], rest[0], rest[1..]);
    }
  }

  lemma VisibleOfAllCons(x: string, xs: seq<string>)
    ensures VisibleOfAll([x] + xs) == Visible(x) + VisibleOfAll(xs)
  {
    assert ([x] + xs)[0] == x;
    assert ([x] + xs)[1..] == xs;
  }

  /** Putting a character in front of the first of several lines. */
  lemma VisibleOpenLine(c: char, head: string, tail: seq<string>)
    ensures VisibleOfAll([[c] + head] + tail) == Visible([c]) + VisibleOfAll([head] + tail)
  {
    VisibleOfAllCons([c] + head, tail);
    VisibleOfAllCons(head, tail);
    VisibleAppend([c], head);
  }

  /** The cleanup drops only whitespace: every other character of the text
      survives, in its order. */
  lemma CleanKeepsContent(text: string)
    ensures Visible(CleanWhitespace(text)) == Visible(text)
  {
    var lines := SplitLines(text);
    VisibleJoin(Chunks(text), "\n");
    VisibleNonEmpty(AllPhrases(lines));
    VisibleAllPhrases(lines);
    VisibleSplitLines(text);
  }

  /** A line with single spaces inside cleans to the line stripped of its
      outer whitespace. */
  lemma CleanTrimsLine(line: string)
    requires BreakFree(line)
    requires Strip(line) != "" && !HasSub(Strip(line), "  ")
    ensures CleanWhitespace(line) == Strip(line)
  {
    var t := Strip(line);
    SplitLinesOneLine(line);
    SplitWithoutSep(t, "  ");
    StripTrimmed(t);
    assert [t][1..] == [];
    assert StripEach([t]) == [Strip(t)] + StripEach([]);
    assert [line][1..] == [];
    assert FlatMap([line], Phrases) == Phrases(line) + FlatMap([], Phrases);
    assert NonEmpty([t]) == [t] + NonEmpty([]);
  }

  // ---------------------------------------------------------------------
  // Where the cleanup cuts a line
  // ---------------------------------------------------------------------

  /** A piece with no double space that does not end in a space is the
      first piece when a double space follows it. */
  lemma {:induction false} SplitAtDoubleSpace(p: string, rest: string)
    requires !HasSub(p, "  ")
    requires p == [] || p[|p| - 1] != ' '
    ensures Split(p + "  " + rest, "  ") == [p] + Split(rest, "  ")
    decreases |p|
  {
    var s := p + "  " + rest;
    if p == [] {
      assert s[..2] == "  ";
      assert s[2..] == rest;
    } else {
      assert s[..2] != "  " by {
        if |p| >= 2 {
          assert !OccursAt(p, "  ", 0);
          assert s[..2] == p[0..2];
        } else {
          assert s[0] == p[|p| - 1];
        }
      }
      var t := p[1..];
      assert s[1..] == t + "  " + rest;
      NoSubInSlice(p, "  ", 1, |p|);
      assert p[1..|p|] == t;
      SplitAtDoubleSpace(t, rest);
      assert [p[0]] + t == p;
    }
  }

  /** No whitespace at either end. */
  predicate Trimmed(s: string) {
    s == [] || (!IsSpace(s[0]) && !IsSpace(s[|s| - 1]))
  }

  lemma BreakFreeAppend(a: string, b: string)
    requires BreakFree(a) && BreakFree(b)
    ensures BreakFree(a + b)
  {
    forall i | 0 <= i < |a + b| ensures !IsLineBoundary((a + b)[i]) {
      if i >= |a| {
        assert (a + b)[i] == b[i - |a|];
      }
    }
  }

  /** A break-free line whose non-empty phrases are `cs` has `cs` as its
      chunks. */
  lemma ChunksOfKeptPhrases(line: string, cs: seq<string>)
    requires BreakFree(line) && NonEmpty(Phrases(line)) == cs
    ensures Chunks(line) == cs
  {
    ChunksOfOneLine(line);
  }

  /** `k` spaces. */
  function Spaces(k: nat): (r: string)
    ensures |r| == k && forall i | 0 <= i < k :: r[i] == ' '
  {
    seq(k, _ => ' ')
  }

  /** Chunks laid out on one line, with `gaps[i]` spaces between chunk `i`
      and chunk `i + 1`. The line starts with the first chunk and ends with
      the last. */
  function SpacedLine(cs: seq<string>, gaps: seq<nat>): (r: string)
    requires |cs| >= 1 && |gaps| == |cs| - 1
    ensures |cs[0]| <= |r| && r[..|cs[0]|] == cs[0]
    ensures |cs[|cs| - 1]| <= |r| && r[|r| - |cs[|cs| - 1]|..] == cs[|cs| - 1]
    decreases |cs|
  {
    if |cs| == 1 then cs[0]
    else
      var rest := SpacedLine(cs[1..], gaps[1..]);
      assert cs[1..][|cs[1..]| - 1] == cs[|cs| - 1];
      var r := cs[0] + Spaces(gaps[0]) + rest;
      assert r[|r| - |rest|..] == rest;
      r
  }

  /** What the `if chunk` filter keeps of the pieces of a line: each piece
      stripped, the empty ones dropped. */
  function Kept(pieces: seq<string>): seq<string> {
    NonEmpty(StripEach(pieces))
  }

  lemma KeptCons(x: string, xs: seq<string>)
    ensures Kept([x] + xs) == (if Strip(x) == "" then [] else [Strip(x)]) + Kept(xs)
  {
    assert ([x] + xs)[1..] == xs;
    var stripped := [Strip(x)] + StripEach(xs);
    assert StripEach([x] + xs) == stripped;
    assert stripped[1..] == StripEach(xs);
  }

  /** Whitespace in front of a text does not change its strip. */
  lemma StripAfterSpace(c: char, s: string)
    requires IsSpace(c)
    ensures Strip([c] + s) == Strip(s)
  {
    assert ([c] + s)[1..] == s;
    assert StripLeft([c] + s) == StripLeft(s);
  }

  /** A single space in front of a text that starts with a non-space
      character joins its first piece. */
  lemma SplitAfterOneSpace(rest: string)
    requires rest != [] && !IsSpace(rest[0])
    ensures var pieces := Split(rest, "  ");
      Split(" " + rest, "  ") == [" " + pieces[0]] + pieces[1..]
  {
    var s := " " + rest;
    assert s[..2] != "  " by {
      assert s[1] == rest[0];
    }
    assert s[1..] == rest;
  }

  /** Spaces in front of a text that starts with a non-space character add
      no kept phrase. */
  lemma {:induction false} KeptAfterSpaces(j: nat, rest: string)
    requires rest != [] && !IsSpace(rest[0])
    ensures Kept(Split(Spaces(j) + rest, "  ")) == Kept(Split(rest, "  "))
    decreases j
  {
    if j == 0 {
      assert Spaces(j) + rest == rest;
    } else if j == 1 {
      assert Spaces(j) + rest == " " + rest;
      KeptAfterOneSpace(rest);
    } else {
      KeptDropsDoubleSpace(j, rest);
      KeptAfterSpaces(j - 2, rest);
    }
  }

  lemma KeptAfterOneSpace(rest: string)
    requires rest != [] && !IsSpace(rest[0])
    ensures Kept(Split(" " + rest, "  ")) == Kept(Split(rest, "  "))
  {
    var pieces := Split(rest, "  ");
    SplitAfterOneSpace(rest);
    StripAfterSpace(' ', pieces[0]);
    KeptSameStrip(" " + pieces[0], pieces[0], pieces[1..]);
    assert [pieces[0]] + pieces[1..] == pieces;
  }

  /** Pieces with the same strip are kept alike. */
  lemma KeptSameStrip(x: string, y: string, xs: seq<string>)
    requires Strip(x) == Strip(y)
    ensures Kept([x] + xs) == Kept([y] + xs)
  {
    KeptCons(x, xs);
    KeptCons(y, xs);
  }

  /** Two leading spaces make an empty piece, which the filter drops. */
  lemma KeptDropsDoubleSpace(j: nat, rest: string)
    requires j >= 2
    ensures Kept(Split(Spaces(j) + rest, "  ")) == Kept(Split(Spaces(j - 2) + rest, "  "))
  {
    var s := Spaces(j) + rest;
    var t := Spaces(j - 2) + rest;
    assert s[..2] == "  ";
    assert s[2..] == t;
    KeptCons("", Split(t, "  "));
    StripTrimmed("");
  }

  /** A chunk followed by a run of at least two spaces is kept whole, and
      the run adds nothing. */
  lemma KeptSpacedStep(c: string, g: nat, rest: string)
    requires c != [] && Trimmed(c) && !HasSub(c, "  ")
    requires g >= 2 && rest != [] && !IsSpace(rest[0])
    ensures Kept(Split(c + Spaces(g) + rest, "  ")) == [c] + Kept(Split(rest, "  "))
  {
    var t := Spaces(g - 2) + rest;
    assert Spaces(g) == "  " + Spaces(g - 2);
    assert c + Spaces(g) + rest == c + "  " + t;
    SplitAtDoubleSpace(c, t);
    KeptCons(c, Split(t, "  "));
    StripTrimmed(c);
    KeptAfterSpaces(g - 2, rest);
  }

  /** Chunks separated by runs of at least two spaces are kept as they are. */
  lemma {:induction false} KeptSpacedLine(cs: seq<string>, gaps: seq<nat>)
    requires |cs| >= 1 && |gaps| == |cs| - 1
    requires forall i | 0 <= i < |gaps| :: gaps[i] >= 2
    requires forall i | 0 <= i < |cs| :: cs[i] != [] && Trimmed(cs[i])
    requires forall i | 0 <= i < |cs| :: !HasSub(cs[i], "  ")
    ensures Kept(Split(SpacedLine(cs, gaps), "  ")) == cs
    decreases |cs|
  {
    if |cs| == 1 {
      KeptSingle(cs[0]);
    } else {
      var tail, tailGaps := cs[1..], gaps[1..];
      assert forall i | 0 <= i < |tail| :: tail[i] == cs[i + 1];
      assert forall i | 0 <= i < |tailGaps| :: tailGaps[i] == gaps[i + 1];
      KeptSpacedLine(tail, tailGaps);
      KeptSpacedCons(cs, gaps);
    }
  }

  lemma KeptSingle(c: string)
    requires c != [] && Trimmed(c) && !HasSub(c, "  ")
    ensures Kept(Split(c, "  ")) == [c]
  {
    SplitWithoutSep(c, "  ");
    KeptCons(c, []);
    StripTrimmed(c);
  }

  /** The step of `KeptSpacedLine`: the first chunk and its gap in front
      of the rest of the line. */
  lemma KeptSpacedCons(cs: seq<string>, gaps: seq<nat>)
    requires |cs| >= 2 && |gaps| == |cs| - 1 && gaps[0] >= 2
    requires cs[0] != [] && Trimmed(cs[0]) && !HasSub(cs[0], "  ")
    requires cs[1] != [] && Trimmed(cs[1])
    requires Kept(Split(SpacedLine(cs[1..], gaps[1..]), "  ")) == cs[1..]
    ensures Kept(Split(SpacedLine(cs, gaps), "  ")) == cs
  {
    var rest := SpacedLine(cs[1..], gaps[1..]);
    SpacedLineCons(cs, gaps);
    KeptSpacedStep(cs[0], gaps[0], rest);
    assert [cs[0]] + cs[1..] == cs;
  }

  lemma SpacedLineCons(cs: seq<string>, gaps: seq<nat>)
    requires |cs| >= 2 && |gaps| == |cs| - 1 && cs[1] != [] && Trimmed(cs[1])
    ensures var rest := SpacedLine(cs[1..], gaps[1..]);
      SpacedLine(cs, gaps) == cs[0] + Spaces(gaps[0]) + rest && rest != [] && !IsSpace(rest[0])
  {
    var rest := SpacedLine(cs[1..], gaps[1..]);
    assert rest[0] == cs[1][0];
  }

  lemma {:induction false} SpacedLineBreakFree(cs: seq<string>, gaps: seq<nat>)
    requires |cs| >= 1 && |gaps| == |cs| - 1
    requires forall i | 0 <= i < |cs| :: BreakFree(cs[i])
    ensures BreakFree(SpacedLine(cs, gaps))
    decreases |cs|
  {
    if |cs| > 1 {
      var tail := cs[1..];
      assert forall i | 0 <= i < |tail| :: tail[i] == cs[i + 1];
      SpacedLineBreakFree(tail, gaps[1..]);
      assert BreakFree(Spaces(gaps[0]));
      BreakFreeAppend(cs[0], Spaces(gaps[0]));
      BreakFreeAppend(cs[0] + Spaces(gaps[0]), SpacedLine(tail, gaps[1..]));
    }
  }

  lemma SpacedLineTrimmed(cs: seq<string>, gaps: seq<nat>)
    requires |cs| >= 1 && |gaps| == |cs| - 1
    requires cs[0] != [] && Trimmed(cs[0])
    requires cs[|cs| - 1] != [] && Trimmed(cs[|cs| - 1])
    ensures Trimmed(SpacedLine(cs, gaps))
  {
    var line := SpacedLine(cs, gaps);
    var last := cs[|cs| - 1];
    assert line[0] == cs[0][0];
    assert line[|line| - 1] == last[|last| - 1];
  }

  /** The chunks of such a line are its chunks, in order. */
  lemma ChunksOfSpacedLine(cs: seq<string>, gaps: seq<nat>)
    requires |cs| >= 1 && |gaps| == |cs| - 1
    requires forall i | 0 <= i < |gaps| :: gaps[i] >= 2
    requires forall i | 0 <= i < |cs| :: cs[i] != [] && Trimmed(cs[i])
    requires forall i | 0 <= i < |cs| :: !HasSub(cs[i], "  ") && BreakFree(cs[i])
    ensures Chunks(SpacedLine(cs, gaps)) == cs
  {
    var line := SpacedLine(cs, gaps);
    PhrasesOfSpacedLine(cs, gaps);
    SpacedLineBreakFree(cs, gaps);
    ChunksOfKeptPhrases(line, cs);
  }

  lemma PhrasesOfSpacedLine(cs: seq<string>, gaps: seq<nat>)
    requires |cs| >= 1 && |gaps| == |cs| - 1
    requires forall i | 0 <= i < |gaps| :: gaps[i] >= 2
    requires forall i | 0 <= i < |cs| :: cs[i] != [] && Trimmed(cs[i])
    requires forall i | 0 <= i < |cs| :: !HasSub(cs[i], "  ")
    ensures NonEmpty(Phrases(SpacedLine(cs, gaps))) == cs
  {
    var line := SpacedLine(cs, gaps);
    SpacedLineTrimmed(cs, gaps);
    StripTrimmed(line);
    KeptSpacedLine(cs, gaps);
    PhrasesOfKept(line);
  }

  /** The phrases of a trimmed line are its stripped double-space pieces. */
  lemma PhrasesOfKept(line: string)
    requires Strip(line) == line
    ensures NonEmpty(Phrases(line)) == Kept(Split(line, "  "))
  {
  }

  /** A line of chunks separated by runs of two or more spaces, each run
      of its own length, is cut at every run and nowhere else: the
      chunks, single spaces and all, become the lines of the cleaned
      text, in order. */
  lemma CleanSplitsAtSpaceRuns(cs: seq<string>, gaps: seq<nat>)
    requires |cs| >= 1 && |gaps| == |cs| - 1
    requires forall i | 0 <= i < |gaps| :: gaps[i] >= 2
    requires forall c | c in cs :: IsChunk(c)
    ensures CleanWhitespace(SpacedLine(cs, gaps)) == Join(cs, "\n")
  {
    forall i | 0 <= i < |cs|
      ensures cs[i] != [] && Trimmed(cs[i])
      ensures !HasSub(cs[i], "  ") && BreakFree(cs[i])
    {
      assert cs[i] in cs;
    }
    ChunksOfSpacedLine(cs, gaps);
  }

  /** Two spaces between every pair of chunks is one such line. */
  lemma {:induction false} TwoSpaceGaps(cs: seq<string>)
    requires |cs| >= 1
    ensures SpacedLine(cs, seq(|cs| - 1, _ => 2)) == Join(cs, "  ")
    decreases |cs|
  {
    if |cs| > 1 {
      var gaps: seq<nat> := seq(|cs| - 1, _ => 2);
      assert gaps[1..] == seq(|cs| - 2, _ => 2);
      TwoSpaceGaps(cs[1..]);
      assert Spaces(2) == "  ";
    }
  }

  /** A line of chunks separated by double spaces cleans to the chunks,
      one per line. */
  lemma CleanSplitsAtDoubleSpaces(cs: seq<string>)
    requires cs != [] && forall c | c in cs :: IsChunk(c)
    ensures CleanWhitespace(Join(cs, "  ")) == Join(cs, "\n")
  {
    var gaps: seq<nat> := seq(|cs| - 1, _ => 2);
    TwoSpaceGaps(cs);
    CleanSplitsAtSpaceRuns(cs, gaps);
  }

  // ---------------------------------------------------------------------
  // The tool
  // ---------------------------------------------------------------------

  /** `fetch_url_content(url)` once the download has ended. */
  function FetchUrlContent(download: Download): (r: string)
    ensures download.RequestFailed? ==> r == "Error fetching URL: " + download.reason
    ensures download.ProcessingFailed? ==> r == "Error processing content: " + download.reason
    ensures download.Extracted? ==>
      var text := CleanWhitespace(download.text);
      (|text| <= MaxTextLength ==> r == text)
      && (|text| > MaxTextLength ==>
            |r| == MaxTextLength + |TruncationMarker|
            && r[..MaxTextLength] == text[..MaxTextLength]
            && r[MaxTextLength..] == TruncationMarker)
  {
    match download
    case RequestFailed(reason) => "Error fetching URL: " + reason
    case ProcessingFailed(reason) => "Error processing content: " + reason
    case Extracted(text) => Truncate(CleanWhitespace(text), MaxTextLength)
  }
}
