/** Document post-processing (backend/document_processor.py): assembling
    the extracted page texts, the four regular-expression substitutions and
    the final strip that clean the text, stamping each chunk the splitter
    produces with its position, and keyword-based entity extraction. PDF
    text extraction and the recursive character splitter are black boxes:
    the pages arrive as strings and the splitter is an arbitrary function
    from text to chunks. */
module DocumentProcessor {
  import opened Text
  import opened Docs

  // ---------------------------------------------------------------------
  // Page assembly
  // ---------------------------------------------------------------------

  function PageHeader(n: nat): string {
    "\n\n--- Page " + NatToString(n) + " ---\n\n"
  }

  function PageBlocks(pages: seq<string>): (r: seq<string>)
    ensures |r| == |pages|
  {
    seq(|pages|, i requires 0 <= i < |pages| => PageHeader(i + 1) + pages[i])
  }

  /** The raw text: each page, in order, under a header numbering it from 1. */
  function RawText(pages: seq<string>): string {
    Concat(PageBlocks(pages))
  }

  /** Adding a page appends its numbered header and its text, so every page
      appears in the raw text under its own header. */
  lemma RawTextShape(pages: seq<string>, page: string)
    ensures RawText([]) == ""
    ensures RawText(pages + [page]) == RawText(pages) + (PageHeader(|pages| + 1) + page)
    ensures forall i :: 0 <= i < |pages| ==> Contains(RawText(pages), PageHeader(i + 1) + pages[i])
  {
    var more := pages + [page];
    assert more[..|pages|] == pages && more[..|pages| + 1] == more && more[|pages|] == page;
    PageBlocksSnoc(more, |pages|);
    ConcatSnoc(PageBlocks(pages), PageHeader(|pages| + 1) + page);
    forall i | 0 <= i < |pages|
      ensures Contains(RawText(pages), PageHeader(i + 1) + pages[i])
    {
      ConcatContainsPart(PageBlocks(pages), i);
    }
  }

  lemma PageBlocksSnoc(pages: seq<string>, k: nat)
    requires k < |pages|
    ensures PageBlocks(pages[..k + 1]) == PageBlocks(pages[..k]) + [PageHeader(k + 1) + pages[k]]
  {
    var longer, shorter := PageBlocks(pages[..k + 1]), PageBlocks(pages[..k]);
    forall j | 0 <= j < k
      ensures longer[j] == shorter[j]
    {
      assert pages[..k + 1][j] == pages[..k][j];
    }
    SnocEquals(longer, shorter, PageHeader(k + 1) + pages[k]);
  }

  method AssembleText(pages: seq<string>) returns (text: string)
    ensures text == RawText(pages)
  {
    text := "";
    var pageNum := 0;
    while pageNum < |pages|
      invariant 0 <= pageNum <= |pages|
      invariant text == Concat(PageBlocks(pages[..pageNum]))
    {
      PageBlocksSnoc(pages, pageNum);
      ConcatSnoc(PageBlocks(pages[..pageNum]), PageHeader(pageNum + 1) + pages[pageNum]);
      text := text + (PageHeader(pageNum + 1) + pages[pageNum]);
      pageNum := pageNum + 1;
    }
    assert pages[..|pages|] == pages;
  }

  // ---------------------------------------------------------------------
  // Character classes
  // ---------------------------------------------------------------------

  /** Python's `\s` and `str.isspace`: the ASCII whitespace controls, the
      information separators and the Unicode space characters. */
  predicate IsSpace(c: char) {
    var n := c as int;
    n == 0x20 || 0x09 <= n <= 0x0D || 0x1C <= n <= 0x1F || n == 0x85 || n == 0xA0 || n == 0x1680
    || 0x2000 <= n <= 0x200A || n == 0x2028 || n == 0x2029 || n == 0x202F || n == 0x205F || n == 0x3000
  }

  /** `\w`, restricted to ASCII: letters, digits and the underscore. */
  predicate IsWordChar(c: char) {
    'a' <= c <= 'z' || 'A' <= c <= 'Z' || '0' <= c <= '9' || c == '_'
  }

  /** The punctuation the cleaning keeps. */
  predicate IsKeptPunctuation(c: char) {
    c == '.' || c == ',' || c == ';' || c == ':' || c == '!' || c == '?' || c == '-'
    || c == '(' || c == ')' || c == '[' || c == ']'
  }

  /** The class `[\w\s\.\,\;\:\!\?\-\(\)\[\]]`. */
  predicate IsAllowed(c: char) {
    IsWordChar(c) || IsSpace(c) || IsKeptPunctuation(c)
  }

  /** What may appear in cleaned text: a word character, an ASCII space or kept punctuation. */
  predicate IsCleanChar(c: char) {
    IsWordChar(c) || c == ' ' || IsKeptPunctuation(c)
  }

  /** The length of the whitespace run at the start of `s`. */
  function SpaceRun(s: string): (k: nat)
    ensures k <= |s|
    ensures forall i :: 0 <= i < k ==> IsSpace(s[i])
    ensures k < |s| ==> !IsSpace(s[k])
    decreases |s|
  {
    if s != [] && IsSpace(s[0]) then 1 + SpaceRun(s[1..]) else 0
  }

  function DropSpaces(s: string): string {
    s[SpaceRun(s)..]
  }

  /** The allowed non-whitespace characters of `s`, in order: what the
      cleaning must preserve. */
  function Visible(s: string): string
    decreases |s|
  {
    if s == [] then [] else VisibleChar(s[0]) + Visible(s[1..])
  }

  function VisibleChar(c: char): string {
    if IsAllowed(c) && !IsSpace(c) then [c] else []
  }

  lemma {:induction false} VisibleAppend(a: string, b: string)
    ensures Visible(a + b) == Visible(a) + Visible(b)
    decreases |a|
  {
    if a == [] {
      assert a + b == b;
    } else {
      assert (a + b)[0] == a[0];
      assert (a + b)[1..] == a[1..] + b;
      VisibleAppend(a[1..], b);
      calc {
        Visible(a + b);
        VisibleChar(a[0]) + Visible(a[1..] + b);
        VisibleChar(a[0]) + (Visible(a[1..]) + Visible(b));
        (VisibleChar(a[0]) + Visible(a[1..])) + Visible(b);
      }
    }
  }

  lemma VisibleCons(c: char, rest: string)
    ensures Visible([c] + rest) == VisibleChar(c) + Visible(rest)
  {
    assert ([c] + rest)[1..] == rest;
  }

  lemma {:induction false} VisibleOfSpaces(s: string)
    requires forall i :: 0 <= i < |s| ==> IsSpace(s[i])
    ensures Visible(s) == []
    decreases |s|
  {
    if s != [] {
      VisibleOfSpaces(s[1..]);
    }
  }

  lemma VisibleDropSpaces(s: string)
    ensures Visible(DropSpaces(s)) == Visible(s)
  {
    var k := SpaceRun(s);
    assert s == s[..k] + s[k..];
    VisibleAppend(s[..k], s[k..]);
    VisibleOfSpaces(s[..k]);
  }

  // ---------------------------------------------------------------------
  // The cleaning passes
  // ---------------------------------------------------------------------

  /** `re.sub(r'\s+', ' ', text)`: each maximal whitespace run becomes one space. */
  function CollapseWhitespace(s: string): (r: string)
    ensures |r| == 0 <==> |s| == 0
    ensures |s| > 0 ==> r[0] == if IsSpace(s[0]) then ' ' else s[0]
    decreases |s|
  {
    if s == [] then []
    else if IsSpace(s[0]) then [' '] + CollapseWhitespace(DropSpaces(s))
    else [s[0]] + CollapseWhitespace(s[1..])
  }

  /** `re.sub(r'[^\w\s\.\,\;\:\!\?\-\(\)\[\]]', ' ', text)`. */
  function ReplaceDisallowed(s: string): (r: string)
    ensures |r| == |s|
    ensures forall i :: 0 <= i < |s| ==> r[i] == if IsAllowed(s[i]) then s[i] else ' '
  {
    seq(|s|, i requires 0 <= i < |s| => if IsAllowed(s[i]) then s[i] else ' ')
  }

  /** `re.sub(r'\s*P\s*', 'P ', text)` for a punctuation character `P`:
      scanning left to right, a match at the current position is a
      whitespace run followed by `P`, and it swallows the whitespace after. */
  function NormalizeAround(s: string, p: char): string
    requires !IsSpace(p)
    decreases |s|
  {
    if s == [] then []
    else
      var k := SpaceRun(s);
      if k < |s| && s[k] == p then [p, ' '] + NormalizeAround(DropSpaces(s[k + 1..]), p)
      else [s[0]] + NormalizeAround(s[1..], p)
  }

  /** Python's `str.strip()`. */
  function Strip(s: string): string {
    StripTrailing(DropSpaces(s))
  }

  function StripTrailing(s: string): (r: string)
    ensures |r| <= |s|
    ensures r == s[..|r|]
    ensures forall i :: |r| <= i < |s| ==> IsSpace(s[i])
    ensures |r| > 0 ==> !IsSpace(r[|r| - 1])
    decreases |s|
  {
    if s != [] && IsSpace(s[|s| - 1]) then StripTrailing(s[..|s| - 1]) else s
  }

  /** `_clean_text`: the four substitutions in order, then `strip()`. */
  function CleanText(text: string): string {
    Strip(Substituted(text))
  }

  // Properties of the passes ----------------------------------------------

  /** After collapsing, the only whitespace is single ASCII spaces; the
      visible characters are untouched. */
  lemma {:induction false} CollapseWhitespaceProperties(s: string)
    ensures forall i :: 0 <= i < |CollapseWhitespace(s)| && IsSpace(CollapseWhitespace(s)[i]) ==>
              CollapseWhitespace(s)[i] == ' '
    ensures forall i :: 0 <= i < |CollapseWhitespace(s)| - 1 ==>
              !(CollapseWhitespace(s)[i] == ' ' && CollapseWhitespace(s)[i + 1] == ' ')
    ensures Visible(CollapseWhitespace(s)) == Visible(s)
    decreases |s|
  {
    if s != [] {
      var r := CollapseWhitespace(s);
      if IsSpace(s[0]) {
        var t := DropSpaces(s);
        CollapseWhitespaceProperties(t);
        VisibleDropSpaces(s);
        assert r == [' '] + CollapseWhitespace(t);
        assert Visible(r) == Visible(CollapseWhitespace(t));
        assert |t| > 0 ==> !IsSpace(t[0]);
        forall i | 0 <= i < |r| && IsSpace(r[i])
          ensures r[i] == ' '
        {
          if i > 0 {
            assert r[i] == CollapseWhitespace(t)[i - 1];
          }
        }
        forall i | 0 <= i < |r| - 1
          ensures !(r[i] == ' ' && r[i + 1] == ' ')
        {
          assert r[i + 1] == CollapseWhitespace(t)[i];
          if i > 0 {
            assert r[i] == CollapseWhitespace(t)[i - 1];
          }
        }
      } else {
        var t := s[1..];
        CollapseWhitespaceProperties(t);
        assert r == [s[0]] + CollapseWhitespace(t);
        assert Visible(r) == VisibleChar(s[0]) + Visible(CollapseWhitespace(t));
        forall i | 0 <= i < |r| && IsSpace(r[i])
          ensures r[i] == ' '
        {
          assert r[i] == CollapseWhitespace(t)[i - 1];
        }
        forall i | 0 <= i < |r| - 1
          ensures !(r[i] == ' ' && r[i + 1] == ' ')
        {
          assert r[i + 1] == CollapseWhitespace(t)[i];
          if i > 0 {
            assert r[i] == CollapseWhitespace(t)[i - 1];
          }
        }
      }
    }
  }

  /** Replacing disallowed characters keeps the visible ones; when the
      only whitespace left is ASCII space, every character is clean. */
  lemma {:induction false} ReplaceDisallowedProperties(s: string)
    ensures Visible(ReplaceDisallowed(s)) == Visible(s)
    ensures (forall i :: 0 <= i < |s| && IsSpace(s[i]) ==> s[i] == ' ') ==>
              forall i :: 0 <= i < |s| ==> IsCleanChar(ReplaceDisallowed(s)[i])
    decreases |s|
  {
    if s != [] {
      ReplaceDisallowedProperties(s[1..]);
      assert ReplaceDisallowed(s) == [ReplaceDisallowed(s)[0]] + ReplaceDisallowed(s[1..]);
    }
  }

  /** Every `p` in `s` is followed by a space. */
  predicate Spaced(s: string, p: char) {
    forall i :: 0 <= i < |s| && s[i] == p ==> i + 1 < |s| && s[i + 1] == ' '
  }

  lemma SpacedCons(c: char, rest: string, p: char)
    requires c != p && Spaced(rest, p)
    ensures Spaced([c] + rest, p)
  {
    var r := [c] + rest;
    forall i | 0 <= i < |r| && r[i] == p
      ensures i + 1 < |r| && r[i + 1] == ' '
    {
      assert r[i] == rest[i - 1] && r[i + 1] == rest[i];
    }
  }

  lemma SpacedPair(rest: string, p: char)
    requires p != ' ' && Spaced(rest, p)
    ensures Spaced([p, ' '] + rest, p)
  {
    var r := [p, ' '] + rest;
    forall i | 0 <= i < |r| && r[i] == p
      ensures i + 1 < |r| && r[i + 1] == ' '
    {
      if i >= 2 {
        assert r[i] == rest[i - 2] && r[i + 1] == rest[i - 1];
      }
    }
  }

  /** After normalising around `p`, every `p` is followed by a space. */
  lemma {:induction false} NormalizeAroundSpaced(s: string, p: char)
    requires !IsSpace(p)
    ensures Spaced(NormalizeAround(s, p), p)
    decreases |s|
  {
    if s != [] {
      if SpaceRun(s) < |s| && s[SpaceRun(s)] == p {
        var t := DropSpaces(s[SpaceRun(s) + 1..]);
        NormalizeAroundSpaced(t, p);
        SpacedPair(NormalizeAround(t, p), p);
      } else {
        NormalizeAroundSpaced(s[1..], p);
        assert s[0] != p;
        SpacedCons(s[0], NormalizeAround(s[1..], p), p);
      }
    }
  }

  /** One step of `NormalizeAround` at a match. */
  lemma NormalizeAroundAtMatch(s: string, p: char)
    requires !IsSpace(p)
    requires SpaceRun(s) < |s| && s[SpaceRun(s)] == p
    ensures |DropSpaces(s[SpaceRun(s) + 1..])| < |s|
    ensures NormalizeAround(s, p) == [p, ' '] + NormalizeAround(DropSpaces(s[SpaceRun(s) + 1..]), p)
  {
  }

  /** One step of `NormalizeAround` where no match starts the text. */
  lemma NormalizeAroundNoMatch(s: string, p: char)
    requires !IsSpace(p) && s != []
    requires !(SpaceRun(s) < |s| && s[SpaceRun(s)] == p)
    ensures NormalizeAround(s, p) == [s[0]] + NormalizeAround(s[1..], p)
  {
  }

  /** A whitespace run, `p` and more whitespace show only `p`. */
  lemma VisibleAtMatch(s: string, p: char)
    requires !IsSpace(p) && IsKeptPunctuation(p)
    requires SpaceRun(s) < |s| && s[SpaceRun(s)] == p
    ensures Visible(s) == [p] + Visible(DropSpaces(s[SpaceRun(s) + 1..]))
  {
    var k := SpaceRun(s);
    var pre, post := s[..k], s[k + 1..];
    forall i | 0 <= i < |pre|
      ensures IsSpace(pre[i])
    {
      assert pre[i] == s[i];
    }
    VisibleOfSpaces(pre);
    SplitAt(s, k);
    assert VisibleChar(p) == [p];
    calc {
      Visible(s);
      Visible(pre + ([p] + post));
      { VisibleAppend(pre, [p] + post); }
      Visible(pre) + Visible([p] + post);
      Visible([p] + post);
      { VisibleCons(p, post); }
      [p] + Visible(post);
      { VisibleDropSpaces(post); }
      [p] + Visible(DropSpaces(post));
    }
  }

  lemma VisiblePunctuationSpace(p: char, rest: string)
    requires !IsSpace(p) && IsKeptPunctuation(p)
    ensures Visible([p, ' '] + rest) == [p] + Visible(rest)
  {
    ConsPair(p, ' ', rest);
    VisibleCons(p, [' '] + rest);
    VisibleCons(' ', rest);
    assert VisibleChar(' ') == [];
  }

  /** Normalising around kept punctuation keeps the visible characters. */
  lemma {:induction false} NormalizeAroundVisible(s: string, p: char)
    requires !IsSpace(p) && IsKeptPunctuation(p)
    ensures Visible(NormalizeAround(s, p)) == Visible(s)
    decreases |s|, 1
  {
    if s != [] {
      if SpaceRun(s) < |s| && s[SpaceRun(s)] == p {
        NormalizeAroundVisibleMatch(s, p);
      } else {
        NormalizeAroundNoMatch(s, p);
        NormalizeAroundVisible(s[1..], p);
        VisibleCons(s[0], NormalizeAround(s[1..], p));
      }
    }
  }

  /** The case of `NormalizeAroundVisible` where a match starts the text. */
  lemma {:induction false} NormalizeAroundVisibleMatch(s: string, p: char)
    requires !IsSpace(p) && IsKeptPunctuation(p)
    requires SpaceRun(s) < |s| && s[SpaceRun(s)] == p
    ensures Visible(NormalizeAround(s, p)) == Visible(s)
    decreases |s|, 0
  {
    var t := VisibleMatchStep(s, p);
    NormalizeAroundVisible(t, p);
    VisiblePunctuationSpace(p, NormalizeAround(t, p));
  }

  /** At a match, the output and the visible characters both continue with
      the text after the match. */
  lemma VisibleMatchStep(s: string, p: char) returns (t: string)
    requires !IsSpace(p) && IsKeptPunctuation(p)
    requires SpaceRun(s) < |s| && s[SpaceRun(s)] == p
    ensures |t| < |s|
    ensures NormalizeAround(s, p) == [p, ' '] + NormalizeAround(t, p)
    ensures Visible(s) == [p] + Visible(t)
  {
    t := DropSpaces(s[SpaceRun(s) + 1..]);
    NormalizeAroundAtMatch(s, p);
    VisibleAtMatch(s, p);
  }

  /** Only word characters, ASCII spaces and kept punctuation. */
  predicate AllClean(s: string) {
    forall i :: 0 <= i < |s| ==> IsCleanChar(s[i])
  }

  lemma AllCleanSlice(s: string, a: nat, b: nat)
    requires a <= b <= |s| && AllClean(s)
    ensures AllClean(s[a..b])
  {
    forall i | 0 <= i < b - a
      ensures IsCleanChar(s[a..b][i])
    {
      assert s[a..b][i] == s[a + i];
    }
  }

  lemma AllCleanConcat(a: string, b: string)
    requires AllClean(a) && AllClean(b)
    ensures AllClean(a + b)
  {
    forall i | 0 <= i < |a + b|
      ensures IsCleanChar((a + b)[i])
    {
      if i >= |a| {
        assert (a + b)[i] == b[i - |a|];
      }
    }
  }

  lemma AllCleanCons(c: char, rest: string)
    requires IsCleanChar(c) && AllClean(rest)
    ensures AllClean([c] + rest)
  {
    assert AllClean([c]);
    AllCleanConcat([c], rest);
  }

  /** What follows a match of the punctuation pattern is clean when the whole is. */
  lemma AllCleanAfterMatch(s: string)
    requires AllClean(s) && SpaceRun(s) < |s|
    ensures AllClean(DropSpaces(s[SpaceRun(s) + 1..]))
  {
    var u := s[SpaceRun(s) + 1..];
    AllCleanSlice(s, SpaceRun(s) + 1, |s|);
    AllCleanSlice(u, SpaceRun(u), |u|);
  }

  /** Normalising around clean punctuation adds no character but `p` and
      spaces, so clean text stays clean. */
  lemma {:induction false} NormalizeAroundClean(s: string, p: char)
    requires !IsSpace(p) && IsKeptPunctuation(p)
    requires AllClean(s)
    ensures AllClean(NormalizeAround(s, p))
    decreases |s|, 1
  {
    if s != [] {
      if SpaceRun(s) < |s| && s[SpaceRun(s)] == p {
        NormalizeAroundCleanMatch(s, p);
      } else {
        AllCleanSlice(s, 1, |s|);
        NormalizeAroundNoMatch(s, p);
        NormalizeAroundClean(s[1..], p);
        AllCleanCons(s[0], NormalizeAround(s[1..], p));
      }
    }
  }

  /** The case of `NormalizeAroundClean` where a match starts the text. */
  lemma {:induction false} NormalizeAroundCleanMatch(s: string, p: char)
    requires !IsSpace(p) && IsKeptPunctuation(p)
    requires AllClean(s) && SpaceRun(s) < |s| && s[SpaceRun(s)] == p
    ensures AllClean(NormalizeAround(s, p))
    decreases |s|, 0
  {
    var t := DropSpaces(s[SpaceRun(s) + 1..]);
    NormalizeAroundAtMatch(s, p);
    AllCleanAfterMatch(s);
    NormalizeAroundClean(t, p);
    AllCleanPunctuationSpace(p, NormalizeAround(t, p));
  }

  lemma AllCleanPunctuationSpace(p: char, rest: string)
    requires IsKeptPunctuation(p) && AllClean(rest)
    ensures AllClean([p, ' '] + rest)
  {
    AllCleanCons(' ', rest);
    AllCleanCons(p, [' '] + rest);
    ConsPair(p, ' ', rest);
  }

  /** Stripping takes a slice of its input. */
  lemma StripSlice(s: string)
    ensures SpaceRun(s) + |Strip(s)| <= |s|
    ensures Strip(s) == s[SpaceRun(s)..SpaceRun(s) + |Strip(s)|]
  {
    var d := DropSpaces(s);
    var k := SpaceRun(s);
    assert Strip(s) == d[..|Strip(s)|];
  }

  /** The slice stripping keeps starts and ends with a non-whitespace character. */
  lemma StripEnds(s: string)
    ensures |Strip(s)| > 0 ==> !IsSpace(Strip(s)[0]) && !IsSpace(Strip(s)[|Strip(s)| - 1])
  {
    var d := DropSpaces(s);
    var r := Strip(s);
    if |r| > 0 {
      assert r == d[..|r|];
      assert r[0] == d[0];
    }
  }

  /** Stripping drops only whitespace. */
  lemma StripVisible(s: string)
    ensures Visible(Strip(s)) == Visible(s)
  {
    VisibleDropSpaces(s);
    StripTrailingVisible(DropSpaces(s));
  }

  lemma StripTrailingVisible(d: string)
    ensures Visible(StripTrailing(d)) == Visible(d)
  {
    var r := StripTrailing(d);
    var tail := d[|r|..];
    forall i | 0 <= i < |tail|
      ensures IsSpace(tail[i])
    {
      assert tail[i] == d[|r| + i];
    }
    VisibleOfSpaces(tail);
    assert d == r + tail;
    VisibleAppend(r, tail);
  }

  /** The text after the four substitutions, before the strip. */
  function Substituted(text: string): string {
    NormalizeAround(NormalizeAround(ReplaceDisallowed(CollapseWhitespace(text)), '.'), ',')
  }

  lemma SubstitutedClean(text: string)
    ensures AllClean(Substituted(text))
  {
    var c := CollapseWhitespace(text);
    var d := ReplaceDisallowed(c);
    CollapseWhitespaceProperties(text);
    ReplaceDisallowedProperties(c);
    NormalizeAroundClean(d, '.');
    NormalizeAroundClean(NormalizeAround(d, '.'), ',');
  }

  lemma SubstitutedVisible(text: string)
    ensures Visible(Substituted(text)) == Visible(text)
  {
    var c := CollapseWhitespace(text);
    var d := ReplaceDisallowed(c);
    CollapseWhitespaceProperties(text);
    ReplaceDisallowedProperties(c);
    NormalizeAroundVisible(d, '.');
    NormalizeAroundVisible(NormalizeAround(d, '.'), ',');
  }

  /** `_clean_text` leaves no leading or trailing whitespace. */
  lemma CleanTextTrimmed(text: string)
    ensures |CleanText(text)| > 0 ==> !IsSpace(CleanText(text)[0]) && !IsSpace(CleanText(text)[|CleanText(text)| - 1])
  {
    StripEnds(Substituted(text));
  }

  /** Cleaned text consists only of word characters, ASCII spaces and kept
      punctuation, so no newline or tab survives. */
  lemma CleanTextCharset(text: string)
    ensures AllClean(CleanText(text))
    ensures forall i :: 0 <= i < |CleanText(text)| ==> CleanText(text)[i] != '\n' && CleanText(text)[i] != '\t'
  {
    var n := Substituted(text);
    assert AllClean(CleanText(text)) by {
      SubstitutedClean(text);
      StripSlice(n);
      AllCleanSlice(n, SpaceRun(n), SpaceRun(n) + |Strip(n)|);
    }
    AllCleanNoControls(CleanText(text));
  }

  lemma AllCleanNoControls(s: string)
    requires AllClean(s)
    ensures forall i :: 0 <= i < |s| ==> s[i] != '\n' && s[i] != '\t'
  {
    forall i | 0 <= i < |s|
      ensures s[i] != '\n' && s[i] != '\t'
    {
      assert IsCleanChar(s[i]);
    }
  }

  /** In cleaned text every ',' is followed by a space unless it is the
      last character. */
  lemma CleanTextCommas(text: string)
    ensures forall i :: 0 <= i < |CleanText(text)| - 1 && CleanText(text)[i] == ',' ==> CleanText(text)[i + 1] == ' '
  {
    var n := Substituted(text);
    var r := CleanText(text);
    NormalizeAroundSpaced(NormalizeAround(ReplaceDisallowed(CollapseWhitespace(text)), '.'), ',');
    assert Spaced(n, ',');
    StripSlice(n);
    var a := SpaceRun(n);
    forall i | 0 <= i < |r| - 1 && r[i] == ','
      ensures r[i + 1] == ' '
    {
      assert r[i] == n[a + i] && r[i + 1] == n[a + i + 1];
    }
  }

  /** Cleaning keeps every allowed visible character of the input, in
      order: it only deletes disallowed characters and moves whitespace. */
  lemma CleanTextVisible(text: string)
    ensures Visible(CleanText(text)) == Visible(text)
  {
    SubstitutedVisible(text);
    StripVisible(Substituted(text));
  }

  // ---------------------------------------------------------------------
  // Chunking
  // ---------------------------------------------------------------------

  /** The text reaching the splitter: PDF text extraction either gave the
      pages' texts or raised. */
  datatype PdfRead = Pages(pages: seq<string>) | Unreadable(reason: string)

  /** The recursive character splitter, a black box from text to chunks. */
  type Splitter = string -> seq<string>

  function ChunkMetadata(filepath: string, i: nat, total: nat): Metadata {
    map["source" := Str(filepath), "chunk_id" := Int(i), "total_chunks" := Int(total),
        "document_type" := Str("medical_pdf")]
  }

  function ChunkDocuments(filepath: string, chunks: seq<string>): (r: seq<Document>)
    ensures |r| == |chunks|
  {
    seq(|chunks|, i requires 0 <= i < |chunks| => Document(chunks[i], ChunkMetadata(filepath, i, |chunks|)))
  }

  /** Document `i` holds chunk `i` with chunk id `i`, the total chunk count,
      the medical PDF type and the file path as source; distinct documents
      have distinct chunk ids, so their order can be rebuilt. */
  lemma ChunkDocumentsShape(filepath: string, chunks: seq<string>)
    ensures forall i :: 0 <= i < |chunks| ==>
              var d := ChunkDocuments(filepath, chunks)[i];
              d.pageContent == chunks[i] &&
              d.metadata.Keys == {"source", "chunk_id", "total_chunks", "document_type"} &&
              d.metadata["chunk_id"] == Int(i) &&
              d.metadata["total_chunks"] == Int(|chunks|) &&
              d.metadata["document_type"] == Str("medical_pdf") &&
              d.metadata["source"] == Str(filepath)
    ensures forall i, j :: 0 <= i < j < |chunks| ==>
              ChunkDocuments(filepath, chunks)[i].metadata["chunk_id"] != ChunkDocuments(filepath, chunks)[j].metadata["chunk_id"]
  {
  }

  const ProcessError: string := "Error processing PDF "

  /** Extract, clean, split, and stamp each chunk with its position; an
      extraction failure is raised again naming the file. */
  method ProcessPdf(filepath: string, pdf: PdfRead, splitter: Splitter) returns (r: Result<seq<Document>>)
    ensures pdf.Unreadable? ==> r == Failure(ProcessError + filepath + ": " + pdf.reason)
    ensures pdf.Pages? ==>
              r == Success(ChunkDocuments(filepath, splitter(CleanText(RawText(pdf.pages)))))
  {
    if pdf.Unreadable? {
      return Failure(ProcessError + filepath + ": " + pdf.reason);
    }
    var text := AssembleText(pdf.pages);
    text := CleanText(text);
    var chunks := splitter(text);
    ghost var stamped := ChunkDocuments(filepath, chunks);
    var documents: seq<Document> := [];
    var i := 0;
    while i < |chunks|
      invariant 0 <= i <= |chunks|
      invariant documents == stamped[..i]
    {
      var doc := Document(chunks[i], ChunkMetadata(filepath, i, |chunks|));
      assert stamped[..i + 1][i] == doc;
      SnocEquals(stamped[..i + 1], documents, doc);
      documents := documents + [doc];
      i := i + 1;
    }
    assert stamped[..i] == stamped;
    r := Success(documents);
  }

  // ---------------------------------------------------------------------
  // Entity extraction
  // ---------------------------------------------------------------------

  const MedicalKeywords: map<string, seq<string>> := map[
    "medications" := ["mg", "ml", "tablet", "capsule", "dose", "medication", "drug"],
    "conditions" := ["diagnosis", "syndrome", "disease", "disorder", "infection"],
    "procedures" := ["surgery", "procedure", "treatment", "therapy", "intervention"],
    "lab_values" := ["level", "count", "result", "test", "lab", "blood", "urine"]
  ]

  /** `[kw for kw in keywords if kw in text_lower]`. */
  function FoundKeywords(keywords: seq<string>, lowText: string): seq<string>
    decreases |keywords|
  {
    if keywords == [] then []
    else (if Contains(lowText, keywords[0]) then [keywords[0]] else []) + FoundKeywords(keywords[1..], lowText)
  }

  /** The found list keeps the keywords' order. */
  lemma {:induction false} FoundKeywordsSubseq(keywords: seq<string>, lowText: string)
    ensures IsSubseq(FoundKeywords(keywords, lowText), keywords)
    decreases |keywords|
  {
    if keywords == [] {
    } else {
      var rest := FoundKeywords(keywords[1..], lowText);
      FoundKeywordsSubseq(keywords[1..], lowText);
      assert keywords == [keywords[0]] + keywords[1..];
      if Contains(lowText, keywords[0]) {
        assert FoundKeywords(keywords, lowText) == [keywords[0]] + rest;
        SubseqKeep(keywords[0], rest, keywords[1..]);
      } else {
        assert FoundKeywords(keywords, lowText) == rest;
        SubseqSkip(keywords[0], rest, keywords[1..]);
      }
    }
  }

  /** A keyword is found exactly when it is one of the keywords and occurs in the text. */
  lemma {:induction false} FoundKeywordsMembers(keywords: seq<string>, lowText: string)
    ensures forall kw :: kw in FoundKeywords(keywords, lowText) <==> kw in keywords && Contains(lowText, kw)
    decreases |keywords|
  {
    if keywords != [] {
      FoundKeywordsMembers(keywords[1..], lowText);
      assert keywords == [keywords[0]] + keywords[1..];
    }
  }

  /** The found list is non-empty exactly when some keyword occurs. */
  lemma FoundKeywordsNonEmpty(keywords: seq<string>, lowText: string)
    ensures FoundKeywords(keywords, lowText) != [] <==> ContainsAny(lowText, keywords)
  {
    FoundKeywordsMembers(keywords, lowText);
    if ContainsAny(lowText, keywords) {
      var j :| 0 <= j < |keywords| && Contains(lowText, keywords[j]);
      assert keywords[j] in FoundKeywords(keywords, lowText);
    }
    if FoundKeywords(keywords, lowText) != [] {
      var kw := FoundKeywords(keywords, lowText)[0];
      assert kw in FoundKeywords(keywords, lowText);
      var j :| 0 <= j < |keywords| && keywords[j] == kw;
    }
  }

  /** The categories of `table` with at least one keyword occurring in
      `lowText`, each mapped to the keywords found. */
  function Matches(table: map<string, seq<string>>, lowText: string): map<string, seq<string>> {
    map c | c in table && FoundKeywords(table[c], lowText) != [] :: FoundKeywords(table[c], lowText)
  }

  /** A category is present exactly when one of its keywords occurs in the
      text, and then lists exactly those keywords, in the category's own
      order. */
  lemma MatchesExact(table: map<string, seq<string>>, lowText: string)
    ensures forall c :: c in Matches(table, lowText) <==> c in table && ContainsAny(lowText, table[c])
    ensures forall c :: c in Matches(table, lowText) ==> IsSubseq(Matches(table, lowText)[c], table[c])
    ensures forall c, kw :: c in Matches(table, lowText) ==>
              (kw in Matches(table, lowText)[c] <==> kw in table[c] && Contains(lowText, kw))
  {
    forall c | c in table
      ensures FoundKeywords(table[c], lowText) != [] <==> ContainsAny(lowText, table[c])
      ensures IsSubseq(FoundKeywords(table[c], lowText), table[c])
      ensures forall kw :: kw in FoundKeywords(table[c], lowText) <==> kw in table[c] && Contains(lowText, kw)
    {
      FoundKeywordsNonEmpty(table[c], lowText);
      FoundKeywordsSubseq(table[c], lowText);
      FoundKeywordsMembers(table[c], lowText);
    }
  }

  /** The loop over the category table's items. */
  method MatchCategories(table: map<string, seq<string>>, lowText: string) returns (entities: map<string, seq<string>>)
    ensures entities == Matches(table, lowText)
  {
    entities := map[];
    var remaining := table.Keys;
    while remaining != {}
      invariant remaining <= table.Keys
      invariant entities == map c | c in table.Keys - remaining && FoundKeywords(table[c], lowText) != [] ::
                              FoundKeywords(table[c], lowText)
      decreases remaining
    {
      var category :| category in remaining;
      var foundKeywords := FoundKeywords(table[category], lowText);
      if foundKeywords != [] {
        entities := entities[category := foundKeywords];
      }
      remaining := remaining - {category};
    }
  }

  /** Entity extraction: the medical categories matched in the
      lower-cased text. */
  method ExtractMedicalEntities(text: string) returns (entities: map<string, seq<string>>)
    ensures entities == Matches(MedicalKeywords, Lower(text))
  {
    var textLower := Lower(text);
    entities := MatchCategories(MedicalKeywords, textLower);
  }
}
