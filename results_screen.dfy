/**
 * The results page (src/components/questionnaire/ResultsScreen.tsx): the choice between the
 * fallback card and one card per result, and the light markup of a result's content,
 * split into paragraphs on a blank line and each shown as a heading, a bullet list or a
 * plain paragraph. The regular expressions of the source are restated as character tests.
 */
module ResultsScreen {
  import opened Wrappers
  import opened Types
  import Seqs

  /** JavaScript's line terminators, where `^` and `$` match under the `m` flag. */
  predicate IsLineTerminator(c: char)
  {
    c == '\n' || c == '\r' || c == '\U{2028}' || c == '\U{2029}'
  }

  /** The characters `trim()` removes and `\s` matches. */
  predicate IsWhitespace(c: char)
  {
    || c == '\t' || c == '\n' || c == '\U{000B}' || c == '\U{000C}' || c == '\r' || c == ' '
    || c == '\U{00A0}' || c == '\U{1680}' || ('\U{2000}' <= c <= '\U{200A}')
    || c == '\U{2028}' || c == '\U{2029}' || c == '\U{202F}' || c == '\U{205F}'
    || c == '\U{3000}' || c == '\U{FEFF}'
  }

  /** `[A-Z]`. */
  predicate IsCapital(c: char)
  {
    'A' <= c <= 'Z'
  }

  /** The characters `[^.!?]` excludes. */
  predicate IsStop(c: char)
  {
    c == '.' || c == '!' || c == '?'
  }

  /** The bullet glyphs `•`, `✓`, `✗` and `□`. */
  predicate IsGlyph(c: char)
  {
    c == '\U{2022}' || c == '\U{2713}' || c == '\U{2717}' || c == '\U{25A1}'
  }

  // ----- The heading regex /^[A-Z][^.!?]*$/m, as the regex engine reads it -----

  predicate AtLineStart(s: string, p: nat)
    requires p <= |s|
  {
    p == 0 || IsLineTerminator(s[p - 1])
  }

  predicate AtLineEnd(s: string, q: nat)
    requires q <= |s|
  {
    q == |s| || IsLineTerminator(s[q])
  }

  predicate NoStopBetween(s: string, i: nat, j: nat)
    requires i <= j <= |s|
  {
    forall k :: i <= k < j ==> !IsStop(s[k])
  }

  /** The regex matches `s[p..q]`: `^` at `p`, a capital, no stop up to `q`, `$` at `q`.
      (`[^.!?]` also matches line terminators, so the match may run over several lines.) */
  predicate MatchAt(s: string, p: nat, q: nat)
  {
    p < q <= |s| && AtLineStart(s, p) && IsCapital(s[p]) && AtLineEnd(s, q) && NoStopBetween(s, p + 1, q)
  }

  ghost predicate HeadingRegexMatches(s: string)
  {
    exists p: nat, q: nat :: MatchAt(s, p, q)
  }

  // ----- The same test, line by line -----

  /** The end of the line that starts at `p`: the next line terminator, or the end. */
  function LineEnd(s: string, p: nat): (e: nat)
    requires p <= |s|
    ensures p <= e <= |s| && AtLineEnd(s, e)
    ensures forall k :: p <= k < e ==> !IsLineTerminator(s[k])
    decreases |s| - p
  {
    if p == |s| || IsLineTerminator(s[p]) then p else LineEnd(s, p + 1)
  }

  /** Some line at or after the line start `p` begins with a capital and holds no stop. */
  predicate HasHeadingLine(s: string, p: nat)
    requires p <= |s|
    decreases |s| - p
  {
    var e := LineEnd(s, p);
    (p < e && IsCapital(s[p]) && NoStopBetween(s, p + 1, e))
    || (e < |s| && HasHeadingLine(s, e + 1))
  }

  /** The line-by-line test agrees with the regex. */
  lemma HeadingLineIffRegex(s: string)
    ensures HasHeadingLine(s, 0) <==> HeadingRegexMatches(s)
  {
    if HasHeadingLine(s, 0) {
      HeadingLineGivesMatch(s, 0);
    }
    if HeadingRegexMatches(s) {
      var p: nat, q: nat :| MatchAt(s, p, q);
      var e := LineEnd(s, p);
      assert e <= q;
      MatchReachedFrom(s, 0, p);
    }
  }

  lemma {:induction false} HeadingLineGivesMatch(s: string, p: nat)
    requires p <= |s| && AtLineStart(s, p)
    requires HasHeadingLine(s, p)
    ensures HeadingRegexMatches(s)
    decreases |s| - p
  {
    var e := LineEnd(s, p);
    if p < e && IsCapital(s[p]) && NoStopBetween(s, p + 1, e) {
      assert MatchAt(s, p, e);
    } else {
      HeadingLineGivesMatch(s, e + 1);
    }
  }

  lemma {:induction false} MatchReachedFrom(s: string, p0: nat, p: nat)
    requires p0 <= p < |s| && AtLineStart(s, p0) && AtLineStart(s, p)
    requires IsCapital(s[p]) && NoStopBetween(s, p + 1, LineEnd(s, p))
    ensures HasHeadingLine(s, p0)
    decreases p - p0
  {
    var e := LineEnd(s, p0);
    if p0 < p {
      assert e < p;
      MatchReachedFrom(s, e + 1, p);
    } else {
      assert p < e by { assert !IsLineTerminator(s[p]); }
    }
  }

  // ----- Classification of a paragraph -----

  /** `paragraph.match(/^[A-Z][^.!?]*$/m) && paragraph.length < 100`. */
  predicate IsHeading(paragraph: string)
  {
    HasHeadingLine(paragraph, 0) && |paragraph| < 100
  }

  /** `paragraph.includes(...)` for any of the four glyphs. */
  predicate HasGlyph(paragraph: string)
  {
    exists i :: 0 <= i < |paragraph| && IsGlyph(paragraph[i])
  }

  /** `line.trim()` is empty. */
  predicate IsBlank(line: string)
  {
    forall i :: 0 <= i < |line| ==> IsWhitespace(line[i])
  }

  /** The style of a bullet's icon. */
  datatype Tone = Primary | Destructive | Muted

  datatype Bullet = Bullet(icon: char, tone: Tone, text: string)

  /** How a paragraph is shown. */
  datatype Block = Heading(text: string) | BulletList(items: seq<Bullet>) | Paragraph(text: string)

  /** `line.match(/^([•✓✗□])/)?.[1]`. */
  function LeadingGlyph(line: string): (g: Option<char>)
    ensures g.Some? <==> |line| > 0 && IsGlyph(line[0])
    ensures g.Some? ==> g.value == line[0]
  {
    if |line| > 0 && IsGlyph(line[0]) then Some(line[0]) else None
  }

  /** `\s*` at the front: the longest whitespace prefix removed. */
  function DropWhitespace(s: string): (r: string)
    ensures |r| <= |s| && r == s[|s| - |r|..]
    ensures forall i :: 0 <= i < |s| - |r| ==> IsWhitespace(s[i])
    ensures |r| > 0 ==> !IsWhitespace(r[0])
  {
    if |s| > 0 && IsWhitespace(s[0]) then DropWhitespace(s[1..]) else s
  }

  /** `line.replace(/^[•✓✗□]\s*\/, '')`: at most one leading glyph and the whitespace after it. */
  function CleanLine(line: string): (r: string)
    ensures |r| <= |line| && r == line[|line| - |r|..]
    ensures LeadingGlyph(line).None? ==> r == line
    ensures LeadingGlyph(line).Some? ==>
              |r| < |line| && forall i :: 1 <= i < |line| - |r| ==> IsWhitespace(line[i])
    ensures LeadingGlyph(line).Some? && |r| > 0 ==> !IsWhitespace(r[0])
  {
    if LeadingGlyph(line).Some? then DropWhitespace(line[1..]) else line
  }

  /** The icon shown: the leading glyph, or `•`. */
  function Icon(line: string): char
  {
    match LeadingGlyph(line)
    case Some(g) => g
    case None => '•'
  }

  /** The icon's style is decided by the matched glyph: `✓` primary, `✗` destructive. */
  function ToneOf(glyph: Option<char>): Tone
  {
    if glyph == Some('✓') then Primary
    else if glyph == Some('✗') then Destructive
    else Muted
  }

  function MakeBullet(line: string): Bullet
  {
    Bullet(Icon(line), ToneOf(LeadingGlyph(line)), CleanLine(line))
  }

  /** The lines whose trim is not empty, in order. */
  function NonBlankLines(lines: seq<string>): seq<string>
  {
    Seqs.Filter(l => !IsBlank(l), lines)
  }

  /** The items of a bullet list: one per line that is not blank. */
  function BulletItems(paragraph: string): (items: seq<Bullet>)
  {
    var kept := NonBlankLines(Seqs.Split(paragraph, "\n"));
    seq(|kept|, i requires 0 <= i < |kept| => MakeBullet(kept[i]))
  }

  /** The block for one paragraph: the heading test first, then the glyph test. */
  function Classify(paragraph: string): Block
  {
    if IsHeading(paragraph) then Heading(paragraph)
    else if HasGlyph(paragraph) then BulletList(BulletItems(paragraph))
    else Paragraph(paragraph)
  }

  /** `content.split('\n\n')`. */
  function Paragraphs(content: string): seq<string>
  {
    Seqs.Split(content, "\n\n")
  }

  /** The blocks of a result's content, one per paragraph, in order. */
  function RenderContent(content: string): (blocks: seq<Block>)
    ensures |blocks| == |Paragraphs(content)|
    ensures forall i :: 0 <= i < |blocks| ==> blocks[i] == Classify(Paragraphs(content)[i])
  {
    var ps := Paragraphs(content);
    seq(|ps|, i requires 0 <= i < |ps| => Classify(ps[i]))
  }

  datatype Card = Card(id: string, title: string, blocks: seq<Block>)

  /** The part of the page below the thank-you text. */
  datatype ResultsView = Fallback | Strategies(cards: seq<Card>)

  function RenderResults(results: seq<ResultStatement>): (v: ResultsView)
    ensures v.Fallback? <==> |results| == 0
    ensures v.Strategies? ==> |v.cards| == |results|
    ensures v.Strategies? ==> forall i :: 0 <= i < |results| ==>
              v.cards[i] == Card(results[i].id, results[i].title, RenderContent(results[i].content))
  {
    if |results| == 0 then Fallback
    else Strategies(seq(|results|, i requires 0 <= i < |results| => Card(results[i].id, results[i].title, RenderContent(results[i].content))))
  }

  /** The paragraphs put back together with blank lines give the whole content, and none of
      them contains a blank line: every character is shown once, in order. */
  lemma ParagraphsCoverContent(content: string)
    ensures Seqs.Join(Paragraphs(content), "\n\n") == content
    ensures forall k :: 0 <= k < |Paragraphs(content)| ==> !Seqs.Occurs(Paragraphs(content)[k], "\n\n")
  {
    Seqs.JoinSplit(content, "\n\n");
    Seqs.SplitPiecesAvoidSeparatorAll(content, "\n\n");
  }

  /** The heading test wins; otherwise a glyph makes a bullet list; otherwise a paragraph.
      Headings and paragraphs show the paragraph unchanged. */
  lemma ClassifyCases(paragraph: string)
    ensures Classify(paragraph).Heading? <==> HeadingRegexMatches(paragraph) && |paragraph| < 100
    ensures Classify(paragraph).BulletList? <==> !Classify(paragraph).Heading? && HasGlyph(paragraph)
    ensures Classify(paragraph).Paragraph? <==> !Classify(paragraph).Heading? && !HasGlyph(paragraph)
    ensures Classify(paragraph).Heading? || Classify(paragraph).Paragraph? ==> Classify(paragraph).text == paragraph
  {
    HeadingLineIffRegex(paragraph);
  }

  /** A bullet list has one item per non-blank line, in order, each the cleaned line with
      its icon and the icon's tone. */
  lemma BulletItemsFollowLines(paragraph: string)
    ensures var lines := Seqs.Split(paragraph, "\n");
      var items := BulletItems(paragraph);
      && Seqs.IsSubsequence(NonBlankLines(lines), lines)
      && (forall l :: l in NonBlankLines(lines) <==> l in lines && !IsBlank(l))
      && |items| == |NonBlankLines(lines)|
      && forall i :: 0 <= i < |items| ==> items[i] == MakeBullet(NonBlankLines(lines)[i])
  {
    var lines := Seqs.Split(paragraph, "\n");
    Seqs.FilterIsSubsequence(l => !IsBlank(l), lines);
    forall l ensures l in NonBlankLines(lines) <==> l in lines && !IsBlank(l) {
      Seqs.FilterMembership(l => !IsBlank(l), lines, l);
    }
  }

  /** The icon is the leading glyph or `•`; `✓` is primary, `✗` destructive, the rest muted. */
  lemma IconAndTone(line: string)
    ensures IsGlyph(Icon(line))
    ensures LeadingGlyph(line).Some? ==> Icon(line) == line[0]
    ensures LeadingGlyph(line).None? ==> Icon(line) == '•' && MakeBullet(line).tone == Muted
    ensures MakeBullet(line).tone == Primary <==> |line| > 0 && line[0] == '✓'
    ensures MakeBullet(line).tone == Destructive <==> |line| > 0 && line[0] == '✗'
  {
    assert '✓' != '✗';
    match LeadingGlyph(line)
    case None =>
    case Some(g) => assert g == line[0];
  }

  /** A short line with a capital and no stop is a heading. */
  lemma HeadingExample()
    ensures Classify("IRS Reference:").Heading?
  {
    assert MatchAt("IRS Reference:", 0, 14);
    HeadingLineIffRegex("IRS Reference:");
  }

  /** On a line without terminators the line ends at the end of the string. */
  lemma {:induction false} LineEndWithoutTerminator(s: string, p: nat)
    requires p <= |s|
    requires forall k :: p <= k < |s| ==> !IsLineTerminator(s[k])
    ensures LineEnd(s, p) == |s|
    decreases |s| - p
  {
    if p < |s| {
      LineEndWithoutTerminator(s, p + 1);
    }
  }

  /** A single line is a heading line iff it starts with a capital and holds no stop. */
  lemma SingleLineHeading(s: string)
    requires forall k :: 0 <= k < |s| ==> !IsLineTerminator(s[k])
    ensures HasHeadingLine(s, 0) <==> |s| > 0 && IsCapital(s[0]) && NoStopBetween(s, 1, |s|)
  {
    LineEndWithoutTerminator(s, 0);
  }

  /** A question mark keeps a one-line paragraph from being a heading. */
  lemma QuestionExample()
    ensures Classify("Why not?").Paragraph?
  {
    var q := "Why not?";
    SingleLineHeading(q);
    assert IsStop(q[7]);
    assert !IsHeading(q);
    assert !HasGlyph(q);
  }

  /** Two lines joined by one line break hold no blank line, so `split('\n\n')` leaves
      them together. */
  lemma TwoLineParagraph(l1: string, l2: string)
    requires forall i :: 0 <= i < |l1| ==> !IsLineTerminator(l1[i])
    requires forall i :: 0 <= i < |l2| ==> !IsLineTerminator(l2[i])
    ensures Paragraphs(l1 + "\n" + l2) == [l1 + "\n" + l2]
  {
    var p := l1 + "\n" + l2;
    forall i: nat | i <= |p| ensures !Seqs.OccursAt(p, "\n\n", i) {
      if i + 2 <= |p| {
        assert p[i..i + 2][0] == p[i] && p[i..i + 2][1] == p[i + 1];
        if i < |l1| {
          assert p[i] == l1[i];
        } else {
          assert p[i + 1] == l2[i - |l1|];
        }
      }
    }
    Seqs.SplitWithoutSeparator(p, "\n\n");
  }

  /** `split('\n')` gives the two lines back. */
  lemma TwoLineSplit(l1: string, l2: string)
    requires forall i :: 0 <= i < |l1| ==> !IsLineTerminator(l1[i])
    requires forall i :: 0 <= i < |l2| ==> !IsLineTerminator(l2[i])
    ensures Seqs.Split(l1 + "\n" + l2, "\n") == [l1, l2]
  {
    var p := l1 + "\n" + l2;
    forall i | 0 <= i < |l1| ensures !Seqs.OccursAt(p, "\n", i) {
      assert p[i..i + 1][0] == p[i] == l1[i];
    }
    Seqs.SplitFirstPiece(l1, "\n", l2);
    forall i: nat | i <= |l2| ensures !Seqs.OccursAt(l2, "\n", i) {
      if i < |l2| {
        assert l2[i..i + 1][0] == l2[i];
      }
    }
    Seqs.SplitWithoutSeparator(l2, "\n");
  }

  /** Two non-blank lines both survive the blank-line filter. */
  lemma NonBlankPair(l1: string, l2: string)
    requires !IsBlank(l1) && !IsBlank(l2)
    ensures NonBlankLines([l1, l2]) == [l1, l2]
  {
    var keep := (l: string) => !IsBlank(l);
    assert [l2][1..] == [];
    assert Seqs.Filter(keep, [l2]) == [l2] + Seqs.Filter(keep, []);
    assert [l1, l2][1..] == [l2];
    assert Seqs.Filter(keep, [l1, l2]) == [l1] + Seqs.Filter(keep, [l2]);
  }

  /** Two non-blank lines make a two-item list, one item per line, in order. */
  lemma TwoLineItems(l1: string, l2: string)
    requires forall i :: 0 <= i < |l1| ==> !IsLineTerminator(l1[i])
    requires forall i :: 0 <= i < |l2| ==> !IsLineTerminator(l2[i])
    requires !IsBlank(l1) && !IsBlank(l2)
    ensures BulletItems(l1 + "\n" + l2) == [MakeBullet(l1), MakeBullet(l2)]
  {
    TwoLineSplit(l1, l2);
    NonBlankPair(l1, l2);
  }

  /** Neither line starting with a capital, two lines hold no heading line. */
  lemma TwoLinesNoHeading(l1: string, l2: string)
    requires forall i :: 0 <= i < |l1| ==> !IsLineTerminator(l1[i])
    requires forall i :: 0 <= i < |l2| ==> !IsLineTerminator(l2[i])
    requires |l1| > 0 && !IsCapital(l1[0]) && |l2| > 0 && !IsCapital(l2[0])
    ensures !IsHeading(l1 + "\n" + l2)
  {
    var p := l1 + "\n" + l2;
    var e := LineEnd(p, 0);
    assert forall k :: 0 <= k < |l1| ==> p[k] == l1[k];
    assert IsLineTerminator(p[|l1|]);
    assert e == |l1|;
    LineEndWithoutTerminator(p, |l1| + 1);
    assert p[|l1| + 1] == l2[0];
    assert !HasHeadingLine(p, |l1| + 1);
    assert p[0] == l1[0];
  }

  /** Two glyph-led lines joined by one line break make a bullet list of two items. */
  lemma TwoGlyphLines(l1: string, l2: string)
    requires forall i :: 0 <= i < |l1| ==> !IsLineTerminator(l1[i])
    requires forall i :: 0 <= i < |l2| ==> !IsLineTerminator(l2[i])
    requires |l1| > 0 && IsGlyph(l1[0]) && |l2| > 0 && IsGlyph(l2[0])
    ensures Classify(l1 + "\n" + l2) == BulletList([MakeBullet(l1), MakeBullet(l2)])
  {
    var p := l1 + "\n" + l2;
    assert !IsWhitespace(l1[0]) && !IsWhitespace(l2[0]);
    TwoLineItems(l1, l2);
    TwoLinesNoHeading(l1, l2);
    assert p[0] == l1[0];
  }

  /** A glyph, one space and a word make an item with that glyph's icon and tone and the
      word as its text. */
  lemma GlyphSpaceWord(g: char, word: string)
    requires IsGlyph(g) && |word| > 0 && !IsWhitespace(word[0])
    ensures MakeBullet([g] + " " + word) == Bullet(g, ToneOf(Some(g)), word)
  {
    var line := [g] + " " + word;
    assert line[1..] == [' '] + word;
    assert DropWhitespace(line[1..]) == DropWhitespace(word);
  }

  /** The example paragraph below: two glyph-led lines. */
  const TwoBullets: string := "\U{2713} Log\n\U{2717} Tip"

  /** The example is one paragraph, classified as the list of its two lines. */
  lemma TwoBulletsShape()
    ensures Paragraphs(TwoBullets) == [TwoBullets]
    ensures Classify(TwoBullets) == BulletList([MakeBullet("\U{2713} Log"), MakeBullet("\U{2717} Tip")])
  {
    var l1, l2 := "\U{2713} Log", "\U{2717} Tip";
    assert TwoBullets == l1 + "\n" + l2;
    TwoLineParagraph(l1, l2);
    TwoGlyphLines(l1, l2);
  }

  /** The example's first item: ticked, so in the primary tone. */
  lemma TickItem()
    ensures MakeBullet("\U{2713} Log") == Bullet('\U{2713}', Primary, "Log")
  {
    assert "\U{2713} Log" == ['\U{2713}'] + " " + "Log";
    GlyphSpaceWord('\U{2713}', "Log");
  }

  /** The example's second item: crossed, so destructive. */
  lemma CrossItem()
    ensures MakeBullet("\U{2717} Tip") == Bullet('\U{2717}', Destructive, "Tip")
  {
    assert "\U{2717} Tip" == ['\U{2717}'] + " " + "Tip";
    GlyphSpaceWord('\U{2717}', "Tip");
  }

  /** A paragraph of two glyph-led lines, which `split('\n\n')` leaves whole, is a bullet
      list of two items: the ticked line in the primary tone, the crossed one destructive. */
  lemma BulletExample()
    ensures Paragraphs(TwoBullets) == [TwoBullets]
    ensures Classify(TwoBullets)
              == BulletList([Bullet('\U{2713}', Primary, "Log"), Bullet('\U{2717}', Destructive, "Tip")])
  {
    TwoBulletsShape();
    TickItem();
    CrossItem();
  }
}
