/**
 Lines and paragraphs of a text with exact offsets.  What counts as white space is a parameter.
*/
module TextLayout {
  type Spacing = char -> bool

  datatype Line = Line(number: nat, start: nat, end: nat, text: string)

  datatype Paragraph = Paragraph(startLine: nat, endLine: nat, start: nat, end: nat, lines: seq<Line>)

  // ---------- lines ----------

  /** The first line break at or after `i`, or the end of the text. */
  function BreakAt(text: string, i: nat): (e: nat)
    requires i <= |text|
    ensures i <= e <= |text| && (e < |text| ==> text[e] == '\n')
    ensures forall j :: i <= j < e ==> text[j] != '\n'
    decreases |text| - i
  {
    if i == |text| || text[i] == '\n' then i else BreakAt(text, i + 1)
  }

  /** `text.split("\n")`, from `offset` on */
  function Parts(text: string, offset: nat): (parts: seq<string>)
    requires offset <= |text|
    ensures parts != []
    decreases |text| - offset
  {
    var e := BreakAt(text, offset);
    if e == |text| then [text[offset..e]] else [text[offset..e]] + Parts(text, e + 1)
  }

  /** Where part `k` starts: after everything before it and a line break each. */
  function Start(parts: seq<string>, k: nat): nat
    requires k <= |parts|
  {
    if k == 0 then 0 else Start(parts, k - 1) + |parts[k - 1]| + 1
  }

  function LineOf(parts: seq<string>, k: nat): Line
    requires k < |parts|
  {
    Line(k + 1, Start(parts, k), Start(parts, k) + |parts[k]|, parts[k])
  }

  function LinesTo(parts: seq<string>, n: nat): (lines: seq<Line>)
    requires n <= |parts|
    ensures |lines| == n
  {
    seq(n, k requires 0 <= k < n => LineOf(parts, k))
  }

  /** The line's offsets are those of its text, which has no line break. */
  predicate LineAt(text: string, line: Line, k: nat) {
    && line.number == k + 1
    && line.start <= line.end <= |text| && line.text == text[line.start..line.end]
    && forall i :: line.start <= i < line.end ==> text[i] != '\n'
  }

  /** Line `k` ends at a line break and the next line starts right after it. */
  predicate Follows(text: string, lines: seq<Line>, k: int)
    requires 0 <= k < |lines| - 1
  {
    lines[k].end < |text| && text[lines[k].end] == '\n' && lines[k + 1].start == lines[k].end + 1
  }

  /** The lines are exactly the text, cut at its line breaks. */
  predicate LinesOf(text: string, lines: seq<Line>) {
    && lines != [] && lines[0].start == 0 && lines[|lines| - 1].end == |text|
    && (forall k {:trigger LineAt(text, lines[k], k)} :: 0 <= k < |lines| ==> LineAt(text, lines[k], k))
    && (forall k {:trigger Follows(text, lines, k)} :: 0 <= k < |lines| - 1 ==> Follows(text, lines, k))
  }

  lemma LineIs(parts: seq<string>, n: nat, k: nat)
    requires k < n <= |parts|
    ensures LinesTo(parts, n)[k] == LineOf(parts, k)
  {
  }

  lemma LinesGrow(parts: seq<string>, n: nat)
    requires n < |parts|
    ensures LinesTo(parts, n + 1) == LinesTo(parts, n) + [LineOf(parts, n)]
  {
    var more := LinesTo(parts, n) + [LineOf(parts, n)];
    forall k | 0 <= k < n + 1 ensures LinesTo(parts, n + 1)[k] == more[k] {
      LineIs(parts, n + 1, k);
      if k < n { LineIs(parts, n, k); }
    }
  }

  lemma {:induction false} StartAfterFirst(parts: seq<string>, k: nat)
    requires 0 < k <= |parts|
    ensures Start(parts, k) == |parts[0]| + 1 + Start(parts[1..], k - 1)
  {
    if k > 1 { StartAfterFirst(parts, k - 1); }
  }

  /** The parts are the text, piece by piece. */
  lemma {:induction false} PartIs(text: string, offset: nat, k: nat)
    requires offset <= |text| && k < |Parts(text, offset)|
    ensures var parts := Parts(text, offset); var at := offset + Start(parts, k);
      at + |parts[k]| <= |text| && parts[k] == text[at..at + |parts[k]|]
    decreases k
  {
    if k > 0 {
      PartIs(text, BreakAt(text, offset) + 1, k - 1);
      StartAfterFirst(Parts(text, offset), k);
    }
  }

  /** A part runs to the next line break, and the last one to the end. */
  lemma {:induction false} PartEnds(text: string, offset: nat, k: nat)
    requires offset <= |text| && k < |Parts(text, offset)|
    ensures var parts := Parts(text, offset); var at := offset + Start(parts, k);
      at <= |text| && at + |parts[k]| == BreakAt(text, at) && (k == |parts| - 1 <==> BreakAt(text, at) == |text|)
    decreases k
  {
    if k > 0 {
      PartEnds(text, BreakAt(text, offset) + 1, k - 1);
      StartAfterFirst(Parts(text, offset), k);
    }
  }

  lemma PartIsLine(text: string, k: nat)
    requires k < |Parts(text, 0)|
    ensures var parts := Parts(text, 0); LineAt(text, LineOf(parts, k), k)
  {
    PartIs(text, 0, k);
    PartEnds(text, 0, k);
  }

  lemma PartFollows(text: string, k: nat)
    requires k + 1 < |Parts(text, 0)|
    ensures Follows(text, LinesTo(Parts(text, 0), |Parts(text, 0)|), k)
  {
    var parts := Parts(text, 0);
    PartEnds(text, 0, k);
    LineIs(parts, |parts|, k);
    LineIs(parts, |parts|, k + 1);
  }

  lemma PartsMeetTheEnds(text: string)
    ensures var lines := LinesTo(Parts(text, 0), |Parts(text, 0)|);
      lines != [] && lines[0].start == 0 && lines[|lines| - 1].end == |text|
  {
    var parts := Parts(text, 0);
    PartEnds(text, 0, |parts| - 1);
    LineIs(parts, |parts|, |parts| - 1);
    LineIs(parts, |parts|, 0);
  }

  lemma PartIsLineAt(text: string, k: nat)
    requires k < |Parts(text, 0)|
    ensures var lines := LinesTo(Parts(text, 0), |Parts(text, 0)|); LineAt(text, lines[k], k)
  {
    PartIsLine(text, k);
    LineIs(Parts(text, 0), |Parts(text, 0)|, k);
  }

  lemma PartsAreLines(text: string)
    ensures LinesOf(text, LinesTo(Parts(text, 0), |Parts(text, 0)|))
  {
    var parts := Parts(text, 0);
    var lines := LinesTo(parts, |parts|);
    forall k | 0 <= k < |lines| ensures LineAt(text, lines[k], k) { PartIsLineAt(text, k); }
    forall k | 0 <= k < |lines| - 1 ensures Follows(text, lines, k) { PartFollows(text, k); }
    PartsMeetTheEnds(text);
  }

  method BuildLines(text: string) returns (lines: seq<Line>)
    ensures LinesOf(text, lines)
  {
    lines := [];
    var offset := 0;
    var parts := Parts(text, 0);
    for index := 0 to |parts|
      invariant index < |parts| ==> offset == Start(parts, index)
      invariant lines == LinesTo(parts, index)
    {
      LinesGrow(parts, index);
      var value := parts[index];
      lines := lines + [Line(index + 1, offset, offset + |value|, value)];
      offset := offset + |value|;
      if index < |parts| - 1 {
        offset := offset + 1;
      }
    }
    PartsAreLines(text);
  }

  // ---------- paragraphs ----------

  predicate BlankText(s: string, space: Spacing) { forall i :: 0 <= i < |s| ==> space(s[i]) }

  predicate BlankLine(lines: seq<Line>, k: int, space: Spacing)
    requires 0 <= k < |lines|
  {
    BlankText(lines[k].text, space)
  }

  function MakeParagraph(lines: seq<Line>): Paragraph
    requires lines != []
  {
    Paragraph(lines[0].number, lines[|lines| - 1].number, lines[0].start, lines[|lines| - 1].end, lines)
  }

  predicate Numbered(lines: seq<Line>) { forall k :: 0 <= k < |lines| ==> lines[k].number == k + 1 }

  predicate NoBlank(lines: seq<Line>, from: int, n: int, space: Spacing)
    requires 0 <= from <= n <= |lines|
  {
    forall k {:trigger BlankLine(lines, k, space)} :: from <= k < n ==> !BlankLine(lines, k, space)
  }

  /** The paragraph is the run of lines its line numbers name, none of them blank. */
  predicate ParagraphAt(lines: seq<Line>, p: Paragraph, space: Spacing) {
    && 1 <= p.startLine <= p.endLine <= |lines|
    && p == MakeParagraph(lines[p.startLine - 1..p.endLine])
    && NoBlank(lines, p.startLine - 1, p.endLine, space)
  }

  predicate InSome(ps: seq<Paragraph>, number: nat) {
    exists i :: 0 <= i < |ps| && ps[i].startLine <= number <= ps[i].endLine
  }

  predicate AllParagraphs(lines: seq<Line>, ps: seq<Paragraph>, n: nat, space: Spacing) {
    forall i {:trigger ParagraphAt(lines, ps[i], space)} :: 0 <= i < |ps| ==>
      ParagraphAt(lines, ps[i], space) && ps[i].endLine <= n
  }

  predicate AllInSome(lines: seq<Line>, ps: seq<Paragraph>, n: nat, space: Spacing)
    requires n <= |lines|
  {
    forall k {:trigger BlankLine(lines, k, space)} :: 0 <= k < n && !BlankLine(lines, k, space) ==> InSome(ps, k + 1)
  }

  /** Maximal runs: between two paragraphs there is a blank line, and every line that is not blank is in one. */
  predicate ParagraphsUpTo(lines: seq<Line>, ps: seq<Paragraph>, n: nat, space: Spacing)
    requires n <= |lines|
  {
    && AllParagraphs(lines, ps, n, space)
    && (forall i :: 0 <= i < |ps| - 1 ==> ps[i].endLine + 1 < ps[i + 1].startLine)
    && AllInSome(lines, ps, n, space)
  }

  lemma SkipBlank(lines: seq<Line>, ps: seq<Paragraph>, n: nat, space: Spacing)
    requires n < |lines| && ParagraphsUpTo(lines, ps, n, space) && BlankLine(lines, n, space)
    ensures ParagraphsUpTo(lines, ps, n + 1, space)
  {
    forall i | 0 <= i < |ps| ensures ParagraphAt(lines, ps[i], space) && ps[i].endLine <= n + 1 {
      assert ParagraphAt(lines, ps[i], space);
    }
  }

  lemma RunIsParagraph(lines: seq<Line>, from: nat, n: nat, space: Spacing)
    requires from < n <= |lines| && Numbered(lines) && NoBlank(lines, from, n, space)
    ensures var p := MakeParagraph(lines[from..n]);
            p.startLine == from + 1 && p.endLine == n && ParagraphAt(lines, p, space)
  {
    var run := lines[from..n];
    assert run[0] == lines[from] && run[|run| - 1] == lines[n - 1];
  }

  lemma SomeStays(ps: seq<Paragraph>, p: Paragraph, number: nat)
    requires InSome(ps, number)
    ensures InSome(ps + [p], number)
  {
    var i :| 0 <= i < |ps| && ps[i].startLine <= number <= ps[i].endLine;
    assert (ps + [p])[i] == ps[i];
  }

  lemma OneMoreParagraph(lines: seq<Line>, ps: seq<Paragraph>, from: nat, n: nat, p: Paragraph, space: Spacing)
    requires from <= n && AllParagraphs(lines, ps, from, space) && ParagraphAt(lines, p, space) && p.endLine <= n
    ensures AllParagraphs(lines, ps + [p], n, space)
  {
    var all := ps + [p];
    forall i | 0 <= i < |all| ensures ParagraphAt(lines, all[i], space) && all[i].endLine <= n {
      if i < |ps| { assert all[i] == ps[i] && ParagraphAt(lines, ps[i], space); }
    }
  }

  lemma AddParagraph(lines: seq<Line>, ps: seq<Paragraph>, from: nat, n: nat, p: Paragraph, space: Spacing)
    requires from < n <= |lines| && ParagraphsUpTo(lines, ps, from, space)
    requires ParagraphAt(lines, p, space) && p.startLine == from + 1 && p.endLine == n
    requires ps != [] ==> ps[|ps| - 1].endLine < from
    ensures ParagraphsUpTo(lines, ps + [p], n, space)
  {
    OneMoreParagraph(lines, ps, from, n, p, space);
    CoversMore(lines, ps, from, n, p, space);
  }

  lemma CoversMore(lines: seq<Line>, ps: seq<Paragraph>, from: nat, n: nat, p: Paragraph, space: Spacing)
    requires from < n <= |lines| && AllInSome(lines, ps, from, space) && p.startLine == from + 1 && p.endLine == n
    ensures AllInSome(lines, ps + [p], n, space)
  {
    forall k | 0 <= k < n && !BlankLine(lines, k, space) ensures InSome(ps + [p], k + 1) {
      if k < from { SomeStays(ps, p, k + 1); } else { assert (ps + [p])[|ps|] == p; }
    }
  }

  method BuildParagraphs(lines: seq<Line>, space: Spacing) returns (ps: seq<Paragraph>)
    requires Numbered(lines)
    ensures ParagraphsUpTo(lines, ps, |lines|, space)
  {
    ps := [];
    var current: seq<Line> := [];
    ghost var from: nat := 0;
    var i := 0;
    while i < |lines|
      invariant 0 <= from <= i <= |lines| && current == lines[from..i] && NoBlank(lines, from, i, space)
      invariant ParagraphsUpTo(lines, ps, from, space)
      invariant ps != [] ==> ps[|ps| - 1].endLine < from
    {
      if !BlankLine(lines, i, space) {
        current := current + [lines[i]];
      } else {
        if current != [] {
          RunIsParagraph(lines, from, i, space);
          AddParagraph(lines, ps, from, i, MakeParagraph(current), space);
          ps := ps + [MakeParagraph(current)];
          current := [];
        }
        SkipBlank(lines, ps, i, space);
        from := i + 1;
      }
      i := i + 1;
    }
    if current != [] {
      RunIsParagraph(lines, from, i, space);
      AddParagraph(lines, ps, from, i, MakeParagraph(current), space);
      ps := ps + [MakeParagraph(current)];
    }
  }

  // ---------- where the characters are ----------

  lemma {:induction false} LinesAscend(text: string, lines: seq<Line>, a: nat, b: nat)
    requires LinesOf(text, lines) && a < b < |lines|
    ensures lines[a].end < lines[b].start
  {
    assert LineAt(text, lines[b - 1], b - 1) && Follows(text, lines, b - 1);
    if a < b - 1 { LinesAscend(text, lines, a, b - 1); }
  }

  lemma {:induction false} LineHolding(text: string, lines: seq<Line>, n: nat, i: nat) returns (k: nat)
    requires LinesOf(text, lines) && 0 < n <= |lines| && i < lines[n - 1].end && i < |text| && text[i] != '\n'
    ensures k < n && lines[k].start <= i < lines[k].end
  {
    k := n - 1;
    if i < lines[k].start {
      assert LineAt(text, lines[k], k);
      assert k > 0;
      assert Follows(text, lines, k - 1);
      k := LineHolding(text, lines, n - 1, i);
    }
  }

  function Join(lines: seq<Line>): string
    requires lines != []
    decreases |lines|
  {
    if |lines| == 1 then lines[0].text else Join(lines[..|lines| - 1]) + "\n" + lines[|lines| - 1].text
  }

  lemma JoinRun(lines: seq<Line>, from: nat, n: nat)
    requires from < n <= |lines|
    ensures Join(lines[from..n])
      == if from + 1 == n then lines[from].text else Join(lines[from..n - 1]) + "\n" + lines[n - 1].text
  {
    var run := lines[from..n];
    assert run[|run| - 1] == lines[n - 1];
    if from + 1 < n { assert run[..|run| - 1] == lines[from..n - 1]; }
  }

  /** Joining a run of lines with line breaks gives back the stretch of text from the first to the last. */
  lemma {:induction false} JoinedLinesAreTheText(text: string, lines: seq<Line>, from: nat, n: nat)
    requires LinesOf(text, lines) && from < n <= |lines|
    ensures lines[from].start <= lines[n - 1].end <= |text|
    ensures Join(lines[from..n]) == text[lines[from].start..lines[n - 1].end]
    decreases n
  {
    assert LineAt(text, lines[n - 1], n - 1);
    JoinRun(lines, from, n);
    if from + 1 < n {
      JoinedLinesAreTheText(text, lines, from, n - 1);
      assert Follows(text, lines, n - 2);
      JoinSlices(text, lines[from].start, lines[n - 2].end, lines[n - 1].end);
    }
  }

  lemma JoinSlices(text: string, a: nat, b: nat, c: nat)
    requires a <= b < c + 1 && b + 1 <= c <= |text| && text[b] == '\n'
    ensures text[a..b] + "\n" + text[b + 1..c] == text[a..c]
  {
  }

  predicate InParagraph(ps: seq<Paragraph>, i: nat) {
    exists j :: 0 <= j < |ps| && ps[j].start <= i < ps[j].end
  }

  predicate Bounded(text: string, p: Paragraph, space: Spacing) {
    p.start < p.end <= |text| && !BlankText(text[p.start..p.end], space)
  }

  /** Paragraphs are ordered, separated stretches that hold every character that is not white space. */
  predicate Layout(text: string, ps: seq<Paragraph>, space: Spacing) {
    && (forall j {:trigger Bounded(text, ps[j], space)} :: 0 <= j < |ps| ==> Bounded(text, ps[j], space))
    && (forall j, k :: 0 <= j < k < |ps| ==> ps[j].end < ps[k].start)
    && (forall i :: 0 <= i < |text| && !space(text[i]) ==> InParagraph(ps, i))
  }

  lemma ParagraphIsBounded(text: string, lines: seq<Line>, p: Paragraph, space: Spacing)
    requires LinesOf(text, lines) && ParagraphAt(lines, p, space)
    ensures Bounded(text, p, space) && p.start == lines[p.startLine - 1].start && p.end == lines[p.endLine - 1].end
    ensures p.lines != [] && Join(p.lines) == text[p.start..p.end]
  {
    var k := p.startLine - 1;
    JoinedLinesAreTheText(text, lines, k, p.endLine);
    assert LineAt(text, lines[k], k) && LineAt(text, lines[p.endLine - 1], p.endLine - 1);
    assert !BlankLine(lines, k, space);
    if k < p.endLine - 1 { LinesAscend(text, lines, k, p.endLine - 1); }
    WiderIsNotBlank(text, p.start, lines[k].start, lines[k].end, p.end, space);
  }

  lemma WiderIsNotBlank(text: string, s: nat, a: nat, b: nat, e: nat, space: Spacing)
    requires s <= a <= b <= e <= |text| && !BlankText(text[a..b], space)
    ensures !BlankText(text[s..e], space)
  {
    var i :| 0 <= i < b - a && !space(text[a..b][i]);
    assert text[s..e][a - s + i] == text[a..b][i];
  }

  lemma {:induction false} ParagraphsAscend(lines: seq<Line>, ps: seq<Paragraph>, j: nat, k: nat, space: Spacing)
    requires ParagraphsUpTo(lines, ps, |lines|, space) && j < k < |ps|
    ensures ps[j].endLine < ps[k].startLine
  {
    if j + 1 < k {
      ParagraphsAscend(lines, ps, j, k - 1, space);
      assert ParagraphAt(lines, ps[k - 1], space);
    }
  }

  lemma ParagraphHoldsLine(text: string, lines: seq<Line>, p: Paragraph, k: nat, space: Spacing)
    requires LinesOf(text, lines) && ParagraphAt(lines, p, space) && p.startLine <= k + 1 <= p.endLine
    ensures p.start <= lines[k].start <= lines[k].end <= p.end
  {
    ParagraphIsBounded(text, lines, p, space);
    var a, b := p.startLine - 1, p.endLine - 1;
    assert LineAt(text, lines[a], a) && LineAt(text, lines[k], k) && LineAt(text, lines[b], b);
    if a < k { LinesAscend(text, lines, a, k); }
    if k < b { LinesAscend(text, lines, k, b); }
  }

  lemma InkyLine(text: string, lines: seq<Line>, k: nat, i: nat, space: Spacing)
    requires LinesOf(text, lines) && k < |lines| && lines[k].start <= i < lines[k].end && i < |text| && !space(text[i])
    ensures !BlankLine(lines, k, space)
  {
    assert LineAt(text, lines[k], k);
    assert lines[k].text[i - lines[k].start] == text[i];
  }

  lemma ParagraphHolding(text: string, lines: seq<Line>, ps: seq<Paragraph>, i: nat, space: Spacing)
    requires LinesOf(text, lines) && ParagraphsUpTo(lines, ps, |lines|, space) && space('\n')
    requires i < |text| && !space(text[i])
    ensures InParagraph(ps, i)
  {
    var k := LineHolding(text, lines, |lines|, i);
    InkyLine(text, lines, k, i, space);
    assert InSome(ps, k + 1);
    var j :| 0 <= j < |ps| && ps[j].startLine <= k + 1 <= ps[j].endLine;
    assert ParagraphAt(lines, ps[j], space);
    ParagraphHoldsLine(text, lines, ps[j], k, space);
  }

  lemma ParagraphsLayOutTheText(text: string, lines: seq<Line>, ps: seq<Paragraph>, space: Spacing)
    requires LinesOf(text, lines) && ParagraphsUpTo(lines, ps, |lines|, space) && space('\n')
    ensures Layout(text, ps, space)
  {
    forall j | 0 <= j < |ps| ensures Bounded(text, ps[j], space) {
      assert ParagraphAt(lines, ps[j], space);
      ParagraphIsBounded(text, lines, ps[j], space);
    }
    forall j, k | 0 <= j < k < |ps| ensures ps[j].end < ps[k].start {
      assert ParagraphAt(lines, ps[j], space) && ParagraphAt(lines, ps[k], space);
      ParagraphIsBounded(text, lines, ps[j], space);
      ParagraphIsBounded(text, lines, ps[k], space);
      ParagraphsAscend(lines, ps, j, k, space);
      LinesAscend(text, lines, ps[j].endLine - 1, ps[k].startLine - 1);
    }
    forall i | 0 <= i < |text| && !space(text[i]) ensures InParagraph(ps, i) {
      ParagraphHolding(text, lines, ps, i, space);
    }
  }

  lemma MissesGap(ps: seq<Paragraph>, j: nat, i: nat, m: nat)
    requires j + 1 < |ps| && (forall a, b :: 0 <= a < b < |ps| ==> ps[a].end < ps[b].start)
    requires m < |ps| && ps[m].start <= i < ps[m].end
    requires forall k :: 0 <= k < |ps| ==> ps[k].start < ps[k].end
    ensures i < ps[j].end || ps[j + 1].start <= i
  {
  }

  lemma GapIsBlank(text: string, ps: seq<Paragraph>, j: nat, i: nat, space: Spacing)
    requires Layout(text, ps, space) && j + 1 < |ps| && ps[j].end <= i < ps[j + 1].start && i < |text|
    ensures space(text[i])
  {
    forall k | 0 <= k < |ps| ensures ps[k].start < ps[k].end { assert Bounded(text, ps[k], space); }
    forall m | 0 <= m < |ps| ensures !(ps[m].start <= i < ps[m].end) {
      if ps[m].start <= i < ps[m].end { MissesGap(ps, j, i, m); }
    }
  }

  /** The text between two paragraphs is blank exactly when no paragraph lies between them. */
  lemma BlankBetween(text: string, ps: seq<Paragraph>, j: nat, k: nat, space: Spacing)
    requires Layout(text, ps, space) && j < k < |ps|
    ensures 0 <= ps[j].end <= ps[k].start <= |text|
    ensures BlankText(text[ps[j].end..ps[k].start], space) <==> k == j + 1
  {
    assert Bounded(text, ps[j], space) && Bounded(text, ps[k], space);
    var between := text[ps[j].end..ps[k].start];
    if k == j + 1 {
      forall i | 0 <= i < |between| ensures space(between[i]) {
        GapIsBlank(text, ps, j, ps[j].end + i, space);
      }
    } else {
      var p := ps[j + 1];
      assert Bounded(text, p, space);
      WiderIsNotBlank(text, ps[j].end, p.start, p.end, ps[k].start, space);
    }
  }
}
