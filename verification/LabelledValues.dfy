/**
 Candidates for masking: the values that follow a name on its line, and the matches of the patterns.
 What a pattern matches inside a value, and what counts as white space, are parameters.
*/
module LabelledValues {
  import opened Options
  import opened MaskTokens
  import opened SpanResolution
  import opened Sorting
  import opened Substrings

  type Spacing = char -> bool

  datatype Span = Span(start: nat, end: nat)

  type Pattern = string -> Option<Span>

  /** A regular expression's first match in a value; a match lies inside the value it was found in. */
  function Search(pattern: Pattern, value: string): (m: Option<Span>)
    ensures m.Some? ==> m.value.start <= m.value.end <= |value|
  {
    var m := pattern(value);
    if m.Some? && m.value.start <= m.value.end <= |value| then m else None
  }

  // ---------- lines ----------

  /** The characters at which str.splitlines ends a line; normalised text has no carriage return. */
  predicate EndsLine(c: char) {
    c == '\n' || c == 11 as char || c == 12 as char || 28 as char <= c <= 30 as char || c == 0x85 as char
    || c == 0x2028 as char || c == 0x2029 as char
  }

  /** The end of the line that holds position `i`, its line end included. */
  function KeptEnd(text: string, i: nat): (end: nat)
    requires i <= |text|
    ensures i <= end <= |text| && (i < |text| ==> i < end)
    decreases |text| - i
  {
    if i == |text| then i else if EndsLine(text[i]) then i + 1 else KeptEnd(text, i + 1)
  }

  /** `text.splitlines(keepends=True)`, from `offset` on */
  function KeptLines(text: string, offset: nat): seq<string>
    requires offset <= |text|
    decreases |text| - offset
  {
    if offset == |text| then [] else [text[offset..KeptEnd(text, offset)]] + KeptLines(text, KeptEnd(text, offset))
  }

  datatype LineSpan = LineSpan(number: nat, start: nat, end: nat, body: string)

  predicate LineFits(text: string, line: LineSpan) {
    line.start <= line.end <= |text| && |line.body| == line.end - line.start
  }

  predicate LinesFit(text: string, lines: seq<LineSpan>) {
    forall k {:trigger lines[k]} :: 0 <= k < |lines| ==> LineFits(text, lines[k])
  }

  /** Where line `k` starts: after everything before it. */
  function Start(lines: seq<string>, k: nat): nat
    requires k <= |lines|
  {
    if k == 0 then 0 else Start(lines, k - 1) + |lines[k - 1]|
  }

  function BodyOf(line: string): (body: string)
    ensures |line| - 1 <= |body| <= |line| && body == line[..|body|]
    ensures |body| < |line| ==> line[|body|] == '\n'
  {
    if line != "" && line[|line| - 1] == '\n' then line[..|line| - 1] else line
  }

  function SpanAt(lines: seq<string>, k: nat): LineSpan
    requires k < |lines|
  {
    LineSpan(k + 1, Start(lines, k), Start(lines, k) + |BodyOf(lines[k])|, BodyOf(lines[k]))
  }

  function SpansOf(lines: seq<string>, n: nat): (spans: seq<LineSpan>)
    requires n <= |lines|
    ensures |spans| == n
  {
    seq(n, k requires 0 <= k < n => SpanAt(lines, k))
  }

  function LineSpans(text: string): seq<LineSpan> {
    if text == "" then [LineSpan(1, 0, 0, "")] else SpansOf(KeptLines(text, 0), |KeptLines(text, 0)|)
  }

  lemma SpanIs(lines: seq<string>, n: nat, k: nat)
    requires k < n <= |lines|
    ensures SpansOf(lines, n)[k] == SpanAt(lines, k)
  {
  }

  lemma SpansGrow(lines: seq<string>, n: nat)
    requires n < |lines|
    ensures SpansOf(lines, n + 1) == SpansOf(lines, n) + [SpanAt(lines, n)]
  {
    var more := SpansOf(lines, n) + [SpanAt(lines, n)];
    forall k | 0 <= k < n + 1 ensures SpansOf(lines, n + 1)[k] == more[k] {
      SpanIs(lines, n + 1, k);
      if k < n { SpanIs(lines, n, k); }
    }
  }

  lemma {:induction false} StartAfterFirst(lines: seq<string>, k: nat)
    requires 0 < k <= |lines|
    ensures Start(lines, k) == |lines[0]| + Start(lines[1..], k - 1)
  {
    if k > 1 { StartAfterFirst(lines, k - 1); }
  }

  /** The kept lines are the text, piece by piece. */
  lemma {:induction false} KeptLineIs(text: string, offset: nat, k: nat)
    requires offset <= |text| && k < |KeptLines(text, offset)|
    ensures var lines := KeptLines(text, offset); var at := offset + Start(lines, k);
      at + |lines[k]| <= |text| && lines[k] == text[at..at + |lines[k]|]
    decreases k
  {
    if k > 0 {
      KeptLineIs(text, KeptEnd(text, offset), k - 1);
      StartAfterFirst(KeptLines(text, offset), k);
    }
  }

  /** Every line's body is the text at its offsets. */
  lemma SpanIsTheText(text: string, k: nat)
    requires k < |KeptLines(text, 0)|
    ensures var s := SpanAt(KeptLines(text, 0), k); LineFits(text, s) && s.body == text[s.start..s.end]
  {
    KeptLineIs(text, 0, k);
    var line := KeptLines(text, 0)[k];
    var at := Start(KeptLines(text, 0), k);
    CutSlice(text, at, at + |line|, |BodyOf(line)|);
  }

  lemma CutSlice(text: string, a: nat, b: nat, n: nat)
    requires a <= a + n <= b <= |text|
    ensures text[a..b][..n] == text[a..a + n]
  {
  }

  lemma LineSpansFit(text: string)
    ensures LinesFit(text, LineSpans(text))
  {
    var lines := KeptLines(text, 0);
    if text != "" {
      forall k | 0 <= k < |lines| ensures LineFits(text, LineSpans(text)[k]) {
        SpanIs(lines, |lines|, k);
        SpanIsTheText(text, k);
      }
    }
  }

  /** No character but a line feed falls between the lines. */
  lemma LineSpansCover(text: string, i: nat) returns (k: nat)
    requires i < |text| && text[i] != '\n'
    ensures k < |KeptLines(text, 0)| && SpanAt(KeptLines(text, 0), k).start <= i < SpanAt(KeptLines(text, 0), k).end
  {
    k := LineHolding(text, 0, i);
    KeptLineIs(text, 0, k);
    var line := KeptLines(text, 0)[k];
    var at := Start(KeptLines(text, 0), k);
    assert line[i - at] == text[i];
  }

  lemma {:induction false} LineHolding(text: string, offset: nat, i: nat) returns (k: nat)
    requires offset <= i < |text|
    ensures var lines := KeptLines(text, offset);
      k < |lines| && offset + Start(lines, k) <= i < offset + Start(lines, k) + |lines[k]|
    decreases |text| - offset
  {
    var end := KeptEnd(text, offset);
    if i < end {
      k := 0;
    } else {
      k := LineHolding(text, end, i);
      k := k + 1;
      StartAfterFirst(KeptLines(text, offset), k);
    }
  }

  method BuildLineSpans(text: string) returns (spans: seq<LineSpan>)
    ensures spans == LineSpans(text) && LinesFit(text, spans)
  {
    spans := [];
    var offset := 0;
    var lines := KeptLines(text, 0);
    for k := 0 to |lines|
      invariant offset == Start(lines, k) && spans == SpansOf(lines, k)
    {
      SpansGrow(lines, k);
      var line := lines[k];
      var body := BodyOf(line);
      spans := spans + [LineSpan(k + 1, offset, offset + |body|, body)];
      offset := offset + |line|;
    }
    LineSpansFit(text);
    if text == "" {
      spans := spans + [LineSpan(1, 0, 0, "")];
    }
  }

  // ---------- the value after a label ----------

  /** What decides where a value ends and whether it is a candidate; `isToken` says what MASK_TOKEN_RE matches. */
  datatype Rules = Rules(pattern: Option<Pattern>, boundaries: seq<string>, space: Spacing, isToken: string -> bool)

  function ValueEnd(line: string, from: nat, boundaries: seq<string>): (end: nat)
    requires from <= |line|
    ensures from <= end <= |line|
  {
    if boundaries == [] then |line|
    else
      var rest := ValueEnd(line, from, boundaries[..|boundaries| - 1]);
      match Find(line, boundaries[|boundaries| - 1], from)
      case Some(p) => Min(rest, p)
      case None => rest
  }

  /** The value ends where the next boundary label begins, and no such label begins before that. */
  lemma {:induction false} ValueEndsAtNextLabel(line: string, from: nat, boundaries: seq<string>, k: nat, p: nat)
    requires from <= |line| && k < |boundaries|
    ensures from <= p < ValueEnd(line, from, boundaries) ==> !OccursAt(line, boundaries[k], p)
    ensures ValueEnd(line, from, boundaries) < |line| ==>
      exists i :: 0 <= i < |boundaries| && OccursAt(line, boundaries[i], ValueEnd(line, from, boundaries))
  {
    var n := |boundaries| - 1;
    var found := Find(line, boundaries[n], from);
    if found.Some? { FindOccurs(line, boundaries[n], from); }
    if from <= p && OccursAt(line, boundaries[n], p) { FindIsFirst(line, boundaries[n], from, p); }
    if n > 0 {
      ValueEndsAtNextLabel(line, from, boundaries[..n], if k < n then k else 0, p);
      assert forall i {:trigger boundaries[i]} :: 0 <= i < n ==> boundaries[..n][i] == boundaries[i];
    }
  }

  method ValueEndBeforeNextLabel(line: string, from: nat, boundaries: seq<string>) returns (end: nat)
    requires from <= |line|
    ensures end == ValueEnd(line, from, boundaries)
  {
    end := |line|;
    for k := 0 to |boundaries|
      invariant end == ValueEnd(line, from, boundaries[..k])
    {
      assert boundaries[..k + 1][..k] == boundaries[..k];
      var pos := Find(line, boundaries[k], from);
      if pos.Some? {
        end := Min(end, pos.value);
      }
    }
    assert boundaries[..|boundaries|] == boundaries;
  }

  /** The stretch without white space at either end; empty if there is nothing else. */
  predicate Trimmed(text: string, start: nat, end: nat, space: Spacing, s: Span) {
    && start <= s.start <= s.end <= end <= |text|
    && (forall i :: start <= i < s.start ==> space(text[i]))
    && (forall i :: s.end <= i < end ==> space(text[i]))
    && (s.start < s.end ==> !space(text[s.start]) && !space(text[s.end - 1]))
  }

  function Trim(text: string, start: nat, end: nat, space: Spacing): (s: Span)
    requires start <= end <= |text|
    ensures start <= s.start <= s.end <= end
    decreases end - start
  {
    if start < end && space(text[start]) then Trim(text, start + 1, end, space)
    else if start < end && space(text[end - 1]) then Trim(text, start, end - 1, space)
    else Span(start, end)
  }

  lemma {:induction false} TrimTrims(text: string, start: nat, end: nat, space: Spacing)
    requires start <= end <= |text|
    ensures Trimmed(text, start, end, space, Trim(text, start, end, space))
    decreases end - start
  {
    if start < end && space(text[start]) { TrimTrims(text, start + 1, end, space); }
    else if start < end && space(text[end - 1]) { TrimTrims(text, start, end - 1, space); }
  }

  method TrimSpan(text: string, start: nat, end: nat, space: Spacing) returns (s: Span)
    requires start <= end <= |text|
    ensures s == Trim(text, start, end, space) && Trimmed(text, start, end, space, s)
  {
    var a, b := start, end;
    while a < b && space(text[a])
      invariant start <= a <= b == end && Trim(text, start, end, space) == Trim(text, a, b, space)
    {
      a := a + 1;
    }
    while b > a && space(text[b - 1])
      invariant a <= b <= end && Trim(text, start, end, space) == Trim(text, a, b, space)
      invariant a < b ==> !space(text[a])
    {
      b := b - 1;
    }
    s := Span(a, b);
    TrimTrims(text, start, end, space);
  }

  /** What the rules make of a trimmed stretch. */
  function Picked(text: string, s: Span, rules: Rules): (o: Option<Span>)
    requires s.start <= s.end <= |text|
    ensures o.Some? ==> s.start <= o.value.start < o.value.end <= s.end
  {
    var value := text[s.start..s.end];
    var found :=
      match rules.pattern
      case Some(pattern) =>
        (match Search(pattern, value)
         case Some(m) => Some(Span(s.start + m.start, s.start + m.end))
         case None => None)
      case None => if rules.isToken(value) then None else Some(s);
    if found.Some? && found.value.start < found.value.end then found else None
  }

  /** The span a label that ends at `from` in the line makes a candidate of, if any. */
  function ValueAfter(text: string, line: LineSpan, from: nat, rules: Rules): Option<Span>
    requires LineFits(text, line) && from <= |line.body|
  {
    var end := line.start + ValueEnd(line.body, from, rules.boundaries);
    Picked(text, Trim(text, line.start + from, end, rules.space), rules)
  }

  /** A candidate is not empty, comes after its label, and ends before the next boundary label on the line; without a
      pattern it is trimmed and is not itself a mask token. */
  lemma ValueMeans(text: string, line: LineSpan, from: nat, rules: Rules, k: nat, q: nat)
    requires LineFits(text, line) && from <= |line.body| && ValueAfter(text, line, from, rules).Some?
    requires k < |rules.boundaries|
    ensures var s := ValueAfter(text, line, from, rules).value;
      && line.start + from <= s.start < s.end <= line.end <= |text|
      && (from <= q < s.end - line.start ==> !OccursAt(line.body, rules.boundaries[k], q))
      && (rules.pattern.None? ==>
            !rules.isToken(text[s.start..s.end]) && !rules.space(text[s.start]) && !rules.space(text[s.end - 1]))
  {
    ValueEndsAtNextLabel(line.body, from, rules.boundaries, k, q);
    TrimTrims(text, line.start + from, line.start + ValueEnd(line.body, from, rules.boundaries), rules.space);
  }

  /** Where the value of a label that ends at `from` ends: at the first boundary label after it, or with the line. */
  ghost predicate EndsValue(line: string, from: nat, boundaries: seq<string>, end: nat) {
    && from <= end <= |line|
    && (forall k, p :: 0 <= k < |boundaries| && from <= p < end ==> !OccursAt(line, boundaries[k], p))
    && (end < |line| ==> exists k :: 0 <= k < |boundaries| && OccursAt(line, boundaries[k], end))
  }

  lemma {:induction false} ValueEndEnds(line: string, from: nat, boundaries: seq<string>)
    requires from <= |line|
    ensures EndsValue(line, from, boundaries, ValueEnd(line, from, boundaries))
  {
    var end := ValueEnd(line, from, boundaries);
    forall k, p | 0 <= k < |boundaries| && from <= p < end ensures !OccursAt(line, boundaries[k], p) {
      ValueEndsAtNextLabel(line, from, boundaries, k, p);
    }
    if boundaries != [] { ValueEndsAtNextLabel(line, from, boundaries, 0, 0); }
  }

  /** The value of a label: the trimmed stretch up to the next boundary label or the end of the line; or, with a
      pattern, its first match in that stretch.  It is a candidate unless it is empty or, without a pattern, a mask
      token. */
  lemma ValueAfterIs(text: string, line: LineSpan, from: nat, rules: Rules) returns (end: nat, stretch: Span)
    requires LineFits(text, line) && from <= |line.body|
    ensures EndsValue(line.body, from, rules.boundaries, end) && line.start + end <= |text|
    ensures Trimmed(text, line.start + from, line.start + end, rules.space, stretch)
    ensures var value := text[stretch.start..stretch.end];
      match rules.pattern
      case None =>
        ValueAfter(text, line, from, rules)
          == if stretch.start < stretch.end && !rules.isToken(value) then Some(stretch) else None
      case Some(pattern) =>
        match Search(pattern, value)
        case None => ValueAfter(text, line, from, rules) == None
        case Some(m) =>
          ValueAfter(text, line, from, rules)
            == if m.start < m.end then Some(Span(stretch.start + m.start, stretch.start + m.end)) else None
  {
    end := ValueEnd(line.body, from, rules.boundaries);
    stretch := Trim(text, line.start + from, line.start + end, rules.space);
    ValueEndEnds(line.body, from, rules.boundaries);
    TrimTrims(text, line.start + from, line.start + end, rules.space);
  }

  // ---------- scanning a line for a label ----------

  /** The label cannot overlap itself. */
  predicate Borderless(name: string) {
    forall d {:trigger name[d..]} :: 0 < d < |name| ==> name[d..] != name[..|name| - d]
  }

  lemma OverlapIsBorder(s: string, name: string, p: nat, q: nat)
    requires OccursAt(s, name, p) && OccursAt(s, name, q) && p < q < p + |name|
    ensures name[q - p..] == name[..|name| - (q - p)]
  {
    var d := q - p;
    assert s[p..p + |name|][d..] == s[q..p + |name|];
    assert s[q..q + |name|][..|name| - d] == s[q..p + |name|];
  }

  /** A label with one colon, at its end, cannot overlap itself. */
  lemma ColonEndedIsBorderless(name: string)
    requires name != "" && name[|name| - 1] == ':' && forall i :: 0 <= i < |name| - 1 ==> name[i] != ':'
    ensures Borderless(name)
  {
    forall d | 0 < d < |name| ensures name[d..] != name[..|name| - d] {
      assert name[d..][|name| - d - 1] == ':' != name[..|name| - d][|name| - d - 1];
    }
  }

  function Listed(o: Option<Span>): seq<Span> { if o.Some? then [o.value] else [] }

  /** What follows a label that ends at a given place of a line, as a function of that place. */
  type Reader = nat -> Option<Span>

  function ReaderOf(text: string, line: LineSpan, rules: Rules): Reader
    requires LineFits(text, line)
  {
    (end: nat) => if end <= |line.body| then ValueAfter(text, line, end, rules) else None
  }

  /** Where the next occurrence of a label at or after a place ends, as a function of that place. */
  type Finder = nat -> Option<nat>

  function FinderOf(line: string, name: string): Finder {
    (from: nat) => match Find(line, name, from) case None => None case Some(p) => Some(p + |name|)
  }

  /** The values after the next occurrence, then after the next one from its end on, and so on. */
  function ScanFrom(find: Finder, read: Reader, limit: nat, from: nat): seq<Span>
    decreases limit - from
  {
    match find(from)
    case None => []
    case Some(end) => if from < end <= limit then Listed(read(end)) + ScanFrom(find, read, limit, end) else []
  }

  function LabelSpans(line: string, name: string, read: Reader): seq<Span> {
    ScanFrom(FinderOf(line, name), read, |line|, 0)
  }

  predicate ValueOf(line: string, name: string, p: nat, read: Reader, s: Span) {
    OccursAt(line, name, p) && read(p + |name|) == Some(s)
  }

  lemma FinderFinds(line: string, name: string, from: nat)
    requires name != ""
    ensures match FinderOf(line, name)(from)
      case None => true
      case Some(end) => from < end <= |line| && OccursAt(line, name, end - |name|)
  {
    if Find(line, name, from).Some? { FindOccurs(line, name, from); }
  }

  /** From before an occurrence the finder stops there, or earlier without passing it. */
  lemma FinderReaches(line: string, name: string, from: nat, p: nat)
    requires name != "" && Borderless(name) && from <= p && OccursAt(line, name, p)
    ensures var end := FinderOf(line, name)(from);
      end.Some? && (end.value == p + |name| || end.value <= p)
  {
    FindIsFirst(line, name, from, p);
    FindOccurs(line, name, from);
    var q := Find(line, name, from).value;
    if q < p < q + |name| { OverlapIsBorder(line, name, q, p); }
  }

  lemma {:induction false} ScanIsSound(
    line: string, name: string, find: Finder, read: Reader, from: nat, s: Span)
    returns (p: nat)
    requires name != "" && find == FinderOf(line, name) && s in ScanFrom(find, read, |line|, from)
    ensures ValueOf(line, name, p, read, s)
    decreases |line| - from
  {
    FinderFinds(line, name, from);
    var end := find(from).value;
    p := end - |name|;
    if read(end) != Some(s) {
      p := ScanIsSound(line, name, find, read, end, s);
    }
  }

  /** The scan misses no occurrence of a label that cannot overlap itself. */
  lemma {:induction false} ScanIsComplete(
    line: string, name: string, find: Finder, read: Reader, from: nat, s: Span, p: nat)
    requires name != "" && Borderless(name) && find == FinderOf(line, name)
    requires from <= p && ValueOf(line, name, p, read, s)
    ensures s in ScanFrom(find, read, |line|, from)
    decreases |line| - from
  {
    FinderReaches(line, name, from, p);
    FinderFinds(line, name, from);
    var end := find(from).value;
    if end != p + |name| {
      ScanIsComplete(line, name, find, read, end, s, p);
    }
  }

  /** The candidates of a label on a line are the values of its occurrences there, every one of them. */
  lemma ScanFindsAll(line: string, name: string, read: Reader, s: Span)
    requires name != "" && Borderless(name)
    ensures s in LabelSpans(line, name, read) <==> exists p: nat :: ValueOf(line, name, p, read, s)
  {
    var find := FinderOf(line, name);
    if s in LabelSpans(line, name, read) { var _ := ScanIsSound(line, name, find, read, 0, s); }
    if p: nat :| ValueOf(line, name, p, read, s) { ScanIsComplete(line, name, find, read, 0, s, p); }
  }

  // ---------- all labels on all lines ----------

  function Flatten(ss: seq<seq<Span>>, n: nat): seq<Span>
    requires n <= |ss|
  {
    if n == 0 then [] else Flatten(ss, n - 1) + ss[n - 1]
  }

  lemma {:induction false} FlattenAre(ss: seq<seq<Span>>, n: nat, s: Span)
    requires n <= |ss|
    ensures s in Flatten(ss, n) <==> exists k :: 0 <= k < n && s in ss[k]
  {
    if n > 0 { FlattenAre(ss, n - 1, s); }
  }

  predicate Named(labels: seq<string>) { forall k {:trigger labels[k]} :: 0 <= k < |labels| ==> labels[k] != "" }

  function PerLabel(line: string, labels: seq<string>, read: Reader): (ss: seq<seq<Span>>)
    requires Named(labels)
    ensures |ss| == |labels| &&
      forall k {:trigger ss[k]} :: 0 <= k < |labels| ==> ss[k] == LabelSpans(line, labels[k], read)
  {
    seq(|labels|, k requires 0 <= k < |labels| => LabelSpans(line, labels[k], read))
  }

  function LineValues(line: string, labels: seq<string>, read: Reader): seq<Span>
    requires Named(labels)
  {
    Flatten(PerLabel(line, labels, read), |labels|)
  }

  function PerLine(text: string, lines: seq<LineSpan>, labels: seq<string>, rules: Rules): (ss: seq<seq<Span>>)
    requires LinesFit(text, lines) && Named(labels)
    ensures |ss| == |lines|
    ensures forall i {:trigger ss[i]} :: 0 <= i < |lines| ==>
      ss[i] == LineValues(lines[i].body, labels, ReaderOf(text, lines[i], rules))
  {
    seq(|lines|, i requires 0 <= i < |lines| => LineValues(lines[i].body, labels, ReaderOf(text, lines[i], rules)))
  }

  function AllValues(text: string, lines: seq<LineSpan>, labels: seq<string>, rules: Rules): seq<Span>
    requires LinesFit(text, lines) && Named(labels)
  {
    Flatten(PerLine(text, lines, labels, rules), |lines|)
  }

  predicate AllBorderless(labels: seq<string>) {
    forall k {:trigger labels[k]} :: 0 <= k < |labels| ==> Borderless(labels[k])
  }

  /** Some label stands on the line with this value. */
  ghost predicate Labelled(line: string, labels: seq<string>, read: Reader, s: Span) {
    exists name :: name in labels && Labels(line, name, read, s)
  }

  ghost predicate Labels(line: string, name: string, read: Reader, s: Span) {
    exists p: nat :: ValueOf(line, name, p, read, s)
  }

  lemma LineValuesAre(line: string, labels: seq<string>, read: Reader, s: Span)
    requires Named(labels) && AllBorderless(labels)
    ensures s in LineValues(line, labels, read) <==> Labelled(line, labels, read, s)
  {
    var ss := PerLabel(line, labels, read);
    FlattenAre(ss, |labels|, s);
    forall k | 0 <= k < |labels| ensures s in ss[k] <==> Labels(line, labels[k], read, s) {
      ScanFindsAll(line, labels[k], read, s);
    }
    if Labelled(line, labels, read, s) {
      var name :| name in labels && Labels(line, name, read, s);
      var k :| 0 <= k < |labels| && labels[k] == name;
    }
  }

  /** The loops find exactly the values the labels have: a span is a candidate if and only if, on some line, it is the
      value of some occurrence of some label. */
  lemma LabelledValuesAre(text: string, lines: seq<LineSpan>, labels: seq<string>, rules: Rules, s: Span)
    requires LinesFit(text, lines) && Named(labels) && AllBorderless(labels)
    ensures s in AllValues(text, lines, labels, rules)
      <==> exists i :: 0 <= i < |lines| && Labelled(lines[i].body, labels, ReaderOf(text, lines[i], rules), s)
  {
    var ss := PerLine(text, lines, labels, rules);
    FlattenAre(ss, |lines|, s);
    forall i | 0 <= i < |lines|
      ensures s in ss[i] <==> Labelled(lines[i].body, labels, ReaderOf(text, lines[i], rules), s) {
      LineValuesAre(lines[i].body, labels, ReaderOf(text, lines[i], rules), s);
    }
  }

  // ---------- the operations ----------

  /** The spans as candidates, numbered in the order they were found. */
  function Numbered(spans: seq<Span>, entityType: EntityType, order: int): (cs: seq<Candidate>)
    ensures |cs| == |spans|
    ensures forall k :: 0 <= k < |cs| ==> cs[k] == Candidate(spans[k].start, spans[k].end, entityType, order + k)
  {
    seq(|spans|, k requires 0 <= k < |spans| => Candidate(spans[k].start, spans[k].end, entityType, order + k))
  }

  lemma NumberedAppend(a: seq<Span>, b: seq<Span>, t: EntityType, order: int)
    ensures Numbered(a + b, t, order) == Numbered(a, t, order) + Numbered(b, t, order + |a|)
  {
  }

  method Pick(text: string, stretch: Span, rules: Rules) returns (o: Option<Span>)
    requires stretch.start <= stretch.end <= |text|
    ensures o == Picked(text, stretch, rules)
  {
    var s := stretch;
    var value := text[s.start..s.end];
    if rules.pattern.Some? {
      var m := Search(rules.pattern.value, value);
      if m.None? {
        return None;
      }
      s := Span(s.start + m.value.start, s.start + m.value.end);
    } else if rules.isToken(value) {
      return None;
    }
    return if s.start < s.end then Some(s) else None;
  }

  method ReadValue(text: string, line: LineSpan, from: nat, rules: Rules) returns (o: Option<Span>)
    requires LineFits(text, line) && from <= |line.body|
    ensures o == ValueAfter(text, line, from, rules)
  {
    var end := ValueEndBeforeNextLabel(line.body, from, rules.boundaries);
    var s := TrimSpan(text, line.start + from, line.start + end, rules.space);
    o := Pick(text, s, rules);
  }

  /** What one reading adds to the candidates, and the next order. */
  function Taken(cs: seq<Candidate>, o: Option<Span>, t: EntityType, next: int): seq<Candidate> {
    if o.Some? then cs + [Candidate(o.value.start, o.value.end, t, next)] else cs
  }

  function After(o: Option<Span>, next: int): int { if o.Some? then next + 1 else next }

  /** The candidates of the scan from `from` on. */
  function CandidatesFrom(find: Finder, read: Reader, limit: nat, from: nat, t: EntityType, next: int): seq<Candidate>
    decreases limit - from
  {
    match find(from)
    case None => []
    case Some(end) =>
      if from < end <= limit
      then Taken([], read(end), t, next) + CandidatesFrom(find, read, limit, end, t, After(read(end), next))
      else []
  }

  lemma NumberedFirst(o: Option<Span>, rest: seq<Span>, t: EntityType, next: int)
    ensures Numbered(Listed(o) + rest, t, next) == Taken([], o, t, next) + Numbered(rest, t, After(o, next))
  {
    NumberedAppend(Listed(o), rest, t, next);
  }

  lemma {:induction false} CandidatesAreNumbered(
    find: Finder, read: Reader, limit: nat, from: nat, t: EntityType, next: int)
    ensures CandidatesFrom(find, read, limit, from, t, next) == Numbered(ScanFrom(find, read, limit, from), t, next)
    decreases limit - from
  {
    var found := find(from);
    if found.Some? && from < found.value <= limit {
      var end := found.value;
      CandidatesAreNumbered(find, read, limit, end, t, After(read(end), next));
      NumberedFirst(read(end), ScanFrom(find, read, limit, end), t, next);
    }
  }

  /** The candidates taken so far and those still to come are all of them. */
  predicate Scanned(
    find: Finder, read: Reader, limit: nat, t: EntityType, order: int, cs: seq<Candidate>, from: nat, next: int) {
    && next == order + |cs|
    && CandidatesFrom(find, read, limit, 0, t, order) == cs + CandidatesFrom(find, read, limit, from, t, next)
  }

  lemma ScanTurn(
    find: Finder, read: Reader, limit: nat, t: EntityType, order: int, cs: seq<Candidate>, from: nat, next: int,
    end: nat)
    requires Scanned(find, read, limit, t, order, cs, from, next)
    requires find(from) == Some(end) && from < end <= limit
    ensures Scanned(find, read, limit, t, order, Taken(cs, read(end), t, next), end, After(read(end), next))
  {
  }

  lemma ScanEnd(
    find: Finder, read: Reader, limit: nat, t: EntityType, order: int, cs: seq<Candidate>, from: nat, next: int)
    requires Scanned(find, read, limit, t, order, cs, from, next) && find(from) == None
    ensures cs == Numbered(ScanFrom(find, read, limit, 0), t, order) && next == order + |cs|
  {
    CandidatesAreNumbered(find, read, limit, 0, t, order);
  }

  method FindEnd(line: string, name: string, from: nat, ghost find: Finder) returns (end: Option<nat>)
    requires name != "" && find == FinderOf(line, name)
    ensures end == find(from) && (end.Some? ==> from < end.value <= |line|)
  {
    FinderFinds(line, name, from);
    var pos := Find(line, name, from);
    end := if pos.Some? then Some(pos.value + |name|) else None;
  }

  lemma ReaderReads(text: string, line: LineSpan, rules: Rules, end: nat)
    requires LineFits(text, line) && end <= |line.body|
    ensures ReaderOf(text, line, rules)(end) == ValueAfter(text, line, end, rules)
  {
  }

  method ReadWith(text: string, line: LineSpan, end: nat, rules: Rules, ghost read: Reader) returns (o: Option<Span>)
    requires LineFits(text, line) && end <= |line.body| && read == ReaderOf(text, line, rules)
    ensures o == read(end)
  {
    ReaderReads(text, line, rules, end);
    o := ReadValue(text, line, end, rules);
  }

  /** Appends the value that follows a label, if it is a candidate. */
  method TakeValue(
    text: string, line: LineSpan, end: nat, rules: Rules, entityType: EntityType, cs: seq<Candidate>, next: int,
    ghost read: Reader)
    returns (more: seq<Candidate>, after: int)
    requires LineFits(text, line) && end <= |line.body| && read == ReaderOf(text, line, rules)
    ensures more == Taken(cs, read(end), entityType, next) && after == After(read(end), next)
  {
    more, after := cs, next;
    var value := ReadWith(text, line, end, rules, read);
    if value.Some? {
      more := more + [Candidate(value.value.start, value.value.end, entityType, after)];
      after := after + 1;
    }
  }

  /** The values after a label on one line. */
  method LabelCandidates(text: string, line: LineSpan, name: string, rules: Rules, entityType: EntityType, order: int,
                         ghost find: Finder, ghost read: Reader)
    returns (cs: seq<Candidate>, next: int)
    requires LineFits(text, line) && name != "" && find == FinderOf(line.body, name)
    requires read == ReaderOf(text, line, rules)
    ensures cs == Numbered(ScanFrom(find, read, |line.body|, 0), entityType, order) && next == order + |cs|
  {
    ghost var limit := |line.body|;
    cs, next := [], order;
    var searchFrom: nat := 0;
    while true
      invariant searchFrom <= limit && Scanned(find, read, limit, entityType, order, cs, searchFrom, next)
      decreases |line.body| - searchFrom
    {
      var valueStart := FindEnd(line.body, name, searchFrom, find);
      if valueStart.None? {
        break;
      }
      ScanTurn(find, read, limit, entityType, order, cs, searchFrom, next, valueStart.value);
      cs, next := TakeValue(text, line, valueStart.value, rules, entityType, cs, next, read);
      searchFrom := valueStart.value;
    }
    ScanEnd(find, read, limit, entityType, order, cs, searchFrom, next);
  }

  predicate LongerFirst(a: string, b: string) { |a| >= |b| }

  lemma SortedLabels(labels: seq<string>)
    requires Named(labels)
    ensures Named(Sort(labels, LongerFirst)) && forall name :: name in Sort(labels, LongerFirst) <==> name in labels
  {
    assert TotalPreorder(LongerFirst);
    SortSorts(labels, LongerFirst);
    var sorted := Sort(labels, LongerFirst);
    forall k | 0 <= k < |sorted| ensures sorted[k] != "" { assert sorted[k] in labels; }
  }

  /** The candidates of the k-th label after those of the labels before it. */
  method NextLabel(
    text: string, line: LineSpan, labels: seq<string>, k: nat, rules: Rules, entityType: EntityType,
    done: seq<Candidate>, order: int, ghost read: Reader, ghost ss: seq<seq<Span>>)
    returns (cs: seq<Candidate>)
    requires LineFits(text, line) && Named(labels) && read == ReaderOf(text, line, rules)
    requires k < |labels| && ss == PerLabel(line.body, labels, read)
    requires done == Numbered(Flatten(ss, k), entityType, order)
    ensures cs == Numbered(Flatten(ss, k + 1), entityType, order)
  {
    ghost var find := FinderOf(line.body, labels[k]);
    NumberedAppend(Flatten(ss, k), ss[k], entityType, order);
    var more, _ := LabelCandidates(text, line, labels[k], rules, entityType, order + |done|, find, read);
    cs := done + more;
  }

  method LineCandidates(
    text: string, line: LineSpan, labels: seq<string>, rules: Rules, entityType: EntityType, order: int,
    ghost read: Reader)
    returns (cs: seq<Candidate>, next: int)
    requires LineFits(text, line) && Named(labels) && read == ReaderOf(text, line, rules)
    ensures cs == Numbered(LineValues(line.body, labels, read), entityType, order) && next == order + |cs|
  {
    ghost var ss := PerLabel(line.body, labels, read);
    cs := [];
    for k := 0 to |labels|
      invariant cs == Numbered(Flatten(ss, k), entityType, order)
    {
      cs := NextLabel(text, line, labels, k, rules, entityType, cs, order, read, ss);
    }
    next := order + |cs|;
  }

  method LinesCandidates(
    text: string, lines: seq<LineSpan>, labels: seq<string>, rules: Rules, entityType: EntityType, orderStart: int)
    returns (cs: seq<Candidate>, order: int)
    requires LinesFit(text, lines) && Named(labels)
    ensures cs == Numbered(AllValues(text, lines, labels, rules), entityType, orderStart) && order == orderStart + |cs|
  {
    ghost var ss := PerLine(text, lines, labels, rules);
    cs, order := [], orderStart;
    for i := 0 to |lines|
      invariant cs == Numbered(Flatten(ss, i), entityType, orderStart) && order == orderStart + |cs|
    {
      var more: seq<Candidate>;
      NumberedAppend(Flatten(ss, i), ss[i], entityType, orderStart);
      more, order := LineCandidates(text, lines[i], labels, rules, entityType, order, ReaderOf(text, lines[i], rules));
      cs := cs + more;
    }
  }

  /** Line by line, the longer labels first. */
  method LabelledValueCandidates(
    text: string, labels: seq<string>, entityType: EntityType, orderStart: int, rules: Rules)
    returns (cs: seq<Candidate>, order: int)
    requires Named(labels)
    ensures Named(Sort(labels, LongerFirst)) && LinesFit(text, LineSpans(text))
    ensures cs == Numbered(AllValues(text, LineSpans(text), Sort(labels, LongerFirst), rules), entityType, orderStart)
    ensures order == orderStart + |cs|
  {
    var lines := BuildLineSpans(text);
    SortedLabels(labels);
    cs, order := LinesCandidates(text, lines, Sort(labels, LongerFirst), rules, entityType, orderStart);
  }

  /** `matches` are the spans the pattern matches in the text. */
  method RegexCandidates(
    matches: seq<Span>, entityType: EntityType, orderStart: int)
    returns (cs: seq<Candidate>, order: int)
    ensures cs == Numbered(matches, entityType, orderStart) && order == orderStart + |cs|
  {
    cs, order := [], orderStart;
    for k := 0 to |matches|
      invariant cs == Numbered(matches[..k], entityType, orderStart) && order == orderStart + k
    {
      cs := cs + [Candidate(matches[k].start, matches[k].end, entityType, order)];
      order := order + 1;
    }
    assert matches[..|matches|] == matches;
  }
}
