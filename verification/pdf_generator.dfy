/** The text-to-layout logic of `generators/pdf_generator.py`: the summary
    line-grouping state machine of `_generate_summary_pdf`, and the explanation
    regrouping and plain-section classification of `_generate_equations_pdf`.
    The story is a sequence of abstract layout elements; styles, fonts and
    rendering are left to ReportLab. */
module PdfGenerator {
  import opened PyStr
  import opened PyList

  /** One flowable appended to the story. */
  datatype Element =
    | Title(text: string)
    | Heading(text: string)
    | SubHeading(text: string)
    | Body(text: string)
    | BulletList(items: seq<string>)
    | Spacer(height: nat)
    | Rule

  const SummaryTitle: string := "Research Paper Summary"
  const SectionMarker: string := "## "

  /** The rule between sections: a spacer, the grey `<hr/>` paragraph, a spacer. */
  const Divider: seq<Element> := [Spacer(12), Rule, Spacer(12)]

  // ------------------------------------------------------ line classification

  /** How the summary loop treats one content line. */
  datatype LineKind =
    | BulletLine(text: string)
    | SubLine(text: string)
    | PlainLine(text: string)

  /** The bullet markers `- `, `* ` and `• `. */
  predicate IsBullet(line: string) {
    StartsWith(line, "- ") || StartsWith(line, "* ") || StartsWith(line, "• ")
  }

  /** `re.sub(r'^[-*•]\s*', '', line)`: one marker character and the
      whitespace after it removed. */
  function CleanBullet(line: string): (item: string)
    ensures |line| > 0 && line[0] in {'-', '*', '•'} ==>
      && |item| < |line|
      && line[|line| - |item|..] == item
      && (forall i | 1 <= i < |line| - |item| :: IsSpace(line[i]))
      && (|item| > 0 ==> !IsSpace(item[0]))
    ensures !(|line| > 0 && line[0] in {'-', '*', '•'}) ==> item == line
  {
    if |line| > 0 && line[0] in {'-', '*', '•'} then
      var rest := line[1..];
      var n := SpanIn(rest, Whitespace);
      assert forall i | 1 <= i < 1 + n :: line[i] == rest[i - 1];
      rest[n..]
    else line
  }

  /** The sub-heading text of a `**...**` line: every `**` removed, then stripped. */
  function SubHeadingText(line: string): string {
    Strip(Replace(line, "**", ""))
  }

  /** The branch a stripped content line takes: a bullet marker wins, then a
      line wrapped in `**`, and anything else is paragraph text. A bullet
      keeps what follows its marker and the spaces after it. */
  function Classify(line: string): (kind: LineKind)
    ensures kind.BulletLine? <==> IsBullet(line)
    ensures kind.SubLine? <==> !IsBullet(line) && StartsWith(line, "**") && EndsWith(line, "**")
    ensures kind.BulletLine? ==>
      && kind.text == CleanBullet(line)
      && |kind.text| < |line|
      && line[|line| - |kind.text|..] == kind.text
    ensures kind.SubLine? ==> kind.text == SubHeadingText(line)
    ensures kind.PlainLine? ==> kind.text == line
  {
    if IsBullet(line) then BulletLine(CleanBullet(line))
    else if StartsWith(line, "**") && EndsWith(line, "**") then SubLine(SubHeadingText(line))
    else PlainLine(line)
  }

  // ------------------------------------------------------------ state machine

  /** The loop state: the story so far, the pending paragraph lines and the
      pending bullet items. */
  datatype Pending = Pending(out: seq<Element>, para: seq<string>, bullets: seq<string>)

  /** At most one of the two buffers holds anything. */
  predicate Exclusive(st: Pending) {
    |st.para| == 0 || |st.bullets| == 0
  }

  /** Emits the pending paragraph, if any, followed by a spacer of height `gap`. */
  function FlushPara(st: Pending, gap: nat): Pending {
    if |st.para| > 0 then Pending(st.out + [Body(Join(" ", st.para)), Spacer(gap)], [], st.bullets) else st
  }

  /** Emits the pending bullet list, if any, followed by a spacer of height `gap`. */
  function FlushBullets(st: Pending, gap: nat): Pending {
    if |st.bullets| > 0 then Pending(st.out + [BulletList(st.bullets), Spacer(gap)], st.para, []) else st
  }

  /** One iteration of the content-line loop on a line of the given kind.
      Whatever the state before, the state after has at most one non-empty
      buffer, and the story only grows. */
  function Step(st: Pending, kind: LineKind): (r: Pending)
    ensures Exclusive(r)
    ensures st.out <= r.out
  {
    match kind
    case BulletLine(item) =>
      var s1 := FlushPara(st, 4);
      Pending(s1.out, s1.para, s1.bullets + [item])
    case SubLine(t) =>
      var s1 := FlushPara(FlushBullets(st, 6), 6);
      Pending(s1.out + [SubHeading(t), Spacer(4)], s1.para, s1.bullets)
    case PlainLine(t) =>
      var s1 := FlushBullets(st, 6);
      Pending(s1.out, s1.para + [t], s1.bullets)
  }

  /** After the loop: the pending paragraph, then the pending bullet list. */
  function Finish(st: Pending): seq<Element> {
    FlushBullets(FlushPara(st, 6), 8).out
  }

  /** The loop from state `st` over lines of the given kinds, followed by the
      final flushes. (Classifying a line is pure, so classifying all lines
      first changes nothing.) */
  function Run(st: Pending, kinds: seq<LineKind>): seq<Element>
    decreases |kinds|
  {
    if |kinds| == 0 then Finish(st) else Run(Step(st, kinds[0]), kinds[1..])
  }

  /** The kinds of the lines, in order. */
  function Kinds(lines: seq<string>): (ks: seq<LineKind>)
    ensures |ks| == |lines|
    ensures forall i | 0 <= i < |lines| :: ks[i] == Classify(lines[i])
  {
    seq(|lines|, i requires 0 <= i < |lines| => Classify(lines[i]))
  }

  /** The layout of one section's content lines. */
  function GroupLines(lines: seq<string>): seq<Element> {
    Run(Pending([], [], []), Kinds(lines))
  }

  // ----------------------------------------------------- reference: by runs

  /** The number of leading lines that are plain text. */
  function PlainRun(kinds: seq<LineKind>): (n: nat)
    ensures n <= |kinds|
    ensures forall i | 0 <= i < n :: kinds[i].PlainLine?
    ensures n < |kinds| ==> !kinds[n].PlainLine?
    decreases |kinds|
  {
    if |kinds| > 0 && kinds[0].PlainLine? then 1 + PlainRun(kinds[1..]) else 0
  }

  /** The number of leading lines that are bullets. */
  function BulletRun(kinds: seq<LineKind>): (n: nat)
    ensures n <= |kinds|
    ensures forall i | 0 <= i < n :: kinds[i].BulletLine?
    ensures n < |kinds| ==> !kinds[n].BulletLine?
    decreases |kinds|
  {
    if |kinds| > 0 && kinds[0].BulletLine? then 1 + BulletRun(kinds[1..]) else 0
  }

  /** The texts the lines contribute, in order. */
  function Texts(kinds: seq<LineKind>): (ts: seq<string>)
    ensures |ts| == |kinds|
    ensures forall i | 0 <= i < |kinds| :: ts[i] == kinds[i].text
  {
    seq(|kinds|, i requires 0 <= i < |kinds| => kinds[i].text)
  }

  /** The spacer after a paragraph: 4 before a bullet, 6 otherwise. */
  function ParaGap(rest: seq<LineKind>): nat {
    if |rest| > 0 && rest[0].BulletLine? then 4 else 6
  }

  /** The spacer after a bullet list: 8 at the end, 6 otherwise. */
  function BulletGap(rest: seq<LineKind>): nat {
    if |rest| == 0 then 8 else 6
  }

  /** The intended layout, stated by runs: every maximal run of bullets is one
      list, every maximal run of plain lines is one paragraph joined by single
      spaces, and every sub-heading stands alone. */
  function Layout(kinds: seq<LineKind>): seq<Element>
    decreases |kinds|
  {
    if |kinds| == 0 then []
    else match kinds[0]
      case SubLine(t) => [SubHeading(t), Spacer(4)] + Layout(kinds[1..])
      case BulletLine(_) =>
        var n := BulletRun(kinds);
        [BulletList(Texts(kinds[..n])), Spacer(BulletGap(kinds[n..]))] + Layout(kinds[n..])
      case PlainLine(_) =>
        var n := PlainRun(kinds);
        [Body(Join(" ", Texts(kinds[..n]))), Spacer(ParaGap(kinds[n..]))] + Layout(kinds[n..])
  }

  /** A run of `n` lines is its first line followed by a run of `n - 1`. */
  lemma {:induction false} TextsCons(kinds: seq<LineKind>, n: nat)
    requires 1 <= n <= |kinds|
    ensures Texts(kinds[..n]) == [kinds[0].text] + Texts(kinds[1..][..n - 1])
    ensures kinds[1..][n - 1..] == kinds[n..]
  {
    assert Texts(kinds[..n])[1..] == Texts(kinds[1..][..n - 1]);
  }

  /** Flushing a pending paragraph before the next line, or at the end, is what the loop does. */
  lemma {:induction false} FlushParaFirst(out: seq<Element>, p: seq<string>, kinds: seq<LineKind>)
    requires |p| > 0
    requires |kinds| == 0 || !kinds[0].PlainLine?
    ensures Run(Pending(out, p, []), kinds)
      == Run(Pending(out + [Body(Join(" ", p)), Spacer(ParaGap(kinds))], [], []), kinds)
  {
    var flushed := Pending(out + [Body(Join(" ", p)), Spacer(ParaGap(kinds))], [], []);
    if |kinds| > 0 {
      assert Step(Pending(out, p, []), kinds[0]) == Step(flushed, kinds[0]);
    }
  }

  /** Flushing a pending bullet list before the next line, or at the end, is what the loop does. */
  lemma {:induction false} FlushBulletsFirst(out: seq<Element>, b: seq<string>, kinds: seq<LineKind>)
    requires |b| > 0
    requires |kinds| == 0 || !kinds[0].BulletLine?
    ensures Run(Pending(out, [], b), kinds)
      == Run(Pending(out + [BulletList(b), Spacer(BulletGap(kinds))], [], []), kinds)
  {
    var flushed := Pending(out + [BulletList(b), Spacer(BulletGap(kinds))], [], []);
    if |kinds| > 0 {
      assert Step(Pending(out, [], b), kinds[0]) == Step(flushed, kinds[0]);
    }
  }

  /** The run of plain lines at the front extends a pending paragraph. */
  lemma {:induction false} RunPlain(out: seq<Element>, p: seq<string>, kinds: seq<LineKind>)
    requires |p| > 0
    ensures var n := PlainRun(kinds);
      Run(Pending(out, p, []), kinds)
        == Run(Pending(out + [Body(Join(" ", p + Texts(kinds[..n]))), Spacer(ParaGap(kinds[n..]))], [], []), kinds[n..])
    decreases |kinds|
  {
    var n := PlainRun(kinds);
    if n == 0 {
      assert kinds[..0] == [] && kinds[0..] == kinds;
      assert p + Texts(kinds[..n]) == p;
      FlushParaFirst(out, p, kinds);
    } else {
      var t := kinds[0].text;
      var more := kinds[1..];
      assert Step(Pending(out, p, []), kinds[0]) == Pending(out, p + [t], []);
      RunPlain(out, p + [t], more);
      assert PlainRun(more) == n - 1;
      TextsCons(kinds, n);
      SeqAssoc(p, [t], Texts(more[..n - 1]));
    }
  }

  /** The run of bullets at the front extends a pending bullet list. */
  lemma {:induction false} RunBullets(out: seq<Element>, b: seq<string>, kinds: seq<LineKind>)
    requires |b| > 0
    ensures var n := BulletRun(kinds);
      Run(Pending(out, [], b), kinds)
        == Run(Pending(out + [BulletList(b + Texts(kinds[..n])), Spacer(BulletGap(kinds[n..]))], [], []), kinds[n..])
    decreases |kinds|
  {
    var n := BulletRun(kinds);
    if n == 0 {
      assert kinds[..0] == [] && kinds[0..] == kinds;
      assert b + Texts(kinds[..n]) == b;
      FlushBulletsFirst(out, b, kinds);
    } else {
      var t := kinds[0].text;
      var more := kinds[1..];
      assert Step(Pending(out, [], b), kinds[0]) == Pending(out, [], b + [t]);
      RunBullets(out, b + [t], more);
      assert BulletRun(more) == n - 1;
      TextsCons(kinds, n);
      SeqAssoc(b, [t], Texts(more[..n - 1]));
    }
  }

  /** The elements the first run of `kinds` contributes, and how long that run is. */
  function HeadRun(kinds: seq<LineKind>): (r: (seq<Element>, nat))
    requires |kinds| > 0
    ensures 1 <= r.1 <= |kinds|
    ensures Layout(kinds) == r.0 + Layout(kinds[r.1..])
  {
    match kinds[0]
    case SubLine(t) => ([SubHeading(t), Spacer(4)], 1)
    case BulletLine(_) =>
      var n := BulletRun(kinds);
      ([BulletList(Texts(kinds[..n])), Spacer(BulletGap(kinds[n..]))], n)
    case PlainLine(_) =>
      var n := PlainRun(kinds);
      ([Body(Join(" ", Texts(kinds[..n]))), Spacer(ParaGap(kinds[n..]))], n)
  }

  /** From empty buffers, a leading run of bullets becomes one list. */
  lemma {:induction false} RunHeadBullets(out: seq<Element>, kinds: seq<LineKind>)
    requires |kinds| > 0 && kinds[0].BulletLine?
    ensures var n := BulletRun(kinds);
      Run(Pending(out, [], []), kinds)
        == Run(Pending(out + [BulletList(Texts(kinds[..n])), Spacer(BulletGap(kinds[n..]))], [], []), kinds[n..])
  {
    var t := kinds[0].text;
    var more := kinds[1..];
    var n := BulletRun(kinds);
    assert Run(Pending(out, [], []), kinds) == Run(Pending(out, [], [t]), more) by {
      assert Step(Pending(out, [], []), kinds[0]) == Pending(out, [], [t]);
    }
    assert BulletRun(more) == n - 1;
    RunBullets(out, [t], more);
    TextsCons(kinds, n);
  }

  /** From empty buffers, a leading run of plain lines becomes one paragraph. */
  lemma {:induction false} RunHeadPlain(out: seq<Element>, kinds: seq<LineKind>)
    requires |kinds| > 0 && kinds[0].PlainLine?
    ensures var n := PlainRun(kinds);
      Run(Pending(out, [], []), kinds)
        == Run(Pending(out + [Body(Join(" ", Texts(kinds[..n]))), Spacer(ParaGap(kinds[n..]))], [], []), kinds[n..])
  {
    var t := kinds[0].text;
    var more := kinds[1..];
    var n := PlainRun(kinds);
    assert Run(Pending(out, [], []), kinds) == Run(Pending(out, [t], []), more) by {
      assert Step(Pending(out, [], []), kinds[0]) == Pending(out, [t], []);
    }
    assert PlainRun(more) == n - 1;
    RunPlain(out, [t], more);
    TextsCons(kinds, n);
  }

  /** From empty buffers, the loop emits the first run and continues after it. */
  lemma {:induction false} RunHead(out: seq<Element>, kinds: seq<LineKind>)
    requires |kinds| > 0
    ensures Run(Pending(out, [], []), kinds) == Run(Pending(out + HeadRun(kinds).0, [], []), kinds[HeadRun(kinds).1..])
  {
    match kinds[0]
    case SubLine(t) =>
      assert Step(Pending(out, [], []), kinds[0]) == Pending(out + [SubHeading(t), Spacer(4)], [], []);
    case BulletLine(_) => RunHeadBullets(out, kinds);
    case PlainLine(_) => RunHeadPlain(out, kinds);
  }

  /** From empty buffers, the state machine produces the run-by-run layout. */
  lemma {:induction false} RunLayout(out: seq<Element>, kinds: seq<LineKind>)
    ensures Run(Pending(out, [], []), kinds) == out + Layout(kinds)
    decreases |kinds|
  {
    if |kinds| == 0 {
      assert out + [] == out;
    } else {
      var head := HeadRun(kinds).0;
      var rest := kinds[HeadRun(kinds).1..];
      assert Layout(kinds) == head + Layout(rest);
      RunHead(out, kinds);
      RunLayout(out + head, rest);
      SeqAssoc(out, head, Layout(rest));
    }
  }

  /** The summary loop groups maximal runs: consecutive bullets share one list
      and consecutive plain lines merge into one paragraph. */
  lemma {:induction false} GroupLinesByRuns(lines: seq<string>)
    ensures GroupLines(lines) == Layout(Kinds(lines))
  {
    RunLayout([], Kinds(lines));
    assert [] + Layout(Kinds(lines)) == Layout(Kinds(lines));
  }

  /** The grouped layout of content lines never holds a rule. */
  lemma {:induction false} LayoutNoRule(kinds: seq<LineKind>)
    ensures Rule !in Layout(kinds)
    decreases |kinds|
  {
    if |kinds| > 0 {
      match kinds[0]
      case SubLine(_) => LayoutNoRule(kinds[1..]);
      case BulletLine(_) => LayoutNoRule(kinds[BulletRun(kinds)..]);
      case PlainLine(_) => LayoutNoRule(kinds[PlainRun(kinds)..]);
    }
  }

  // ----------------------------------------------------------------- sections

  /** A content line survives: non-empty once stripped and not a `---` rule. */
  predicate IsContent(line: string) {
    |line| > 0 && !StartsWith(line, "---")
  }

  /** `content_lines`: the stripped lines after the heading line that are
      non-empty and do not start with `---`, in order. */
  function ContentLines(lines: seq<string>): (cs: seq<string>)
    ensures |cs| <= |lines|
    ensures forall k | 0 <= k < |cs| :: IsContent(cs[k]) && Strip(cs[k]) == cs[k]
    ensures forall k | 0 <= k < |lines| :: IsContent(Strip(lines[k])) ==> Strip(lines[k]) in cs
    decreases |lines|
  {
    if |lines| == 0 then []
    else
      var line := Strip(lines[0]);
      StripSetStripped(line, Whitespace);
      (if IsContent(line) then [line] else []) + ContentLines(lines[1..])
  }

  /** Every line stripped, one for one. */
  function StrippedLines(lines: seq<string>): (ss: seq<string>)
    ensures |ss| == |lines|
    ensures forall k | 0 <= k < |lines| :: ss[k] == Strip(lines[k])
  {
    seq(|lines|, k requires 0 <= k < |lines| => Strip(lines[k]))
  }

  /** The content lines are exactly the stripped lines filtered by `IsContent`:
      in order, repeats included, and none that qualifies left out. */
  lemma {:induction false} ContentLinesIsFilter(lines: seq<string>)
    ensures ContentLines(lines) == Filter(StrippedLines(lines), IsContent)
    ensures FilterOf(ContentLines(lines), StrippedLines(lines), IsContent)
    decreases |lines|
  {
    if |lines| > 0 {
      var ss := StrippedLines(lines);
      assert ss[1..] == StrippedLines(lines[1..]);
      ContentLinesIsFilter(lines[1..]);
    }
  }

  /** The first line of a stripped, non-blank section is a non-empty heading. */
  lemma {:induction false} HeadingNonEmpty(s: string)
    requires |s| > 0 && !IsSpace(s[0])
    ensures |SplitLines(s)| > 0 && |Strip(SplitLines(s)[0])| > 0
  {
    assert s[0] !in LineBreaks;
    var lines := SplitLines(s);
    var n := SpanNotIn(s, LineBreaks);
    assert n > 0;
    assert lines[0] == s[..n];
    assert !IsSpace(lines[0][0]);
  }

  /** The elements of one `## ` piece; `isLast` says whether it is the last piece of the split. */
  function SectionElements(section: string, isLast: bool): (es: seq<Element>)
    ensures |Strip(section)| == 0 ==> es == []
    ensures |Strip(section)| > 0 ==>
      && |SplitLines(Strip(section))| > 0
      && |es| >= 2 && es[0] == Heading(Strip(SplitLines(Strip(section))[0])) && |es[0].text| > 0 && es[1] == Spacer(6)
    ensures Rule in es <==> |Strip(section)| > 0 && !isLast
    ensures |Strip(section)| > 0 && !isLast ==> |es| >= 5 && es[|es| - 3..] == Divider
  {
    var s := Strip(section);
    if |s| == 0 then [] else NonBlankSection(s, isLast)
  }

  /** The elements of a stripped, non-blank section. */
  function NonBlankSection(s: string, isLast: bool): (es: seq<Element>)
    requires |s| > 0 && !IsSpace(s[0])
    ensures |SplitLines(s)| > 0
    ensures |es| >= 2 && es[0] == Heading(Strip(SplitLines(s)[0])) && |es[0].text| > 0 && es[1] == Spacer(6)
    ensures Rule in es <==> !isLast
    ensures !isLast ==> |es| >= 5 && es[|es| - 3..] == Divider
  {
    var lines := SplitLines(s);
    HeadingNonEmpty(s);
    var head := SectionHead(lines);
    var body := SectionBody(lines);
    var tail := if isLast then [] else Divider;
    Assemble(head, body, tail);
    head + body + tail
  }

  /** Heading, body and closing of a section put together. */
  lemma {:induction false} Assemble(head: seq<Element>, body: seq<Element>, tail: seq<Element>)
    requires |head| == 2 && head[0] != Rule && head[1] != Rule && Rule !in body
    ensures var es := head + body + tail;
      && |es| == 2 + |body| + |tail|
      && es[0] == head[0] && es[1] == head[1]
      && (Rule in es <==> Rule in tail)
      && es[|es| - |tail|..] == tail
  {
    var es := head + body + tail;
    assert es[|es| - |tail|..] == tail;
    forall k | 0 <= k < 2 + |body| ensures es[k] != Rule {
      if k >= 2 {
        assert es[k] == body[k - 2];
      }
    }
    if Rule in es {
      var k :| 0 <= k < |es| && es[k] == Rule;
      if k >= 2 + |body| {
        assert tail[k - 2 - |body|] == Rule;
      }
    }
  }

  /** The heading of a section whose first line is not blank: the stripped line and a small gap. */
  function SectionHead(lines: seq<string>): (head: seq<Element>)
    requires |lines| > 0 && |Strip(lines[0])| > 0
    ensures head == [Heading(Strip(lines[0])), Spacer(6)]
  {
    var title := Strip(lines[0]);
    if |title| > 0 then [Heading(title), Spacer(6)] else []
  }

  /** The body of a section: its content lines after the first, grouped. It draws no rule. */
  function SectionBody(lines: seq<string>): (body: seq<Element>)
    requires |lines| > 0
    ensures Rule !in body
  {
    var content := ContentLines(lines[1..]);
    GroupLinesByRuns(content);
    LayoutNoRule(Kinds(content));
    GroupLines(content)
  }

  /** The elements of the pieces from index `i` on. */
  function SectionsFrom(sections: seq<string>, i: nat): seq<Element>
    requires i <= |sections|
    decreases |sections| - i
  {
    if i == |sections| then []
    else SectionElements(sections[i], i == |sections| - 1) + SectionsFrom(sections, i + 1)
  }

  /** A piece with nothing but whitespace in it. */
  predicate Blank(section: string) {
    |Strip(section)| == 0
  }

  /** Every piece from index `i` on is blank. */
  predicate AllBlankFrom(sections: seq<string>, i: nat) {
    forall j | i <= j < |sections| :: Blank(sections[j])
  }

  /** Blank pieces add nothing and every other piece adds its heading, so
      nothing is drawn exactly when every piece from `i` on is blank. */
  lemma {:induction false} SectionsFromEmpty(sections: seq<string>, i: nat)
    requires i <= |sections|
    ensures |SectionsFrom(sections, i)| == 0 <==> AllBlankFrom(sections, i)
    decreases |sections| - i
  {
    if i < |sections| {
      SectionsFromEmpty(sections, i + 1);
      var here := SectionElements(sections[i], i == |sections| - 1);
      assert SectionsFrom(sections, i) == here + SectionsFrom(sections, i + 1);
      assert |here| == 0 <==> Blank(sections[i]);
      assert AllBlankFrom(sections, i) <==> Blank(sections[i]) && AllBlankFrom(sections, i + 1);
    }
  }

  /** Some piece from index `i` on, other than the last of the split, is not blank. */
  predicate RuledFrom(sections: seq<string>, i: nat) {
    exists j | i <= j < |sections| - 1 :: !Blank(sections[j])
  }

  /** A rule is drawn exactly when some non-blank piece other than the last
      one of the split is among the pieces from `i` on. */
  lemma {:induction false} SectionsFromRule(sections: seq<string>, i: nat)
    requires i <= |sections|
    ensures Rule in SectionsFrom(sections, i) <==> RuledFrom(sections, i)
    decreases |sections| - i
  {
    if i < |sections| {
      var here := SectionElements(sections[i], i == |sections| - 1);
      var rest := SectionsFrom(sections, i + 1);
      SectionsFromRule(sections, i + 1);
      assert SectionsFrom(sections, i) == here + rest;
      assert Rule in here <==> !Blank(sections[i]) && i < |sections| - 1;
      if RuledFrom(sections, i) && !RuledFrom(sections, i + 1) {
        var j :| i <= j < |sections| - 1 && !Blank(sections[j]);
        assert j == i;
      }
    }
  }

  /** `_generate_summary_pdf`: the title, a spacer, then every `## ` piece in order. */
  function SummaryLayout(analysis: string): (es: seq<Element>)
    ensures |es| >= 2 && es[0] == Title(SummaryTitle) && es[1] == Spacer(15)
  {
    var sections := Split(analysis, SectionMarker);
    [Title(SummaryTitle), Spacer(15)] + SectionsFrom(sections, 0)
  }

  // ------------------------------------------------------- equations: lines

  /** `line.strip(' *')`. */
  function StripStars(line: string): string {
    StripSet(line, {' ', '*'})
  }

  /** The stripped, non-empty lines of a text split on `\n`. */
  function NonEmptyLines(lines: seq<string>): (ls: seq<string>)
    ensures |ls| <= |lines|
    ensures forall k | 0 <= k < |ls| :: |ls[k]| > 0 && Strip(ls[k]) == ls[k]
    decreases |lines|
  {
    if |lines| == 0 then []
    else
      var line := Strip(lines[0]);
      StripSetStripped(line, Whitespace);
      (if |line| > 0 then [line] else []) + NonEmptyLines(lines[1..])
  }

  /** A line with text in it. */
  predicate NonEmpty(line: string) {
    |line| > 0
  }

  /** The kept lines are exactly the stripped lines filtered by `NonEmpty`:
      in order, repeats included, and none with text left out. */
  lemma {:induction false} NonEmptyLinesIsFilter(lines: seq<string>)
    ensures NonEmptyLines(lines) == Filter(StrippedLines(lines), NonEmpty)
    ensures FilterOf(NonEmptyLines(lines), StrippedLines(lines), NonEmpty)
    decreases |lines|
  {
    if |lines| > 0 {
      var ss := StrippedLines(lines);
      assert ss[1..] == StrippedLines(lines[1..]);
      NonEmptyLinesIsFilter(lines[1..]);
    }
  }

  /** No line with text is skipped: every line that is non-empty once stripped
      is kept, stripped. */
  lemma {:induction false} NonEmptyLinesKeeps(lines: seq<string>, k: nat)
    requires k < |lines| && |Strip(lines[k])| > 0
    ensures Strip(lines[k]) in NonEmptyLines(lines)
    decreases |lines|
  {
    var line := Strip(lines[0]);
    var rest := NonEmptyLines(lines[1..]);
    assert NonEmptyLines(lines) == (if |line| > 0 then [line] else []) + rest;
    if k > 0 {
      assert lines[k] == lines[1..][k - 1];
      NonEmptyLinesKeeps(lines[1..], k - 1);
    }
  }

  /** The explanation loop state: bullet items and regular lines collected so far. */
  datatype Explanation = Explanation(bullets: seq<string>, regular: seq<string>)

  /** The loop of the explanation regrouping over stripped, non-empty lines. */
  function CollectExplanation(acc: Explanation, lines: seq<string>): Explanation
    decreases |lines|
  {
    if |lines| == 0 then acc
    else
      var line := lines[0];
      var next := if StartsWith(line, "*") then Explanation(acc.bullets + [StripStars(line)], acc.regular)
                  else Explanation(acc.bullets, acc.regular + [line]);
      CollectExplanation(next, lines[1..])
  }

  /** The lines that become bullets: those starting with `*`, in order, stripped of spaces and stars. */
  function StarItems(lines: seq<string>): (items: seq<string>)
    ensures |items| <= |lines|
    decreases |lines|
  {
    if |lines| == 0 then []
    else (if StartsWith(lines[0], "*") then [StripStars(lines[0])] else []) + StarItems(lines[1..])
  }

  /** The other lines, in order. */
  function OtherLines(lines: seq<string>): (others: seq<string>)
    ensures |others| <= |lines|
    ensures forall k | 0 <= k < |others| :: !StartsWith(others[k], "*")
    decreases |lines|
  {
    if |lines| == 0 then []
    else (if StartsWith(lines[0], "*") then [] else [lines[0]]) + OtherLines(lines[1..])
  }

  /** The loop sends every starred line to the bullets and every other line
      to the regular lines, each group in its original order. */
  lemma {:induction false} CollectExplanationSplits(acc: Explanation, lines: seq<string>)
    ensures CollectExplanation(acc, lines)
      == Explanation(acc.bullets + StarItems(lines), acc.regular + OtherLines(lines))
    decreases |lines|
  {
    if |lines| > 0 {
      var line := lines[0];
      if StartsWith(line, "*") {
        CollectExplanationSplits(Explanation(acc.bullets + [StripStars(line)], acc.regular), lines[1..]);
        assert acc.bullets + [StripStars(line)] + StarItems(lines[1..]) == acc.bullets + StarItems(lines);
        assert OtherLines(lines) == OtherLines(lines[1..]);
      } else {
        CollectExplanationSplits(Explanation(acc.bullets, acc.regular + [line]), lines[1..]);
        assert acc.regular + [line] + OtherLines(lines[1..]) == acc.regular + OtherLines(lines);
        assert StarItems(lines) == StarItems(lines[1..]);
      }
    }
  }

  /** The bodies of the given lines, one per line. */
  function Bodies(lines: seq<string>): (es: seq<Element>)
    ensures |es| == |lines|
    ensures forall k | 0 <= k < |lines| :: es[k] == Body(lines[k])
  {
    seq(|lines|, k requires 0 <= k < |lines| => Body(lines[k]))
  }

  /** The elements after an equation: the starred lines as one bullet list
      first, then every other line as its own paragraph, then a spacer. */
  function ExplanationElements(explanation: string): (es: seq<Element>)
    ensures |es| >= 1 && es[|es| - 1] == Spacer(12)
  {
    var lines := NonEmptyLines(Split(explanation, "\n"));
    var grouped := CollectExplanation(Explanation([], []), lines);
    (if |grouped.bullets| > 0 then [BulletList(grouped.bullets), Spacer(6)] else [])
      + Bodies(grouped.regular) + [Spacer(12)]
  }

  /** The explanation regrouping puts all starred lines in one list before
      every other line, and keeps each group in its original order. */
  lemma {:induction false} ExplanationBulletsFirst(explanation: string)
    ensures var lines := NonEmptyLines(Split(explanation, "\n"));
      var items := StarItems(lines);
      ExplanationElements(explanation)
        == (if |items| > 0 then [BulletList(items), Spacer(6)] else []) + Bodies(OtherLines(lines)) + [Spacer(12)]
  {
    var lines := NonEmptyLines(Split(explanation, "\n"));
    CollectExplanationSplits(Explanation([], []), lines);
    assert [] + StarItems(lines) == StarItems(lines);
    assert [] + OtherLines(lines) == OtherLines(lines);
  }

  // ----------------------------------------------- equations: plain sections

  /** The element of one stripped, non-empty line of a section without an
      equation. A sub-heading's text has no surrounding whitespace, and the
      item after a `• ` has no surrounding spaces or stars. */
  function PlainSectionElement(line: string): (e: Element)
    ensures StartsWith(line, "###") ==> e.SubHeading?
    ensures StartsWith(line, "###") && |e.text| > 0 ==> !IsSpace(e.text[0]) && !IsSpace(e.text[|e.text| - 1])
    ensures !StartsWith(line, "###") ==> e.Body?
    ensures !StartsWith(line, "###") && StartsWith(line, "*") ==>
      && StartsWith(e.text, "• ")
      && var item := e.text[2..];
         |item| > 0 ==> item[0] !in {' ', '*'} && item[|item| - 1] !in {' ', '*'}
    ensures !StartsWith(line, "###") && !StartsWith(line, "*") ==> e.text == line
  {
    if StartsWith(line, "###") then SubHeading(Strip(Replace(line, "###", "")))
    else if StartsWith(line, "*") then
      var item := StripStars(line);
      assert ("• " + item)[2..] == item;
      Body("• " + item)
    else Body(line)
  }

  /** A `###` line with no other `#` becomes the sub-heading of what follows
      the marker, stripped. */
  lemma {:induction false} PlainSectionSubHeading(rest: string)
    requires '#' !in rest
    ensures PlainSectionElement("###" + rest) == SubHeading(Strip(rest))
  {
    var line := "###" + rest;
    assert Replace(rest, "###", "") == rest by {
      NotFoundWithout(rest, "###");
      assert Split(rest, "###") == [rest];
    }
    assert Replace(line, "###", "") == rest by {
      assert IsAt(line, "###", 0);
      FindLeftmost(line, "###", 0);
      ReplaceAt(line, "###", "", 0);
      assert line[..0] + "" == "";
      assert line[3..] == rest;
    }
    assert StartsWith(line, "###");
  }

  /** A starred line becomes `• ` followed by the line with the maximal runs of
      spaces and stars at both ends removed, as `strip(' *')` does. */
  lemma {:induction false} PlainSectionBullet(line: string, a: nat, b: nat)
    requires StartsWith(line, "*")
    requires a <= b <= |line|
    requires forall i | 0 <= i < a :: line[i] in {' ', '*'}
    requires forall i | b <= i < |line| :: line[i] in {' ', '*'}
    requires a < b ==> line[a] !in {' ', '*'} && line[b - 1] !in {' ', '*'}
    requires a == b ==> forall i | 0 <= i < |line| :: line[i] in {' ', '*'}
    ensures PlainSectionElement(line) == Body("• " + line[a..b])
  {
    assert !StartsWith(line, "###") by {
      assert line[0] == '*';
    }
    StripSetIsTrim(line, {' ', '*'}, a, b);
  }

  /** The elements of a section without an equation: one per non-empty line,
      then a spacer. Blank sections are skipped before this point. */
  function PlainSectionElements(section: string): (es: seq<Element>)
    requires !Blank(section)
    ensures var lines := NonEmptyLines(Split(section, "\n"));
      && |es| == |lines| + 1
      && es[|lines|] == Spacer(12)
      && forall k | 0 <= k < |lines| :: es[k] == PlainSectionElement(lines[k])
  {
    var lines := NonEmptyLines(Split(section, "\n"));
    seq(|lines|, k requires 0 <= k < |lines| => PlainSectionElement(lines[k])) + [Spacer(12)]
  }
}
