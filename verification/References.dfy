/**
 Inline page references: a block's text with atoms becomes markdown for display, spans
 that say where each reference stands in it, and inline content.  The spans and the
 content determine each other.
 */
module References {
  import opened Records

  const PAGE_REFERENCE_CHAR := '\U{fffc}'
  const REPLACEMENT := '\U{fffd}'

  /** One rich-text segment; `page` is the reference mark, where it names a page. */
  datatype Segment = Segment(text: string, page: Option<string>)

  /** One logical position of the text. */
  datatype Atom = Char(c: char) | Ref(page: string)

  datatype Span = Span(start: nat, end: nat, index: nat, page: string)

  datatype Inline = Markdown(value: string) | PageReference(page: string)

  /** What is reported of text whose marks and atoms do not go together. */
  datatype Issue = MarkWithoutAtom | InvalidAtom

  // ------------------------------------------------------------- what is materialised

  function AtomFor(c: char, page: Option<string>): Atom {
    if c != PAGE_REFERENCE_CHAR then Char(c) else if page.Some? then Ref(page.value) else Char(REPLACEMENT)
  }

  function AtomsIn(text: string, page: Option<string>): (atoms: seq<Atom>)
    ensures |atoms| == |text| && forall i :: 0 <= i < |text| ==> atoms[i] == AtomFor(text[i], page)
  {
    seq(|text|, i requires 0 <= i < |text| => AtomFor(text[i], page))
  }

  function Logical(segments: seq<Segment>): seq<Atom> {
    if segments == [] then [] else
      Logical(segments[..|segments| - 1]) + AtomsIn(segments[|segments| - 1].text, segments[|segments| - 1].page)
  }

  function Display(atom: Atom, title: string -> string): (s: string)
    ensures |s| > 0
  {
    match atom
    case Char(c) => [c]
    case Ref(page) => "[[" + title(page) + "]]"
  }

  function MarkdownOf(atoms: seq<Atom>, title: string -> string): string {
    if atoms == [] then "" else MarkdownOf(atoms[..|atoms| - 1], title) + Display(atoms[|atoms| - 1], title)
  }

  function SpansOf(atoms: seq<Atom>, title: string -> string): seq<Span> {
    if atoms == [] then [] else
      SpansOf(atoms[..|atoms| - 1], title) + SpanOf(atoms[..|atoms| - 1], atoms[|atoms| - 1], title)
  }

  /** The span of the position after `front`, if it is a reference. */
  function SpanOf(front: seq<Atom>, atom: Atom, title: string -> string): seq<Span> {
    var start := |MarkdownOf(front, title)|;
    if atom.Ref? then [Span(start, start + |Display(atom, title)|, |front|, atom.page)] else []
  }

  function Typed(content: seq<Inline>, c: char): seq<Inline> {
    if content != [] && content[|content| - 1].Markdown?
    then content[..|content| - 1] + [Markdown(content[|content| - 1].value + [c])]
    else content + [Markdown([c])]
  }

  /** References, and maximal runs of text between them. */
  function ContentOf(atoms: seq<Atom>): seq<Inline> {
    if atoms == [] then [] else Extended(ContentOf(atoms[..|atoms| - 1]), atoms[|atoms| - 1])
  }

  function Extended(content: seq<Inline>, atom: Atom): seq<Inline> {
    match atom
    case Char(c) => Typed(content, c)
    case Ref(page) => content + [PageReference(page)]
  }

  function Piece(text: string): seq<Inline> {
    if text == "" then [] else [Markdown(text)]
  }

  /** No run of text is open at the end. */
  predicate Closed(content: seq<Inline>) {
    content == [] || content[|content| - 1].PageReference?
  }

  lemma TypedPiece(content: seq<Inline>, plain: string, c: char)
    requires Closed(content)
    ensures Typed(content + Piece(plain), c) == content + Piece(plain + [c])
  {
    if plain != "" {
      assert (content + [Markdown(plain)])[..|content|] == content;
    } else {
      assert content + Piece(plain) == content && plain + [c] == [c];
    }
  }

  lemma {:induction false} OneMoreAtom(atoms: seq<Atom>, atom: Atom, title: string -> string)
    ensures MarkdownOf(atoms + [atom], title) == MarkdownOf(atoms, title) + Display(atom, title)
    ensures SpansOf(atoms + [atom], title) == SpansOf(atoms, title) + SpanOf(atoms, atom, title)
    ensures ContentOf(atoms + [atom]) == Extended(ContentOf(atoms), atom)
  {
    hide Display, Extended, SpanOf;
    assert (atoms + [atom])[..|atoms|] == atoms;
  }

  /** The accumulators after the atoms `done`. */
  ghost predicate Materialized(
    done: seq<Atom>, title: string -> string, markdown: string, references: seq<Span>, content: seq<Inline>, plain: string)
  {
    && markdown == MarkdownOf(done, title) && references == SpansOf(done, title)
    && ContentOf(done) == content + Piece(plain) && Closed(content)
  }

  lemma NothingYet(title: string -> string)
    ensures Materialized([], title, "", [], [], "")
  {
  }

  lemma TypeStep(
    done: seq<Atom>, title: string -> string, markdown: string, references: seq<Span>, content: seq<Inline>, plain: string, c: char)
    requires Materialized(done, title, markdown, references, content, plain)
    ensures Materialized(done + [Char(c)], title, markdown + [c], references, content, plain + [c])
  {
    hide MarkdownOf, SpansOf, ContentOf, Typed, Piece;
    OneMoreAtom(done, Char(c), title);
    TypedPiece(content, plain, c);
    assert references + [] == references;
  }

  lemma ReferenceStep(
    done: seq<Atom>, title: string -> string, markdown: string, references: seq<Span>, content: seq<Inline>, plain: string, page: string)
    requires Materialized(done, title, markdown, references, content, plain)
    ensures var source := "[[" + title(page) + "]]";
            Materialized(done + [Ref(page)], title, markdown + source,
                         references + [Span(|markdown|, |markdown| + |source|, |done|, page)],
                         content + Flush(plain) + [PageReference(page)], "")
  {
    hide MarkdownOf, SpansOf, ContentOf, Typed;
    OneMoreAtom(done, Ref(page), title);
  }

  function AtomIssues(text: string, page: Option<string>): (issues: seq<Issue>)
    ensures issues == [] <==> page.Some? || PAGE_REFERENCE_CHAR !in text
  {
    if text == "" then [] else
      var c := text[|text| - 1];
      AtomIssues(text[..|text| - 1], page) + if c == PAGE_REFERENCE_CHAR && page.None? then [InvalidAtom] else []
  }

  function MarkIssues(segment: Segment): seq<Issue> {
    if segment.page.Some? && PAGE_REFERENCE_CHAR !in segment.text then [MarkWithoutAtom] else []
  }

  function IssuesOf(segments: seq<Segment>): seq<Issue> {
    if segments == [] then [] else
      var last := segments[|segments| - 1];
      IssuesOf(segments[..|segments| - 1]) + MarkIssues(last) + AtomIssues(last.text, last.page)
  }

  /** Nothing is reported exactly when every mark covers an atom and every atom is marked. */
  lemma {:induction false} NoIssuesIff(segments: seq<Segment>)
    ensures IssuesOf(segments) == [] <==>
            forall s :: s in segments ==> (s.page.Some? <==> PAGE_REFERENCE_CHAR in s.text)
  {
    if segments != [] {
      var front, last := segments[..|segments| - 1], segments[|segments| - 1];
      NoIssuesIff(front);
      assert forall s :: s in segments <==> s in front || s == last;
    }
  }

  method MaterializeBlockContent(segments: seq<Segment>, title: string -> string)
    returns (markdown: string, references: seq<Span>, content: seq<Inline>, quarantined: seq<Issue>)
    ensures quarantined == IssuesOf(segments)
    ensures markdown == MarkdownOf(Logical(segments), title)
    ensures references == SpansOf(Logical(segments), title)
    ensures content == ContentOf(Logical(segments))
  {
    hide Materialized, AtomFor, MarkdownOf, SpansOf, ContentOf, AtomsIn, AtomIssues, MarkIssues, IssuesOf, Reported, ReportedIn;
    NothingReported(segments);
    markdown, references, content, quarantined := "", [], [], [];
    var plain, displayIndex: nat, logicalIndex: nat := "", 0, 0;
    ghost var done: seq<Atom> := [];
    NothingYet(title);
    for s := 0 to |segments|
      invariant done == Logical(segments[..s])
      invariant Materialized(done, title, markdown, references, content, plain)
      invariant displayIndex == |markdown| && logicalIndex == |done|
      invariant Reported(segments, s, quarantined)
    {
      var segment := segments[s];
      assert segments[..s + 1][..s] == segments[..s];
      ReportMark(segments, s, quarantined);
      if segment.page.Some? && PAGE_REFERENCE_CHAR !in segment.text {
        quarantined := quarantined + [MarkWithoutAtom];
      }
      ghost var before, atoms := done, AtomsIn(segment.text, segment.page);
      for i := 0 to |segment.text|
        invariant done == before + atoms[..i]
        invariant Materialized(done, title, markdown, references, content, plain)
        invariant displayIndex == |markdown| && logicalIndex == |done|
        invariant ReportedIn(segments, s, i, quarantined)
      {
        var c := segment.text[i];
        ReportAtom(segments, s, i, quarantined);
        assert atoms[..i + 1] == atoms[..i] + [AtomFor(c, segment.page)];
        AtomIs(c, segment.page);
        if c == PAGE_REFERENCE_CHAR && segment.page.Some? {
          var page := segment.page.value;
          ReferenceStep(done, title, markdown, references, content, plain, page);
          content, plain := content + Flush(plain) + [PageReference(page)], "";
          var source := "[[" + title(page) + "]]";
          markdown := markdown + source;
          references := references + [Span(displayIndex, displayIndex + |source|, logicalIndex, page)];
          displayIndex := displayIndex + |source|;
        } else {
          var shown := if c == PAGE_REFERENCE_CHAR then REPLACEMENT else c;
          TypeStep(done, title, markdown, references, content, plain, shown);
          markdown, plain := markdown + [shown], plain + [shown];
          displayIndex := displayIndex + 1;
          if c == PAGE_REFERENCE_CHAR {
            quarantined := quarantined + [InvalidAtom];
          }
        }
        logicalIndex := logicalIndex + 1;
        done := done + [AtomFor(c, segment.page)];
      }
      assert atoms[..|segment.text|] == atoms;
      ReportDone(segments, s, quarantined);
    }
    MaterializedIs(done, title, markdown, references, content, plain);
    AllReported(segments, quarantined);
    content := content + Flush(plain);
    assert segments[..|segments|] == segments;
  }

  /** What is reported of the first `s` segments. */
  ghost predicate Reported(segments: seq<Segment>, s: nat, issues: seq<Issue>)
    requires s <= |segments|
  {
    issues == IssuesOf(segments[..s])
  }

  /** And of the first `i` characters of the next. */
  ghost predicate ReportedIn(segments: seq<Segment>, s: nat, i: nat, issues: seq<Issue>)
    requires s < |segments| && i <= |segments[s].text|
  {
    issues == IssuesOf(segments[..s]) + MarkIssues(segments[s]) + AtomIssues(segments[s].text[..i], segments[s].page)
  }

  lemma NothingReported(segments: seq<Segment>)
    ensures Reported(segments, 0, [])
  {
  }

  lemma ReportMark(segments: seq<Segment>, s: nat, issues: seq<Issue>)
    requires s < |segments| && Reported(segments, s, issues)
    ensures var none := segments[s].page.Some? && PAGE_REFERENCE_CHAR !in segments[s].text;
            ReportedIn(segments, s, 0, if none then issues + [MarkWithoutAtom] else issues)
  {
  }

  lemma ReportAtom(segments: seq<Segment>, s: nat, i: nat, issues: seq<Issue>)
    requires s < |segments| && i < |segments[s].text| && ReportedIn(segments, s, i, issues)
    ensures var bare := segments[s].text[i] == PAGE_REFERENCE_CHAR && segments[s].page.None?;
            ReportedIn(segments, s, i + 1, if bare then issues + [InvalidAtom] else issues)
  {
    hide IssuesOf, MarkIssues;
    assert segments[s].text[..i + 1][..i] == segments[s].text[..i];
  }

  lemma ReportDone(segments: seq<Segment>, s: nat, issues: seq<Issue>)
    requires s < |segments| && ReportedIn(segments, s, |segments[s].text|, issues)
    ensures Reported(segments, s + 1, issues)
  {
    hide MarkIssues, AtomIssues;
    assert segments[..s + 1][..s] == segments[..s];
    assert segments[s].text[..|segments[s].text|] == segments[s].text;
  }

  lemma AllReported(segments: seq<Segment>, issues: seq<Issue>)
    requires Reported(segments, |segments|, issues)
    ensures issues == IssuesOf(segments)
  {
    assert segments[..|segments|] == segments;
  }

  lemma MaterializedIs(
    done: seq<Atom>, title: string -> string, markdown: string, references: seq<Span>, content: seq<Inline>, plain: string)
    requires Materialized(done, title, markdown, references, content, plain)
    ensures markdown == MarkdownOf(done, title) && references == SpansOf(done, title) && content + Flush(plain) == ContentOf(done)
  {
  }

  lemma AtomIs(c: char, page: Option<string>)
    ensures AtomFor(c, page) == if c == PAGE_REFERENCE_CHAR && page.Some? then Ref(page.value)
                                else Char(if c == PAGE_REFERENCE_CHAR then REPLACEMENT else c)
  {
  }

  function Flush(plain: string): (r: seq<Inline>)
    ensures r == Piece(plain)
  {
    if plain != "" then [Markdown(plain)] else []
  }

  // ----------------------------------------------------------------- the span validator

  /** The widths by which the first `n` references are longer than one position. */
  function CollapsedBefore(spans: seq<Span>, n: nat): int
    requires n <= |spans|
  {
    if n == 0 then 0 else CollapsedBefore(spans, n - 1) + spans[n - 1].end - spans[n - 1].start - 1
  }

  function EndBefore(spans: seq<Span>, k: nat): nat
    requires k <= |spans|
  {
    if k == 0 then 0 else spans[k - 1].end
  }

  predicate Apart(length: nat, spans: seq<Span>, k: nat)
    requires k < |spans|
  {
    EndBefore(spans, k) <= spans[k].start < spans[k].end <= length
  }

  predicate SpanValid(length: nat, spans: seq<Span>, k: nat)
    requires k < |spans|
  {
    Apart(length, spans, k) && spans[k].index == spans[k].start - CollapsedBefore(spans, k)
  }

  /** Spans in order, apart, inside the text, each at its own logical index. */
  predicate ValidSpans(length: nat, spans: seq<Span>) {
    forall k :: 0 <= k < |spans| ==> SpanValid(length, spans, k)
  }

  lemma {:induction false} CollapsedFitsBefore(length: nat, spans: seq<Span>, n: nat)
    requires n <= |spans| && forall k :: 0 <= k < n ==> SpanValid(length, spans, k)
    ensures 0 <= CollapsedBefore(spans, n) <= EndBefore(spans, n)
  {
    if n > 0 {
      CollapsedFitsBefore(length, spans, n - 1);
      assert SpanValid(length, spans, n - 1);
    }
  }

  method ValidateFragmentPageReferences(markdown: string, spans: seq<Span>) returns (valid: bool)
    ensures valid <==> ValidSpans(|markdown|, spans)
  {
    var previousEnd, collapsed := 0, 0;
    for k := 0 to |spans|
      invariant previousEnd == EndBefore(spans, k)
      invariant collapsed == CollapsedBefore(spans, k)
      invariant forall j :: 0 <= j < k ==> SpanValid(|markdown|, spans, j)
    {
      CollapsedFitsBefore(|markdown|, spans, k);
      var s := spans[k];
      var index := if s.start < collapsed then 0 else s.start - collapsed;
      if s.start < previousEnd || s.start >= s.end || s.end > |markdown| || s.index != index {
        assert !SpanValid(|markdown|, spans, k);
        return false;
      }
      collapsed := collapsed + s.end - s.start - 1;
      previousEnd := s.end;
    }
    return true;
  }

  // ------------------------------------------------- spans and content determine each other

  lemma CollapsedOnPrefix(a: seq<Span>, b: seq<Span>, n: nat)
    requires n <= |a| && a <= b
    ensures CollapsedBefore(a, n) == CollapsedBefore(b, n)
  {
  }

  lemma ValidOnPrefix(length: nat, longer: nat, a: seq<Span>, b: seq<Span>, k: nat)
    requires k < |a| && a <= b && length <= longer && SpanValid(length, a, k)
    ensures SpanValid(longer, b, k)
  {
    CollapsedOnPrefix(a, b, k);
  }

  /** One more span at the end of the text. */
  lemma ExtendValid(length: nat, spans: seq<Span>, span: Span)
    requires ValidSpans(length, spans) && EndBefore(spans, |spans|) <= length
    requires span.start == length < span.end && span.index == length - CollapsedBefore(spans, |spans|)
    ensures ValidSpans(span.end, spans + [span])
    ensures CollapsedBefore(spans + [span], |spans| + 1) == CollapsedBefore(spans, |spans|) + span.end - span.start - 1
  {
    var after := spans + [span];
    CollapsedOnPrefix(spans, after, |spans|);
    forall k | 0 <= k < |after| ensures SpanValid(span.end, after, k) {
      if k < |spans| {
        ValidOnPrefix(length, span.end, spans, after, k);
      }
    }
  }

  lemma LongerIsValid(length: nat, longer: nat, spans: seq<Span>)
    requires ValidSpans(length, spans) && length <= longer
    ensures ValidSpans(longer, spans)
  {
    forall k | 0 <= k < |spans| ensures SpanValid(longer, spans, k) {
      ValidOnPrefix(length, longer, spans, spans, k);
    }
  }

  lemma {:induction false} SpansFit(atoms: seq<Atom>, title: string -> string)
    ensures ValidSpans(|MarkdownOf(atoms, title)|, SpansOf(atoms, title))
    ensures |MarkdownOf(atoms, title)| - CollapsedBefore(SpansOf(atoms, title), |SpansOf(atoms, title)|) == |atoms|
    ensures EndBefore(SpansOf(atoms, title), |SpansOf(atoms, title)|) <= |MarkdownOf(atoms, title)|
  {
    hide ValidSpans, SpansOf, MarkdownOf, ContentOf, CollapsedBefore, Extended;
    if atoms == [] {
      CollapseNothing(title);
    } else {
      var front, last := atoms[..|atoms| - 1], atoms[|atoms| - 1];
      assert atoms == front + [last];
      SpansFit(front, title);
      OneMoreAtom(front, last, title);
      var before := SpansOf(front, title);
      var length := |MarkdownOf(front, title)|;
      if last.Ref? {
        ExtendValid(length, before, SpanOf(front, last, title)[0]);
      } else {
        assert before + [] == before;
        LongerIsValid(length, length + 1, before);
      }
    }
  }

  /** Materialised spans always pass the fragment validator: each logical index is the
      display start less the widths collapsed before it. */
  lemma MaterializedSpansAreValid(segments: seq<Segment>, title: string -> string)
    ensures ValidSpans(|MarkdownOf(Logical(segments), title)|, SpansOf(Logical(segments), title))
  {
    SpansFit(Logical(segments), title);
  }

  /** Collapsing every span of a text to one reference. */
  function Collapse(markdown: string, spans: seq<Span>): seq<Inline>
    requires ValidSpans(|markdown|, spans)
    decreases |spans|
  {
    if spans == [] then Piece(markdown) else
      var last := spans[|spans| - 1];
      FrontIsValid(|markdown|, spans);
      Collapse(markdown[..last.start], spans[..|spans| - 1]) + [PageReference(last.page)] + Piece(markdown[last.end..])
  }

  lemma FrontIsValid(length: nat, spans: seq<Span>)
    requires ValidSpans(length, spans) && spans != []
    ensures spans[|spans| - 1].start < spans[|spans| - 1].end <= length
    ensures ValidSpans(spans[|spans| - 1].start, spans[..|spans| - 1])
  {
    var front, last := spans[..|spans| - 1], spans[|spans| - 1];
    assert SpanValid(length, spans, |front|);
    forall k | 0 <= k < |front| ensures SpanValid(last.start, front, k) {
      assert SpanValid(length, spans, k);
      EndsBefore(length, spans, k, |front|);
      CollapsedOnPrefix(front, spans, k);
    }
  }

  lemma {:induction false} EndsBefore(length: nat, spans: seq<Span>, j: nat, k: nat)
    requires ValidSpans(length, spans) && j < k < |spans|
    ensures spans[j].end <= spans[k].start
    decreases k - j
  {
    assert SpanValid(length, spans, k);
    if j + 1 < k {
      EndsBefore(length, spans, j, k - 1);
      assert SpanValid(length, spans, k - 1);
    }
  }

  lemma CollapseTyped(markdown: string, spans: seq<Span>, c: char)
    requires ValidSpans(|markdown|, spans) && ValidSpans(|markdown| + 1, spans)
    ensures Collapse(markdown + [c], spans) == Typed(Collapse(markdown, spans), c)
  {
    if spans == [] {
      TypedPiece([], markdown, c);
      assert [] + Piece(markdown) == Piece(markdown) && [] + Piece(markdown + [c]) == Piece(markdown + [c]);
    } else {
      var last := spans[|spans| - 1];
      FrontIsValid(|markdown|, spans);
      assert (markdown + [c])[..last.start] == markdown[..last.start];
      assert (markdown + [c])[last.end..] == markdown[last.end..] + [c];
      TypedPiece(Collapse(markdown[..last.start], spans[..|spans| - 1]) + [PageReference(last.page)], markdown[last.end..], c);
    }
  }

  lemma CollapseReference(markdown: string, shown: string, spans: seq<Span>, span: Span)
    requires ValidSpans(|markdown|, spans) && ValidSpans(|markdown| + |shown|, spans + [span])
    requires span.start == |markdown| && span.end == |markdown| + |shown|
    ensures Collapse(markdown + shown, spans + [span]) == Collapse(markdown, spans) + [PageReference(span.page)]
  {
    assert (spans + [span])[..|spans|] == spans;
    assert (markdown + shown)[..span.start] == markdown;
    assert (markdown + shown)[span.end..] == "";
  }

  /** Collapsing the materialised spans in the markdown recovers the inline content. */
  lemma {:induction false} CollapsingRecoversContent(atoms: seq<Atom>, title: string -> string)
    ensures ValidSpans(|MarkdownOf(atoms, title)|, SpansOf(atoms, title))
    ensures Collapse(MarkdownOf(atoms, title), SpansOf(atoms, title)) == ContentOf(atoms)
  {
    hide Collapse, ValidSpans, Display, Typed, SpansOf, MarkdownOf, ContentOf;
    SpansFit(atoms, title);
    if atoms == [] {
      CollapseNothing(title);
    } else {
      var front, last := atoms[..|atoms| - 1], atoms[|atoms| - 1];
      assert atoms == front + [last];
      CollapsingRecoversContent(front, title);
      OneMoreAtom(front, last, title);
      SpansFit(front, title);
      match last {
        case Char(c) =>
          assert Display(last, title) == [c] by { DisplayOf(last, title); }
          assert SpansOf(front, title) + [] == SpansOf(front, title);
          CollapseTyped(MarkdownOf(front, title), SpansOf(front, title), c);
        case Ref(page) =>
          var start := |MarkdownOf(front, title)|;
          var span := Span(start, start + |Display(last, title)|, |front|, page);
          CollapseReference(MarkdownOf(front, title), Display(last, title), SpansOf(front, title), span);
      }
    }
  }

  lemma CollapseNothing(title: string -> string)
    ensures MarkdownOf([], title) == "" && SpansOf([], title) == [] && CollapsedBefore([], 0) == 0
    ensures ValidSpans(|MarkdownOf([], title)|, SpansOf([], title))
    ensures Collapse(MarkdownOf([], title), SpansOf([], title)) == ContentOf([])
  {
  }

  lemma DisplayOf(atom: Atom, title: string -> string)
    ensures atom.Char? ==> Display(atom, title) == [atom.c]
  {
  }

  /** The logical text a content stands for. */
  function AtomsOf(content: seq<Inline>): seq<Atom> {
    if content == [] then [] else
      AtomsOf(content[..|content| - 1]) +
      match content[|content| - 1]
      case Markdown(value) => seq(|value|, i requires 0 <= i < |value| => Char(value[i]))
      case PageReference(page) => [Ref(page)]
  }

  /** Conversely the content determines the logical text, and with it markdown and spans. */
  lemma {:induction false} ContentDeterminesText(atoms: seq<Atom>)
    ensures AtomsOf(ContentOf(atoms)) == atoms
  {
    hide Typed, AtomsOf;
    if atoms == [] {
      NoAtoms();
    } else {
      var front, last := atoms[..|atoms| - 1], atoms[|atoms| - 1];
      assert atoms == front + [last];
      ContentDeterminesText(front);
      if last.Char? {
        TypedAtoms(ContentOf(front), last.c);
      } else {
        ReferenceAtoms(ContentOf(front), last.page);
      }
    }
  }

  lemma NoAtoms()
    ensures AtomsOf([]) == []
  {
  }

  lemma {:induction false} ReferenceAtoms(content: seq<Inline>, page: string)
    ensures AtomsOf(content + [PageReference(page)]) == AtomsOf(content) + [Ref(page)]
  {
    assert (content + [PageReference(page)])[..|content|] == content;
  }

  lemma {:induction false} TypedAtoms(content: seq<Inline>, c: char)
    ensures AtomsOf(Typed(content, c)) == AtomsOf(content) + [Char(c)]
  {
    if content != [] && content[|content| - 1].Markdown? {
      var front, value := content[..|content| - 1], content[|content| - 1].value;
      assert (front + [Markdown(value + [c])])[..|front|] == front;
    } else {
      assert (content + [Markdown([c])])[..|content|] == content;
    }
  }
}
