/**
 Materialised content read back position by position: what each logical position of a
 text is, what it displays as, and where each reference's span stands.
 */
module ReferenceFacts {
  import opened Records
  import opened References

  // ---------------------------------------------------------------- logical positions

  lemma {:induction false} LogicalJoins(a: seq<Segment>, b: seq<Segment>)
    ensures Logical(a + b) == Logical(a) + Logical(b)
    decreases |b|
  {
    hide AtomsIn;
    if b == [] {
      assert a + b == a;
    } else {
      LogicalJoins(a, b[..|b| - 1]);
      assert (a + b)[..|a + b| - 1] == a + b[..|b| - 1];
    }
  }

  /** Segment `s` of a text stands behind the characters of those before it, one position for
      each of its own: an ordinary character is itself, a marked reserved one a reference to
      the marked page, and an unmarked reserved one is replaced. */
  lemma PositionsAreTheText(segments: seq<Segment>, s: nat, i: nat)
    requires s < |segments| && i < |segments[s].text|
    ensures var at := |Logical(segments[..s])| + i;
      && at < |Logical(segments)| && |Logical(segments[..s + 1])| == |Logical(segments[..s])| + |segments[s].text|
      && (segments[s].text[i] != '\U{fffc}' ==> Logical(segments)[at] == Char(segments[s].text[i]))
      && (segments[s].text[i] == '\U{fffc}' && segments[s].page.Some? ==> Logical(segments)[at] == Ref(segments[s].page.value))
      && (segments[s].text[i] == '\U{fffc}' && segments[s].page.None? ==> Logical(segments)[at] == Char('\U{fffd}'))
  {
    var through, rest := segments[..s + 1], segments[s + 1..];
    assert segments == through + rest && through[..s] == segments[..s];
    LogicalJoins(through, rest);
  }

  // ----------------------------------------------------------------- what is displayed

  /** Where position `i` starts in the markdown. */
  function StartOf(atoms: seq<Atom>, title: string -> string, i: nat): nat
    requires i <= |atoms|
  {
    |MarkdownOf(atoms[..i], title)|
  }

  lemma {:induction false} MarkdownJoins(atoms: seq<Atom>, title: string -> string, i: nat)
    requires i <= |atoms|
    ensures MarkdownOf(atoms[..i], title) <= MarkdownOf(atoms, title)
    decreases |atoms|
  {
    hide Display;
    if i < |atoms| {
      MarkdownJoins(atoms[..|atoms| - 1], title, i);
      assert atoms[..|atoms| - 1][..i] == atoms[..i];
    } else {
      assert atoms[..i] == atoms;
    }
  }

  /** Position by position the markdown shows the character, or the page's title in double
      brackets; the pieces follow one another from the first to the end. */
  lemma PositionDisplays(atoms: seq<Atom>, title: string -> string, i: nat)
    requires i < |atoms|
    ensures var start, end := StartOf(atoms, title, i), StartOf(atoms, title, i + 1);
      && start <= end <= |MarkdownOf(atoms, title)|
      && (atoms[i].Char? ==> MarkdownOf(atoms, title)[start..end] == [atoms[i].c])
      && (atoms[i].Ref? ==> MarkdownOf(atoms, title)[start..end] == "[[" + title(atoms[i].page) + "]]")
    ensures StartOf(atoms, title, 0) == 0 && StartOf(atoms, title, |atoms|) == |MarkdownOf(atoms, title)|
  {
    hide MarkdownOf, SpansOf, ContentOf, SpanOf, Extended;
    MarkdownJoins(atoms, title, i + 1);
    OneMoreAtom(atoms[..i], atoms[i], title);
    assert atoms[..i + 1] == atoms[..i] + [atoms[i]];
    PieceAt(MarkdownOf(atoms, title), MarkdownOf(atoms[..i], title), Display(atoms[i], title));
    WholeMarkdown(atoms, title);
  }

  lemma PieceAt(whole: string, before: string, piece: string)
    requires before + piece <= whole
    ensures whole[|before|..|before| + |piece|] == piece
  {
    assert (before + piece)[|before|..] == piece;
  }

  lemma WholeMarkdown(atoms: seq<Atom>, title: string -> string)
    ensures StartOf(atoms, title, 0) == 0 && StartOf(atoms, title, |atoms|) == |MarkdownOf(atoms, title)|
  {
    hide MarkdownOf;
    EmptyMarkdown(title);
    assert atoms[..0] == [] && atoms[..|atoms|] == atoms;
  }

  lemma EmptyMarkdown(title: string -> string)
    ensures MarkdownOf([], title) == ""
  {
  }

  /** The span for the reference at position `i`. */
  function SpanFor(atoms: seq<Atom>, title: string -> string, i: nat): Span
    requires i < |atoms| && atoms[i].Ref?
  {
    Span(StartOf(atoms, title, i), StartOf(atoms, title, i + 1), i, atoms[i].page)
  }

  /** The spans are those of the references; with `PositionDisplays`, each covers exactly its
      page's title in double brackets. */
  lemma {:induction false} SpansAreTheReferences(atoms: seq<Atom>, title: string -> string, span: Span)
    ensures span in SpansOf(atoms, title) <==>
            exists i :: 0 <= i < |atoms| && atoms[i].Ref? && span == SpanFor(atoms, title, i)
    decreases |atoms|
  {
    hide MarkdownOf, SpanFor, SpanOf;
    if atoms != [] {
      var n := |atoms| - 1;
      var front := atoms[..n];
      SpansAreTheReferences(front, title, span);
      LastStart(atoms, title);
      forall i | 0 <= i < n && atoms[i].Ref? ensures SpanFor(front, title, i) == SpanFor(atoms, title, i) {
        SpanOnPrefix(atoms, title, n, i);
      }
      if i :| 0 <= i < n && front[i].Ref? && span == SpanFor(front, title, i) {
        assert atoms[i] == front[i];
      }
      if i :| 0 <= i < |atoms| && atoms[i].Ref? && span == SpanFor(atoms, title, i) {
        if i < n {
          assert front[i] == atoms[i];
        }
      }
    }
  }

  lemma SpanOnPrefix(atoms: seq<Atom>, title: string -> string, n: nat, i: nat)
    requires i < n <= |atoms| && atoms[i].Ref?
    ensures SpanFor(atoms[..n], title, i) == SpanFor(atoms, title, i)
  {
    hide MarkdownOf;
    assert atoms[..n][..i] == atoms[..i] && atoms[..n][..i + 1] == atoms[..i + 1];
  }

  /** One span for each reference, in their order. */
  lemma {:induction false} SpansAreInOrder(atoms: seq<Atom>, title: string -> string)
    ensures var spans := SpansOf(atoms, title);
      && (forall k :: 0 <= k < |spans| ==> spans[k].index < |atoms|)
      && (forall j, k :: 0 <= j < k < |spans| ==> spans[j].index < spans[k].index)
    decreases |atoms|
  {
    hide MarkdownOf, SpansOf, ContentOf, Extended;
    if atoms == [] {
      NoSpans(title);
    } else {
      var front, last := atoms[..|atoms| - 1], atoms[|atoms| - 1];
      SpansAreInOrder(front, title);
      LastStart(atoms, title);
      OneMoreAtom(front, last, title);
      assert atoms == front + [last];
      OneMoreInOrder(SpansOf(front, title), SpanOf(front, last, title), |front|);
    }
  }

  lemma NoSpans(title: string -> string)
    ensures SpansOf([], title) == []
  {
  }

  lemma OneMoreInOrder(earlier: seq<Span>, more: seq<Span>, n: nat)
    requires |more| <= 1 && (more != [] ==> more[0].index == n)
    requires forall k :: 0 <= k < |earlier| ==> earlier[k].index < n
    requires forall j, k :: 0 <= j < k < |earlier| ==> earlier[j].index < earlier[k].index
    ensures var spans := earlier + more;
      && (forall k :: 0 <= k < |spans| ==> spans[k].index < n + 1)
      && (forall j, k :: 0 <= j < k < |spans| ==> spans[j].index < spans[k].index)
  {
  }

  lemma LastStart(atoms: seq<Atom>, title: string -> string)
    requires atoms != []
    ensures var n := |atoms| - 1;
            SpanOf(atoms[..n], atoms[n], title) == if atoms[n].Ref? then [SpanFor(atoms, title, n)] else []
  {
    hide MarkdownOf;
    var n := |atoms| - 1;
    OneMoreAtom(atoms[..n], atoms[n], title);
    assert atoms[..n + 1] == atoms[..n] + [atoms[n]];
  }

  // --------------------------------------------------------------------- the validator

  function Positions(content: seq<Inline>): nat {
    if content == [] then 0 else
      Positions(content[..|content| - 1]) +
      match content[|content| - 1]
      case Markdown(value) => |value|
      case PageReference(_) => 1
  }

  lemma {:induction false} PositionsJoin(a: seq<Inline>, b: seq<Inline>)
    ensures Positions(a + b) == Positions(a) + Positions(b)
    decreases |b|
  {
    if b == [] {
      assert a + b == a;
    } else {
      PositionsJoin(a, b[..|b| - 1]);
      assert (a + b)[..|a + b| - 1] == a + b[..|b| - 1];
    }
  }

  lemma PieceCounts(text: string)
    ensures Positions(Piece(text)) == |text|
  {
    if text != "" {
      assert Positions([Markdown(text)][..0]) == 0;
    }
  }

  lemma ReferenceCounts(page: string)
    ensures Positions([PageReference(page)]) == 1
  {
    assert Positions([PageReference(page)][..0]) == 0;
  }

  lemma {:induction false} CollapsedLength(markdown: string, spans: seq<Span>)
    requires ValidSpans(|markdown|, spans)
    ensures Positions(Collapse(markdown, spans)) == |markdown| - CollapsedBefore(spans, |spans|)
    decreases |spans|
  {
    hide Positions, ValidSpans, Piece;
    if spans == [] {
      PieceCounts(markdown);
      CollapsedNothing(markdown);
    } else {
      var front, last := spans[..|spans| - 1], spans[|spans| - 1];
      FrontIsValid(|markdown|, spans);
      CollapsedLength(markdown[..last.start], front);
      CollapsedOnPrefix(front, spans, |front|);
      PositionsJoin(Collapse(markdown[..last.start], front), [PageReference(last.page)]);
      PositionsJoin(Collapse(markdown[..last.start], front) + [PageReference(last.page)], Piece(markdown[last.end..]));
      ReferenceCounts(last.page);
      PieceCounts(markdown[last.end..]);
    }
  }

  lemma CollapsedNothing(markdown: string)
    ensures CollapsedBefore([], 0) == 0
  {
  }

  /** Spans the validator accepts say where their references stand: the index of each is the
      number of positions in the content that collapsing the text before it gives. */
  lemma ValidIndexIsThePosition(markdown: string, spans: seq<Span>, k: nat)
    requires ValidSpans(|markdown|, spans) && k < |spans|
    ensures spans[k].start < spans[k].end <= |markdown| && ValidSpans(spans[k].start, spans[..k])
    ensures spans[k].index == Positions(Collapse(markdown[..spans[k].start], spans[..k]))
  {
    hide Collapse;
    PrefixIsValid(|markdown|, spans, k + 1);
    var upto := spans[..k + 1];
    FrontIsValid(|markdown|, upto);
    assert upto[..k] == spans[..k];
    assert SpanValid(|markdown|, spans, k);
    CollapsedLength(markdown[..spans[k].start], spans[..k]);
    CollapsedOnPrefix(spans[..k], spans, k);
  }

  lemma PrefixIsValid(length: nat, spans: seq<Span>, n: nat)
    requires ValidSpans(length, spans) && n <= |spans|
    ensures ValidSpans(length, spans[..n])
  {
    forall k | 0 <= k < n ensures SpanValid(length, spans[..n], k) {
      assert SpanValid(length, spans, k);
      CollapsedOnPrefix(spans[..n], spans, k);
    }
  }
}
