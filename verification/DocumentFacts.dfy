/**
 What a valid causal document is, said of what its homes hold: every reference it makes
 resolves, every reserved character is a reference, and every identity is in one home.
 */
module DocumentFacts {
  import opened Records
  import opened CausalValidation

  /** A block's text as a segment list, where the block still has its metadata. */
  ghost predicate HasText(doc: Doc, home: Home, id: string, n: nat, text: seq<Segment>) {
    && HasNode(doc, home, id, n)
    && var block := In(doc, home)[id].outline.value.blocks[n];
    block.meta.Some? && block.meta.value.content == Some(text)
  }

  /** Every block is a deleted leftover without metadata, or has fields that are valid
      and a text. */
  ghost predicate BlocksComplete(rules: Rules, doc: Doc) {
    forall home, id, n :: HasNode(doc, home, id, n) ==>
      var block := In(doc, home)[id].outline.value.blocks[n];
      if block.meta.None? then block.deleted else rules.block(block.meta.value.fields) && block.meta.value.content.Some?
  }

  /** An insert: a marked one is nothing but reserved characters and names, validly, a
      document some home stores; an unmarked one holds no reserved character. */
  ghost predicate Resolves(rules: Rules, doc: Doc, segment: Segment) {
    && (segment.Plain? || segment.Marked?)
    && (segment.Plain? ==> forall k :: 0 <= k < |segment.text| ==> segment.text[k] != PAGE_REFERENCE_CHAR)
    && (segment.Marked? ==>
          && (forall k :: 0 <= k < |segment.text| ==> segment.text[k] == PAGE_REFERENCE_CHAR)
          && rules.pageId(segment.reference)
          && exists other :: segment.reference in In(doc, other))
  }

  ghost predicate ReferencesResolve(rules: Rules, doc: Doc) {
    forall home, id, n, text: seq<Segment>, i :: HasText(doc, home, id, n, text) && 0 <= i < |text| ==>
      Resolves(rules, doc, text[i])
  }

  /** Every stored value is a document record under an identity its home allows, with an
      outline and a valid header, and no other home holds its identity. */
  ghost predicate RecordsComplete(rules: Rules, doc: Doc) {
    forall home, id :: id in In(doc, home) ==>
      && rules.documentId(home, id)
      && In(doc, home)[id].Record? && In(doc, home)[id].outline.Some?
      && rules.header(home, id, In(doc, home)[id].fields, In(doc, home)[id].children - {"outline"})
      && forall other :: id in In(doc, other) ==> other == home
  }

  /** Whole-document validation accepts exactly these documents. */
  lemma ValidIff(rules: Rules, doc: Doc)
    ensures CausalDocumentValid(rules, doc) <==>
      && rules.metadata(doc.meta) && rules.settings(doc.settings)
      && RecordsComplete(rules, doc) && BlocksComplete(rules, doc) && ReferencesResolve(rules, doc)
  {
    if CausalDocumentValid(rules, doc) {
      ValidIsComplete(rules, doc);
      ValidResolves(rules, doc);
    }
    if RecordsComplete(rules, doc) && BlocksComplete(rules, doc) && ReferencesResolve(rules, doc) {
      forall home, id | id in In(doc, home) ensures Single(doc, id) && DocumentValid(rules, doc, home, id) {
        CompleteIsValid(rules, doc, home, id);
      }
      HomesAreValid(rules, doc);
    }
  }

  lemma HomesAreValid(rules: Rules, doc: Doc)
    requires forall home, id :: id in In(doc, home) ==> Single(doc, id) && DocumentValid(rules, doc, home, id)
    ensures HomeValid(rules, doc, Entities) && HomeValid(rules, doc, Pages) && HomeValid(rules, doc, Tags)
  {
  }

  lemma OneHome(rules: Rules, doc: Doc, home: Home, id: string)
    requires CausalDocumentValid(rules, doc) && id in In(doc, home)
    ensures Single(doc, id) && DocumentValid(rules, doc, home, id)
  {
    assert HomeValid(rules, doc, home);
  }

  lemma ValidIsComplete(rules: Rules, doc: Doc)
    requires CausalDocumentValid(rules, doc)
    ensures RecordsComplete(rules, doc) && BlocksComplete(rules, doc)
  {
    hide CausalDocumentValid, SegmentValid, In;
    forall home, id | id in In(doc, home)
      ensures rules.documentId(home, id) && In(doc, home)[id].Record? && In(doc, home)[id].outline.Some?
      ensures rules.header(home, id, In(doc, home)[id].fields, In(doc, home)[id].children - {"outline"})
      ensures forall other :: id in In(doc, other) ==> other == home
    {
      OneHome(rules, doc, home, id);
    }
    forall home, id, n | HasNode(doc, home, id, n) ensures BlockValid(rules, doc, In(doc, home)[id].outline.value.blocks[n]) {
      OneHome(rules, doc, home, id);
    }
  }

  lemma ValidResolves(rules: Rules, doc: Doc)
    requires CausalDocumentValid(rules, doc)
    ensures ReferencesResolve(rules, doc)
  {
    hide CausalDocumentValid, Resolves, SegmentValid, In;
    forall home, id, n, text: seq<Segment>, i | HasText(doc, home, id, n, text) && 0 <= i < |text|
      ensures Resolves(rules, doc, text[i])
    {
      OneHome(rules, doc, home, id);
      assert BlockValid(rules, doc, In(doc, home)[id].outline.value.blocks[n]);
      assert text[i] in text;
      ValidSegmentResolves(rules, doc, text[i]);
    }
  }

  lemma ValidSegmentResolves(rules: Rules, doc: Doc, segment: Segment)
    ensures SegmentValid(rules, doc, segment) <==> Resolves(rules, doc, segment)
  {
    if segment.Marked? {
      StoredSomewhere(doc, segment.reference);
      EachAt(segment.text);
    }
  }

  lemma EachAt(text: seq<char>)
    ensures (forall c :: c in text ==> c == PAGE_REFERENCE_CHAR) <==>
            forall k :: 0 <= k < |text| ==> text[k] == PAGE_REFERENCE_CHAR
  {
    if forall c :: c in text ==> c == PAGE_REFERENCE_CHAR {
      forall k | 0 <= k < |text| ensures text[k] == PAGE_REFERENCE_CHAR {
        assert text[k] in text;
      }
    }
  }

  lemma StoredSomewhere(doc: Doc, id: string)
    ensures Contains(doc, id) <==> exists home :: id in In(doc, home)
  {
    assert id in doc.entities <==> id in In(doc, Entities);
    assert id in doc.pages <==> id in In(doc, Pages);
    assert id in doc.tags <==> id in In(doc, Tags);
  }

  lemma CompleteIsValid(rules: Rules, doc: Doc, home: Home, id: string)
    requires RecordsComplete(rules, doc) && BlocksComplete(rules, doc) && ReferencesResolve(rules, doc)
    requires id in In(doc, home)
    ensures Single(doc, id) && DocumentValid(rules, doc, home, id)
  {
    hide ReferencesResolve, SegmentValid;
    var blocks := In(doc, home)[id].outline.value.blocks;
    forall n | n in blocks ensures BlockValid(rules, doc, blocks[n]) {
      assert HasNode(doc, home, id, n);
      if blocks[n].meta.Some? {
        forall segment | segment in blocks[n].meta.value.content.value ensures SegmentValid(rules, doc, segment) {
          ResolvedIsValid(rules, doc, home, id, n, segment);
        }
      }
    }
  }

  lemma ResolvedIsValid(rules: Rules, doc: Doc, home: Home, id: string, n: nat, segment: Segment)
    requires ReferencesResolve(rules, doc) && HasNode(doc, home, id, n)
    requires var block := In(doc, home)[id].outline.value.blocks[n];
             block.meta.Some? && block.meta.value.content.Some? && segment in block.meta.value.content.value
    ensures SegmentValid(rules, doc, segment)
  {
    var text := In(doc, home)[id].outline.value.blocks[n].meta.value.content.value;
    var i :| 0 <= i < |text| && text[i] == segment;
    assert HasText(doc, home, id, n, text);
    ValidSegmentResolves(rules, doc, segment);
  }
}
