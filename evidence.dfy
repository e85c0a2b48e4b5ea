/** The evidence span of the ingested claim: the byte offsets, in the UTF-8
    encoding of the document, of the first occurrence of the supporting
    sentence (demo/hello-world.mjs, the `sentIdx`/`sentStart`/`sentEnd`
    computation before ingestion). */
module Evidence {
  import opened Wrappers
  import opened Text
  import opened Utf8

  /** Byte offsets `start_pos` and `end_pos` sent with the claim. */
  datatype Span = Span(start: nat, end: nat)

  /** The sentence does not occur in the document. */
  datatype EvidenceError = MissingSentence

  /** The byte offsets of an occurrence lie within the encoded document. */
  lemma OccurrenceWithin(doc: string, sentence: string, i: nat)
    requires OccursAt(doc, sentence, i)
    ensures ByteLength(doc[..i]) + ByteLength(sentence) <= ByteLength(doc)
  {
    var pre, post := doc[..i], doc[i + |sentence|..];
    assert doc == pre + sentence + post;
    ByteLengthConcat(pre + sentence, post);
    ByteLengthConcat(pre, sentence);
  }

  /** The bytes of the document between the two offsets of an occurrence are
      exactly the bytes of the sentence. */
  lemma OccurrenceBytes(doc: string, sentence: string, i: nat)
    requires OccursAt(doc, sentence, i)
    ensures ByteLength(doc[..i]) + ByteLength(sentence) <= ByteLength(doc)
    ensures Encode(doc)[ByteLength(doc[..i])..ByteLength(doc[..i]) + ByteLength(sentence)]
            == Encode(sentence)
  {
    var pre, post := doc[..i], doc[i + |sentence|..];
    assert doc == pre + sentence + post;
    EncodeConcat(pre + sentence, post);
    EncodeConcat(pre, sentence);
  }

  /** `indexOf` the sentence, then `Buffer.byteLength` of the prefix before it
      and of the sentence. Fails exactly when the sentence does not occur;
      otherwise the start offset is the byte length of the text before the
      index `indexOf` reports, and the offsets lie within the encoded document
      as far apart as the sentence is long in bytes. */
  function SentenceSpan(doc: string, sentence: string): (r: Result<Span, EvidenceError>)
    ensures r.Err? <==> forall j :: !OccursAt(doc, sentence, j)
    ensures r.Ok? ==> r.value.start <= r.value.end <= ByteLength(doc)
    ensures r.Ok? ==> r.value.end - r.value.start == ByteLength(sentence)
    ensures r.Ok? ==> IndexOf(doc, sentence).Some? && IndexOf(doc, sentence).value <= |doc|
                      && r.value.start == ByteLength(doc[..IndexOf(doc, sentence).value])
  {
    match IndexOf(doc, sentence)
    case None => Err(MissingSentence)
    case Some(i) =>
      var start := ByteLength(doc[..i]);
      OccurrenceWithin(doc, sentence, i);
      Ok(Span(start, start + ByteLength(sentence)))
  }

  /** The span delimits the sentence's own bytes inside the encoded document,
      so that a reader of the UTF-8 bytes finds exactly the sentence there. */
  lemma SentenceSpanBytes(doc: string, sentence: string)
    ensures var r := SentenceSpan(doc, sentence);
            r.Ok? ==> Encode(doc)[r.value.start..r.value.end] == Encode(sentence)
  {
    var r := SentenceSpan(doc, sentence);
    if r.Ok? {
      var i := IndexOf(doc, sentence).value;
      OccurrenceBytes(doc, sentence, i);
      assert r.value.start == ByteLength(doc[..i]);
    }
  }

  /** When the first occurrence is at character index `i`, the start offset is
      the byte length of the `i` characters before it: never less than `i`,
      and more than `i` exactly when one of them is not ASCII. */
  lemma SentenceSpanAtFirstOccurrence(doc: string, sentence: string, i: nat)
    requires OccursAt(doc, sentence, i)
    requires forall j :: 0 <= j < i ==> !OccursAt(doc, sentence, j)
    ensures SentenceSpan(doc, sentence)
            == Ok(Span(ByteLength(doc[..i]), ByteLength(doc[..i]) + ByteLength(sentence)))
    ensures i <= SentenceSpan(doc, sentence).value.start
    ensures i < SentenceSpan(doc, sentence).value.start <==> !IsAscii(doc[..i])
  {
    IndexOfFirstOccurrence(doc, sentence, i);
    ByteLengthAscii(doc[..i]);
  }

  /** A sentence preceded by two accented letters and a space (as in
      `"áé The demo launch code is: X."`): the start offset is five bytes,
      while the sentence starts at character index three. */
  lemma MultiBytePrefixOffset(sentence: string)
    requires sentence != [] && sentence[0] as int < 0x80 && sentence[0] != ' '
    ensures SentenceSpan("\U{E1}\U{E9} " + sentence, sentence) == Ok(Span(5, 5 + ByteLength(sentence)))
  {
    var prefix := "\U{E1}\U{E9} ";
    var doc := prefix + sentence;
    assert doc[..3] == prefix;
    assert doc[3..3 + |sentence|] == sentence;
    forall j | 0 <= j < 3 ensures !OccursAt(doc, sentence, j) {
      assert doc[j] == prefix[j] != sentence[0];
      assert j + |sentence| <= |doc| ==> doc[j..j + |sentence|][0] == doc[j];
    }
    assert ByteLength(prefix) == 5 by {
      assert prefix[1..][1..][1..] == [];
    }
    SentenceSpanAtFirstOccurrence(doc, sentence, 3);
  }
}
