/** Citation verification, the last stage of the demo: choose a passage of
    the evidence-span context, correlate it with a citation, check the
    citation's declared SHA-256, fetch the decoded span and compare its hash
    with the declared one.

    JSON arrays of passages and citations are sequences of `Option`s: `None`
    is an element that is falsy in JavaScript (`null`, say), so that
    `find(...) || xs[0] || null` behaves as it does there. A field read as
    `String(x?.f ?? "")` is the string it yields (empty when absent). The
    decode endpoint and SHA-256 are parameters: `decode(pid)` is the response
    to `GET /decode?passage_id=pid`, and `sha256Hex` maps bytes to the
    lower-case hex digest. */
module CitationVerifier {
  import opened Wrappers
  import opened Text
  import opened Utf8

  datatype Passage = Passage(passageId: string, ref: string, text: string)

  datatype Citation = Citation(ref: string, passageId: string, sha256: string)

  /** The response of the decode endpoint: `res.ok`, the status code, and the
      `encoding` and `text` fields as strings. */
  datatype DecodeResponse = DecodeResponse(ok: bool, status: int, encoding: string, text: string)

  /** Each error the stage can throw. */
  datatype VerifyError =
    | NoPassages
    | MissingPassageId
    | NoMatchingCitation
    | MissingSha
    | DecodeRejected(status: int)
    | NotUtf8Text(encoding: string)
    | ShaMismatch(expected: string, got: string)

  /** `findIndex` from index `k`: the first index at or after `k` whose
      element satisfies `p`. */
  function FindIndex<T>(s: seq<T>, p: T -> bool, k: nat): (r: Option<nat>)
    decreases |s| - k
    ensures r.Some? ==> k <= r.value < |s| && p(s[r.value])
    ensures r.Some? ==> forall j :: k <= j < r.value ==> !p(s[j])
    ensures r.None? ==> forall j :: k <= j < |s| ==> !p(s[j])
  {
    if k >= |s| then None
    else if p(s[k]) then Some(k)
    else FindIndex(s, p, k + 1)
  }

  /** `s.find(p)` read as a truth value: the element found, unless none is
      found or the one found is falsy. */
  function FindElement<T>(s: seq<Option<T>>, p: Option<T> -> bool): (r: Option<T>)
    ensures r.Some? ==> Some(r.value) in s && p(Some(r.value))
    ensures forall k :: 0 <= k < |s| && p(s[k]) && (forall j :: 0 <= j < k ==> !p(s[j]))
              ==> r == s[k]
    ensures (forall k :: 0 <= k < |s| ==> !p(s[k])) ==> r.None?
  {
    match FindIndex(s, p, 0)
    case None => None
    case Some(k) => s[k]
  }

  function TextOf(e: Option<Passage>): string {
    if e.Some? then e.value.text else ""
  }

  /** The passage's lower-cased text contains the answer. */
  predicate MentionsAnswer(e: Option<Passage>, answer: string) {
    Contains(ToLowerAscii(TextOf(e)), answer)
  }

  /** Choosing the passage to verify: the first one that mentions the answer,
      otherwise the first one; an error when the list is empty (or its first
      element is falsy and no passage mentions the answer). */
  function ChoosePassage(passages: seq<Option<Passage>>, answer: string): (r: Result<Passage, VerifyError>)
    ensures r.Ok? ==> Some(r.value) in passages
    ensures r.Err? ==> r.error == NoPassages && (|passages| == 0 || passages[0].None?)
    ensures |passages| == 0 ==> r == Err(NoPassages)
    ensures forall k :: 0 <= k < |passages| && passages[k].Some? && MentionsAnswer(passages[k], answer)
              && (forall j :: 0 <= j < k ==> !MentionsAnswer(passages[j], answer))
              ==> r == Ok(passages[k].value)
    ensures (forall k :: 0 <= k < |passages| ==> !MentionsAnswer(passages[k], answer)) ==>
              r == if |passages| > 0 && passages[0].Some? then Ok(passages[0].value) else Err(NoPassages)
  {
    match FindElement(passages, e => MentionsAnswer(e, answer))
    case Some(p) => Ok(p)
    case None =>
      if |passages| > 0 && passages[0].Some? then Ok(passages[0].value) else Err(NoPassages)
  }

  /** The trimmed passage id and reference of the chosen passage. */
  datatype Keys = Keys(pid: string, ref: string)

  /** A chosen passage whose trimmed `passage_id` is empty is an error. */
  function PassageKeys(p: Passage): (r: Result<Keys, VerifyError>)
    ensures r.Err? <==> Trim(p.passageId) == []
    ensures r.Err? ==> r.error == MissingPassageId
    ensures r.Ok? ==> r.value == Keys(Trim(p.passageId), Trim(p.ref))
  {
    var pid := Trim(p.passageId);
    if pid == [] then Err(MissingPassageId) else Ok(Keys(pid, Trim(p.ref)))
  }

  function CitationPid(e: Option<Citation>): string {
    if e.Some? then Trim(e.value.passageId) else ""
  }

  function CitationRef(e: Option<Citation>): string {
    if e.Some? then Trim(e.value.ref) else ""
  }

  /** Correlating the chosen passage with a citation: the first citation whose
      trimmed `passage_id` equals the passage id; failing that, the first whose
      trimmed `ref` equals the passage's reference; failing both, an error. */
  function ChooseCitation(citations: seq<Option<Citation>>, keys: Keys): (r: Result<Citation, VerifyError>)
    ensures r.Ok? ==> Some(r.value) in citations
    ensures r.Ok? ==> Trim(r.value.passageId) == keys.pid || Trim(r.value.ref) == keys.ref
    ensures r.Err? ==> r.error == NoMatchingCitation
    ensures keys.pid != [] ==>
              forall k :: 0 <= k < |citations| && CitationPid(citations[k]) == keys.pid
                && (forall j :: 0 <= j < k ==> CitationPid(citations[j]) != keys.pid)
                ==> r == Ok(citations[k].value)
    ensures keys.pid != [] && (forall k :: 0 <= k < |citations| ==> CitationPid(citations[k]) != keys.pid) ==>
              forall k :: 0 <= k < |citations| && CitationRef(citations[k]) == keys.ref
                && (forall j :: 0 <= j < k ==> CitationRef(citations[j]) != keys.ref)
                ==> r == if citations[k].Some? then Ok(citations[k].value) else Err(NoMatchingCitation)
    ensures (forall k :: 0 <= k < |citations| ==>
               CitationPid(citations[k]) != keys.pid && CitationRef(citations[k]) != keys.ref)
              ==> r == Err(NoMatchingCitation)
  {
    match FindElement(citations, e => CitationPid(e) == keys.pid)
    case Some(c) => Ok(c)
    case None =>
      match FindElement(citations, e => CitationRef(e) == keys.ref)
      case Some(c) => Ok(c)
      case None => Err(NoMatchingCitation)
  }

  /** As written, a chosen passage with a blank reference is correlated with
      the first citation whose reference is blank too, though nothing ties
      the two together. */
  lemma BlankRefMatchesUnrelatedCitation(pid: string, c: Citation)
    requires pid != [] && Trim(c.ref) == [] && Trim(c.passageId) != pid
    ensures ChooseCitation([Some(c)], Keys(pid, "")) == Ok(c)
  {
    assert CitationPid([Some(c)][0]) != pid;
    assert CitationRef([Some(c)][0]) == "";
  }

  /** Correlation as evidently intended: the fallback by reference applies
      only when the passage has a non-blank reference. A chosen citation then
      always names the passage's id or its actual reference. */
  function ChooseCitationByNonBlankRef(citations: seq<Option<Citation>>, keys: Keys)
    : (r: Result<Citation, VerifyError>)
    ensures r.Ok? ==> Some(r.value) in citations
    ensures r.Ok? ==> Trim(r.value.passageId) == keys.pid || (keys.ref != [] && Trim(r.value.ref) == keys.ref)
    ensures r.Err? ==> r.error == NoMatchingCitation
    ensures keys.ref != [] ==> r == ChooseCitation(citations, keys)
    ensures keys.ref == [] ==>
              (forall k :: 0 <= k < |citations| ==> CitationPid(citations[k]) != keys.pid) ==>
                r == Err(NoMatchingCitation)
  {
    if keys.ref != [] then ChooseCitation(citations, keys)
    else
      match FindElement(citations, e => CitationPid(e) == keys.pid)
      case Some(c) => Ok(c)
      case None => Err(NoMatchingCitation)
  }

  /** The declared hash, trimmed, must be at least 16 UTF-16 code units long
      (JavaScript's `length`); its characters are not checked to be hex. */
  function ExpectedSha(c: Citation): (r: Result<string, VerifyError>)
    ensures r.Ok? <==> 16 <= Utf16Length(Trim(c.sha256))
    ensures r.Ok? ==> r.value == Trim(c.sha256) && 8 <= |r.value|
    ensures r.Err? ==> r.error == MissingSha
  {
    var sha := Trim(c.sha256);
    if sha == [] || Utf16Length(sha) < 16 then Err(MissingSha) else Ok(sha)
  }

  /** The decoded span: a rejected request is an error, and so is any
      encoding other than exactly "utf8" or an empty text. */
  function DecodedText(resp: DecodeResponse): (r: Result<string, VerifyError>)
    ensures r.Ok? <==> resp.ok && resp.encoding == "utf8" && resp.text != []
    ensures r.Ok? ==> r.value == resp.text
    ensures !resp.ok ==> r == Err(DecodeRejected(resp.status))
    ensures resp.ok && r.Err? ==> r == Err(NotUtf8Text(resp.encoding))
  {
    if !resp.ok then Err(DecodeRejected(resp.status))
    else if resp.encoding != "utf8" || resp.text == [] then Err(NotUtf8Text(resp.encoding))
    else Ok(resp.text)
  }

  /** The chosen passage, its trimmed id and the citation correlated with it. */
  datatype Correlated = Correlated(passage: Passage, pid: string, citation: Citation)

  /** Steps one and two: choose the passage, then the citation. Each step's
      failure is reported with its own error, in order; when neither fails,
      the result is the passage `ChoosePassage` picks, its trimmed id and the
      citation `ChooseCitation` picks for that id and reference. So both are
      elements of their lists, the passage id is non-empty and the citation
      names that id or the passage's reference. */
  function Correlate(passages: seq<Option<Passage>>, citations: seq<Option<Citation>>, answer: string)
    : (r: Result<Correlated, VerifyError>)
    ensures r.Err? ==> r.error == NoPassages || r.error == MissingPassageId || r.error == NoMatchingCitation
    ensures r.Ok? ==> Some(r.value.passage) in passages && Some(r.value.citation) in citations
    ensures r.Ok? ==> r.value.pid == Trim(r.value.passage.passageId) && r.value.pid != []
    ensures r.Ok? ==> Trim(r.value.citation.passageId) == r.value.pid
                      || Trim(r.value.citation.ref) == Trim(r.value.passage.ref)
    ensures var chosen := ChoosePassage(passages, answer);
            && (chosen.Err? ==> r == Err(NoPassages))
            && (chosen.Ok? && Trim(chosen.value.passageId) == [] ==> r == Err(MissingPassageId))
            && (chosen.Ok? && Trim(chosen.value.passageId) != [] ==>
                  var keys := Keys(Trim(chosen.value.passageId), Trim(chosen.value.ref));
                  match ChooseCitation(citations, keys)
                  case Err(_) => r == Err(NoMatchingCitation)
                  case Ok(citation) => r == Ok(Correlated(chosen.value, keys.pid, citation)))
  {
    match ChoosePassage(passages, answer)
    case Err(e) => Err(e)
    case Ok(passage) =>
      match PassageKeys(passage)
      case Err(e) => Err(e)
      case Ok(keys) =>
        match ChooseCitation(citations, keys)
        case Err(e) => Err(e)
        case Ok(citation) => Ok(Correlated(passage, keys.pid, citation))
  }

  /** Everything the hash comparison needs, as the earlier steps produce it. */
  datatype Prepared = Prepared(passage: Passage, pid: string, citation: Citation, expected: string, text: string)

  /** Steps three and four, after a correlation: declared hash, then decoded
      text. An earlier error is passed on unchanged. Otherwise a declared
      hash shorter than 16 code units gives `MissingSha`; then a rejected
      decode gives its status, and a decode that is not "utf8" or has an
      empty text gives its encoding; never a mismatch, since no hash is
      computed. When both checks pass the result carries the correlated
      passage and citation, the trimmed declared hash and the decoded text. */
  function Complete(correlated: Result<Correlated, VerifyError>, decode: string -> DecodeResponse)
    : (r: Result<Prepared, VerifyError>)
    ensures correlated.Err? ==> r == Err(correlated.error)
    ensures correlated.Ok? && r.Err? ==>
              r.error == MissingSha || r.error.DecodeRejected? || r.error.NotUtf8Text?
    ensures r.Ok? ==> correlated == Ok(Correlated(r.value.passage, r.value.pid, r.value.citation))
    ensures r.Ok? ==> r.value.expected == Trim(r.value.citation.sha256)
                      && 16 <= Utf16Length(r.value.expected)
    ensures r.Ok? ==> decode(r.value.pid).ok && decode(r.value.pid).encoding == "utf8"
                      && r.value.text == decode(r.value.pid).text && r.value.text != []
    ensures correlated.Ok? ==>
              var c := correlated.value;
              var sha := Trim(c.citation.sha256);
              var resp := decode(c.pid);
              && (Utf16Length(sha) < 16 ==> r == Err(MissingSha))
              && (16 <= Utf16Length(sha) && !resp.ok ==> r == Err(DecodeRejected(resp.status)))
              && (16 <= Utf16Length(sha) && resp.ok && (resp.encoding != "utf8" || resp.text == [])
                  ==> r == Err(NotUtf8Text(resp.encoding)))
              && (16 <= Utf16Length(sha) && resp.ok && resp.encoding == "utf8" && resp.text != []
                  ==> r == Ok(Prepared(c.passage, c.pid, c.citation, sha, resp.text)))
  {
    match correlated
    case Err(e) => Err(e)
    case Ok(c) =>
      match ExpectedSha(c.citation)
      case Err(e) => Err(e)
      case Ok(expected) =>
        match DecodedText(decode(c.pid))
        case Err(e) => Err(e)
        case Ok(text) => Ok(Prepared(c.passage, c.pid, c.citation, expected, text))
  }

  /** Steps one to four: passage, citation, declared hash, decoded text. No
      hash is computed, so no error here is a mismatch. They succeed exactly
      when the correlation succeeds, the declared hash passes its length
      check and the decode is an ok, non-empty "utf8" text; the result then
      carries the correlated passage and citation, the trimmed declared hash
      and the decoded text. */
  function Prepare(passages: seq<Option<Passage>>, citations: seq<Option<Citation>>, answer: string,
                   decode: string -> DecodeResponse): (r: Result<Prepared, VerifyError>)
    ensures r.Err? ==> !r.error.ShaMismatch?
    ensures Correlate(passages, citations, answer).Err? ==> r == Err(Correlate(passages, citations, answer).error)
    ensures r.Ok? <==>
              var c := Correlate(passages, citations, answer);
              && c.Ok?
              && 16 <= Utf16Length(Trim(c.value.citation.sha256))
              && decode(c.value.pid).ok && decode(c.value.pid).encoding == "utf8"
              && decode(c.value.pid).text != []
    ensures r.Ok? ==> && Correlate(passages, citations, answer)
                           == Ok(Correlated(r.value.passage, r.value.pid, r.value.citation))
                      && r.value.expected == Trim(r.value.citation.sha256)
                      && r.value.text == decode(r.value.pid).text
  {
    Complete(Correlate(passages, citations, answer), decode)
  }

  /** A verified span: the passage, its citation and the decoded text whose
      hash matched. */
  datatype Verified = Verified(passage: Passage, citation: Citation, text: string)

  /** The verification stage as the demo runs it, one guarded step after the
      other. Any failure of the first four steps is reported as it is,
      without a hash being compared; after them, verification succeeds
      exactly when SHA-256 of the UTF-8 bytes of the decoded text equals the
      declared hash, and otherwise fails with a mismatch naming both. */
  method VerifyCitation(passages: seq<Option<Passage>>, citations: seq<Option<Citation>>, answer: string,
                        decode: string -> DecodeResponse, sha256Hex: seq<byte> -> string)
    returns (r: Result<Verified, VerifyError>)
    ensures var prep := Prepare(passages, citations, answer, decode);
      prep.Err? ==> r == Err(prep.error)
    ensures var prep := Prepare(passages, citations, answer, decode);
      prep.Ok? ==>
        && (r.Ok? <==> sha256Hex(Encode(prep.value.text)) == prep.value.expected)
        && (r.Ok? ==> r.value == Verified(prep.value.passage, prep.value.citation, prep.value.text))
        && (r.Err? ==> r.error == ShaMismatch(prep.value.expected, sha256Hex(Encode(prep.value.text))))
    ensures r.Ok? ==> Some(r.value.passage) in passages && Some(r.value.citation) in citations
    ensures r.Ok? ==> sha256Hex(Encode(r.value.text)) == Trim(r.value.citation.sha256)
  {
    var chosen := ChoosePassage(passages, answer);
    if chosen.Err? {
      return Err(chosen.error);
    }
    var passage := chosen.value;

    var keys := PassageKeys(passage);
    if keys.Err? {
      return Err(keys.error);
    }
    var pid := keys.value.pid;

    var correlated := ChooseCitation(citations, keys.value);
    if correlated.Err? {
      return Err(correlated.error);
    }
    var citation := correlated.value;

    var expected := ExpectedSha(citation);
    if expected.Err? {
      return Err(expected.error);
    }

    var decoded := DecodedText(decode(pid));
    if decoded.Err? {
      return Err(decoded.error);
    }
    var text := decoded.value;

    var got := sha256Hex(Encode(text));
    if got != expected.value {
      return Err(ShaMismatch(expected.value, got));
    }
    r := Ok(Verified(passage, citation, text));
  }

  /** When every step passes, steps one to four yield the chosen passage,
      its trimmed id, the correlated citation, the trimmed declared hash and
      the decoded text. */
  lemma PrepareSucceeds(passages: seq<Option<Passage>>, citations: seq<Option<Citation>>, answer: string,
                        decode: string -> DecodeResponse, passage: Passage, citation: Citation)
    requires ChoosePassage(passages, answer) == Ok(passage)
    requires Trim(passage.passageId) != []
    requires ChooseCitation(citations, Keys(Trim(passage.passageId), Trim(passage.ref))) == Ok(citation)
    requires 16 <= Utf16Length(Trim(citation.sha256))
    requires decode(Trim(passage.passageId)).ok && decode(Trim(passage.passageId)).encoding == "utf8"
    requires decode(Trim(passage.passageId)).text != []
    ensures Prepare(passages, citations, answer, decode)
            == Ok(Prepared(passage, Trim(passage.passageId), citation, Trim(citation.sha256),
                           decode(Trim(passage.passageId)).text))
  {
    assert Correlate(passages, citations, answer) == Ok(Correlated(passage, Trim(passage.passageId), citation));
  }

  /** The stage's round trip: when every step passes and the digest of the
      decoded text's UTF-8 bytes is the trimmed declared hash, verification
      succeeds with that passage, citation and text. */
  method VerifiedWhenHashMatches(passages: seq<Option<Passage>>, citations: seq<Option<Citation>>, answer: string,
                                 decode: string -> DecodeResponse, sha256Hex: seq<byte> -> string,
                                 passage: Passage, citation: Citation)
    returns (r: Result<Verified, VerifyError>)
    requires ChoosePassage(passages, answer) == Ok(passage)
    requires Trim(passage.passageId) != []
    requires ChooseCitation(citations, Keys(Trim(passage.passageId), Trim(passage.ref))) == Ok(citation)
    requires 16 <= Utf16Length(Trim(citation.sha256))
    requires decode(Trim(passage.passageId)).ok && decode(Trim(passage.passageId)).encoding == "utf8"
    requires decode(Trim(passage.passageId)).text != []
    requires sha256Hex(Encode(decode(Trim(passage.passageId)).text)) == Trim(citation.sha256)
    ensures r == Ok(Verified(passage, citation, decode(Trim(passage.passageId)).text))
  {
    PrepareSucceeds(passages, citations, answer, decode, passage, citation);
    r := VerifyCitation(passages, citations, answer, decode, sha256Hex);
  }
}
