# Proof-carrying memory demo client: the wait/verify core in Dafny

`demo/hello-world.mjs` is a client for a "proof-carrying memory" service. It
ingests a small document whose claim has a byte-offset evidence span, then
waits for the service's background enrichment. It asks for context under two
retrieval policies. Finally it proves that a cited passage is exactly what was
stored: it re-hashes the decoded span and compares the result with the
citation's declared SHA-256.

This project models the deterministic part of that script:

- `Config`: `clampInt` (with `Math.trunc`) and the five clamped settings.
  It also models `normalizeUrl` (`trim` and then strip trailing slashes).
- `Text`: the JavaScript string operations the script uses. These are
  `trim` (with ECMAScript's white-space and line-terminator set), `indexOf`,
  `includes`, ASCII `toLowerCase` and the UTF-16 `length`.
- `Utf8`: the encoding of section 3 of RFC 3629. It has the per-character
  octet sequences, `Buffer.byteLength`, and a decoder with a round-trip proof.
- `Evidence`: the evidence span of the ingested claim. It finds the first
  occurrence of the sentence in the document and turns it into UTF-8 byte
  offsets. The bytes between the offsets are proved to be the sentence's
  own bytes.
- `Polling`: `waitForHealth` and `waitForEnrichment` as methods with loops.
  The wall-clock deadline becomes an attempt budget over a sequence of probe
  outcomes.
- `CitationVerifier`: the final stage. It chooses a passage, correlates a
  citation, checks the declared hash, checks that the decode is `utf8` and
  compares the hashes. SHA-256 and the decode endpoint are function
  parameters. Verification is proved to succeed exactly when the digest of
  the decoded text's UTF-8 bytes equals the declared hash.

JSON arrays are sequences of `Option`s. `None` stands for an element that is
falsy in JavaScript, such as `null`. With this, `find(...) || xs[0] || null`
keeps its JavaScript meaning. For example, a `null` first passage with no
matching passage is an error, as in the script.

Points of the code's behaviour that the model keeps as written:

- In `waitForEnrichment` (demo/hello-world.mjs:63), `httpJson` is not inside
  a `try` block. A request that throws ends the wait with that error; it is
  not treated as "not yet". Only `waitForHealth` (lines 47-53) ignores
  exceptions.
- Both loops test the deadline before the first probe (lines 46 and 62). A
  deadline that has already passed therefore makes no probe at all
  (budget 0).
- The hashes are compared as strings exactly (line 243). The declared hash is
  trimmed but not lower-cased (line 213), so a hash declared in upper case
  does not match.
- The floor on the declared hash is a check on `length` (UTF-16 code units)
  only (line 214). Whether the characters are hex digits is not checked.

## Model

| member | source | states |
|---|---|---|
| `Text.TrimStart` | demo/hello-world.mjs:5 | The result is a suffix of the input that does not start with white space or a line terminator. |
| `Text.TrimStartDropsTrimmable` | demo/hello-world.mjs:5 | Everything `TrimStart` drops is white space or a line terminator. |
| `Text.TrimEnd` | demo/hello-world.mjs:5 | The result is a prefix of the input that does not end with white space or a line terminator. |
| `Text.TrimEndDropsTrimmable` | demo/hello-world.mjs:5 | Everything `TrimEnd` drops is white space or a line terminator. |
| `Text.Trim` | demo/hello-world.mjs:5 | The result is the slice of the input that starts where the leading trimmable characters end. It neither starts nor ends with a character that `trim` removes. |
| `Text.TrimDropsTrimmable` | demo/hello-world.mjs:5 | Every character before and after that slice is white space or a line terminator. |
| `Text.TrimFixesTrimmed` | demo/hello-world.mjs:203-204 | `trim` leaves a string alone when it has no white space at either end. |
| `Text.TrimIdempotent` | demo/hello-world.mjs:203-204 | Trimming twice gives the same result as trimming once. |
| `Text.ToLowerAscii` | demo/hello-world.mjs:200 | The lower-cased text has the same length. Each character is its own lower-case form (ASCII letters shifted, others kept). |
| `Text.IndexFrom` | demo/hello-world.mjs:129 | The result is the first occurrence at or after the start index. `None` means there is no occurrence from there on. |
| `Text.IndexOf` | demo/hello-world.mjs:129 | `indexOf` gives the first occurrence. It gives `None` (-1) exactly when the needle occurs nowhere. |
| `Text.IndexOfFirstOccurrence` | demo/hello-world.mjs:129 | An occurrence with no occurrence before it is exactly what `indexOf` returns. |
| `Text.ContainsIffOccurs` | demo/hello-world.mjs:200 | `includes` holds exactly when the needle occurs at some index. |
| `Text.Utf16Length` | demo/hello-world.mjs:214 | `length` counts at least one and at most two code units per character. |
| `Text.Utf16LengthBasicPlane` | demo/hello-world.mjs:214 | `length` equals the character count exactly when all characters are in the basic plane. |
| `Utf8.CodePointLength` | demo/hello-world.mjs:131 | A character takes one to four octets, and one octet exactly when it is ASCII. |
| `Utf8.EncodeChar` | demo/hello-world.mjs:131 | A character's octets number `CodePointLength`. The lead octet announces that length, and the others are continuation octets `10xxxxxx` (RFC 3629, section 3). |
| `Utf8.DecodeEncodeChar` | demo/hello-world.mjs:131 | The octets of a character carry back exactly its scalar value. |
| `Utf8.Encode` | demo/hello-world.mjs:15 | The encoding of a string has exactly `ByteLength` octets. This is the input that `sha256HexUtf8` hashes. |
| `Utf8.ByteLength` | demo/hello-world.mjs:131-132 | `Buffer.byteLength` lies between the character count and four times the character count. |
| `Utf8.ByteLengthAscii` | demo/hello-world.mjs:131-132 | `Buffer.byteLength` equals the character count exactly when the string is ASCII. |
| `Utf8.EncodeConcat` | demo/hello-world.mjs:131-132 | Encoding a concatenation gives the concatenation of the encodings. |
| `Utf8.ByteLengthConcat` | demo/hello-world.mjs:131-132 | The byte length of a concatenation is the sum of the byte lengths. |
| `Utf8.DecodeEncode` | demo/hello-world.mjs:131-132 | Decoding the UTF-8 encoding of a string gives back its scalar values. |
| `Config.Trunc` | demo/hello-world.mjs:11 | `Math.trunc` rounds toward zero: down for non-negative values and up for negative ones, by less than one. |
| `Config.ClampInt` | demo/hello-world.mjs:8-12 | A non-finite input gives `def`. A finite input gives a value in `[min, max]`: its truncation when that is in range, otherwise the nearer bound. When `min > max`, the result is `min`. |
| `Config.DemoSettings` | demo/hello-world.mjs:85-94 | Each setting lies in its range: tenant in [1, 2e9], timeout in [1s, 120s], enrichment wait in [1s, 300s], limit in [1, 50], characters in [200, 20000]. An unset or non-finite input gives that setting's default. A finite input gives its truncation when that is in range, and otherwise the nearer bound. |
| `Config.StripTrailingSlashes` | demo/hello-world.mjs:5 | `replace(/\/+$/, "")` leaves a prefix that does not end with `/`. Only slashes follow that prefix. |
| `Config.NormalizeUrl` | demo/hello-world.mjs:4-6 | The result never ends with `/` or starts with white space. It is a prefix of the trimmed input, and only slashes follow it there. |
| `Config.NormalizeUrlIdempotentWhenNoTrailingSpace` | demo/hello-world.mjs:4-6 | Normalising twice is the same as normalising once, provided the normalised URL does not end in white space. |
| `Config.NormalizeUrlNotIdempotent` | demo/hello-world.mjs:4-6 | For any host `h` with no white space at its ends and no trailing `/`, `h + " /"` normalises to `h + " "`, which normalises further to `h`. So the normaliser is not idempotent. |
| `Config.StripTrailingSlashesAndSpace` | demo/hello-world.mjs:5 | The corrected strip leaves a prefix ending in neither `/` nor white space. Only those characters follow it. |
| `Config.NormalizeUrlStable` | demo/hello-world.mjs:4-6 | The corrected normaliser's result has no white space at either end and no trailing `/`. It is a prefix of the left-trimmed input, and only `/` or white space follows it there. |
| `Config.NormalizeUrlStableIdempotent` | demo/hello-world.mjs:4-6 | The corrected normaliser is idempotent on every input. |
| `Config.NormalizeUrlStableAgrees` | demo/hello-world.mjs:4-6 | The corrected normaliser agrees with `normalizeUrl` whenever the latter leaves no trailing white space. |
| `Evidence.OccurrenceWithin` | demo/hello-world.mjs:131-132 | At an occurrence, the prefix's byte length plus the sentence's byte length is at most the document's byte length. |
| `Evidence.OccurrenceBytes` | demo/hello-world.mjs:131-132 | At an occurrence, the octets from the prefix's byte length to that length plus the sentence's are the sentence's own encoding. |
| `Evidence.SentenceSpan` | demo/hello-world.mjs:129-132 | It fails exactly when the sentence does not occur. Otherwise `start` is the byte length of the text before the index `indexOf` reports, `start <= end <= byteLength(doc)` and `end - start == byteLength(sentence)`. |
| `Evidence.SentenceSpanBytes` | demo/hello-world.mjs:129-132 | The encoded document's octets between the two offsets are exactly the encoded sentence. |
| `Evidence.SentenceSpanAtFirstOccurrence` | demo/hello-world.mjs:129-132 | With the first occurrence at character index `i`, `start` is the byte length of the prefix `doc[..i]`. It is at least `i`, and greater than `i` exactly when that prefix holds a non-ASCII character. |
| `Evidence.MultiBytePrefixOffset` | demo/hello-world.mjs:129-132 | After the prefix `"áé "`, a sentence starting with an ASCII character other than a space has its span start at byte 5, although it starts at character 3. The span ends at byte 5 plus the sentence's byte length. |
| `Polling.WaitForHealth` | demo/hello-world.mjs:45-58 | It returns at the first probe that is ok with body `ok === true`. Earlier probes that threw, were not ok or had another body are skipped. If the budget runs out first, it times out naming `{baseUrl}/health` after using the whole budget (or every probe given). |
| `Polling.TerminalOutcome` | demo/hello-world.mjs:65-71 | `done` means success. `failed` is an error for the cell carrying `last_error`, or "unknown" when that is empty. A thrown request is an error with its own reason. |
| `Polling.WaitForEnrichment` | demo/hello-world.mjs:60-76 | It stops at the first thrown request, or at the first ok response with status `done` or `failed`, with the outcome that response dictates. Non-ok responses and other statuses keep it polling. If the budget runs out first, it times out naming the cell. |
| `CitationVerifier.FindIndex` | demo/hello-world.mjs:200 | The result is the first index, at or after the start index, whose element satisfies the predicate. `None` means no element from there on does. |
| `CitationVerifier.FindElement` | demo/hello-world.mjs:207-210 | `find` read as a truth value gives a truthy element of the list that satisfies the predicate. It gives the first matching element when that one is truthy, and nothing when no element matches. |
| `CitationVerifier.ChoosePassage` | demo/hello-world.mjs:196-201 | The chosen passage is always an element of the list. It is the first passage whose lower-cased text contains the answer, else `passages[0]`. An empty list is an error. An error happens only when the list is empty or its first element is falsy. |
| `CitationVerifier.PassageKeys` | demo/hello-world.mjs:203-205 | An empty trimmed `passage_id` is an error. Otherwise the result is the trimmed id and the trimmed reference. |
| `CitationVerifier.ChooseCitation` | demo/hello-world.mjs:207-211 | The result is the first citation whose trimmed `passage_id` is the chosen id. Failing that, it is the first whose trimmed `ref` is the chosen reference. Failing both, it is an error. A chosen citation is an element of the list and matches by id or by reference. |
| `CitationVerifier.BlankRefMatchesUnrelatedCitation` | demo/hello-world.mjs:204-210 | As written, a passage with a blank `ref` and no citation matching its id is correlated with a citation whose `ref` is blank and whose id is another passage's. |
| `CitationVerifier.ChooseCitationByNonBlankRef` | demo/hello-world.mjs:207-211 | The corrected correlation falls back to `ref` only for a non-blank reference. A chosen citation names the passage's id or its actual reference. The result agrees with `ChooseCitation` whenever the reference is non-blank. |
| `CitationVerifier.ExpectedSha` | demo/hello-world.mjs:213-214 | The declared hash passes exactly when its trimmed form has at least 16 UTF-16 code units. The check then returns that trimmed form, which is never empty. |
| `CitationVerifier.DecodedText` | demo/hello-world.mjs:234-240 | It succeeds exactly when the response is ok, its encoding is exactly `utf8` and its text is non-empty. A rejected request reports the status. Otherwise the error names the encoding. |
| `CitationVerifier.Correlate` | demo/hello-world.mjs:196-211 | A failed passage choice gives "no passages", an empty trimmed id gives "missing passage_id", and a failed correlation gives "no matching citation", in that order. Otherwise the result is the passage `ChoosePassage` picks, its trimmed id and the citation `ChooseCitation` picks for that id and reference. Both are then elements of their lists, and the citation matches the id or the reference. |
| `CitationVerifier.Complete` | demo/hello-world.mjs:213-240 | An error from steps one and two is passed on unchanged. After a correlation, a trimmed declared hash under 16 code units gives "missing sha256". Then a rejected decode gives its status, and a decode that is not `utf8` or has empty text gives its encoding. When both checks pass, the result is the correlated passage and citation, the trimmed hash and the decoded text. |
| `CitationVerifier.Prepare` | demo/hello-world.mjs:196-240 | Steps one to four never report a hash mismatch, and pass on a correlation error unchanged. They succeed exactly when the correlation succeeds, the trimmed declared hash has at least 16 code units and the decode is an ok, non-empty `utf8` text. The result then carries the correlated passage and citation, the trimmed hash and the decoded text. |
| `CitationVerifier.PrepareSucceeds` | demo/hello-world.mjs:196-240 | When every step passes, steps one to four yield exactly the chosen passage, its trimmed id, its citation, the trimmed declared hash and the decoded text. |
| `CitationVerifier.VerifyCitation` | demo/hello-world.mjs:196-245 | An earlier failure is reported unchanged, with no hash compared. After the earlier steps, verification succeeds exactly when SHA-256 of the decoded text's UTF-8 bytes equals the declared hash. Otherwise it fails with a mismatch naming both values. |
| `CitationVerifier.VerifiedWhenHashMatches` | demo/hello-world.mjs:196-245 | The round trip: when every step passes and the digest of the decoded text's UTF-8 bytes is the trimmed declared hash, verification succeeds with that passage, citation and text. |

## Findings

The operations that model the demo keep the code as written. Each corrected
definition stands beside the as-written one and carries the intended
property.

| source | as written | input that shows it | evidently intended | confidence | as-written member | corrected member |
|---|---|---|---|---|---|---|
| demo/hello-world.mjs:4-6 | `normalizeUrl` trims first and strips trailing slashes afterwards, so white space before the slashes survives | `"h /"` gives `"h "`, and normalising `"h "` again gives `"h"` | a URL with no surrounding white space and no trailing slash, so that a second normalisation changes nothing (otherwise `${baseUrl}/health` contains a space) | low; not executed | `Config.NormalizeUrlNotIdempotent` | `Config.NormalizeUrlStableIdempotent` |
| demo/hello-world.mjs:204-210 | a blank trimmed `ref` on the chosen passage is still used for the fallback `find`, which then matches any citation whose `ref` is blank or missing | a passage `p1` with no `ref`, and a single citation for passage `other` with no `ref`: that citation is chosen, and the run ends in a hash mismatch (unless that citation's hash happens to fit) rather than "no matching citation" | fall back to `ref` only when the passage has one, so a chosen citation always names the passage's id or its reference | low; not executed | `CitationVerifier.BlankRefMatchesUnrelatedCitation` | `CitationVerifier.ChooseCitationByNonBlankRef` |

## Left out

- HTTP: `httpJson`, `fetch`, `AbortController` per-call timeouts, `res.text()`, `res.json()` and `JSON.parse`. These are network I/O and parsing of a foreign format. Responses are given as datatype values, and a request that throws is a probe outcome.
- Time: `sleep`, `Date.now()` deadlines and the 200 ms and 150 ms intervals. An attempt budget over a sequence of probe outcomes replaces the wall clock. How long after readiness a loop notices it (at most one sleep, 200 ms or 150 ms, at lines 54 and 73) is therefore not modelled.
- SHA-256 (`crypto.createHash`) is a foreign library. It is a parameter `sha256Hex` over the UTF-8 octets, and its internals are not modelled.
- `Number(v)` and `Number.isFinite` for environment strings: the input to `ClampInt` is already `Number(v)`, as `Option<real>`, with `None` for NaN and the infinities.
- Environment variables, the `crypto.randomBytes` scope-user suffix and the ISO-date key label are ambient and random state.
- The `/v1` suffix stripping that derives the health URL is not modelled (line 80). It depends on the environment.
- The one-shot calls are HTTP I/O with no logic beyond their presence checks, and are not modelled:
  - the missing-admin-token check (82-83);
  - key minting and the token check (111-126);
  - ingestion and the `cell_id` check (134-160);
  - the two context calls (167-194).
- The `Array.isArray(...) ? ... : []` fallback and the `String(x ?? "")` field coercions: passages and citations are given as sequences, and their fields as the strings those coercions yield.
- Console output is presentation only. This includes the citation listing loop (218-224), the decoded-span report (247-257) and the `process.exit(1)` error path.
- Strings are sequences of Unicode scalar values, so lone surrogates are not modelled. `indexOf` and `slice` work on UTF-16 indices in JavaScript. Over well-formed strings they select the same prefix as the character indices used here, so the byte offsets are unaffected.
- `Text.ToLowerAscii`: lower-cases ASCII letters only. Unicode case mappings outside ASCII, some of which change the length, are not modelled. The answer the demo searches for is lower-case ASCII.
