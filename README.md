# Tork governance core in Dafny

A model of the core of the Tork Rust SDK (`tork-governance`): PII detection over a
fixed registry of ten category patterns, the governance engine `Tork` that turns a
detection into an action, an output and a receipt while keeping running
statistics, and the framework-independent request gate used by the web
middleware (`TorkFairing::process`, `should_block`, the request guard `TorkGuard`).

Layout, one module per file:

- `types.dfy` (`Types`): PII categories, placeholders, actions, configuration,
  statistics, matches, detection results, receipts and governance results.
- `matching.dfy` (`Matching`): the regex crate seen from outside. A matcher is a
  function from a text to ranges. `Find` keeps ranges in the shape `find_iter` gives:
  non-empty, in bounds, ascending and disjoint. `ReplaceAll` splices a literal
  placeholder over exactly those ranges. The file also holds an ASCII reading of the
  Ssn pattern.
- `detection.dfy` (`Detection`): the registry `get_pii_patterns` and the detection
  loop. The loop records matches in the original text and rewrites a working copy
  one pattern after another. It is specified by `AllMatches` and `RedactAll`.
- `receipts.dfy` (`Receipts`): `hash_text` ("sha256:" + lowercase hex) and
  `generate_receipt_id` ("rcpt_" + the UUID with its hyphens removed).
- `engine.dfy` (`Engine`): the class `Tork` with its `config` and `stats` fields and
  its fixed `patterns`. It models govern, reset_stats and set_config, and states
  what one call does to the counters.
- `middleware.dfy` (`Middleware`): the middleware configuration, `extract_content`
  over a parsed JSON value, the path filters and `ErrorResponse::from_result`.
- `gate.dfy` (`Gate`): the class `TorkFairing` (engine plus middleware
  configuration) with `process` and `should_block`, and the value type `TorkGuard`.

Some things come from outside the program: the regex engine's answers, SHA-256,
the random UUID, the clock and the elapsed time. They are parameters, as follows:

- `lib: RegexLibrary` gives each category's matcher.
- `sha: string -> Digest` is the digest function.
- `env: CallEnv` carries the UUID, the timestamp and the elapsed nanoseconds.

## Model

| member | source | states |
|---|---|---|
| Types.Tag | src/lib.rs:59-72 | Each category's tag is a non-empty string of capital letters. |
| Types.Redaction | src/lib.rs:59-72 | Each placeholder is bracketed, ends in "_REDACTED]", holds no '$' (so replace_all inserts it literally), and carries its category's tag between the bracket and the suffix. |
| Types.RedactionInjective | src/lib.rs:59-72 | no two categories share a placeholder |
| Types.DebugName | src/lib.rs:41-54 | the derived Debug name of each category is a non-empty run of ASCII letters starting with a capital |
| Matching.Sanitize | src/lib.rs:247 | keeps only non-empty, in-bounds, ascending, disjoint ranges, all taken from the raw answer, and changes nothing when the raw answer already has that shape |
| Matching.Find | src/lib.rs:247 | the occurrences of a pattern are non-empty, in-bounds, ascending and pairwise disjoint ranges |
| Matching.FindInEmpty | src/lib.rs:247 | no pattern occurs in the empty text |
| Matching.Splice | src/lib.rs:258-261 | a literal splice removes the covered characters and adds one copy of the replacement per range |
| Matching.ReplaceAll | src/lib.rs:258-261 | a text in which the pattern does not occur is returned unchanged, and the rewritten length is the old length minus the matched characters plus one placeholder per occurrence |
| Matching.SsnScan | src/lib.rs:175-178 | an ASCII leftmost-first scan for \b\d{3}-\d{2}-\d{4}\b returns ordered 11-character ranges, each SSN-shaped and word-bounded, and returns every SSN-shaped run starting at or after the position |
| Matching.SsnScanEmpty | src/lib.rs:175-178 | the scan finds nothing exactly when no SSN-shaped run starts at or after the position |
| Matching.AsciiSsnFind | src/lib.rs:175-178 | the ASCII Ssn matcher returns exactly the SSN-shaped, word-bounded runs of the text as ordered 11-character ranges, so none exactly when there is no such run |
| Detection.PiiPatterns | src/lib.rs:173-216 | the registry has ten entries whose categories are in declaration order |
| Detection.MatchesOf | src/lib.rs:246-254 | one match per occurrence of the pattern in the original text, each with the pattern's category, the occurrence's range and the characters in it |
| Detection.AllMatches | src/lib.rs:245-255 | every recorded match is a non-empty range of the original text, and its value is exactly the characters of the text in that range |
| Detection.RedactAll | src/lib.rs:245-261 | when nothing is recorded, the cumulative rewrite leaves the text unchanged |
| Detection.RecordMatches | src/lib.rs:246-254 | the inner loop appends exactly the pattern's matches to those recorded so far and keeps the category set equal to the categories of the matches |
| Detection.DetectWith | src/lib.rs:240-271 | the loop returns the matches of every pattern in the original text in registry order, the cumulative rewrite, has_pii iff a match exists, count = number of matches, types = the set of matched categories without repeats |
| Detection.CollectTypes | src/lib.rs:266 | collecting the hash set gives each detected category exactly once, in an unspecified order |
| Detection.DetectPii | src/lib.rs:240-271 | detect_pii is the detector over a fresh registry |
| Detection.MatchesFromOriginal | src/lib.rs:246-255 | every recorded match is an occurrence that a registry entry of the same category finds in the original text |
| Detection.MatchesInRegistryOrder | src/lib.rs:246-255 | for a registry in declaration order, matches are grouped by category rank, not by position, and within one category they are ascending and disjoint |
| Detection.RegistryMatchesInOrder | src/lib.rs:173-216 | the actual registry's matches come grouped in category order |
| Detection.NoMatchIff | src/lib.rs:246-265 | nothing is recorded exactly when no pattern occurs in the original text |
| Detection.EmptyTextHasNoPii | src/lib.rs:244-261 | the empty text yields no matches and redacts to the empty text |
| Detection.OccurrenceRecorded | src/lib.rs:247-255 | each occurrence any entry finds in the original text is recorded with its category, value and offsets |
| Detection.CountedTwice | src/lib.rs:246-254 | a range found in the original text by two entries of different categories is recorded twice, once under each category |
| Detection.RecordedButNotRewritten | src/lib.rs:246-261 | an occurrence the entry finds in the original text is recorded, and when the entry finds nothing in the working copy it receives, its rewrite leaves that copy unchanged |
| Detection.SsnShapedTextDetected | src/lib.rs:175-178 | with the ASCII Ssn matcher, every SSN-shaped run of a text is recorded as an Ssn match over exactly that run, so the text has matches and Ssn among the matched categories |
| Detection.OnlyFirstEntryOccurs | src/lib.rs:246-261 | when no entry but the first occurs in the text or in its rewrite, the matches and the redacted text are the first entry's alone |
| Detection.SsnWorkedExample | src/lib.rs:424-429 | with the ASCII Ssn matcher and no other entry occurring, "My SSN is 123-45-6789" yields exactly one Ssn match at [10, 21) and redacts to "My SSN is [SSN_REDACTED]" |
| Receipts.HexEncode | src/lib.rs:227 | hex encoding gives two lowercase hex digits per byte |
| Receipts.HexRoundTrip | src/lib.rs:227 | hex encoding loses nothing: decoding gives back the bytes |
| Receipts.HashText | src/lib.rs:223-228 | a hash is 71 characters: "sha256:" followed by 64 lowercase hex digits |
| Receipts.HashTextFaithful | src/lib.rs:223-228 | two texts get equal hash strings exactly when their digests are equal |
| Receipts.Without | src/lib.rs:232 | removing a character leaves none of it and adds nothing |
| Receipts.Hyphenated | src/lib.rs:232 | the UUID's string form is 36 characters, with hyphens at positions 8, 13, 18 and 23 and lowercase hex digits elsewhere |
| Receipts.StripHyphens | src/lib.rs:232 | stripping the hyphens from the 8-4-4-4-12 rendering leaves the five hex groups joined |
| Receipts.GenerateReceiptId | src/lib.rs:231-233 | the receipt id is "rcpt_" + the 32 hex digits of the UUID: 37 characters, no '-' |
| Receipts.ReceiptIdInjective | src/lib.rs:231-233 | distinct UUIDs give distinct receipt ids and vice versa |
| Engine.IsGovernResult | src/lib.rs:304-354 | in a govern result any action other than Allow follows a detection, an Allow passes the input through unchanged, the receipt records the action, and the receipt id and both hashes have their fixed lengths |
| Engine.OneCallLater | src/lib.rs:336-346 | one call raises the sum of the action counters by exactly one and never lowers the number of calls without PII |
| Engine.ProcessingTimeNs | src/lib.rs:322 | the `as u64` cast keeps the elapsed nanoseconds modulo 2^64, unchanged below 2^64 |
| Engine.ZeroStatsConsistent | src/lib.rs:147-164 | the all-zero statistics are consistent |
| Engine.OneCallKeepsConsistency | src/lib.rs:336-346 | one counted call keeps the counters consistent: the action counters sum to total_calls, detections never exceed calls, and non-Allow actions never exceed detections |
| Engine.CleanInputAllowed | src/lib.rs:311-320 | with no pattern occurring, govern allows the unchanged input with no PII reported, whatever the default action, and both hashes agree |
| Engine.OutputChangesOnlyByRedaction | src/lib.rs:311-333 | the output differs from the input only under Redact with PII, and the hashes differ exactly when the digests do |
| Engine.Tork.New | src/lib.rs:286-292 | a new engine has the default configuration ("1.0.0", Redact), zeroed statistics and the registry |
| Engine.Tork.WithConfig | src/lib.rs:295-301 | with_config keeps the given configuration, zeroed statistics and the registry |
| Engine.Tork.DetectPiiInternal | src/lib.rs:357-386 | detection over the engine's own registry satisfies the detection contract |
| Engine.Tork.Govern | src/lib.rs:304-354 | the action and output follow the decision table. The receipt carries the receipt id, timestamp, both hashes, the action, the policy version and the truncated time. The counters advance by exactly one call. The configuration is unchanged and the counters stay consistent |
| Engine.Tork.CountCall | src/lib.rs:336-346 | total_calls +1, total_pii_detected +1 exactly when PII was found, the time is added, and only the chosen action's counter rises |
| Engine.Tork.ResetStats | src/lib.rs:394-396 | every counter returns to zero; the configuration stays |
| Engine.Tork.SetConfig | src/lib.rs:404-406 | the configuration is replaced; the statistics stay |
| Middleware.FirstContent | src/middleware/mod.rs:57-65 | a value is returned exactly when some listed field holds a non-empty string; it is non-empty and is one of those fields' values |
| Middleware.FirstQualifyingFieldWins | src/middleware/mod.rs:57-63 | the value comes from the first listed field that qualifies; later fields are not consulted |
| Middleware.ExtractContent | src/middleware/mod.rs:53-66 | None when the body does not parse, is not an object, or has no qualifying field (iff); Some only with non-empty text |
| Middleware.AnyPrefix | src/middleware/mod.rs:69-86 | true exactly when some listed prefix starts the path |
| Middleware.ShouldSkipPath | src/middleware/mod.rs:69-76 | true exactly when some skip prefix starts the path |
| Middleware.ShouldProtectPath | src/middleware/mod.rs:79-86 | true exactly when some protected prefix starts the path |
| Middleware.DefaultPaths | src/middleware/mod.rs:27-41 | the default configuration skips nothing and protects exactly the paths starting with "/api/" |
| Middleware.NoProtectedPrefixes | src/middleware/mod.rs:79-86 | an empty protected list protects nothing |
| Middleware.Lowercase | src/middleware/mod.rs:101 | lowercasing keeps the length |
| Middleware.LowerName | src/middleware/mod.rs:101 | each category's name in the error body is its Debug name lowercased, e.g. CreditCard gives "creditcard" |
| Middleware.LowerNameInjective | src/middleware/mod.rs:101 | distinct categories keep distinct lowercase names |
| Middleware.FromResult | src/middleware/mod.rs:97-103 | the error body has the fixed message, the result's receipt id, and one lowercase name per detected category in the same order |
| Middleware.ErrorNamesMatchTypes | src/middleware/mod.rs:97-103 | a category's name appears in the error body exactly when the category was detected, and names do not repeat when categories do not |
| Gate.Admitted | src/middleware/rocket.rs:85-101 | content is handed on only for POST, PUT or PATCH, on a path no skip prefix and some protect prefix starts, with a body that yields content; a skip match wins over protection |
| Gate.DefaultAdmits | src/middleware/rocket.rs:85-101 | under the default configuration exactly the mutating requests under "/api/" with extractable content are governed |
| Gate.TorkFairing.New | src/middleware/rocket.rs:46-51 | a fresh default engine and the default middleware configuration |
| Gate.TorkFairing.WithConfig | src/middleware/rocket.rs:54-59 | a fresh default engine and the given middleware configuration |
| Gate.TorkFairing.WithTork | src/middleware/rocket.rs:62-67 | the given engine and the default middleware configuration |
| Gate.TorkFairing.WithTorkAndConfig | src/middleware/rocket.rs:70-72 | the given engine and configuration |
| Gate.TorkFairing.Process | src/middleware/rocket.rs:85-106 | None with the engine's counters untouched unless the request is admitted. Otherwise the result is exactly govern's for the extracted text, and the counters advance by that one call |
| Gate.TorkFairing.ShouldBlock | src/middleware/rocket.rs:109-111 | a request is blocked exactly when the action is Deny |
| Gate.BlockedOnlyByDenyPolicy | src/middleware/rocket.rs:109-111 | a governed request is blocked exactly when PII was found under a Deny policy. Its text is then unaltered, and under the default configuration nothing is blocked |
| Gate.TorkGuard.HasResult | src/middleware/rocket.rs:168-170 | true exactly when governance was applied |
| Gate.TorkGuard.IsAllowed | src/middleware/rocket.rs:173-178 | true for an Allow result and, by default, for no result |
| Gate.TorkGuard.IsDenied | src/middleware/rocket.rs:181-186 | true only for a Deny result |
| Gate.TorkGuard.IsRedacted | src/middleware/rocket.rs:189-194 | true only for a Redact result |
| Gate.TorkGuard.Output | src/middleware/rocket.rs:197-199 | the result's output exactly when there is a result |
| Gate.TorkGuard.ReceiptId | src/middleware/rocket.rs:202-204 | the result's receipt id exactly when there is a result |
| Gate.GuardVerdicts | src/middleware/rocket.rs:168-204 | at most one verdict holds and Escalate has none. An empty guard is allowed, not denied, not redacted, and has no output or receipt id |
| Gate.GuardOfGoverned | src/middleware/rocket.rs:172-204 | over a governed text the guard is allowed iff no PII or an Allow policy, and redacted iff PII under Redact. Its output is the redacted text exactly then, and its receipt id comes from the UUID |
| Gate.SsnRedactedUnderDefaults | src/middleware/rocket.rs:264-274 | under the default configuration an SSN-bearing text is redacted, not denied and not blocked |

## Left out

- Regex semantics. The ten regular expressions are inputs (`RegexLibrary`); the model
  assumes only the shape of find_iter's answer. It does not model Unicode `\b`, `\d` and
  `\w`, the case-insensitive Address pattern or leftmost-first alternation. The one
  concrete matcher, `AsciiSsnFind`, reads `\d` and `\w` as ASCII.
- Offsets are positions in a sequence of characters; the source reports UTF-8 byte
  offsets. The two agree on ASCII text.
- SHA-256 is the parameter `sha`. The UUID v4 is a 16-byte input. Receipt-id uniqueness
  across calls depends on the randomness of the UUIDs and is not provable; the model
  proves the ids are exactly as distinct as the UUIDs.
- The clock: `Utc::now()` and the elapsed time are fields of `CallEnv`.
- Engine.Tork.CountCall: the u64 counters are unbounded `nat`s, so overflow of `+=`
  (a panic or a wrap-around depending on the build) is not modelled.
- `get_stats` and `get_config` return references to the fields. The model reads the
  `stats` and `config` fields directly.
- Engine.Tork.New and Engine.Tork.WithConfig state `stats == ZeroStats` rather than
  the class invariant itself. `Engine.ZeroStatsConsistent` gives the invariant, and the
  fairing constructors state it for their engine.
- `types` in a detection result comes from a hash set. Its order is left open; only
  the set of categories and the absence of repeats are stated.
- JSON parsing (serde_json) is not modelled. `extract_content` takes the parsed value,
  or `None` for a body that does not parse.
- `Arc<Mutex<Tork>>`, `lock().unwrap()`, the `Clone` impl that shares the engine, and
  `create_shared_tork`: the gate holds a single engine object and calls it directly.
- `TorkFairing::create_error_response` is the same as `ErrorResponse::from_result`.
  The accessors `config()`, `tork()`, `TorkGuard::result` and `into_result` are not
  modelled separately; a guard is its `result`.
- The actix and axum adapters (`src/middleware/actix.rs`, `src/middleware/axum.rs`)
  repeat the same gate and are not modelled separately. The fairing's Rocket trait glue
  is not modelled either.
- Serialisation of results and responses (serde derives) is not modelled.
- Types.Tag: the contract states only the shape of each tag; the exact literal of each one, e.g. "CARD" for CreditCard, is fixed by its definition, and `Types.RedactionInjective` states that the resulting placeholders are distinct.
