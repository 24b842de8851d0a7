/** The pattern registry and the detector (detect_pii and its copy
    Tork::detect_pii_internal).

    For each pattern in registry order, the detector records the pattern's
    matches in the ORIGINAL text, then rewrites a working copy with that
    pattern's placeholder; the next pattern rewrites the already rewritten
    copy. `AllMatches` and `RedactAll` say what the loop computes. */
module Detection {
  import opened Types
  import opened Matching

  /** What the regex crate reports for each category's fixed pattern. */
  type RegexLibrary = PiiType -> Finder

  /** get_pii_patterns: one entry per category, in declaration order, each
      with the library's matcher for that category. */
  function PiiPatterns(lib: RegexLibrary): (ps: seq<Pattern>)
    ensures |ps| == 10
    ensures forall i :: 0 <= i < |ps| ==> Rank(ps[i].kind) == i
  {
    [ Pattern(Ssn, lib(Ssn)),
      Pattern(CreditCard, lib(CreditCard)),
      Pattern(Email, lib(Email)),
      Pattern(Phone, lib(Phone)),
      Pattern(Address, lib(Address)),
      Pattern(IpAddress, lib(IpAddress)),
      Pattern(DateOfBirth, lib(DateOfBirth)),
      Pattern(Passport, lib(Passport)),
      Pattern(DriversLicense, lib(DriversLicense)),
      Pattern(BankAccount, lib(BankAccount)) ]
  }

  /** The entries' categories strictly follow declaration order. */
  predicate InRankOrder(ps: seq<Pattern>)
  {
    forall i, j :: 0 <= i < j < |ps| ==> Rank(ps[i].kind) < Rank(ps[j].kind)
  }

  /** The matches of one pattern in `text`, left to right: one per
      occurrence, each carrying the pattern's category, its range and the
      characters of the original text in that range. */
  function MatchesOf(p: Pattern, text: string): (ms: seq<PiiMatch>)
    ensures |ms| == |Find(p, text)|
    ensures forall m :: m in ms ==>
      && m.kind == p.kind && Span(m.start, m.end) in Find(p, text)
      && m.start < m.end <= |text| && m.value == text[m.start..m.end]
  {
    var spans := Find(p, text);
    seq(|spans|, i requires 0 <= i < |spans| =>
      PiiMatch(p.kind, text[spans[i].lo..spans[i].hi], spans[i].lo, spans[i].hi))
  }

  /** Every pattern's matches in the original text, grouped in registry
      order. Each one is a non-empty range of the original text and carries
      exactly the characters of that range. */
  function AllMatches(ps: seq<Pattern>, text: string): (ms: seq<PiiMatch>)
    ensures forall i :: 0 <= i < |ms| ==>
      ms[i].start < ms[i].end <= |text| && ms[i].value == text[ms[i].start..ms[i].end]
    decreases |ps|
  {
    if ps == [] then [] else AllMatches(ps[..|ps| - 1], text) + MatchesOf(ps[|ps| - 1], text)
  }

  /** The working copy after every pattern has rewritten the previous one's
      output. When nothing is recorded, no rewrite changes the text. */
  function RedactAll(ps: seq<Pattern>, text: string): (r: string)
    ensures AllMatches(ps, text) == [] ==> r == text
    decreases |ps|
  {
    if ps == [] then text
    else
      var n := |ps| - 1;
      var prev := RedactAll(ps[..n], text);
      assert AllMatches(ps, text) == [] ==> AllMatches(ps[..n], text) == [] && Find(ps[n], text) == [];
      ReplaceAll(ps[n], prev)
  }

  function KindsOf(ms: seq<PiiMatch>): set<PiiType>
  {
    set m | m in ms :: m.kind
  }

  predicate NoDuplicates(s: seq<PiiType>)
  {
    forall i, j :: 0 <= i < j < |s| ==> s[i] != s[j]
  }

  /** `d` is what detection over `ps` reports for `text`. The order of
      `types` is left open: it comes from a hash set. */
  ghost predicate IsDetection(ps: seq<Pattern>, text: string, d: DetectionResult)
  {
    && d.matches == AllMatches(ps, text)
    && d.redactedText == RedactAll(ps, text)
    && d.hasPii == (|d.matches| > 0)
    && d.count == |d.matches|
    && (forall k :: k in d.types <==> k in KindsOf(d.matches))
    && NoDuplicates(d.types)
  }

  /** The detection loop over the registry `ps`. */
  method DetectWith(ps: seq<Pattern>, text: string) returns (d: DetectionResult)
    ensures IsDetection(ps, text, d)
  {
    var matches: seq<PiiMatch> := [];
    var detected: set<PiiType> := {};
    var redacted := text;
    var i := 0;
    while i < |ps|
      invariant 0 <= i <= |ps|
      invariant matches == AllMatches(ps[..i], text)
      invariant detected == KindsOf(matches)
      invariant redacted == RedactAll(ps[..i], text)
    {
      var p := ps[i];
      matches, detected := RecordMatches(p, text, matches, detected);
      RegistryStep(ps, i, text);
      redacted := ReplaceAll(p, redacted);
      i := i + 1;
    }
    assert ps[..i] == ps;
    var types := CollectTypes(detected);
    d := DetectionResult(|matches| > 0, types, |matches|, matches, redacted);
  }

  /** The inner loop of detection: one match, and its category, for each
      occurrence of `p` in the original text, appended to what earlier
      entries recorded. */
  method RecordMatches(p: Pattern, text: string, matches0: seq<PiiMatch>, detected0: set<PiiType>)
      returns (matches: seq<PiiMatch>, detected: set<PiiType>)
    requires detected0 == KindsOf(matches0)
    ensures matches == matches0 + MatchesOf(p, text)
    ensures detected == KindsOf(matches)
  {
    matches, detected := matches0, detected0;
    var spans := Find(p, text);
    ghost var found := MatchesOf(p, text);
    var j := 0;
    while j < |spans|
      invariant 0 <= j <= |spans|
      invariant matches == matches0 + found[..j]
      invariant detected == KindsOf(matches)
    {
      var sp := spans[j];
      KindsOfAppend(matches, found[j]);
      detected := detected + {p.kind};
      matches := matches + [PiiMatch(p.kind, text[sp.lo..sp.hi], sp.lo, sp.hi)];
      PrefixStep(found, j);
      j := j + 1;
    }
    assert found[..j] == found;
  }

  /** Collecting the hash set of categories into a vector: every category
      once, in an order the model leaves open. */
  method CollectTypes(detected: set<PiiType>) returns (types: seq<PiiType>)
    ensures forall k :: k in types <==> k in detected
    ensures NoDuplicates(types)
  {
    types := [];
    var rest := detected;
    while rest != {}
      invariant forall k :: k in detected <==> k in types || k in rest
      invariant forall k :: k in types ==> k !in rest
      invariant NoDuplicates(types)
      decreases rest
    {
      var k :| k in rest;
      types := types + [k];
      rest := rest - {k};
    }
  }

  lemma PrefixStep<T>(s: seq<T>, j: nat)
    requires j < |s|
    ensures s[..j + 1] == s[..j] + [s[j]]
  {
  }

  lemma KindsOfAppend(ms: seq<PiiMatch>, m: PiiMatch)
    ensures KindsOf(ms + [m]) == KindsOf(ms) + {m.kind}
  {
    assert forall x :: x in ms + [m] <==> x in ms || x == m;
  }

  /** One more registry entry adds its matches and its rewrite. */
  lemma RegistryStep(ps: seq<Pattern>, i: nat, text: string)
    requires i < |ps|
    ensures AllMatches(ps[..i + 1], text) == AllMatches(ps[..i], text) + MatchesOf(ps[i], text)
    ensures RedactAll(ps[..i + 1], text) == ReplaceAll(ps[i], RedactAll(ps[..i], text))
  {
    assert ps[..i + 1][..i] == ps[..i];
  }

  /** detect_pii: detection over a fresh registry. */
  method DetectPii(lib: RegexLibrary, text: string) returns (d: DetectionResult)
    ensures IsDetection(PiiPatterns(lib), text, d)
  {
    d := DetectWith(PiiPatterns(lib), text);
  }

  /** Every recorded match is an occurrence that a registry entry of the
      same category finds in the ORIGINAL text: nothing is recorded that
      no entry found (the converse of `OccurrenceRecorded`). */
  lemma {:induction false} MatchesFromOriginal(ps: seq<Pattern>, text: string)
    ensures forall m :: m in AllMatches(ps, text) ==>
      exists k :: 0 <= k < |ps| && ps[k].kind == m.kind && Span(m.start, m.end) in Find(ps[k], text)
    decreases |ps|
  {
    if ps != [] {
      var n := |ps| - 1;
      MatchesFromOriginal(ps[..n], text);
      forall m | m in AllMatches(ps, text)
        ensures exists k :: 0 <= k < |ps| && ps[k].kind == m.kind && Span(m.start, m.end) in Find(ps[k], text)
      {
        if m in AllMatches(ps[..n], text) {
          var k :| 0 <= k < n && ps[..n][k].kind == m.kind && Span(m.start, m.end) in Find(ps[..n][k], text);
          assert ps[..n][k] == ps[k];
        } else {
          assert m in MatchesOf(ps[n], text);
        }
      }
    }
  }

  /** Category ranks never decrease along `ms`, and matches of one category
      are ascending and disjoint. */
  predicate GroupedInOrder(ms: seq<PiiMatch>)
  {
    forall i, j :: 0 <= i < j < |ms| ==>
      && Rank(ms[i].kind) <= Rank(ms[j].kind)
      && (ms[i].kind == ms[j].kind ==> ms[i].end <= ms[j].start)
  }

  lemma MatchesOfGrouped(p: Pattern, text: string)
    ensures GroupedInOrder(MatchesOf(p, text))
    ensures forall m :: m in MatchesOf(p, text) ==> m.kind == p.kind
  {
    var spans := Find(p, text);
    var b := MatchesOf(p, text);
    forall i, j | 0 <= i < j < |b|
      ensures b[i].end <= b[j].start
    {
      assert spans[i].hi <= spans[j].lo;
    }
  }

  lemma ConcatGrouped(a: seq<PiiMatch>, b: seq<PiiMatch>)
    requires GroupedInOrder(a) && GroupedInOrder(b)
    requires forall x, y :: x in a && y in b ==> Rank(x.kind) < Rank(y.kind)
    ensures GroupedInOrder(a + b)
  {
    var ms := a + b;
    forall i, j | 0 <= i < j < |ms|
      ensures Rank(ms[i].kind) <= Rank(ms[j].kind)
      ensures ms[i].kind == ms[j].kind ==> ms[i].end <= ms[j].start
    {
      if j < |a| {
        assert ms[i] == a[i] && ms[j] == a[j];
      } else if i < |a| {
        assert ms[i] == a[i] && ms[j] == b[j - |a|];
        assert ms[i] in a && ms[j] in b;
      } else {
        assert ms[i] == b[i - |a|] && ms[j] == b[j - |a|];
      }
    }
  }

  /** Matches are grouped by registry order, not by position in the text;
      within one category they are ascending and disjoint. */
  lemma {:induction false} MatchesInRegistryOrder(ps: seq<Pattern>, text: string)
    requires InRankOrder(ps)
    ensures GroupedInOrder(AllMatches(ps, text))
    decreases |ps|
  {
    if ps != [] {
      var n := |ps| - 1;
      var a := AllMatches(ps[..n], text);
      var b := MatchesOf(ps[n], text);
      MatchesInRegistryOrder(ps[..n], text);
      MatchesFromOriginal(ps[..n], text);
      MatchesOfGrouped(ps[n], text);
      forall x, y | x in a && y in b ensures Rank(x.kind) < Rank(y.kind) {
        var k :| 0 <= k < n && ps[..n][k].kind == x.kind;
        assert ps[k].kind == x.kind;
      }
      ConcatGrouped(a, b);
    }
  }

  /** The registry's matches come in category order. */
  lemma RegistryMatchesInOrder(lib: RegexLibrary, text: string)
    ensures GroupedInOrder(AllMatches(PiiPatterns(lib), text))
  {
    MatchesInRegistryOrder(PiiPatterns(lib), text);
  }

  /** Nothing is recorded exactly when no pattern occurs in the original text. */
  lemma {:induction false} NoMatchIff(ps: seq<Pattern>, text: string)
    ensures AllMatches(ps, text) == [] <==> forall k :: 0 <= k < |ps| ==> Find(ps[k], text) == []
    decreases |ps|
  {
    if ps != [] {
      var n := |ps| - 1;
      NoMatchIff(ps[..n], text);
      SilentStep(ps, ps[..n], text);
      assert |AllMatches(ps, text)| == |AllMatches(ps[..n], text)| + |Find(ps[n], text)|;
    }
  }

  /** No entry of `ps` finds anything in `text` exactly when no entry of
      `init`, all of `ps` but its last, does and the last does not either. */
  lemma SilentStep(ps: seq<Pattern>, init: seq<Pattern>, text: string)
    requires ps != [] && init == ps[..|ps| - 1]
    ensures (forall k :: 0 <= k < |ps| ==> Find(ps[k], text) == [])
      <==> (forall k :: 0 <= k < |init| ==> Find(init[k], text) == []) && Find(ps[|ps| - 1], text) == []
  {
    assert forall k :: 0 <= k < |init| ==> init[k] == ps[k];
  }

  /** The empty text holds no PII and redacts to itself. */
  lemma EmptyTextHasNoPii(ps: seq<Pattern>)
    ensures AllMatches(ps, "") == [] && RedactAll(ps, "") == ""
  {
    forall k | 0 <= k < |ps| ensures Find(ps[k], "") == [] {
      FindInEmpty(ps[k]);
    }
    NoMatchIff(ps, "");
  }

  /** Each occurrence a pattern finds in the original text is recorded. */
  lemma {:induction false} OccurrenceRecorded(ps: seq<Pattern>, text: string, k: nat, sp: Span)
    requires k < |ps| && sp in Find(ps[k], text)
    ensures sp.lo < sp.hi <= |text|
    ensures PiiMatch(ps[k].kind, text[sp.lo..sp.hi], sp.lo, sp.hi) in AllMatches(ps, text)
    decreases |ps|
  {
    var n := |ps| - 1;
    var spans := Find(ps[k], text);
    var x :| 0 <= x < |spans| && spans[x] == sp;
    if k == n {
      assert MatchesOf(ps[n], text)[x] == PiiMatch(ps[k].kind, text[sp.lo..sp.hi], sp.lo, sp.hi);
    } else {
      assert ps[..n][k] == ps[k];
      OccurrenceRecorded(ps[..n], text, k, sp);
    }
  }

  /** The same characters can be counted under two categories: when two
      entries both find a range in the original text, both matches are
      recorded, even though the later entry never sees those characters in
      the working copy once the earlier one has replaced them. */
  lemma CountedTwice(ps: seq<Pattern>, text: string, a: nat, b: nat, sp: Span)
    requires a < b < |ps| && ps[a].kind != ps[b].kind
    requires sp in Find(ps[a], text) && sp in Find(ps[b], text)
    ensures sp.lo < sp.hi <= |text|
    ensures var va := PiiMatch(ps[a].kind, text[sp.lo..sp.hi], sp.lo, sp.hi);
      var vb := PiiMatch(ps[b].kind, text[sp.lo..sp.hi], sp.lo, sp.hi);
      va in AllMatches(ps, text) && vb in AllMatches(ps, text) && va != vb
  {
    OccurrenceRecorded(ps, text, a, sp);
    OccurrenceRecorded(ps, text, b, sp);
  }

  /** The other half of double counting: an occurrence entry `b` finds in
      the original text is recorded, yet when `b` finds nothing in the
      working copy it receives (an earlier entry has already replaced those
      characters), `b`'s rewrite leaves the working copy as it was, so only
      the earlier placeholder appears there. */
  lemma RecordedButNotRewritten(ps: seq<Pattern>, text: string, b: nat, sp: Span)
    requires b < |ps| && sp in Find(ps[b], text)
    requires Find(ps[b], RedactAll(ps[..b], text)) == []
    ensures PiiMatch(ps[b].kind, text[sp.lo..sp.hi], sp.lo, sp.hi) in AllMatches(ps, text)
    ensures RedactAll(ps[..b + 1], text) == RedactAll(ps[..b], text)
  {
    OccurrenceRecorded(ps, text, b, sp);
    RegistryStep(ps, b, text);
  }

  /** Every SSN-shaped, word-bounded run of a text is recorded as an Ssn
      match over exactly that run, when the Ssn entry behaves as the ASCII
      reading of its pattern; so the text has PII of category Ssn. */
  lemma SsnShapedTextDetected(lib: RegexLibrary, text: string, j: nat)
    requires forall s :: lib(Ssn)(s) == AsciiSsnFind(s)
    requires SsnAt(text, j)
    ensures PiiMatch(Ssn, text[j..j + 11], j, j + 11) in AllMatches(PiiPatterns(lib), text)
    ensures AllMatches(PiiPatterns(lib), text) != []
    ensures Ssn in KindsOf(AllMatches(PiiPatterns(lib), text))
  {
    var ps := PiiPatterns(lib);
    FirstEntry(lib);
    var sp := Span(j, j + 11);
    assert sp in AsciiSsnFind(text);
    assert Find(ps[0], text) == AsciiSsnFind(text);
    OccurrenceRecorded(ps, text, 0, sp);
    var m := PiiMatch(Ssn, text[j..j + 11], j, j + 11);
    assert m in AllMatches(ps, text) && m.kind == Ssn;
  }

  /** When only the first entry occurs, in the text and in its own rewrite,
      detection reduces to that entry. */
  lemma {:induction false} OnlyFirstEntryOccurs(ps: seq<Pattern>, text: string)
    requires |ps| > 0
    requires forall k :: 1 <= k < |ps| ==> Find(ps[k], text) == [] && Find(ps[k], ReplaceAll(ps[0], text)) == []
    ensures AllMatches(ps, text) == MatchesOf(ps[0], text)
    ensures RedactAll(ps, text) == ReplaceAll(ps[0], text)
    decreases |ps|
  {
    var n := |ps| - 1;
    if n == 0 {
      assert ps[..n] == [];
    } else {
      assert ps[..n][0] == ps[0];
      OnlyFirstEntryOccurs(ps[..n], text);
      assert |MatchesOf(ps[n], text)| == 0;
    }
  }

  const SsnExampleText: string := "My SSN is 123-45-6789"

  const SsnExampleRedacted: string := "My SSN is [SSN_REDACTED]"

  lemma SsnExampleScan()
    ensures AsciiSsnFind(SsnExampleText) == [Span(10, 21)]
    ensures AsciiSsnFind(SsnExampleRedacted) == []
  {
    var t := SsnExampleText;
    assert SsnAt(t, 10);
    assert SsnScan(t, 10) == [Span(10, 21)];
    assert SsnScan(t, 9) == SsnScan(t, 10);
    assert SsnScan(t, 8) == SsnScan(t, 9);
    assert SsnScan(t, 7) == SsnScan(t, 8);
    assert SsnScan(t, 6) == SsnScan(t, 7);
    assert SsnScan(t, 5) == SsnScan(t, 6);
    assert SsnScan(t, 4) == SsnScan(t, 5);
    assert SsnScan(t, 3) == SsnScan(t, 4);
    assert SsnScan(t, 2) == SsnScan(t, 3);
    assert SsnScan(t, 1) == SsnScan(t, 2);
    assert SsnScan(t, 0) == SsnScan(t, 1);
    RedactedExampleHasNoSsn();
  }

  /** The redacted example holds no digit, so no SSN-shaped run. */
  lemma RedactedExampleHasNoSsn()
    ensures AsciiSsnFind(SsnExampleRedacted) == []
  {
    var r := SsnExampleRedacted;
    assert forall j :: 0 <= j < |r| ==> !IsAsciiDigit(r[j]);
  }

  lemma SsnExampleReplace(p: Pattern)
    requires p.kind == Ssn && Find(p, SsnExampleText) == [Span(10, 21)]
    ensures ReplaceAll(p, SsnExampleText) == SsnExampleRedacted
  {
    SsnPlaceholder();
    SsnExampleSplice();
  }

  lemma SsnPlaceholder()
    ensures Redaction(Ssn) == "[SSN_REDACTED]"
  {
  }

  lemma SsnExampleSplice()
    ensures Splice(SsnExampleText, [Span(10, 21)], "[SSN_REDACTED]", 0) == SsnExampleRedacted
  {
    var t := SsnExampleText;
    var spans := [Span(10, 21)];
    assert Splice(t, spans[1..], "[SSN_REDACTED]", 21) == [];
    assert Splice(t, spans, "[SSN_REDACTED]", 0) == t[..10] + "[SSN_REDACTED]" + [];
  }

  lemma SsnExampleMatches(p: Pattern)
    requires p.kind == Ssn && Find(p, SsnExampleText) == [Span(10, 21)]
    ensures MatchesOf(p, SsnExampleText) == [PiiMatch(Ssn, "123-45-6789", 10, 21)]
  {
    var t := SsnExampleText;
    assert MatchesOf(p, t)[0] == PiiMatch(Ssn, t[10..21], 10, 21);
    assert t[10..21] == "123-45-6789";
  }

  /** The registry's first entry is the Ssn matcher of the library. */
  lemma FirstEntry(lib: RegexLibrary)
    ensures PiiPatterns(lib)[0] == Pattern(Ssn, lib(Ssn))
  {
  }

  /** Entries after the first find nothing in `t` when their matchers report
      nothing there. */
  lemma OthersFindNothing(lib: RegexLibrary, t: string)
    requires forall k :: k != Ssn ==> lib(k)(t) == []
    ensures forall k :: 1 <= k < 10 ==> Find(PiiPatterns(lib)[k], t) == []
  {
    var ps := PiiPatterns(lib);
    forall k | 1 <= k < 10 ensures Find(ps[k], t) == [] {
      assert ps[k].kind != Ssn && ps[k].regex == lib(ps[k].kind);
    }
  }

  /** The worked example: with the ASCII Ssn matcher, and no other pattern
      occurring in the text or its rewrite, "My SSN is 123-45-6789" yields one
      Ssn match at [10, 21) and redacts to "My SSN is [SSN_REDACTED]". */
  lemma SsnWorkedExample(lib: RegexLibrary)
    requires forall s :: lib(Ssn)(s) == AsciiSsnFind(s)
    requires forall k :: k != Ssn ==> lib(k)(SsnExampleText) == [] && lib(k)(SsnExampleRedacted) == []
    ensures AllMatches(PiiPatterns(lib), SsnExampleText) == [PiiMatch(Ssn, "123-45-6789", 10, 21)]
    ensures RedactAll(PiiPatterns(lib), SsnExampleText) == SsnExampleRedacted
  {
    var ps := PiiPatterns(lib);
    var t := SsnExampleText;
    SsnExampleScan();
    FirstEntry(lib);
    var p := ps[0];
    assert Ordered([Span(10, 21)], |t|, 0);
    assert Find(p, t) == [Span(10, 21)];
    SsnExampleReplace(p);
    SsnExampleMatches(p);
    OthersFindNothing(lib, t);
    OthersFindNothing(lib, SsnExampleRedacted);
    OnlyFirstEntryOccurs(ps, t);
  }
}
