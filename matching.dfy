/** The regular-expression patterns, abstracted as matchers.

    A matcher is any function from a text to a list of ranges; `Find` keeps
    only what the regex crate's find_iter can return for the fixed patterns:
    non-empty, in-bounds ranges in ascending order that do not overlap (none
    of the ten patterns matches the empty string). `ReplaceAll` splices a
    literal placeholder over exactly the ranges `Find` returns, as
    replace_all does with a replacement that holds no '$'. */
module Matching {
  import opened Types

  /** The half-open range [lo, hi) of positions in a text. */
  datatype Span = Span(lo: nat, hi: nat)

  /** `spans` are non-empty ranges inside a text of length `n`, none starting
      before `from`, in ascending order and pairwise disjoint. */
  predicate Ordered(spans: seq<Span>, n: nat, from: nat)
  {
    && (forall i :: 0 <= i < |spans| ==> from <= spans[i].lo < spans[i].hi <= n)
    && (forall i, j :: 0 <= i < j < |spans| ==> spans[i].hi <= spans[j].lo)
  }

  /** Ordered ranges exist only where there is room for them. */
  lemma OrderedWithin(spans: seq<Span>, n: nat, from: nat)
    requires Ordered(spans, n, from)
    ensures spans != [] ==> from < n
  {
    if spans != [] {
      assert from <= spans[0].lo < spans[0].hi <= n;
    }
  }

  /** Keeps, left to right, each range that is non-empty, in bounds and starts
      at or after the end of the last range kept. */
  function Sanitize(raw: seq<Span>, n: nat, from: nat): (r: seq<Span>)
    ensures Ordered(r, n, from)
    ensures forall sp :: sp in r ==> sp in raw
    ensures Ordered(raw, n, from) ==> r == raw
    decreases |raw|
  {
    if raw == [] then []
    else if from <= raw[0].lo < raw[0].hi <= n then
      OrderedTail(raw, n, from);
      [raw[0]] + Sanitize(raw[1..], n, raw[0].hi)
    else
      Sanitize(raw[1..], n, from)
  }

  /** The ranges after the first of an ordered list start at or after the
      first one's end. */
  lemma OrderedTail(spans: seq<Span>, n: nat, from: nat)
    requires spans != []
    ensures Ordered(spans, n, from) ==> Ordered(spans[1..], n, spans[0].hi)
  {
    if Ordered(spans, n, from) {
      forall i | 0 <= i < |spans| - 1 ensures spans[0].hi <= spans[1..][i].lo {
        assert spans[1..][i] == spans[i + 1];
      }
    }
  }

  /** What a compiled regular expression reports for a text. */
  type Finder = string -> seq<Span>

  /** One registry entry: a category and its matcher. */
  datatype Pattern = Pattern(kind: PiiType, regex: Finder)

  /** The occurrences of `p` in `s`, in the shape find_iter guarantees. */
  function Find(p: Pattern, s: string): (r: seq<Span>)
    ensures Ordered(r, |s|, 0)
  {
    Sanitize(p.regex(s), |s|, 0)
  }

  /** Nothing occurs in the empty text. */
  lemma FindInEmpty(p: Pattern)
    ensures Find(p, "") == []
  {
    OrderedWithin(Find(p, ""), 0, 0);
  }

  /** Total width of the ranges. */
  function Covered(spans: seq<Span>): int
  {
    if spans == [] then 0 else spans[0].hi - spans[0].lo + Covered(spans[1..])
  }

  /** Copies `s` from position `pos`, putting `ph` in place of every range:
      the covered characters go and one copy of `ph` comes per range. */
  function Splice(s: string, spans: seq<Span>, ph: string, pos: nat): (r: string)
    requires pos <= |s| && Ordered(spans, |s|, pos)
    ensures |r| == |s| - pos - Covered(spans) + |spans| * |ph|
    decreases |spans|
  {
    if spans == [] then s[pos..]
    else
      var rest := Splice(s, spans[1..], ph, spans[0].hi);
      assert |spans| * |ph| == (|spans| - 1) * |ph| + |ph|;
      s[pos..spans[0].lo] + ph + rest
  }

  /** Replaces every occurrence of `p` in `s` with the placeholder of its
      category. */
  function ReplaceAll(p: Pattern, s: string): (r: string)
    ensures Find(p, s) == [] ==> r == s
    ensures |r| == |s| - Covered(Find(p, s)) + |Find(p, s)| * |Redaction(p.kind)|
  {
    Splice(s, Find(p, s), Redaction(p.kind), 0)
  }

  // An ASCII reading of the Ssn pattern \b\d{3}-\d{2}-\d{4}\b, where \d is
  // taken as '0'..'9' and \w as ASCII letters, digits and '_'.

  predicate IsAsciiDigit(c: char)
  {
    '0' <= c <= '9'
  }

  predicate IsAsciiWordChar(c: char)
  {
    IsAsciiDigit(c) || 'a' <= c <= 'z' || 'A' <= c <= 'Z' || c == '_'
  }

  /** An SSN-shaped, word-bounded run of 11 characters starts at `i`. */
  predicate SsnAt(s: string, i: nat)
  {
    && i + 11 <= |s|
    && (i == 0 || !IsAsciiWordChar(s[i - 1]))
    && IsAsciiDigit(s[i]) && IsAsciiDigit(s[i + 1]) && IsAsciiDigit(s[i + 2])
    && s[i + 3] == '-'
    && IsAsciiDigit(s[i + 4]) && IsAsciiDigit(s[i + 5])
    && s[i + 6] == '-'
    && IsAsciiDigit(s[i + 7]) && IsAsciiDigit(s[i + 8]) && IsAsciiDigit(s[i + 9]) && IsAsciiDigit(s[i + 10])
    && (i + 11 == |s| || !IsAsciiWordChar(s[i + 11]))
  }

  /** Leftmost-first scan from `i`: the pattern has a fixed length, so after a
      match the scan resumes at its end. */
  function SsnScan(s: string, i: nat): (r: seq<Span>)
    ensures Ordered(r, |s|, i)
    ensures forall sp :: sp in r ==> sp.hi == sp.lo + 11 && SsnAt(s, sp.lo)
    ensures forall j: nat :: i <= j && SsnAt(s, j) ==> Span(j, j + 11) in r
    decreases |s| - i
  {
    if |s| < i + 11 then []
    else if SsnAt(s, i) then
      var rest := SsnScan(s, i + 11);
      assert forall j: nat :: i < j && SsnAt(s, j) ==> i + 11 <= j by {
        forall j: nat | i < j && SsnAt(s, j) ensures i + 11 <= j {
          SsnRunsDisjoint(s, i, j);
        }
      }
      [Span(i, i + 11)] + rest
    else SsnScan(s, i + 1)
  }

  /** Two SSN-shaped runs never overlap: the hyphens and the word
      boundaries of one rule out a start inside the other. */
  lemma SsnRunsDisjoint(s: string, i: nat, j: nat)
    requires SsnAt(s, i) && SsnAt(s, j) && i < j
    ensures i + 11 <= j
  {
  }

  /** The scan finds nothing exactly when no SSN-shaped run starts at or after
      `i`. */
  lemma {:induction false} SsnScanEmpty(s: string, i: nat)
    ensures SsnScan(s, i) == [] <==> forall j: nat :: i <= j ==> !SsnAt(s, j)
    decreases |s| - i
  {
    if |s| < i + 11 {
    } else if SsnAt(s, i) {
    } else {
      SsnScanEmpty(s, i + 1);
    }
  }

  /** The ASCII Ssn matcher: exactly the SSN-shaped runs of the text, as
      ordered 11-character ranges; none exactly when there is no such run. */
  function AsciiSsnFind(s: string): (r: seq<Span>)
    ensures Ordered(r, |s|, 0)
    ensures forall sp :: sp in r ==> sp.hi == sp.lo + 11 && SsnAt(s, sp.lo)
    ensures r == [] <==> forall j: nat :: !SsnAt(s, j)
    ensures forall j: nat :: SsnAt(s, j) ==> Span(j, j + 11) in r
  {
    SsnScanEmpty(s, 0);
    SsnScan(s, 0)
  }
}
