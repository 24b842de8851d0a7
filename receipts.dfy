/** Receipt helpers: the content hash "sha256:" + lowercase hex of a digest,
    and the receipt id "rcpt_" + a UUID with its hyphens removed.

    SHA-256 itself is an input to the model (`sha`, a function from a text to
    its 32-byte digest); so is the random UUID (16 bytes). */
module Receipts {
  import opened Types

  type Digest = d: seq<byte> | |d| == 32 witness seq(32, _ => 0)

  type Uuid = u: seq<byte> | |u| == 16 witness seq(16, _ => 0)

  const HexDigits: string := "0123456789abcdef"

  predicate IsLowerHex(c: char)
  {
    '0' <= c <= '9' || 'a' <= c <= 'f'
  }

  /** The value of a lowercase hex digit. */
  function HexValue(c: char): (v: nat)
    requires IsLowerHex(c)
    ensures v < 16
  {
    if '0' <= c <= '9' then c as int - '0' as int else c as int - 'a' as int + 10
  }

  lemma HexDigitValue(v: nat)
    requires v < 16
    ensures IsLowerHex(HexDigits[v]) && HexValue(HexDigits[v]) == v
  {
  }

  /** Lowercase hex, two digits per byte, high nibble first. */
  function HexEncode(bs: seq<byte>): (r: string)
    ensures |r| == 2 * |bs|
    ensures forall i :: 0 <= i < |r| ==> IsLowerHex(r[i])
  {
    if bs == [] then []
    else
      HexDigitValue(bs[0] as int / 16);
      HexDigitValue(bs[0] as int % 16);
      [HexDigits[bs[0] as int / 16], HexDigits[bs[0] as int % 16]] + HexEncode(bs[1..])
  }

  /** Reads back lowercase hex, two digits per byte. */
  function HexDecode(s: string): seq<byte>
    requires |s| % 2 == 0
    requires forall i :: 0 <= i < |s| ==> IsLowerHex(s[i])
  {
    if s == [] then []
    else [(HexValue(s[0]) * 16 + HexValue(s[1])) as byte] + HexDecode(s[2..])
  }

  /** Hex encoding loses nothing: decoding gives back the bytes. */
  lemma {:induction false} HexRoundTrip(bs: seq<byte>)
    ensures HexDecode(HexEncode(bs)) == bs
  {
    if bs != [] {
      var b := bs[0] as int;
      HexDigitValue(b / 16);
      HexDigitValue(b % 16);
      var e := HexEncode(bs);
      assert e[2..] == HexEncode(bs[1..]);
      HexRoundTrip(bs[1..]);
      assert HexValue(e[0]) * 16 + HexValue(e[1]) == b;
    }
  }

  lemma {:induction false} HexEncodeAppend(a: seq<byte>, b: seq<byte>)
    ensures HexEncode(a + b) == HexEncode(a) + HexEncode(b)
  {
    if a == [] {
      assert a + b == b;
    } else {
      assert (a + b)[1..] == a[1..] + b;
      HexEncodeAppend(a[1..], b);
    }
  }

  const HashPrefix: string := "sha256:"

  /** hash_text: "sha256:" followed by the 64 lowercase hex digits of the
      SHA-256 digest of the text. */
  function HashText(sha: string -> Digest, text: string): (r: string)
    ensures |r| == 71 && r[..7] == HashPrefix
    ensures forall i :: 7 <= i < |r| ==> IsLowerHex(r[i])
  {
    HashPrefix + HexEncode(sha(text))
  }

  /** Two texts get the same hash string exactly when their digests agree:
      the rendering neither merges nor splits digests. */
  lemma HashTextFaithful(sha: string -> Digest, a: string, b: string)
    ensures HashText(sha, a) == HashText(sha, b) <==> sha(a) == sha(b)
  {
    if HashText(sha, a) == HashText(sha, b) {
      assert HashText(sha, a)[7..] == HexEncode(sha(a));
      assert HashText(sha, b)[7..] == HexEncode(sha(b));
      HexRoundTrip(sha(a));
      HexRoundTrip(sha(b));
    }
  }

  /** The canonical 8-4-4-4-12 rendering of a UUID. */
  function Hyphenated(u: Uuid): (r: string)
    ensures |r| == 36
    ensures r[8] == '-' && r[13] == '-' && r[18] == '-' && r[23] == '-'
    ensures forall i :: 0 <= i < 36 && i != 8 && i != 13 && i != 18 && i != 23 ==> IsLowerHex(r[i])
  {
    HexEncode(u[..4]) + "-" + HexEncode(u[4..6]) + "-" + HexEncode(u[6..8]) + "-"
      + HexEncode(u[8..10]) + "-" + HexEncode(u[10..])
  }

  /** The text with every occurrence of `c` removed. */
  function Without(s: string, c: char): (r: string)
    ensures c !in r
    ensures forall x :: x in r ==> x in s
  {
    if s == [] then []
    else if s[0] == c then Without(s[1..], c)
    else [s[0]] + Without(s[1..], c)
  }

  lemma {:induction false} WithoutAppend(a: string, b: string, c: char)
    ensures Without(a + b, c) == Without(a, c) + Without(b, c)
  {
    if a == [] {
      assert a + b == b;
    } else {
      assert (a + b)[1..] == a[1..] + b;
      WithoutAppend(a[1..], b, c);
    }
  }

  lemma {:induction false} WithoutAbsent(s: string, c: char)
    requires c !in s
    ensures Without(s, c) == s
  {
    if s != [] {
      WithoutAbsent(s[1..], c);
    }
  }

  lemma HexHasNoHyphen(bs: seq<byte>)
    ensures Without(HexEncode(bs), '-') == HexEncode(bs)
  {
    var h := HexEncode(bs);
    assert forall i :: 0 <= i < |h| ==> h[i] != '-' by {
      forall i | 0 <= i < |h| ensures h[i] != '-' {
        assert IsLowerHex(h[i]);
      }
    }
    WithoutAbsent(h, '-');
  }

  const ReceiptPrefix: string := "rcpt_"

  /** generate_receipt_id for the UUID `u`: "rcpt_" + the UUID's rendering
      with the hyphens stripped, which is exactly its 32 hex digits. */
  function GenerateReceiptId(u: Uuid): (id: string)
    ensures id == ReceiptPrefix + HexEncode(u)
    ensures |id| == 37 && id[..5] == ReceiptPrefix && '-' !in id
  {
    var parts := [u[..4], u[4..6], u[6..8], u[8..10], u[10..]];
    assert u == parts[0] + parts[1] + parts[2] + parts[3] + parts[4];
    HexEncodeAppend(parts[0], parts[1]);
    HexEncodeAppend(parts[0] + parts[1], parts[2]);
    HexEncodeAppend(parts[0] + parts[1] + parts[2], parts[3]);
    HexEncodeAppend(parts[0] + parts[1] + parts[2] + parts[3], parts[4]);
    StripHyphens(u);
    ReceiptPrefix + Without(Hyphenated(u), '-')
  }

  /** Stripping hyphens from `acc + "-" + h`, where `h` is hex. */
  lemma StripOne(acc: string, bs: seq<byte>)
    ensures Without(acc + "-" + HexEncode(bs), '-') == Without(acc, '-') + HexEncode(bs)
  {
    var h := HexEncode(bs);
    var dash: string := "-";
    assert Without(dash, '-') == [];
    WithoutAppend(acc, dash, '-');
    WithoutAppend(acc + dash, h, '-');
    HexHasNoHyphen(bs);
  }

  lemma StripHyphens(u: Uuid)
    ensures Without(Hyphenated(u), '-')
      == HexEncode(u[..4]) + HexEncode(u[4..6]) + HexEncode(u[6..8]) + HexEncode(u[8..10]) + HexEncode(u[10..])
  {
    var h0 := HexEncode(u[..4]);
    HexHasNoHyphen(u[..4]);
    var a1 := h0 + "-" + HexEncode(u[4..6]);
    StripOne(h0, u[4..6]);
    var a2 := a1 + "-" + HexEncode(u[6..8]);
    StripOne(a1, u[6..8]);
    var a3 := a2 + "-" + HexEncode(u[8..10]);
    StripOne(a2, u[8..10]);
    StripOne(a3, u[10..]);
  }

  /** Distinct UUIDs give distinct receipt ids and vice versa, so receipt ids
      are exactly as unique as the random UUIDs behind them. */
  lemma ReceiptIdInjective(u: Uuid, v: Uuid)
    ensures GenerateReceiptId(u) == GenerateReceiptId(v) <==> u == v
  {
    if GenerateReceiptId(u) == GenerateReceiptId(v) {
      assert GenerateReceiptId(u)[5..] == HexEncode(u);
      assert GenerateReceiptId(v)[5..] == HexEncode(v);
      HexRoundTrip(u);
      HexRoundTrip(v);
    }
  }
}
