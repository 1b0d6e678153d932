/** Text as UTF-8 bytes: the byte-level fast paths, and the characters they stand for.

  The encoding is that of section 3 of RFC 3629.  A Rust string slice is the encoding of a
  sequence of characters; indexing it is by byte, and the radix tree counts characters.
 */
module Utf8Text {
  import opened Options
  import opened Prefixes

  type byte = b: int | 0 <= b < 0x100

  // ---------- The encoding ----------

  function EncodeChar(c: char): (bytes: seq<byte>)
    ensures 1 <= |bytes| <= 4 && |bytes| == Width(bytes[0])
  {
    var cp := c as int;
    if cp < 0x80 then [cp]
    else if cp < 0x800 then [0xC0 + cp / 0x40, 0x80 + cp % 0x40]
    else if cp < 0x10000 then [0xE0 + cp / 0x1000, 0x80 + cp / 0x40 % 0x40, 0x80 + cp % 0x40]
    else [0xF0 + cp / 0x40000, 0x80 + cp / 0x1000 % 0x40, 0x80 + cp / 0x40 % 0x40, 0x80 + cp % 0x40]
  }

  function Encode(s: string): seq<byte> {
    if s == "" then [] else EncodeChar(s[0]) + Encode(s[1..])
  }

  /** The number of bytes of the character a leading byte introduces. */
  function Width(lead: byte): (w: nat)
    ensures 1 <= w <= 4
  {
    if lead < 0x80 then 1 else if lead < 0xE0 then 2 else if lead < 0xF0 then 3 else 4
  }

  /** What a byte carries beyond its marker bits. */
  function Payload(b: byte, marker: int): int {
    b as int - marker
  }

  function CodePoint(b: seq<byte>): int
    requires 1 <= |b| <= 4
  {
    match |b|
    case 1 => b[0]
    case 2 => Payload(b[0], 0xC0) * 0x40 + Payload(b[1], 0x80)
    case 3 => Payload(b[0], 0xE0) * 0x1000 + Payload(b[1], 0x80) * 0x40 + Payload(b[2], 0x80)
    case _ =>
      Payload(b[0], 0xF0) * 0x40000 + Payload(b[1], 0x80) * 0x1000 + Payload(b[2], 0x80) * 0x40 + Payload(b[3], 0x80)
  }

  function DecodeChar(b: seq<byte>): char
    requires 1 <= |b| <= 4
  {
    var cp := CodePoint(b);
    if 0 <= cp < 0xD800 || 0xE000 <= cp < 0x110000 then cp as char else '\U{FFFD}'
  }

  function Decode(b: seq<byte>): string {
    if b == [] then ""
    else
      var w := Width(b[0]);
      if |b| < w then "" else [DecodeChar(b[..w])] + Decode(b[w..])
  }

  lemma Digits(n: nat)
    ensures n == n / 0x40 * 0x40 + n % 0x40
    ensures n / 0x1000 == n / 0x40 / 0x40
    ensures n / 0x40000 == n / 0x40 / 0x40 / 0x40
  {
  }

  lemma CharRoundTrip(c: char)
    ensures DecodeChar(EncodeChar(c)) == c
  {
    var cp := c as int;
    Digits(cp);
    Digits(cp / 0x40);
    Digits(cp / 0x1000);
    assert CodePoint(EncodeChar(c)) == cp;
  }

  /** Decoding gives back the characters that were encoded, and splitting at a character
    boundary splits the text. */
  lemma {:induction false} RoundTrip(s: string)
    ensures Decode(Encode(s)) == s
  {
    if s == "" {
    } else {
      HeadChar(s);
      CharRoundTrip(s[0]);
      RoundTrip(s[1..]);
    }
  }

  lemma HeadChar(s: string)
    requires s != ""
    ensures var b, w := Encode(s), |EncodeChar(s[0])|;
            w <= |b| && Width(b[0]) == w && b[..w] == EncodeChar(s[0]) && b[w..] == Encode(s[1..])
  {
  }

  lemma {:induction false} EncodeAppend(s: string, t: string)
    ensures Encode(s + t) == Encode(s) + Encode(t)
  {
    if s == "" {
      assert s + t == t;
    } else {
      EncodeAppend(s[1..], t);
      assert (s + t)[1..] == s[1..] + t;
    }
  }

  lemma {:induction false} EncodeLonger(s: string)
    ensures |s| <= |Encode(s)| && (Encode(s) == [] <==> s == "")
  {
    if s == "" {
    } else {
      EncodeLonger(s[1..]);
    }
  }

  predicate IsAscii(b: seq<byte>) {
    forall i :: 0 <= i < |b| ==> b[i] < 0x80
  }

  /** As long as only ASCII bytes have been passed, bytes are characters. */
  lemma {:induction false} AsciiPrefix(s: string, k: nat)
    requires k <= |Encode(s)| && IsAscii(Encode(s)[..k])
    ensures k <= |s| && Encode(s)[k..] == Encode(s[k..])
    ensures forall i :: 0 <= i < k ==> s[i] as int == Encode(s)[i]
  {
    if k == 0 {
    } else {
      var b := Encode(s);
      assert s != "";
      HeadChar(s);
      assert b[0] == b[..k][0] < 0x80;
      assert b[1..][..k - 1] == b[..k][1..];
      AsciiPrefix(s[1..], k - 1);
      assert s[1..][k - 1..] == s[k..];
      forall i | 0 <= i < k ensures s[i] as int == b[i] {
        if i > 0 {
          assert s[1..][i - 1] as int == b[1..][i - 1];
        }
      }
    }
  }

  // ---------- Walking by characters ----------

  /** The byte offset of the `n`-th character, if there is one. */
  function NthOffset(b: seq<byte>, n: nat): (r: Option<nat>)
    ensures r.Some? ==> r.value <= |b|
    decreases n
  {
    if b == [] then None
    else if n == 0 then Some(0)
    else
      var w := Width(b[0]);
      if |b| < w then None
      else match NthOffset(b[w..], n - 1)
        case Some(i) => Some(w + i)
        case None => None
  }

  lemma {:induction false} NthOffsetIsBoundary(s: string, n: nat)
    ensures n >= |s| ==> NthOffset(Encode(s), n) == None
    ensures n < |s| ==> NthOffset(Encode(s), n) == Some(|Encode(s[..n])|)
    ensures n <= |s| ==> Encode(s) == Encode(s[..n]) + Encode(s[n..])
    decreases n
  {
    hide EncodeChar;
    EncodeLonger(s);
    if n <= |s| {
      EncodeAppend(s[..n], s[n..]);
      assert s[..n] + s[n..] == s;
    }
    if s != "" && n > 0 {
      HeadChar(s);
      NthOffsetIsBoundary(s[1..], n - 1);
      if n < |s| {
        assert s[..n][0] == s[0] && s[..n][1..] == s[1..][..n - 1];
      }
    } else if s != "" {
      assert s[..0] == "";
    }
  }

  /** Drop the first `n` characters. */
  function AdvanceByChars(b: seq<byte>, n: nat): seq<byte> {
    if n == 0 then b
    else if n >= |b| then []
    else if IsAscii(b[..n]) then b[n..]
    else match NthOffset(b, n)
      case Some(i) => b[i..]
      case None => []
  }

  /** The fast path drops exactly `n` characters, or all of them if there are fewer. */
  lemma AdvanceDropsChars(s: string, n: nat)
    ensures AdvanceByChars(Encode(s), n) == if n <= |s| then Encode(s[n..]) else []
  {
    var b := Encode(s);
    EncodeLonger(s);
    if n == 0 {
      assert s[0..] == s;
    } else if n >= |b| {
      if n == |s| {
        assert s[n..] == "";
      }
    } else if IsAscii(b[..n]) {
      AsciiPrefix(s, n);
    } else {
      NthOffsetIsBoundary(s, n);
      if n < |s| {
        assert b[|Encode(s[..n])|..] == Encode(s[n..]);
      } else if n == |s| {
        assert s[n..] == "";
      }
    }
  }

  /** Keep the first `n` characters. */
  function TakeChars(b: seq<byte>, n: nat): seq<byte> {
    if n == 0 then []
    else match NthOffset(b, n)
      case Some(i) => b[..i]
      case None => b
  }

  lemma TakeKeepsChars(s: string, n: nat)
    ensures TakeChars(Encode(s), n) == if n <= |s| then Encode(s[..n]) else Encode(s)
  {
    NthOffsetIsBoundary(s, n);
    if n == |s| {
      assert s[..n] == s;
    }
  }

  // ---------- Node text ----------

  /** A node's text with its cached character count. */
  datatype NodeText = NodeText(text: seq<byte>, charCount: nat)

  ghost predicate Represents(t: NodeText, s: string) {
    t.text == Encode(s) && t.charCount == |s|
  }

  function SplitAtChar(t: NodeText, k: nat): (NodeText, NodeText) {
    if k == 0 then (NodeText([], 0), t)
    else if k >= t.charCount then (t, NodeText([], 0))
    else
      var i := match NthOffset(t.text, k) case Some(i) => i case None => |t.text|;
      (NodeText(t.text[..i], k), NodeText(t.text[i..], t.charCount - k))
  }

  /** A split loses no text, and both halves have exact counts. */
  lemma SplitIsExact(t: NodeText, s: string, k: nat)
    requires Represents(t, s)
    ensures var (prefix, suffix) := SplitAtChar(t, k);
            var m := if k <= |s| then k else |s|;
            && Represents(prefix, s[..m]) && Represents(suffix, s[m..])
            && prefix.text + suffix.text == t.text
            && prefix.charCount + suffix.charCount == t.charCount
  {
    NthOffsetIsBoundary(s, k);
    if k == 0 {
      assert s[..0] == "" && s[0..] == s;
    } else if k >= |s| {
      assert s[..|s|] == s && s[|s|..] == "";
    } else {
      var i := |Encode(s[..k])|;
      assert t.text[..i] == Encode(s[..k]) && t.text[i..] == Encode(s[k..]);
    }
  }

  // ---------- Common prefixes ----------

  /** The first position at which two byte sequences differ or one of them ends. */
  function CommonBytes(a: seq<byte>, b: seq<byte>, i: nat): (k: nat)
    requires i <= |a| && i <= |b|
    ensures i <= k && k <= |a| && k <= |b|
    ensures forall j :: i <= j < k ==> a[j] == b[j]
    ensures k < |a| && k < |b| ==> a[k] != b[k]
    decreases |a| - i
  {
    if i < |a| && i < |b| && a[i] == b[i] then CommonBytes(a, b, i + 1) else i
  }

  /** Count common characters by bytes while these are ASCII, and by characters otherwise. */
  function SharedPrefixCount(a: seq<byte>, b: seq<byte>): nat {
    var k := CommonBytes(a, b, 0);
    if IsAscii(a[..k]) then k else Lcp(Decode(a), Decode(b))
  }

  /** The fast path counts exactly the common characters. */
  lemma SharedPrefixCountsChars(s: string, t: string)
    ensures SharedPrefixCount(Encode(s), Encode(t)) == Lcp(s, t)
  {
    var a, b := Encode(s), Encode(t);
    var k := CommonBytes(a, b, 0);
    if IsAscii(a[..k]) {
      assert a[..k] == b[..k];
      AsciiPrefix(s, k);
      AsciiPrefix(t, k);
      forall i | 0 <= i < k ensures s[i] == t[i] {
        assert s[i] as int == t[i] as int;
      }
      assert s[..k] == t[..k];
      CommonPrefixFits(s[..k], s, t);
      NothingInCommon(s, t, k);
    } else {
      RoundTrip(s);
      RoundTrip(t);
    }
  }

  /** Equal characters have equal first bytes. */
  lemma NothingInCommon(s: string, t: string, k: nat)
    requires k <= |s| && k <= |t| && k <= Lcp(s, t)
    requires Encode(s[k..]) == [] || Encode(t[k..]) == [] || Encode(s[k..])[0] != Encode(t[k..])[0]
    ensures Lcp(s, t) == k
  {
  }
}
