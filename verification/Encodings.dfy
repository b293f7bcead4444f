/** Characters as bytes and code units: UTF-8 (section 3 of RFC 3629) and
    UTF-16 (section 2.1 of RFC 2781). */
module Encodings {
  import opened Collections

  type Byte = x: int | 0 <= x < 256

  type Unit = x: int | 0 <= x < 0x1_0000

  function Utf8(c: char): (bytes: seq<Byte>) {
    var n := c as int;
    if n < 0x80 then [n]
    else if n < 0x800 then [0xC0 + n / 64, 0x80 + n % 64]
    else if n < 0x1_0000 then [0xE0 + n / 4096, 0x80 + n / 64 % 64, 0x80 + n % 64]
    else [0xF0 + n / 262144, 0x80 + n / 4096 % 64, 0x80 + n / 64 % 64, 0x80 + n % 64]
  }

  function Width8(): char -> nat {
    (c: char) =>
      var n := c as int;
      if n < 0x80 then 1 else if n < 0x800 then 2 else if n < 0x1_0000 then 3 else 4
  }

  function Utf16(c: char): (units: seq<Unit>) {
    var n := c as int;
    if n < 0x1_0000 then [n] else [0xD800 + (n - 0x1_0000) / 0x400, 0xDC00 + (n - 0x1_0000) % 0x400]
  }

  /** Beyond the first 0x10000 a character is a lead and a trail unit, which
      give it back; the others are their own unit. */
  lemma Utf16Pairs(c: char)
    ensures c as int < 0x1_0000 ==> Utf16(c) == [c as int]
    ensures c as int >= 0x1_0000 ==>
              && |Utf16(c)| == 2 && 0xD800 <= Utf16(c)[0] < 0xDC00 && 0xDC00 <= Utf16(c)[1] < 0xE000
              && 0x1_0000 + (Utf16(c)[0] as int - 0xD800) * 0x400 + (Utf16(c)[1] as int - 0xDC00) == c as int
  {
  }

  function Width16(): char -> nat {
    (c: char) => if c as int < 0x1_0000 then 1 else 2
  }

  predicate IsContinuation(b: Byte) {
    0x80 <= b < 0xC0
  }

  /** How many bytes the character that `lead` begins has. */
  function LengthAfter(lead: Byte): nat {
    if lead < 0x80 then 1 else if lead < 0xE0 then 2 else if lead < 0xF0 then 3 else 4
  }

  lemma Utf8Shape(c: char)
    ensures |Utf8(c)| == Width8()(c) == LengthAfter(Utf8(c)[0])
    ensures !IsContinuation(Utf8(c)[0]) && forall k :: 0 < k < |Utf8(c)| ==> IsContinuation(Utf8(c)[k])
  {
  }

  /** A character takes as few bytes as it can. */
  lemma Utf8Lengths(c: char)
    ensures |Utf8(c)| == 1 <==> c as int <= 0x7F
    ensures |Utf8(c)| == 2 <==> 0x80 <= c as int <= 0x7FF
    ensures |Utf8(c)| == 3 <==> 0x800 <= c as int <= 0xFFFF
    ensures |Utf8(c)| <= 4
  {
  }

  /** The character `bytes` encode. */
  function Decoded(bytes: seq<Byte>): int {
    if |bytes| == 1 then bytes[0]
    else if |bytes| == 2 then 64 * (bytes[0] as int - 0xC0) + (bytes[1] as int - 0x80)
    else if |bytes| == 3 then
      4096 * (bytes[0] as int - 0xE0) + 64 * (bytes[1] as int - 0x80) + (bytes[2] as int - 0x80)
    else if |bytes| == 4 then
      262144 * (bytes[0] as int - 0xF0) + 4096 * (bytes[1] as int - 0x80) + 64 * (bytes[2] as int - 0x80)
      + (bytes[3] as int - 0x80)
    else 0
  }

  lemma Digits(n: nat)
    ensures n == n / 64 * 64 + n % 64
    ensures n / 64 == n / 4096 * 64 + n / 64 % 64
    ensures n / 4096 == n / 262144 * 64 + n / 4096 % 64
  {
  }

  lemma DecodesBack(c: char)
    ensures Decoded(Utf8(c)) == c as int
  {
    Digits(c as int);
  }

  lemma Utf8Injective(c: char, d: char)
    requires Utf8(c) == Utf8(d)
    ensures c == d
  {
    DecodesBack(c);
    DecodesBack(d);
  }

  /** The units of `text`, each character's as wide as `width` says. */
  function Units(text: string, width: char -> nat): (n: nat) {
    if text == "" then 0 else Units(text[..|text| - 1], width) + width(text[|text| - 1])
  }

  function Encode(text: string): (bytes: seq<Byte>) {
    if text == "" then [] else Encode(text[..|text| - 1]) + Utf8(text[|text| - 1])
  }

  function Encode16(text: string): (units: seq<Unit>) {
    if text == "" then [] else Encode16(text[..|text| - 1]) + Utf16(text[|text| - 1])
  }

  lemma {:induction false} UnitsAppend(s: string, t: string, width: char -> nat)
    ensures Units(s + t, width) == Units(s, width) + Units(t, width)
  {
    if t == "" {
      assert s + t == s;
    } else {
      assert (s + t)[..|s + t| - 1] == s + t[..|t| - 1];
      UnitsAppend(s, t[..|t| - 1], width);
    }
  }

  lemma {:induction false} EncodeAppend(s: string, t: string)
    ensures Encode(s + t) == Encode(s) + Encode(t)
  {
    if t == "" {
      assert s + t == s;
    } else {
      assert (s + t)[..|s + t| - 1] == s + t[..|t| - 1];
      EncodeAppend(s, t[..|t| - 1]);
    }
  }

  lemma {:induction false} Encode16Append(s: string, t: string)
    ensures Encode16(s + t) == Encode16(s) + Encode16(t)
  {
    if t == "" {
      assert s + t == s;
    } else {
      assert (s + t)[..|s + t| - 1] == s + t[..|t| - 1];
      Encode16Append(s, t[..|t| - 1]);
    }
  }

  /** The widths are the lengths of the encodings. */
  lemma {:induction false} EncodedLengths(text: string)
    ensures |Encode(text)| == Units(text, Width8()) >= |text|
    ensures |Encode16(text)| == Units(text, Width16())
  {
    if text != "" {
      EncodedLengths(text[..|text| - 1]);
      Utf8Shape(text[|text| - 1]);
    }
  }

  lemma EncodeOne(c: char)
    ensures Encode([c]) == Utf8(c)
  {
    assert [c][..0] == "";
  }

  /** The first character of a text, in bytes. */
  lemma EncodeFirst(text: string)
    requires text != ""
    ensures Encode(text) == Utf8(text[0]) + Encode(text[1..])
  {
    assert text == [text[0]] + text[1..];
    EncodeAppend([text[0]], text[1..]);
    EncodeOne(text[0]);
  }

  /** Where the bytes of character `k` begin. */
  function ByteAt(text: string, k: nat): (p: nat)
    requires k <= |text|
  {
    Units(text[..k], Width8())
  }

  lemma ByteAtNext(text: string, k: nat)
    requires k < |text|
    ensures ByteAt(text, k + 1) == ByteAt(text, k) + Width8()(text[k])
  {
    assert text[..k + 1][..k] == text[..k];
  }

  lemma {:induction false} ByteAtGrows(text: string, j: nat, k: nat)
    requires j <= k <= |text|
    ensures ByteAt(text, k) >= ByteAt(text, j) + (k - j)
  {
    if j < k {
      ByteAtGrows(text, j, k - 1);
      ByteAtNext(text, k - 1);
    }
  }

  /** The character that begins at byte `p`, or the end there. */
  function BoundaryAt(text: string, p: nat): (k: Option<nat>)
    ensures k.Some? ==> k.value <= |text| && ByteAt(text, k.value) == p
  {
    if Units(text, Width8()) == p then
      assert text[..|text|] == text;
      Some(|text|)
    else if text == "" then None
    else
      var k := BoundaryAt(text[..|text| - 1], p);
      assert k.Some? ==> text[..|text| - 1][..k.value] == text[..k.value];
      k
  }

  lemma {:induction false} BoundaryFound(text: string, k: nat)
    requires k <= |text|
    ensures BoundaryAt(text, ByteAt(text, k)) == Some(k)
  {
    assert text[..|text|] == text;
    if k < |text| {
      ByteAtGrows(text, k, |text|);
      assert text[..|text| - 1][..k] == text[..k];
      BoundaryFound(text[..|text| - 1], k);
    }
  }

  /** The text between two byte positions, unless one is inside a character. */
  function Slice(text: string, a: nat, b: nat): (s: Option<string>) {
    var i, j := BoundaryAt(text, a), BoundaryAt(text, b);
    if i.Some? && j.Some? && i.value <= j.value then Some(text[i.value..j.value]) else None
  }

  lemma SliceOfCharacters(text: string, i: nat, j: nat)
    requires i <= j <= |text|
    ensures Slice(text, ByteAt(text, i), ByteAt(text, j)) == Some(text[i..j])
  {
    BoundaryFound(text, i);
    BoundaryFound(text, j);
  }

  lemma EncodeSplit(text: string, k: nat)
    requires k <= |text|
    ensures Encode(text) == Encode(text[..k]) + Encode(text[k..])
    ensures |Encode(text[..k])| == ByteAt(text, k)
  {
    assert text == text[..k] + text[k..];
    EncodeAppend(text[..k], text[k..]);
    EncodedLengths(text[..k]);
  }

  // ----- Finding bytes finds characters

  /** `needle` stands at position `p` of `hay`. */
  predicate OccursAt<T(==)>(hay: seq<T>, needle: seq<T>, p: nat) {
    p + |needle| <= |hay| && hay[p..p + |needle|] == needle
  }

  lemma PrefixesDiffer(c: char, d: char, rest: seq<Byte>, more: seq<Byte>)
    requires Utf8(c) + rest <= Utf8(d) + more
    ensures c == d && rest <= more
  {
    var a, b := Utf8(c) + rest, Utf8(d) + more;
    Utf8Shape(c);
    Utf8Shape(d);
    assert a[0] == b[0];
    assert Utf8(c) == a[..|Utf8(c)|] == b[..|Utf8(c)|] == Utf8(d);
    Utf8Injective(c, d);
    assert rest == a[|Utf8(c)|..] && more == b[|Utf8(c)|..];
  }

  /** UTF-8 is a prefix code: the bytes of a text begin those of another only
      when its characters do. */
  lemma {:induction false} PrefixBytesArePrefixCharacters(q: string, text: string)
    requires Encode(q) <= Encode(text)
    ensures q <= text
  {
    if q != "" {
      EncodeFirst(q);
      Utf8Shape(q[0]);
      if text != "" {
        EncodeFirst(text);
        PrefixesDiffer(q[0], text[0], Encode(q[1..]), Encode(text[1..]));
        PrefixBytesArePrefixCharacters(q[1..], text[1..]);
        assert q == [q[0]] + q[1..] && text == [text[0]] + text[1..];
      }
    }
  }

  lemma {:induction false} PrefixesEncode(q: string, text: string)
    ensures Encode(q) <= Encode(text) <==> q <= text
  {
    if q <= text {
      EncodeSplit(text, |q|);
      assert text[..|q|] == q;
    } else if Encode(q) <= Encode(text) {
      PrefixBytesArePrefixCharacters(q, text);
    }
  }

  lemma BytesFromBoundary(text: string, k: nat)
    requires k <= |text|
    ensures ByteAt(text, k) <= |Encode(text)|
    ensures Encode(text)[ByteAt(text, k)..] == Encode(text[k..])
  {
    EncodeSplit(text, k);
  }

  lemma OccursAtPrefix<T>(hay: seq<T>, needle: seq<T>, p: nat)
    requires p <= |hay|
    ensures OccursAt(hay, needle, p) <==> needle <= hay[p..]
  {
    if p + |needle| <= |hay| {
      assert hay[p..][..|needle|] == hay[p..p + |needle|];
    }
  }

  /** A query stands at a character of a text exactly when its bytes do. */
  lemma OccursInBoth(text: string, q: string, k: nat)
    requires k <= |text|
    ensures OccursAt(Encode(text), Encode(q), ByteAt(text, k)) <==> OccursAt(text, q, k)
  {
    BytesFromBoundary(text, k);
    OccursAtPrefix(text, q, k);
    OccursAtPrefix(Encode(text), Encode(q), ByteAt(text, k));
    PrefixesEncode(q, text[k..]);
  }

  /** Inside a character every byte is a continuation. */
  lemma InsideIsContinuation(text: string, k: nat, p: nat)
    requires k < |text| && ByteAt(text, k) < p < ByteAt(text, k + 1)
    ensures p < |Encode(text)| && IsContinuation(Encode(text)[p])
  {
    EncodeSplit(text, k);
    EncodeFirst(text[k..]);
    Utf8Shape(text[k]);
    ByteAtNext(text, k);
    var at := p - ByteAt(text, k);
    assert Encode(text)[p] == Encode(text[k..])[at] == Utf8(text[k])[at];
  }

  /** So no query begins there. */
  lemma NothingInside(text: string, q: string, k: nat, p: nat)
    requires q != "" && k < |text| && ByteAt(text, k) < p < ByteAt(text, k + 1)
    ensures !OccursAt(Encode(text), Encode(q), p)
  {
    InsideIsContinuation(text, k, p);
    EncodeFirst(q);
    Utf8Shape(q[0]);
    if p + |Encode(q)| <= |Encode(text)| {
      assert Encode(text)[p..p + |Encode(q)|][0] == Encode(text)[p];
    }
  }

  /** Every byte position of a text lies in a character or at its start. */
  lemma {:induction false} CharacterAround(text: string, p: nat) returns (k: nat)
    requires p < Units(text, Width8())
    ensures k < |text| && ByteAt(text, k) <= p < ByteAt(text, k + 1)
  {
    assert text[..|text|] == text;
    if ByteAt(text, |text| - 1) <= p {
      k := |text| - 1;
    } else {
      k := CharacterAround(text[..|text| - 1], p);
      assert text[..|text| - 1][..k] == text[..k] && text[..|text| - 1][..k + 1] == text[..k + 1];
    }
  }
}
