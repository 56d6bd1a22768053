/**
 Integers as bytes in network order: what `htobe16/32/64` leave in memory, and reading them back.
 */
module NetworkOrder {

  type byte = x: int | 0 <= x < 256

  /** The widths the code offers: `sizeof` of int8_t, int16_t, int32_t and int64_t. */
  predicate IsWidth(w: nat) {
    w in {1, 2, 4, 8}
  }

  function Pow256(w: nat): (p: nat)
    ensures p > 0 && (w > 0 ==> p % 2 == 0)
  {
    if w == 0 then 1 else 256 * Pow256(w - 1)
  }

  predicate InSigned(x: int, w: nat) {
    -(Pow256(w) / 2) <= x < Pow256(w) / 2
  }

  /** The `w` low bytes of `x`, most significant first. */
  function BigEndian(x: nat, w: nat): (s: seq<byte>)
    ensures |s| == w
  {
    if w == 0 then [] else BigEndian(x / 256, w - 1) + [x % 256]
  }

  function FromBigEndian(s: seq<byte>): nat {
    if s == [] then 0 else 256 * FromBigEndian(s[..|s| - 1]) + s[|s| - 1]
  }

  /** The conversion to the unsigned type of the same width. */
  function ToUnsigned(x: int, w: nat): nat
    requires InSigned(x, w)
  {
    if x < 0 then x + Pow256(w) else x
  }

  function EncodeInt(x: int, w: nat): (s: seq<byte>)
    requires InSigned(x, w)
    ensures |s| == w
  {
    BigEndian(ToUnsigned(x, w), w)
  }

  function DecodeInt(s: seq<byte>): int {
    var v := FromBigEndian(s);
    if v >= Pow256(|s|) / 2 then v - Pow256(|s|) else v
  }

  lemma {:induction false} BigEndianRoundTrip(x: nat, w: nat)
    requires x < Pow256(w)
    ensures FromBigEndian(BigEndian(x, w)) == x
  {
    if w > 0 {
      BigEndianRoundTrip(x / 256, w - 1);
      assert BigEndian(x, w)[..w - 1] == BigEndian(x / 256, w - 1);
    }
  }

  lemma {:induction false} FromBigEndianRoundTrip(s: seq<byte>)
    ensures FromBigEndian(s) < Pow256(|s|)
    ensures BigEndian(FromBigEndian(s), |s|) == s
  {
    if s != [] {
      FromBigEndianRoundTrip(s[..|s| - 1]);
    }
  }

  /** Encoding at a width and decoding are inverse to each other: on every value of the signed type, */
  lemma DecodeEncode(x: int, w: nat)
    requires w > 0 && InSigned(x, w)
    ensures DecodeInt(EncodeInt(x, w)) == x
  {
    BigEndianRoundTrip(ToUnsigned(x, w), w);
  }

  /** and on every byte string. */
  lemma EncodeDecode(s: seq<byte>)
    requires s != []
    ensures InSigned(DecodeInt(s), |s|) && EncodeInt(DecodeInt(s), |s|) == s
  {
    FromBigEndianRoundTrip(s);
  }

  // ---------------------------------------------------------------- most significant byte first

  lemma {:induction false} AtLeastOnce(k: int, d: int)
    requires k >= 1 && d > 0
    ensures k * d >= d
  {
    if k > 1 {
      AtLeastOnce(k - 1, d);
      assert k * d == (k - 1) * d + d;
    }
  }

  /** Division with remainder has one answer. */
  lemma SameQuotient(d: int, q: int, r: int, q': int, r': int)
    requires d > 0 && q * d + r == q' * d + r' && 0 <= r < d && 0 <= r' < d
    ensures q == q'
  {
    assert (q - q') * d == q * d - q' * d && (q' - q) * d == q' * d - q * d;
    if q > q' {
      AtLeastOnce(q - q', d);
    } else if q < q' {
      AtLeastOnce(q' - q, d);
    }
  }

  lemma NestedDivision(x: int, d: int)
    requires d > 0
    ensures x / (256 * d) == x / 256 / d
  {
    var y := x / 256;
    var q, r := y / d, y % d;
    var e := 256 * d;
    assert y == q * d + r;
    assert q * e == 256 * (q * d);
    SameQuotient(e, q, 256 * r + x % 256, x / e, x % e);
  }

  /** Stated for what two's complement makes of a value of either sign. */
  lemma {:induction false} BigEndianPlaces(x: int, w: nat, wraps: bool, i: nat)
    requires i < w
    requires var u := if wraps then x + Pow256(w) else x; 0 <= u
    ensures BigEndian(if wraps then x + Pow256(w) else x, w)[i] == x / Pow256(w - 1 - i) % 256
    decreases w
  {
    var u: nat := if wraps then x + Pow256(w) else x;
    assert Pow256(w) == 256 * Pow256(w - 1);
    assert u / 256 == if wraps then x / 256 + Pow256(w - 1) else x / 256;
    if i < w - 1 {
      BigEndianPlaces(x / 256, w - 1, wraps, i);
      NestedDivision(x, Pow256(w - 2 - i));
    } else {
      assert u % 256 == x % 256;
    }
  }

  /** The byte at each position is the digit of that place in base 256, most significant first; of the
      two's complement for a negative value, as dividing rounds down. */
  lemma EncodePlaces(x: int, w: nat, i: nat)
    requires i < w && InSigned(x, w)
    ensures EncodeInt(x, w)[i] == x / Pow256(w - 1 - i) % 256
  {
    BigEndianPlaces(x, w, x < 0, i);
  }

  /** So it is for the value that is read from bytes. */
  lemma DecodePlaces(s: seq<byte>, i: nat)
    requires i < |s|
    ensures InSigned(DecodeInt(s), |s|) && s[i] == DecodeInt(s) / Pow256(|s| - 1 - i) % 256
  {
    EncodeDecode(s);
    EncodePlaces(DecodeInt(s), |s|, i);
  }

  // ---------------------------------------------------------------- mixed sequences of integers

  datatype Item = Item(width: nat, value: int)

  predicate ValidItem(i: Item) {
    IsWidth(i.width) && InSigned(i.value, i.width)
  }

  predicate ValidItems(items: seq<Item>) {
    forall i :: 0 <= i < |items| ==> ValidItem(items[i])
  }

  /** What appending the items one after the other puts at the end of a queue. */
  function EncodeAll(items: seq<Item>): seq<byte>
    requires ValidItems(items)
  {
    if items == [] then [] else EncodeInt(items[0].value, items[0].width) + EncodeAll(items[1..])
  }

  datatype Reading = TooShort | Reading(values: seq<int>, rest: seq<byte>)

  /** Reading integers of the given widths off the front of a queue. */
  function DecodeAll(widths: seq<nat>, s: seq<byte>): Reading {
    if widths == [] then Reading([], s)
    else if |s| < widths[0] then TooShort
    else
      match DecodeAll(widths[1..], s[widths[0]..])
      case TooShort => TooShort
      case Reading(values, rest) => Reading([DecodeInt(s[..widths[0]])] + values, rest)
  }

  function Widths(items: seq<Item>): seq<nat> {
    if items == [] then [] else [items[0].width] + Widths(items[1..])
  }

  function Values(items: seq<Item>): seq<int> {
    if items == [] then [] else [items[0].value] + Values(items[1..])
  }

  lemma DecodeFirst(w: nat, ws: seq<nat>, head: seq<byte>, tail: seq<byte>, values: seq<int>, rest: seq<byte>)
    requires |head| == w && DecodeAll(ws, tail) == Reading(values, rest)
    ensures DecodeAll([w] + ws, head + tail) == Reading([DecodeInt(head)] + values, rest)
  {
    assert ([w] + ws)[1..] == ws;
    assert (head + tail)[..w] == head && (head + tail)[w..] == tail;
  }

  lemma MixedStep(first: Item, tail: seq<byte>, ws: seq<nat>, values: seq<int>, rest: seq<byte>)
    requires ValidItem(first) && DecodeAll(ws, tail) == Reading(values, rest)
    ensures DecodeAll([first.width] + ws, EncodeInt(first.value, first.width) + tail)
            == Reading([first.value] + values, rest)
  {
    DecodeEncode(first.value, first.width);
    DecodeFirst(first.width, ws, EncodeInt(first.value, first.width), tail, values, rest);
  }

  lemma EncodeFirst(items: seq<Item>, rest: seq<byte>)
    requires ValidItems(items) && items != []
    ensures ValidItem(items[0]) && ValidItems(items[1..])
    ensures EncodeAll(items) + rest == EncodeInt(items[0].value, items[0].width) + (EncodeAll(items[1..]) + rest)
  {
    assert ValidItem(items[0]);
  }

  /** Any mix of widths reads back in order, and the bytes behind it stay as they are. */
  lemma {:induction false} MixedRoundTrip(items: seq<Item>, rest: seq<byte>)
    requires ValidItems(items)
    ensures DecodeAll(Widths(items), EncodeAll(items) + rest) == Reading(Values(items), rest)
  {
    if items == [] {
      assert EncodeAll(items) + rest == rest;
    } else {
      EncodeFirst(items, rest);
      MixedRoundTrip(items[1..], rest);
      MixedStep(items[0], EncodeAll(items[1..]) + rest, Widths(items[1..]), Values(items[1..]), rest);
    }
  }
}
