/**
 A client of the buffer: integers of mixed widths go in at the end, or in front, and come out at the front.
 */
module MixedIntegers {
  import opened NetworkOrder
  import opened ByteBuffer

  method AppendAll(buffer: Buffer, items: seq<Item>)
    requires buffer.Valid() && ValidItems(items)
    modifies buffer, buffer.data
    ensures buffer.Valid() && (buffer.data == old(buffer.data) || fresh(buffer.data))
    ensures buffer.Contents() == old(buffer.Contents()) + EncodeAll(items)
    decreases |items|
  {
    if items == [] {
      return;
    }
    ghost var before := buffer.Contents();
    assert ValidItem(items[0]);
    var first := items[0];
    buffer.AppendInt(first.value, first.width);
    AppendAll(buffer, items[1..]);
    Associates(before, EncodeInt(first.value, first.width), EncodeAll(items[1..]));
  }

  lemma Associates(a: seq<byte>, b: seq<byte>, c: seq<byte>)
    ensures (a + b) + c == a + (b + c)
  {
  }

  ghost predicate AreWidths(widths: seq<nat>) {
    forall i :: 0 <= i < |widths| ==> IsWidth(widths[i])
  }

  method ReadAll(buffer: Buffer, widths: seq<nat>) returns (values: seq<int>)
    requires buffer.Valid() && AreWidths(widths) && DecodeAll(widths, buffer.Contents()).Reading?
    modifies buffer
    ensures buffer.Valid() && buffer.data == old(buffer.data)
    ensures Reading(values, buffer.Contents()) == DecodeAll(widths, old(buffer.Contents()))
    decreases |widths|
  {
    if widths == [] {
      return [];
    }
    var x := buffer.ReadInt(widths[0]);
    var others := ReadAll(buffer, widths[1..]);
    values := [x] + others;
  }

  lemma {:induction false} ItemsHaveWidths(items: seq<Item>)
    requires ValidItems(items)
    ensures AreWidths(Widths(items))
  {
    if items != [] {
      assert ValidItem(items[0]);
      ItemsHaveWidths(items[1..]);
    }
  }

  /** Integers of any mix of widths, put into an empty buffer with other bytes behind them, come out of it
      as they went in and leave those bytes. */
  method AppendAndRead(buffer: Buffer, items: seq<Item>, rest: seq<byte>) returns (values: seq<int>)
    requires buffer.Valid() && buffer.Contents() == [] && ValidItems(items)
    modifies buffer, buffer.data
    ensures buffer.Valid() && values == Values(items) && buffer.Contents() == rest
  {
    AppendAll(buffer, items);
    buffer.Append(rest);
    assert buffer.Contents() == EncodeAll(items) + rest;
    MixedRoundTrip(items, rest);
    ItemsHaveWidths(items);
    values := ReadAll(buffer, Widths(items));
  }

  /** An integer put in front and read again is itself, and the buffer holds what it held. */
  method PrependAndRead(buffer: Buffer, x: int, w: nat) returns (value: int)
    requires buffer.Valid() && IsWidth(w) && InSigned(x, w) && w <= buffer.reader
    modifies buffer, buffer.data
    ensures buffer.Valid() && value == x && buffer.Contents() == old(buffer.Contents())
  {
    buffer.PrependInt(x, w);
    assert buffer.Contents()[..w] == EncodeInt(x, w);
    DecodeEncode(x, w);
    value := buffer.ReadInt(w);
  }
}
