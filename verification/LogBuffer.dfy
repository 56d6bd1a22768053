/**
 The bounded text buffer behind a log line (`FixedBuffer`, LogStream.h) and the insertions into it
 (`LogStream`). A piece that does not fit is dropped whole.
 */
module LogBuffer {
  import opened IntegerText

  const SMALL_BUFFER: nat := 4000
  const MAX_NUMERIC_SIZE: nat := 48

  // ---------------------------------------------------------------- pieces

  /** One insertion; a character, a bool or a C string is the text that it inserts. */
  datatype Piece = Text(s: string) | Integer(v: int) | Pointer(p: nat)

  predicate ValidPiece(piece: Piece) {
    match piece
    case Text(_) => true
    case Integer(v) => FitsLong(v)
    case Pointer(p) => FitsLong(p)
  }

  function TextOf(piece: Piece): string {
    match piece
    case Text(s) => s
    case Integer(v) => Decimal(v)
    case Pointer(p) => "0x" + Hex(p)
  }

  /** Whether a piece is let in by a buffer of `size` with `used` characters in it: text must leave one
      character free, numbers ask for 48 beforehand. */
  predicate Admits(size: nat, used: nat, piece: Piece) {
    if piece.Text? then size - used > |piece.s| else size - used >= MAX_NUMERIC_SIZE
  }

  function Insert(size: nat, contents: string, piece: Piece): string {
    if Admits(size, |contents|, piece) then contents + TextOf(piece) else contents
  }

  function InsertAll(size: nat, contents: string, pieces: seq<Piece>): string
    decreases |pieces|
  {
    if pieces == [] then contents else InsertAll(size, Insert(size, contents, pieces[0]), pieces[1..])
  }

  // ---------------------------------------------------------------- what a run of insertions leaves

  function Concat(pieces: seq<Piece>): string {
    if pieces == [] then "" else TextOf(pieces[0]) + Concat(pieces[1..])
  }

  /** The pieces of a run that were admitted, in order. */
  function Admitted(size: nat, contents: string, pieces: seq<Piece>): seq<Piece>
    decreases |pieces|
  {
    if pieces == [] then []
    else
      (if Admits(size, |contents|, pieces[0]) then [pieces[0]] else [])
      + Admitted(size, Insert(size, contents, pieces[0]), pieces[1..])
  }

  lemma NumberFits(piece: Piece)
    requires ValidPiece(piece) && !piece.Text?
    ensures |TextOf(piece)| <= 20
  {
    LongestText(if piece.Integer? then piece.v else piece.p);
  }

  /** An insertion never uses up the last free character. */
  lemma InsertKeepsRoom(size: nat, contents: string, piece: Piece)
    requires |contents| < size && ValidPiece(piece)
    ensures |Insert(size, contents, piece)| < size
  {
    if !piece.Text? {
      NumberFits(piece);
    }
  }

  predicate ValidPieces(pieces: seq<Piece>) {
    forall i :: 0 <= i < |pieces| ==> ValidPiece(pieces[i])
  }

  /** After any run the buffer holds the admitted pieces, whole and in order, with a character to spare. */
  lemma {:induction false} RunHoldsAdmitted(size: nat, contents: string, pieces: seq<Piece>)
    requires |contents| < size && ValidPieces(pieces)
    ensures |InsertAll(size, contents, pieces)| < size
    ensures InsertAll(size, contents, pieces) == contents + Concat(Admitted(size, contents, pieces))
    decreases |pieces|
  {
    if pieces != [] {
      assert ValidPiece(pieces[0]);
      InsertKeepsRoom(size, contents, pieces[0]);
      RunHoldsAdmitted(size, Insert(size, contents, pieces[0]), pieces[1..]);
      FirstIsAdmitted(size, contents, pieces[0], Admitted(size, Insert(size, contents, pieces[0]), pieces[1..]));
    }
  }

  lemma FirstIsAdmitted(size: nat, contents: string, first: Piece, rest: seq<Piece>)
    ensures contents + Concat((if Admits(size, |contents|, first) then [first] else []) + rest)
            == Insert(size, contents, first) + Concat(rest)
  {
    if Admits(size, |contents|, first) {
      assert ([first] + rest)[1..] == rest;
      assert contents + (TextOf(first) + Concat(rest)) == (contents + TextOf(first)) + Concat(rest);
    } else {
      assert [] + rest == rest;
    }
  }

  /** A run whose whole text leaves 48 characters free loses nothing. */
  lemma {:induction false} ShortRunIsComplete(size: nat, contents: string, pieces: seq<Piece>)
    requires |contents| + |Concat(pieces)| + MAX_NUMERIC_SIZE <= size
    ensures InsertAll(size, contents, pieces) == contents + Concat(pieces)
    decreases |pieces|
  {
    if pieces != [] {
      var next := contents + TextOf(pieces[0]);
      assert Insert(size, contents, pieces[0]) == next;
      ShortRunIsComplete(size, next, pieces[1..]);
      assert contents + Concat(pieces) == next + Concat(pieces[1..]);
    }
  }

  // ---------------------------------------------------------------- the code

  class FixedBuffer {
    const data: array<char>
    var cur: nat

    ghost predicate Valid()
      reads this
    {
      cur <= data.Length
    }

    ghost function Contents(): string
      requires Valid()
      reads this, data
    {
      data[..cur]
    }

    constructor (size: nat)
      ensures Valid() && Contents() == "" && fresh(data) && data.Length == size
    {
      data := new char[size](_ => '\0');
      cur := 0;
    }

    method Avail() returns (n: nat)
      requires Valid()
      ensures n == data.Length - |Contents()|
    {
      n := data.Length - cur;
    }

    method Append(text: string)
      requires Valid()
      modifies this, data
      ensures Valid() && Contents() == Insert(data.Length, old(Contents()), Text(text))
      ensures Contents() == if |old(Contents())| + |text| < data.Length then old(Contents()) + text else old(Contents())
    {
      if data.Length - cur > |text| {
        ghost var before := data[..cur];
        for i := 0 to |text|
          invariant cur == old(cur) && data[..cur] == before && data[cur..cur + i] == text[..i]
        {
          data[cur + i] := text[i];
        }
        cur := cur + |text|;
        assert data[..cur] == before + text;
      }
    }

    /** `add`: takes in what was written directly at the cursor. */
    method Add(len: nat)
      requires Valid() && cur + len <= data.Length
      modifies this
      ensures Valid() && Contents() == old(Contents()) + data[old(cur)..old(cur) + len]
    {
      cur := cur + len;
    }

    method Reset()
      requires Valid()
      modifies this
      ensures Valid() && Contents() == ""
    {
      cur := 0;
    }

    /** `debugString` terminates the text in the character behind it, which the insertions always leave free. */
    method DebugString()
      requires Valid() && |Contents()| < data.Length
      modifies data
      ensures Valid() && Contents() == old(Contents()) && data[cur] == '\0'
    {
      data[cur] := '\0';
      assert Contents() == old(Contents());
    }
  }

  class LogStream {
    const buffer: FixedBuffer

    ghost predicate Valid()
      reads this, buffer
    {
      buffer.Valid() && buffer.data.Length == SMALL_BUFFER && buffer.cur < SMALL_BUFFER
    }

    ghost function Contents(): string
      requires Valid()
      reads this, buffer, buffer.data
    {
      buffer.Contents()
    }

    constructor ()
      ensures Valid() && Contents() == "" && fresh(buffer) && fresh(buffer.data)
    {
      buffer := new FixedBuffer(SMALL_BUFFER);
    }

    /** `operator<<` for a string, a string piece or another buffer. */
    method InsertText(s: string)
      requires Valid()
      modifies buffer, buffer.data
      ensures Valid() && Contents() == Insert(SMALL_BUFFER, old(Contents()), Text(s))
      ensures Contents() == old(Contents()) + s || (|old(Contents())| + |s| >= SMALL_BUFFER && Contents() == old(Contents()))
    {
      buffer.Append(s);
    }

    method InsertBool(v: bool)
      requires Valid()
      modifies buffer, buffer.data
      ensures Valid() && Contents() == Insert(SMALL_BUFFER, old(Contents()), Text(if v then "1" else "0"))
      ensures Contents() == old(Contents()) + (if v then "1" else "0") || (|old(Contents())| + |(if v then "1" else "0")| >= SMALL_BUFFER && Contents() == old(Contents()))
    {
      buffer.Append(if v then "1" else "0");
    }

    method InsertChar(c: char)
      requires Valid()
      modifies buffer, buffer.data
      ensures Valid() && Contents() == Insert(SMALL_BUFFER, old(Contents()), Text([c]))
      ensures Contents() == old(Contents()) + [c] || (|old(Contents())| + |[c]| >= SMALL_BUFFER && Contents() == old(Contents()))
    {
      buffer.Append([c]);
    }

    /** `formatInteger`, for every integer type. */
    method InsertInteger(v: int)
      requires Valid() && FitsLong(v)
      modifies buffer, buffer.data
      ensures Valid() && Contents() == Insert(SMALL_BUFFER, old(Contents()), Integer(v))
      ensures Contents() == old(Contents()) + if SMALL_BUFFER - |old(Contents())| >= 48 then Decimal(v) else ""
    {
      if buffer.data.Length - buffer.cur >= MAX_NUMERIC_SIZE {
        LongestText(v);
        ghost var before := buffer.Contents();
        var len := Convert(buffer.data, buffer.cur, v);
        assert buffer.data[..buffer.cur] == before;
        buffer.Add(len);
      }
    }

    /** `operator<<` for a pointer: its address in hexadecimal, after "0x". */
    method InsertPointer(p: nat)
      requires Valid() && FitsLong(p)
      modifies buffer, buffer.data
      ensures Valid() && Contents() == Insert(SMALL_BUFFER, old(Contents()), Pointer(p))
      ensures Contents() == old(Contents()) + if SMALL_BUFFER - |old(Contents())| >= 48 then "0x" + Hex(p) else ""
    {
      if buffer.data.Length - buffer.cur >= MAX_NUMERIC_SIZE {
        LongestText(p);
        ghost var before := buffer.Contents();
        var cur, data := buffer.cur, buffer.data;
        data[cur], data[cur + 1] := '0', 'x';
        var len := ConvertHex(data, cur + 2, p);
        assert data[..cur] == before;
        assert data[cur..cur + len + 2] == "0x" + Hex(p);
        buffer.Add(len + 2);
      }
    }
  }
}
