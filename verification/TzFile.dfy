/**
 The reader of compiled time zone files in TimeZone.cc, and the layout of such files in sections 3.1
 and 3.2 of RFC 8536.
 */
module TzFile {
  import opened CppArithmetic
  import opened NetworkOrder
  import opened TimeZones

  /** What a call that may throw a `std::logic_error` came to. */
  datatype Result<T> = Ok(value: T) | Thrown {
    predicate IsFailure() {
      Thrown?
    }

    function PropagateFailure<U>(): Result<U>
      requires Thrown?
    {
      Thrown
    }

    function Extract(): T
      requires Ok?
    {
      value
    }
  }

  const MAGIC: seq<byte> := [84, 90, 105, 102]  // "TZif"
  const VERSION_2: byte := 50  // '2'

  // ---------------------------------------------------------------- what the bytes of a file say

  /** `n` bytes can be read at `p`; nothing can always be read, even past the end. */
  predicate Has(b: seq<byte>, p: nat, n: nat) {
    n == 0 || p + n <= |b|
  }

  function IntAt(b: seq<byte>, p: nat, w: nat): int
    requires p + w <= |b|
  {
    DecodeInt(b[p..p + w])
  }

  /** The six counts, in file order. */
  datatype Counts = Counts(isutc: int, isstd: int, leap: int, time: int, typ: int, chars: int)

  function CountsAt(b: seq<byte>, p: nat): Counts
    requires p + 24 <= |b|
  {
    Counts(IntAt(b, p, 4), IntAt(b, p + 4, 4), IntAt(b, p + 8, 4),
           IntAt(b, p + 12, 4), IntAt(b, p + 16, 4), IntAt(b, p + 20, 4))
  }

  /** The length of `n` transition times. */
  function Stride(v1: bool, n: nat): nat {
    if v1 then 4 * n else 8 * n
  }

  function TimeWidth(v1: bool): nat {
    if v1 then 4 else 8
  }

  function TimesAt(b: seq<byte>, p: nat, n: nat, v1: bool): (times: seq<int>)
    requires p + Stride(v1, n) <= |b|
    ensures |times| == n
  {
    seq(n, i requires 0 <= i < n => IntAt(b, p + Stride(v1, i), TimeWidth(v1)))
  }

  function TypeAt(b: seq<byte>, p: nat): LocalTime
    requires p + 6 <= |b|
  {
    LocalTime(IntAt(b, p, 4), b[p + 4] != 0, b[p + 5])
  }

  function TypesAt(b: seq<byte>, p: nat, n: nat): (types: seq<LocalTime>)
    requires p + 6 * n <= |b|
    ensures |types| == n
  {
    seq(n, i requires 0 <= i < n => TypeAt(b, p + 6 * i))
  }

  /** A transition with the shifted time that goes with its type. */
  function Shifted(time: int, idx: nat, types: seq<LocalTime>): Transition
    requires idx < |types|
  {
    Transition(time, time + types[idx].utcOffset, idx)
  }

  predicate AllBelow(idxs: seq<byte>, n: int) {
    forall i :: 0 <= i < |idxs| ==> idxs[i] < n
  }

  function Transitions(times: seq<int>, idxs: seq<byte>, types: seq<LocalTime>): (ts: seq<Transition>)
    requires |times| == |idxs| && AllBelow(idxs, |types|)
    ensures |ts| == |times|
  {
    seq(|times|, i requires 0 <= i < |times| => Shifted(times[i], idxs[i], types))
  }

  /** Where the parts of a data block begin whose six counts stand at `p`. */
  function TimesStart(p: nat): nat {
    p + 24
  }

  function IdxsStart(p: nat, c: Counts, v1: bool): nat
    requires c.time >= 0
  {
    TimesStart(p) + Stride(v1, c.time)
  }

  function TypesStart(p: nat, c: Counts, v1: bool): nat
    requires c.time >= 0
  {
    IdxsStart(p, c, v1) + c.time
  }

  function CharsStart(p: nat, c: Counts, v1: bool): nat
    requires c.time >= 0 && c.typ >= 0
  {
    TypesStart(p, c, v1) + 6 * c.typ
  }

  /** The reader takes no leap seconds, and indicators for all types or for none. */
  predicate CountsAgree(c: Counts) {
    c.leap == 0 && (c.isutc == 0 || c.isutc == c.typ) && (c.isstd == 0 || c.isstd == c.typ)
  }

  predicate BodyAccepted(b: seq<byte>, p: nat, c: Counts, v1: bool) {
    && c.time >= 0 && c.typ >= 0 && c.chars >= 0
    && CharsStart(p, c, v1) + c.chars <= |b|
    && AllBelow(b[IdxsStart(p, c, v1)..TypesStart(p, c, v1)], c.typ)
  }

  /** Which blocks the reader accepts. */
  predicate BlockAccepted(b: seq<byte>, p: nat, v1: bool) {
    Has(b, p, 24) && CountsAgree(CountsAt(b, p)) && BodyAccepted(b, p, CountsAt(b, p), v1)
  }

  /** What an accepted block holds. */
  datatype Contents = Contents(table: Table, abbreviation: seq<byte>, tzstring: seq<byte>)

  function BodyContents(b: seq<byte>, p: nat, c: Counts, v1: bool): Contents
    requires BodyAccepted(b, p, c, v1) && CountsAgree(c)
  {
    var types := TypesAt(b, TypesStart(p, c, v1), c.typ);
    var idxs := b[IdxsStart(p, c, v1)..TypesStart(p, c, v1)];
    var chars := CharsStart(p, c, v1);
    Contents(Table(Transitions(TimesAt(b, TimesStart(p), c.time, v1), idxs, types), types),
             b[chars..chars + c.chars],
             if v1 then [] else From(b, chars + c.chars + c.isstd + c.isutc))
  }

  function BlockContents(b: seq<byte>, p: nat, v1: bool): Contents
    requires BlockAccepted(b, p, v1)
  {
    BodyContents(b, p, CountsAt(b, p), v1)
  }

  function From(b: seq<byte>, p: nat): seq<byte> {
    if p <= |b| then b[p..] else []
  }

  /** The computed distance from the end of the first header to the second. */
  function FirstBlockLength(c: Counts): int {
    4 * c.time + c.time + 6 * c.typ + c.chars + 8 * c.leap + c.isstd + c.isutc
  }

  /** Where the counts of the block to be read stand; -1 if the file is refused before that. Version 2
      files are read from their second header; every other version is read as version 1. */
  function CountsPosition(b: seq<byte>): int {
    if !Has(b, 0, 44) || b[..4] != MAGIC then -1
    else if b[4] != VERSION_2 then 20
    else
      var second := 44 + FirstBlockLength(CountsAt(b, 20));
      var p := if second >= 0 then second else 44;
      if Has(b, p, 4) && b[p..p + 4] == MAGIC then p + 20 else -1
  }

  predicate FileAccepted(b: seq<byte>) {
    CountsPosition(b) >= 0 && BlockAccepted(b, CountsPosition(b), b[4] != VERSION_2)
  }

  function FileContents(b: seq<byte>): Contents
    requires FileAccepted(b)
  {
    BlockContents(b, CountsPosition(b), b[4] != VERSION_2)
  }

  // ---------------------------------------------------------------- the code

  /** An open file and its cursor, which may stand past the end. */
  class File {
    const bytes: seq<byte>
    var pos: nat

    constructor (bytes: seq<byte>)
      ensures this.bytes == bytes && pos == 0
    {
      this.bytes := bytes;
      pos := 0;
    }

    method ReadBytes(n: int) returns (r: Result<seq<byte>>)
      modifies this
      ensures r.Ok? <==> n >= 0 && Has(bytes, old(pos), n)
      ensures r.Ok? ==> pos == old(pos) + n && r.value == if n == 0 then [] else bytes[old(pos)..pos]
    {
      if n < 0 || !Has(bytes, pos, n) {
        return Thrown;
      }
      r := Ok(if n == 0 then [] else bytes[pos..pos + n]);
      pos := pos + n;
    }

    method ReadInt(w: nat) returns (r: Result<int>)
      requires IsWidth(w)
      modifies this
      ensures r.Ok? <==> old(pos) + w <= |bytes|
      ensures r.Ok? ==> pos == old(pos) + w && r.value == IntAt(bytes, old(pos), w)
    {
      if pos + w > |bytes| {
        return Thrown;
      }
      r := Ok(DecodeInt(bytes[pos..pos + w]));
      pos := pos + w;
    }

    method ReadUInt8() returns (r: Result<byte>)
      modifies this
      ensures r.Ok? <==> old(pos) < |bytes|
      ensures r.Ok? ==> pos == old(pos) + 1 && r.value == bytes[old(pos)]
    {
      if pos >= |bytes| {
        return Thrown;
      }
      r := Ok(bytes[pos]);
      pos := pos + 1;
    }

    /** `fseek` from the cursor: a target before the beginning is an error, and ignored. */
    method Skip(n: int)
      modifies this
      ensures pos == if old(pos) + n >= 0 then old(pos) + n else old(pos)
    {
      if pos + n >= 0 {
        pos := pos + n;
      }
    }

    method ReadToEnd() returns (r: seq<byte>)
      modifies this
      ensures r == From(bytes, old(pos))
    {
      if pos > |bytes| {
        return [];
      }
      r := bytes[pos..];
      pos := |bytes|;
    }
  }

  /** `TimeZone::Data`, filled while a block is read. */
  class Data {
    var transitions: seq<Transition>
    var localtimes: seq<LocalTime>
    var abbreviation: seq<byte>
    var tzstring: seq<byte>

    constructor ()
      ensures transitions == [] && localtimes == [] && abbreviation == [] && tzstring == []
    {
      transitions, localtimes, abbreviation, tzstring := [], [], [], [];
    }

    function View(): Contents
      reads this
    {
      Contents(Table(transitions, localtimes), abbreviation, tzstring)
    }

    method AddLocalTime(utcOffset: int, isDst: bool, desigIdx: int)
      modifies this`localtimes
      ensures localtimes == old(localtimes) + [LocalTime(utcOffset, isDst, desigIdx)]
    {
      localtimes := localtimes + [LocalTime(utcOffset, isDst, desigIdx)];
    }

    /** Throws, as `vector::at` does, when there is no such local time type. */
    method AddTransition(utcTime: int, localtimeIdx: nat) returns (r: Result<()>)
      modifies this`transitions
      ensures r.Ok? <==> localtimeIdx < |localtimes|
      ensures transitions == if r.Ok? then old(transitions) + [Shifted(utcTime, localtimeIdx, localtimes)]
                             else old(transitions)
    {
      if localtimeIdx >= |localtimes| {
        return Thrown;
      }
      var lt := localtimes[localtimeIdx];
      transitions := transitions + [Transition(utcTime, utcTime + lt.utcOffset, localtimeIdx)];
      r := Ok(());
    }
  }

  method ReadCounts(f: File) returns (r: Result<Counts>)
    modifies f
    ensures r.Ok? <==> old(f.pos) + 24 <= |f.bytes|
    ensures r.Ok? ==> r.value == CountsAt(f.bytes, old(f.pos)) && f.pos == old(f.pos) + 24
  {
    var isutc :- f.ReadInt(4);
    var isstd :- f.ReadInt(4);
    var leap :- f.ReadInt(4);
    var time :- f.ReadInt(4);
    var typ :- f.ReadInt(4);
    var chars :- f.ReadInt(4);
    r := Ok(Counts(isutc, isstd, leap, time, typ, chars));
  }

  /** The loop over transition times; a negative count makes `reserve` throw. */
  method ReadTimes(f: File, n: int, v1: bool) returns (r: Result<seq<int>>)
    requires f.pos <= |f.bytes|
    modifies f
    ensures r.Ok? <==> n >= 0 && old(f.pos) + Stride(v1, n) <= |f.bytes|
    ensures r.Ok? ==> r.value == TimesAt(f.bytes, old(f.pos), n, v1) && f.pos == old(f.pos) + Stride(v1, n)
  {
    if n < 0 {
      return Thrown;
    }
    var trans: seq<int> := [];
    for i := 0 to n
      invariant f.pos == old(f.pos) + Stride(v1, i) <= |f.bytes|
      invariant trans == TimesAt(f.bytes, old(f.pos), i, v1)
    {
      var t :- f.ReadInt(if v1 then 4 else 8);
      trans := trans + [t];
    }
    r := Ok(trans);
  }

  /** The loop over the types of the transitions. */
  method ReadIdxs(f: File, n: nat) returns (r: Result<seq<byte>>)
    requires f.pos <= |f.bytes|
    modifies f
    ensures r.Ok? <==> old(f.pos) + n <= |f.bytes|
    ensures r.Ok? ==> f.pos == old(f.pos) + n && r.value == f.bytes[old(f.pos)..f.pos]
  {
    var localtimes: seq<byte> := [];
    for i := 0 to n
      invariant f.pos == old(f.pos) + i <= |f.bytes|
      invariant localtimes == f.bytes[old(f.pos)..f.pos]
    {
      var local :- f.ReadUInt8();
      localtimes := localtimes + [local];
    }
    r := Ok(localtimes);
  }

  /** The loop over the local time types. */
  method ReadTypes(f: File, data: Data, n: int) returns (r: Result<()>)
    requires f.pos <= |f.bytes| && data.localtimes == []
    modifies f, data`localtimes
    ensures r.Ok? <==> n >= 0 && old(f.pos) + 6 * n <= |f.bytes|
    ensures r.Ok? ==> data.localtimes == TypesAt(f.bytes, old(f.pos), n) && f.pos == old(f.pos) + 6 * n
  {
    if n < 0 {
      return Thrown;
    }
    for i := 0 to n
      invariant f.pos == old(f.pos) + 6 * i <= |f.bytes|
      invariant data.localtimes == TypesAt(f.bytes, old(f.pos), i)
    {
      var gmtoff :- f.ReadInt(4);
      var isdst :- f.ReadUInt8();
      var abbrind :- f.ReadUInt8();
      data.AddLocalTime(gmtoff, isdst != 0, abbrind);
    }
    r := Ok(());
  }

  /** The loop that joins times and types. */
  method AddTransitions(data: Data, trans: seq<int>, idxs: seq<byte>) returns (r: Result<()>)
    requires |trans| == |idxs| && data.transitions == []
    modifies data`transitions
    ensures r.Ok? <==> AllBelow(idxs, |data.localtimes|)
    ensures r.Ok? ==> data.transitions == Transitions(trans, idxs, data.localtimes)
  {
    for i := 0 to |trans|
      invariant AllBelow(idxs[..i], |data.localtimes|)
      invariant data.transitions == Transitions(trans[..i], idxs[..i], data.localtimes)
    {
      var _ :- data.AddTransition(trans[i], idxs[i]);
    }
    assert trans[..|trans|] == trans && idxs[..|trans|] == idxs;
    r := Ok(());
  }

  method ReadDataBlock(f: File, data: Data, v1: bool) returns (r: Result<bool>)
    requires data.View() == Contents(Table([], []), [], [])
    modifies f, data
    ensures r == Ok(true) <==> BlockAccepted(f.bytes, old(f.pos), v1)
    ensures r == Ok(true) ==> data.View() == BlockContents(f.bytes, old(f.pos), v1)
  {
    var c :- ReadCounts(f);
    if c.leap != 0 || (c.isutc != 0 && c.isutc != c.typ) || (c.isstd != 0 && c.isstd != c.typ) {
      return Ok(false);
    }
    r := ReadBody(f, data, c, v1, f.pos - 24);
  }

  /** The part of `readDataBlock` after the counts have been checked. */
  method ReadBody(f: File, data: Data, c: Counts, v1: bool, ghost p: nat) returns (r: Result<bool>)
    requires f.pos == p + 24 <= |f.bytes| && CountsAgree(c)
    requires data.View() == Contents(Table([], []), [], [])
    modifies f, data
    ensures r == Ok(true) <==> BodyAccepted(f.bytes, p, c, v1)
    ensures r == Ok(true) ==> data.View() == BodyContents(f.bytes, p, c, v1)
  {
    var _ :- ReadTable(f, data, c, v1, p);
    r := ReadStrings(f, data, c, v1);
  }

  predicate TableAccepted(b: seq<byte>, p: nat, c: Counts, v1: bool) {
    && c.time >= 0 && c.typ >= 0
    && CharsStart(p, c, v1) <= |b|
    && AllBelow(b[IdxsStart(p, c, v1)..TypesStart(p, c, v1)], c.typ)
  }

  method ReadTable(f: File, data: Data, c: Counts, v1: bool, ghost p: nat) returns (r: Result<()>)
    requires f.pos == p + 24 <= |f.bytes| && data.transitions == [] && data.localtimes == []
    modifies f, data`localtimes, data`transitions
    ensures r.Ok? <==> TableAccepted(f.bytes, p, c, v1)
    ensures r.Ok? ==>
              && f.pos == CharsStart(p, c, v1)
              && data.localtimes == TypesAt(f.bytes, TypesStart(p, c, v1), c.typ)
              && data.transitions == Transitions(TimesAt(f.bytes, TimesStart(p), c.time, v1),
                                                 f.bytes[IdxsStart(p, c, v1)..TypesStart(p, c, v1)], data.localtimes)
  {
    var trans :- ReadTimes(f, c.time, v1);
    var idxs :- ReadIdxs(f, c.time);
    var _ :- ReadTypes(f, data, c.typ);
    r := AddTransitions(data, trans, idxs);
  }

  /** The designations, the parts that are skipped, and the footer. */
  method ReadStrings(f: File, data: Data, c: Counts, v1: bool) returns (r: Result<bool>)
    requires f.pos <= |f.bytes| && CountsAgree(c) && c.typ >= 0 && data.tzstring == []
    modifies f, data`abbreviation, data`tzstring
    ensures r == Ok(true) <==> c.chars >= 0 && old(f.pos) + c.chars <= |f.bytes|
    ensures r == Ok(true) ==>
              && data.abbreviation == f.bytes[old(f.pos)..old(f.pos) + c.chars]
              && data.tzstring == if v1 then [] else From(f.bytes, old(f.pos) + c.chars + c.isstd + c.isutc)
  {
    data.abbreviation :- f.ReadBytes(c.chars);
    f.Skip(c.leap * (TimeWidth(v1) + 4));
    f.Skip(c.isstd);
    f.Skip(c.isutc);
    if !v1 {
      data.tzstring := f.ReadToEnd();
    }
    r := Ok(true);
  }

  datatype Opened = NoFile | Opened(bytes: seq<byte>)

  /** `readTimeZoneFile`: whether the file was accepted; exceptions are caught. */
  method ReadTimeZoneFile(zonefile: Opened, data: Data) returns (ok: bool)
    requires data.View() == Contents(Table([], []), [], [])
    modifies data
    ensures ok <==> zonefile.Opened? && FileAccepted(zonefile.bytes)
    ensures ok ==> data.View() == FileContents(zonefile.bytes)
  {
    if zonefile.NoFile? {
      return false;
    }
    var f := new File(zonefile.bytes);
    var r := ReadOpenFile(f, data);
    ok := r == Ok(true);
  }

  /** The part inside `try`. */
  method ReadOpenFile(f: File, data: Data) returns (r: Result<bool>)
    requires f.pos == 0 && data.View() == Contents(Table([], []), [], [])
    modifies f, data
    ensures r == Ok(true) <==> FileAccepted(f.bytes)
    ensures r == Ok(true) ==> data.View() == FileContents(f.bytes)
  {
    var v1 :- SeekCounts(f);
    r := ReadDataBlock(f, data, v1);
  }

  /** The first header, and in a version 2 file the way to the second; leaves the cursor at the counts
      of the block to be read. */
  method SeekCounts(f: File) returns (v1: Result<bool>)
    requires f.pos == 0
    modifies f
    ensures v1.Ok? <==> CountsPosition(f.bytes) >= 0
    ensures v1.Ok? ==> f.pos == CountsPosition(f.bytes) && v1.value == (f.bytes[4] != VERSION_2)
  {
    var version :- ReadMagic(f);
    var c :- ReadCounts(f);
    if version == VERSION_2 {
      f.Skip(4 * c.time + c.time + 6 * c.typ + c.chars + 8 * c.leap + c.isstd + c.isutc);
      var head :- f.ReadBytes(4);
      if head != MAGIC {
        return Thrown;
      }
      f.Skip(16);
      v1 := Ok(false);
    } else {
      f.Skip(-4 * 6);
      v1 := Ok(true);
    }
  }

  method ReadMagic(f: File) returns (version: Result<byte>)
    requires f.pos == 0
    modifies f
    ensures version.Ok? ==> |f.bytes| >= 20 && f.bytes[..4] == MAGIC && version.value == f.bytes[4] && f.pos == 20
    ensures version.Thrown? ==> |f.bytes| < 20 || f.bytes[..4] != MAGIC
  {
    var head :- f.ReadBytes(4);
    if head != MAGIC {
      return Thrown;
    }
    var one :- f.ReadBytes(1);
    var _ :- f.ReadBytes(15);
    version := Ok(one[0]);
  }

  // ---------------------------------------------------------------- what loading establishes

  lemma Int32Fits(b: seq<byte>, p: nat)
    requires p + 4 <= |b|
    ensures FitsInt(IntAt(b, p, 4))
  {
    EncodeDecode(b[p..p + 4]);
    assert Pow256(4) == TWO_TO_THE_32 by { assert Pow256(2) == 0x1_0000; }
  }

  lemma TypesFit(b: seq<byte>, p: nat, n: nat)
    requires p + 6 * n <= |b|
    ensures forall lt :: lt in TypesAt(b, p, n) ==> FitsInt(lt.utcOffset)
  {
    forall lt | lt in TypesAt(b, p, n)
      ensures FitsInt(lt.utcOffset)
    {
      var i :| 0 <= i < n && lt == TypesAt(b, p, n)[i];
      Int32Fits(b, p + 6 * i);
    }
  }

  /** A loaded table with at least one type can be looked up in: every index is in range. */
  lemma LoadedIsWellFormed(b: seq<byte>)
    requires FileAccepted(b) && FileContents(b).table.localtimes != []
    ensures WellFormed(FileContents(b).table)
  {
    var p, v1 := CountsPosition(b), b[4] != VERSION_2;
    BlockIsWellFormed(b, p, v1);
  }

  lemma BlockIsWellFormed(b: seq<byte>, p: nat, v1: bool)
    requires BlockAccepted(b, p, v1) && BlockContents(b, p, v1).table.localtimes != []
    ensures WellFormed(BlockContents(b, p, v1).table)
  {
    var c := CountsAt(b, p);
    TypesFit(b, TypesStart(p, c, v1), c.typ);
  }

  // ---------------------------------------------------------------- files as section 3.1 lays them out

  /** A data block: its transition times and their types, the local time types, the designations, leap
      second records, and the standard/wall and UT/local indicators. */
  datatype Block = Block(
    times: seq<int>, idxs: seq<byte>, types: seq<LocalTime>, chars: seq<byte>,
    leaps: seq<byte>, stdFlags: seq<byte>, utFlags: seq<byte>)

  predicate ValidType(lt: LocalTime) {
    InSigned(lt.utcOffset, 4) && 0 <= lt.desigIdx < 256
  }

  predicate ValidTypes(types: seq<LocalTime>) {
    forall i :: 0 <= i < |types| ==> ValidType(types[i])
  }

  predicate ValidTimes(times: seq<int>, v1: bool) {
    forall i :: 0 <= i < |times| ==> InSigned(times[i], TimeWidth(v1))
  }

  /** What section 3.2 requires of a block: at least one type, one type for every transition, indicators
      for all types or none, and counts that fit their fields. */
  predicate ValidBlock(k: Block, v1: bool) {
    && |k.types| >= 1 && |k.idxs| == |k.times| && AllBelow(k.idxs, |k.types|)
    && ValidTimes(k.times, v1) && ValidTypes(k.types)
    && |k.leaps| % LeapLength(v1) == 0
    && |k.stdFlags| in {0, |k.types|} && |k.utFlags| in {0, |k.types|}
    && ValidCounts(CountsOf(k, v1))
  }

  /** The length of a leap second record. */
  function LeapLength(v1: bool): nat {
    TimeWidth(v1) + 4
  }

  function CountsOf(k: Block, v1: bool): Counts {
    Counts(|k.utFlags|, |k.stdFlags|, |k.leaps| / LeapLength(v1), |k.times|, |k.types|, |k.chars|)
  }

  predicate ValidCounts(c: Counts) {
    InSigned(c.isutc, 4) && InSigned(c.isstd, 4) && InSigned(c.leap, 4)
    && InSigned(c.time, 4) && InSigned(c.typ, 4) && InSigned(c.chars, 4)
  }

  function EncodeCounts(c: Counts): (s: seq<byte>)
    requires ValidCounts(c)
    ensures |s| == 24
  {
    EncodeInt(c.isutc, 4) + (EncodeInt(c.isstd, 4) + (EncodeInt(c.leap, 4)
    + (EncodeInt(c.time, 4) + (EncodeInt(c.typ, 4) + EncodeInt(c.chars, 4)))))
  }

  function EncodeTimes(times: seq<int>, v1: bool): (s: seq<byte>)
    requires ValidTimes(times, v1)
    ensures |s| == Stride(v1, |times|)
  {
    if times == [] then []
    else EncodeTimes(times[..|times| - 1], v1) + EncodeInt(times[|times| - 1], TimeWidth(v1))
  }

  function EncodeType(lt: LocalTime): (s: seq<byte>)
    requires ValidType(lt)
    ensures |s| == 6
  {
    EncodeInt(lt.utcOffset, 4) + ([if lt.isDst then 1 else 0] + [lt.desigIdx])
  }

  function EncodeTypes(types: seq<LocalTime>): (s: seq<byte>)
    requires ValidTypes(types)
    ensures |s| == 6 * |types|
  {
    if types == [] then []
    else EncodeTypes(types[..|types| - 1]) + EncodeType(types[|types| - 1])
  }

  function EncodeHeader(version: byte, c: Counts): (s: seq<byte>)
    requires ValidCounts(c)
    ensures |s| == 44
  {
    MAGIC + ([version] + (seq(15, _ => 0) + EncodeCounts(c)))
  }

  function EncodeBody(k: Block, v1: bool): seq<byte>
    requires ValidBlock(k, v1)
  {
    EncodeTimes(k.times, v1) + (k.idxs + (EncodeTypes(k.types) + (k.chars + (k.leaps + (k.stdFlags + k.utFlags)))))
  }

  function EncodeV1(version: byte, k: Block): seq<byte>
    requires ValidBlock(k, true)
  {
    EncodeHeader(version, CountsOf(k, true)) + EncodeBody(k, true)
  }

  function EncodeV2(k1: Block, k2: Block, footer: seq<byte>): seq<byte>
    requires ValidBlock(k1, true) && ValidBlock(k2, false)
  {
    EncodeHeader(VERSION_2, CountsOf(k1, true)) + (EncodeBody(k1, true)
    + (EncodeHeader(VERSION_2, CountsOf(k2, false)) + (EncodeBody(k2, false) + footer)))
  }

  // ---------------------------------------------------------------- the reader recovers what was encoded

  /** `s` stands at position `p` of `b`. */
  predicate Holds(b: seq<byte>, p: nat, s: seq<byte>) {
    p + |s| <= |b| && b[p..p + |s|] == s
  }

  lemma HoldsParts(b: seq<byte>, p: nat, s: seq<byte>, t: seq<byte>)
    requires Holds(b, p, s + t)
    ensures Holds(b, p, s) && Holds(b, p + |s|, t)
  {
    assert b[p..p + |s|] == (s + t)[..|s|];
    assert b[p + |s|..p + |s| + |t|] == (s + t)[|s|..];
  }

  lemma IntDecodes(b: seq<byte>, p: nat, x: int, w: nat)
    requires w > 0 && InSigned(x, w) && Holds(b, p, EncodeInt(x, w))
    ensures IntAt(b, p, w) == x
  {
    DecodeEncode(x, w);
  }

  lemma CountsDecode(b: seq<byte>, p: nat, c: Counts)
    requires ValidCounts(c) && Holds(b, p, EncodeCounts(c))
    ensures CountsAt(b, p) == c
  {
    var chars := EncodeInt(c.chars, 4);
    var typ := EncodeInt(c.typ, 4) + chars;
    var time := EncodeInt(c.time, 4) + typ;
    var leap := EncodeInt(c.leap, 4) + time;
    var isstd := EncodeInt(c.isstd, 4) + leap;
    HoldsParts(b, p, EncodeInt(c.isutc, 4), isstd);
    HoldsParts(b, p + 4, EncodeInt(c.isstd, 4), leap);
    HoldsParts(b, p + 8, EncodeInt(c.leap, 4), time);
    HoldsParts(b, p + 12, EncodeInt(c.time, 4), typ);
    HoldsParts(b, p + 16, EncodeInt(c.typ, 4), chars);
    IntDecodes(b, p, c.isutc, 4);
    IntDecodes(b, p + 4, c.isstd, 4);
    IntDecodes(b, p + 8, c.leap, 4);
    IntDecodes(b, p + 12, c.time, 4);
    IntDecodes(b, p + 16, c.typ, 4);
    IntDecodes(b, p + 20, c.chars, 4);
  }

  lemma {:induction false} TimesDecode(b: seq<byte>, p: nat, times: seq<int>, v1: bool)
    requires ValidTimes(times, v1) && Holds(b, p, EncodeTimes(times, v1))
    ensures TimesAt(b, p, |times|, v1) == times
  {
    if times != [] {
      var n := |times| - 1;
      TimesParts(b, p, times, v1);
      TimesDecode(b, p, times[..n], v1);
      IntDecodes(b, p + Stride(v1, n), times[n], TimeWidth(v1));
      TimesAtSnoc(b, p, n, v1);
      assert times == times[..n] + [times[n]];
    }
  }

  lemma TimesAtSnoc(b: seq<byte>, p: nat, n: nat, v1: bool)
    requires p + Stride(v1, n + 1) <= |b|
    ensures TimesAt(b, p, n + 1, v1) == TimesAt(b, p, n, v1) + [IntAt(b, p + Stride(v1, n), TimeWidth(v1))]
  {
  }

  lemma TimesParts(b: seq<byte>, p: nat, times: seq<int>, v1: bool)
    requires times != [] && ValidTimes(times, v1) && Holds(b, p, EncodeTimes(times, v1))
    ensures var n := |times| - 1;
            && Holds(b, p, EncodeTimes(times[..n], v1))
            && Holds(b, p + Stride(v1, n), EncodeInt(times[n], TimeWidth(v1)))
  {
    var n := |times| - 1;
    HoldsParts(b, p, EncodeTimes(times[..n], v1), EncodeInt(times[n], TimeWidth(v1)));
  }

  lemma TypeDecodes(b: seq<byte>, p: nat, lt: LocalTime)
    requires ValidType(lt) && Holds(b, p, EncodeType(lt))
    ensures TypeAt(b, p) == lt
  {
    var dst: seq<byte> := [if lt.isDst then 1 else 0];
    HoldsParts(b, p, EncodeInt(lt.utcOffset, 4), dst + [lt.desigIdx]);
    HoldsParts(b, p + 4, dst, [lt.desigIdx]);
    IntDecodes(b, p, lt.utcOffset, 4);
    assert b[p + 4] == b[p + 4..p + 5][0] && b[p + 5] == b[p + 5..p + 6][0];
  }

  lemma {:induction false} TypesDecode(b: seq<byte>, p: nat, types: seq<LocalTime>)
    requires ValidTypes(types) && Holds(b, p, EncodeTypes(types))
    ensures TypesAt(b, p, |types|) == types
  {
    if types != [] {
      var n := |types| - 1;
      HoldsParts(b, p, EncodeTypes(types[..n]), EncodeType(types[n]));
      TypesDecode(b, p, types[..n]);
      TypeDecodes(b, p + 6 * n, types[n]);
      assert TypesAt(b, p, n + 1) == TypesAt(b, p, n) + [TypeAt(b, p + 6 * n)];
    }
  }

  function TableOf(k: Block, v1: bool): Table
    requires ValidBlock(k, v1)
  {
    Table(Transitions(k.times, k.idxs, k.types), k.types)
  }

  /** The table says what the block says: its types; and for every transition its time, its type, and the
      time that clocks show from then on. */
  ghost predicate Describes(z: Table, k: Block, v1: bool)
    requires ValidBlock(k, v1)
  {
    && z.localtimes == k.types && |z.transitions| == |k.times|
    && forall i :: 0 <= i < |k.times| ==>
         var t := z.transitions[i];
         t.utctime == k.times[i] && t.localtimeIdx == k.idxs[i]
         && t.localtime == k.times[i] + k.types[k.idxs[i]].utcOffset
  }

  /** What follows the types in an encoded body. */
  function EncodeTail(k: Block): seq<byte> {
    k.chars + (k.leaps + (k.stdFlags + k.utFlags))
  }

  /** Where the parts of an encoded body stand. */
  lemma BodyParts(b: seq<byte>, p: nat, k: Block, v1: bool)
    requires ValidBlock(k, v1) && Holds(b, p + 24, EncodeBody(k, v1))
    ensures var c := CountsOf(k, v1);
            && Holds(b, TimesStart(p), EncodeTimes(k.times, v1)) && Holds(b, IdxsStart(p, c, v1), k.idxs)
            && Holds(b, TypesStart(p, c, v1), EncodeTypes(k.types)) && Holds(b, CharsStart(p, c, v1), k.chars)
  {
    var c := CountsOf(k, v1);
    HoldsParts(b, TimesStart(p), EncodeTimes(k.times, v1), k.idxs + (EncodeTypes(k.types) + EncodeTail(k)));
    HoldsParts(b, IdxsStart(p, c, v1), k.idxs, EncodeTypes(k.types) + EncodeTail(k));
    TailParts(b, TypesStart(p, c, v1), k);
  }

  lemma TailParts(b: seq<byte>, q: nat, k: Block)
    requires ValidTypes(k.types) && Holds(b, q, EncodeTypes(k.types) + EncodeTail(k))
    ensures Holds(b, q, EncodeTypes(k.types)) && Holds(b, q + 6 * |k.types|, k.chars)
  {
    HoldsParts(b, q, EncodeTypes(k.types), EncodeTail(k));
    HoldsParts(b, q + 6 * |k.types|, k.chars, k.leaps + (k.stdFlags + k.utFlags));
  }

  lemma BodyPieces(b: seq<byte>, p: nat, k: Block, v1: bool)
    requires ValidBlock(k, v1) && k.leaps == [] && Holds(b, p + 24, EncodeBody(k, v1))
    ensures var c := CountsOf(k, v1);
            && CharsStart(p, c, v1) + c.chars <= |b|
            && b[IdxsStart(p, c, v1)..TypesStart(p, c, v1)] == k.idxs
            && b[CharsStart(p, c, v1)..CharsStart(p, c, v1) + c.chars] == k.chars
            && CharsStart(p, c, v1) + c.chars + c.isstd + c.isutc == p + 24 + |EncodeBody(k, v1)|
  {
    BodyParts(b, p, k, v1);
    BodyLength(k, v1);
  }

  lemma BodyDecodes(b: seq<byte>, p: nat, k: Block, v1: bool)
    requires ValidBlock(k, v1) && k.leaps == [] && Holds(b, p + 24, EncodeBody(k, v1))
    ensures var c := CountsOf(k, v1);
            && CountsAgree(c) && BodyAccepted(b, p, c, v1)
            && BodyContents(b, p, c, v1)
               == Contents(TableOf(k, v1), k.chars, if v1 then [] else From(b, p + 24 + |EncodeBody(k, v1)|))
  {
    BodyPieces(b, p, k, v1);
    BodyParts(b, p, k, v1);
    TimesDecode(b, TimesStart(p), k.times, v1);
    TypesDecode(b, TypesStart(p, CountsOf(k, v1), v1), k.types);
  }

  lemma BodyLength(k: Block, v1: bool)
    requires ValidBlock(k, v1)
    ensures |EncodeBody(k, v1)| == Stride(v1, |k.times|) + |k.idxs| + 6 * |k.types| + |k.chars|
                                   + |k.leaps| + |k.stdFlags| + |k.utFlags|
  {
  }

  lemma HeaderDecodes(b: seq<byte>, p: nat, version: byte, c: Counts)
    requires ValidCounts(c) && Holds(b, p, EncodeHeader(version, c))
    ensures b[p..p + 4] == MAGIC && b[p + 4] == version && CountsAt(b, p + 20) == c
  {
    var zeroes: seq<byte> := seq(15, _ => 0);
    HoldsParts(b, p, MAGIC, [version] + (zeroes + EncodeCounts(c)));
    HoldsParts(b, p + 4, [version], zeroes + EncodeCounts(c));
    HoldsParts(b, p + 5, zeroes, EncodeCounts(c));
    CountsDecode(b, p + 20, c);
    assert b[p + 4] == b[p + 4..p + 5][0];
  }

  lemma TableDescribes(k: Block, v1: bool)
    requires ValidBlock(k, v1)
    ensures Describes(TableOf(k, v1), k, v1)
  {
  }

  lemma Version1Parts(b: seq<byte>, h: seq<byte>, body: seq<byte>, rest: seq<byte>)
    requires b == h + body + rest
    ensures Holds(b, 0, h) && Holds(b, |h|, body)
  {
    assert Holds(b, 0, h + body);
    HoldsParts(b, 0, h, body);
  }

  lemma Version1Reads(version: byte, k: Block, rest: seq<byte>)
    requires version != VERSION_2 && ValidBlock(k, true) && k.leaps == []
    ensures var b := EncodeV1(version, k) + rest;
            FileAccepted(b) && FileContents(b) == Contents(TableOf(k, true), k.chars, [])
  {
    var b := EncodeV1(version, k) + rest;
    Version1Parts(b, EncodeHeader(version, CountsOf(k, true)), EncodeBody(k, true), rest);
    FirstBlockReads(b, version, k);
  }

  lemma FirstBlockReads(b: seq<byte>, version: byte, k: Block)
    requires version != VERSION_2 && ValidBlock(k, true) && k.leaps == []
    requires Holds(b, 0, EncodeHeader(version, CountsOf(k, true))) && Holds(b, 44, EncodeBody(k, true))
    ensures FileAccepted(b) && FileContents(b) == Contents(TableOf(k, true), k.chars, [])
  {
    HeaderDecodes(b, 0, version, CountsOf(k, true));
    BlockReads(b, 20, k, true);
    assert CountsPosition(b) == 20;
  }

  lemma BlockReads(b: seq<byte>, p: nat, k: Block, v1: bool)
    requires ValidBlock(k, v1) && k.leaps == [] && Holds(b, p + 24, EncodeBody(k, v1))
    requires CountsAt(b, p) == CountsOf(k, v1)
    ensures BlockAccepted(b, p, v1)
    ensures BlockContents(b, p, v1)
            == Contents(TableOf(k, v1), k.chars, if v1 then [] else From(b, p + 24 + |EncodeBody(k, v1)|))
  {
    BodyDecodes(b, p, k, v1);
  }

  /** Every well-formed version 1 file without leap seconds is read as what it encodes; so is a file of
      any other version than 2 whose first block is such. */
  lemma Version1Decodes(version: byte, k: Block, rest: seq<byte>)
    requires version != VERSION_2 && ValidBlock(k, true) && k.leaps == []
    ensures var b := EncodeV1(version, k) + rest;
            && FileAccepted(b) && Describes(FileContents(b).table, k, true)
            && FileContents(b).abbreviation == k.chars && FileContents(b).tzstring == []
  {
    Version1Reads(version, k, rest);
    TableDescribes(k, true);
  }

  /** Where the parts of a version 2 file stand. */
  lemma Version2Parts(b: seq<byte>, h1: seq<byte>, body1: seq<byte>, h2: seq<byte>, body2: seq<byte>, footer: seq<byte>)
    requires b == h1 + (body1 + (h2 + (body2 + footer)))
    ensures Holds(b, 0, h1) && Holds(b, |h1|, body1)
    ensures Holds(b, |h1| + |body1|, h2)
    ensures Holds(b, |h1| + |body1| + |h2|, body2)
    ensures From(b, |h1| + |body1| + |h2| + |body2|) == footer
  {
    assert Holds(b, 0, b);
    HoldsParts(b, 0, h1, body1 + (h2 + (body2 + footer)));
    HoldsParts(b, |h1|, body1, h2 + (body2 + footer));
    HoldsParts(b, |h1| + |body1|, h2, body2 + footer);
    HoldsParts(b, |h1| + |body1| + |h2|, body2, footer);
  }

  /** The skip computed from the first header is the length of the first body. */
  lemma SkipIsBodyLength(k: Block)
    requires ValidBlock(k, true)
    ensures FirstBlockLength(CountsOf(k, true)) == |EncodeBody(k, true)|
  {
    BodyLength(k, true);
    assert |k.leaps| == 8 * (|k.leaps| / 8);
  }

  lemma SecondHeaderFound(b: seq<byte>, c1: Counts, c2: Counts, second: nat)
    requires ValidCounts(c1) && ValidCounts(c2) && second == 44 + FirstBlockLength(c1)
    requires Holds(b, 0, EncodeHeader(VERSION_2, c1)) && Holds(b, second, EncodeHeader(VERSION_2, c2))
    ensures CountsPosition(b) == second + 20 && b[4] == VERSION_2
    ensures CountsAt(b, 20) == c1 && CountsAt(b, second + 20) == c2
  {
    HeaderDecodes(b, 0, VERSION_2, c1);
    HeaderDecodes(b, second, VERSION_2, c2);
  }

  lemma Version2Reads(k1: Block, k2: Block, footer: seq<byte>, b: seq<byte>)
    requires ValidBlock(k1, true) && ValidBlock(k2, false) && k2.leaps == []
    requires b == EncodeV2(k1, k2, footer)
    ensures FileAccepted(b) && FileContents(b) == Contents(TableOf(k2, false), k2.chars, footer)
    ensures CountsPosition(b) == 44 + |EncodeBody(k1, true)| + 20
  {
    var c1, c2 := CountsOf(k1, true), CountsOf(k2, false);
    var body1, body2 := EncodeBody(k1, true), EncodeBody(k2, false);
    var p := 44 + |body1| + 20;
    Version2Parts(b, EncodeHeader(VERSION_2, c1), body1, EncodeHeader(VERSION_2, c2), body2, footer);
    SkipIsBodyLength(k1);
    SecondHeaderFound(b, c1, c2, 44 + |body1|);
    BlockReads(b, p, k2, false);
  }

  /** Every well-formed version 2 file is read as what its second block encodes, provided that block has
      no leap seconds; the skip computed from the first header lands on the second. */
  lemma Version2Decodes(k1: Block, k2: Block, footer: seq<byte>, b: seq<byte>)
    requires ValidBlock(k1, true) && ValidBlock(k2, false) && k2.leaps == []
    requires b == EncodeV2(k1, k2, footer)
    ensures FileAccepted(b) && Describes(FileContents(b).table, k2, false)
    ensures FileContents(b).abbreviation == k2.chars && FileContents(b).tzstring == footer
    ensures CountsPosition(b) == 44 + |EncodeBody(k1, true)| + 20
  {
    Version2Reads(k1, k2, footer, b);
    TableDescribes(k2, false);
  }

  // ---------------------------------------------------------------- which files are accepted

  /** The counts and the bytes behind them are a block that can be read: no leap seconds, indicators for all
      types or none, no negative count, all bytes there, and every transition of a type that exists. Times
      take `w` bytes. */
  ghost predicate Readable(c: Counts, body: seq<byte>, w: nat) {
    && c.leap == 0
    && (c.isutc == 0 || c.isutc == c.typ) && (c.isstd == 0 || c.isstd == c.typ)
    && c.time >= 0 && c.typ >= 0 && c.chars >= 0
    && w * c.time + c.time + 6 * c.typ + c.chars <= |body|
    && forall i :: w * c.time <= i < w * c.time + c.time ==> body[i] < c.typ
  }

  lemma IndexesAgree(b: seq<byte>, p: nat, q: nat, n: int)
    requires p <= q <= |b|
    ensures AllBelow(b[p..q], n) <==> forall i :: p <= i < q ==> b[i] < n
  {
    if AllBelow(b[p..q], n) {
      forall i | p <= i < q
        ensures b[i] < n
      {
        assert b[p..q][i - p] == b[i];
      }
    }
  }

  lemma ShiftedBelow(b: seq<byte>, p: nat, from: nat, to: nat, n: int)
    requires p + to <= |b|
    ensures (forall i :: p + from <= i < p + to ==> b[i] < n) <==> forall i :: from <= i < to ==> b[p..][i] < n
  {
    if forall i :: from <= i < to ==> b[p..][i] < n {
      forall i | p + from <= i < p + to
        ensures b[i] < n
      {
        assert b[p..][i - p] == b[i];
      }
    }
  }

  lemma BlockIsReadable(b: seq<byte>, p: nat, v1: bool, c: Counts)
    requires p + 24 <= |b| && ValidCounts(c) && b[p..p + 24] == EncodeCounts(c)
    ensures BlockAccepted(b, p, v1) <==> Readable(c, b[p + 24..], if v1 then 4 else 8)
  {
    CountsDecode(b, p, c);
    if c.time >= 0 && c.typ >= 0 && CharsStart(p, c, v1) <= |b| {
      IndexesAgree(b, IdxsStart(p, c, v1), TypesStart(p, c, v1), c.typ);
      ShiftedBelow(b, p + 24, Stride(v1, c.time), Stride(v1, c.time) + c.time, c.typ);
    }
  }

  /** A file of any version but 2 is accepted exactly when it begins with the magic bytes and its first
      block can be read; here `c` is what its counts say. */
  lemma Version1Accepts(b: seq<byte>, c: Counts)
    requires |b| >= 44 && b[4] != '2' as int && ValidCounts(c) && b[20..44] == EncodeCounts(c)
    ensures FileAccepted(b) <==> b[..4] == [84, 90, 105, 102] && Readable(c, b[44..], 4)
  {
    BlockIsReadable(b, 20, true, c);
  }

  /** A version 2 file is accepted exactly when both its headers begin with the magic bytes and its second
      block can be read. The second header, whose counts are `c2`, stands where the first one says. */
  lemma Version2Accepts(b: seq<byte>, c: Counts, second: nat, c2: Counts)
    requires |b| >= 44 && b[4] == '2' as int && ValidCounts(c) && b[20..44] == EncodeCounts(c)
    requires second == 44 + (4 * c.time + c.time + 6 * c.typ + c.chars + 8 * c.leap + c.isstd + c.isutc) >= 44
    requires |b| >= second + 44 && ValidCounts(c2) && b[second + 20..second + 44] == EncodeCounts(c2)
    ensures FileAccepted(b)
            <==> b[..4] == [84, 90, 105, 102] && b[second..second + 4] == [84, 90, 105, 102]
                 && Readable(c2, b[second + 44..], 8)
  {
    CountsDecode(b, 20, c);
    assert CountsPosition(b) == if b[..4] == MAGIC && b[second..second + 4] == MAGIC then second + 20 else -1;
    BlockIsReadable(b, second + 20, false, c2);
  }

  /** A file without room for its headers is refused. */
  lemma ShortFilesAreRefused(b: seq<byte>, c: Counts)
    ensures |b| < 44 ==> !FileAccepted(b)
    ensures |b| >= 44 && b[4] == '2' as int && ValidCounts(c) && b[20..44] == EncodeCounts(c)
            && |b| < 88 + (4 * c.time + c.time + 6 * c.typ + c.chars + 8 * c.leap + c.isstd + c.isutc)
            ==> !FileAccepted(b)
  {
    if |b| >= 44 && ValidCounts(c) && b[20..44] == EncodeCounts(c) {
      CountsDecode(b, 20, c);
    }
  }

  lemma EncodedBodyIsReadable(k: Block, v1: bool, rest: seq<byte>)
    requires ValidBlock(k, v1)
    ensures Readable(CountsOf(k, v1), EncodeBody(k, v1) + rest, if v1 then 4 else 8) <==> k.leaps == []
  {
    var b := EncodeBody(k, v1) + rest;
    var c := CountsOf(k, v1);
    BodyLength(k, v1);
    assert c.leap == 0 <==> k.leaps == [];
    forall i | TimeWidth(v1) * c.time <= i < TimeWidth(v1) * c.time + c.time
      ensures b[i] < c.typ
    {
      assert b[i] == k.idxs[i - |EncodeTimes(k.times, v1)|];
    }
  }

  /** So of well-formed files exactly those are refused that have leap seconds in the block to be read:
      in version 1, */
  lemma Version1RefusesLeapSeconds(version: byte, k: Block, rest: seq<byte>)
    requires version != VERSION_2 && ValidBlock(k, true)
    ensures FileAccepted(EncodeV1(version, k) + rest) <==> k.leaps == []
  {
    var b := EncodeV1(version, k) + rest;
    var c := CountsOf(k, true);
    assert b == EncodeHeader(version, c) + (EncodeBody(k, true) + rest);
    HeaderStands(b, version, c, EncodeBody(k, true) + rest);
    Version1Accepts(b, c);
    EncodedBodyIsReadable(k, true, rest);
  }

  /** and in version 2. */
  lemma Version2RefusesLeapSeconds(k1: Block, k2: Block, footer: seq<byte>)
    requires ValidBlock(k1, true) && ValidBlock(k2, false)
    ensures FileAccepted(EncodeV2(k1, k2, footer)) <==> k2.leaps == []
  {
    var b := EncodeV2(k1, k2, footer);
    var c1, c2 := CountsOf(k1, true), CountsOf(k2, false);
    var body1 := EncodeBody(k1, true);
    var second := 44 + |body1|;
    var tail := EncodeHeader(VERSION_2, c2) + (EncodeBody(k2, false) + footer);
    HeaderStands(b, VERSION_2, c1, body1 + tail);
    assert b[44..] == body1 + tail;
    assert b[second..] == tail;
    HeaderStands(tail, VERSION_2, c2, EncodeBody(k2, false) + footer);
    SkipIsBodyLength(k1);
    TailStands(b, second, tail);
    Version2Accepts(b, c1, second, c2);
    EncodedBodyIsReadable(k2, false, footer);
  }

  /** What a header says where it stands at the beginning of `b`. */
  lemma HeaderStands(b: seq<byte>, version: byte, c: Counts, rest: seq<byte>)
    requires ValidCounts(c) && b == EncodeHeader(version, c) + rest
    ensures |b| >= 44 && b[..4] == [84, 90, 105, 102] && b[4] == version
    ensures b[20..44] == EncodeCounts(c) && b[44..] == rest
  {
  }

  lemma TailStands(b: seq<byte>, second: nat, tail: seq<byte>)
    requires second <= |b| && b[second..] == tail && |tail| >= 44
    ensures |b| >= second + 44 && b[second..second + 4] == tail[..4]
    ensures b[second + 20..second + 44] == tail[20..44] && b[second + 44..] == tail[44..]
  {
    assert b[second..second + 4] == b[second..][..4];
    assert b[second + 20..second + 44] == b[second..][20..44];
    assert b[second + 44..] == b[second..][44..];
  }
}
