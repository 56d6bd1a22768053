/**
 The transition table of TimeZone.cc: lookup of the offset in force at an instant, lookup of the
 offset that a local time was written under, and how far the two lookups invert each other.
 */
module TimeZones {
  import opened CppArithmetic
  import opened Calendar
  import opened CivilTime

  datatype LocalTime = LocalTime(utcOffset: int, isDst: bool, desigIdx: int)

  datatype Transition = Transition(utctime: int, localtime: int, localtimeIdx: int)

  datatype Table = Table(transitions: seq<Transition>, localtimes: seq<LocalTime>)

  /** What loading establishes: there is a first type, offsets are 32-bit, every index is in range,
      and `localtime` is the shifted time that `addTransition` computed. */
  predicate WellFormed(z: Table) {
    && |z.localtimes| > 0
    && (forall lt :: lt in z.localtimes ==> FitsInt(lt.utcOffset))
    && forall i :: 0 <= i < |z.transitions| ==>
         var t := z.transitions[i];
         && 0 <= t.localtimeIdx < |z.localtimes|
         && t.localtime == t.utctime + z.localtimes[t.localtimeIdx].utcOffset
  }

  // ---------------------------------------------------------------- the code

  /** `std::upper_bound` on the keys from `first`, `len` of them: halve, and keep the half that
      holds the boundary. Its result is never `first` when the first key is not above `v`. */
  function UpperBound(keys: seq<int>, v: int, first: nat, len: nat): (r: nat)
    requires first + len <= |keys|
    ensures first <= r <= first + len
    ensures len > 0 && keys[first] <= v ==> first < r
    decreases len
  {
    if len == 0 then first
    else
      var half := len / 2;
      if v < keys[first + half] then UpperBound(keys, v, first, half)
      else UpperBound(keys, v, first + half + 1, len - half - 1)
  }

  function UtcTimes(z: Table): seq<int> {
    seq(|z.transitions|, i requires 0 <= i < |z.transitions| => z.transitions[i].utctime)
  }

  function LocalStarts(z: Table): seq<int> {
    seq(|z.transitions|, i requires 0 <= i < |z.transitions| => z.transitions[i].localtime)
  }

  /** `findLocalTime(utcTime)`: the index of the local time type in force at an instant. */
  function FindByUtc(z: Table, utcTime: int): (r: nat)
    requires WellFormed(z)
    ensures r < |z.localtimes|
  {
    if z.transitions == [] || utcTime < z.transitions[0].utctime then 0
    else
      var i := UpperBound(UtcTimes(z), utcTime, 0, |z.transitions|);
      if i != |z.transitions| then z.transitions[i - 1].localtimeIdx
      else z.transitions[|z.transitions| - 1].localtimeIdx
  }

  function PriorSecond(z: Table, i: nat, prior: Transition): int
    requires WellFormed(z) && i < |z.transitions| && prior in z.transitions
  {
    z.transitions[i].utctime - 1 + z.localtimes[prior.localtimeIdx].utcOffset
  }

  /** `findLocalTime(lt, postTransition)`, on the local time as seconds. */
  function FindByLocal(z: Table, localtime: int, post: bool): (r: nat)
    requires WellFormed(z)
    ensures r < |z.localtimes|
  {
    if z.transitions == [] || localtime < z.transitions[0].localtime then 0
    else
      var i := UpperBound(LocalStarts(z), localtime, 0, |z.transitions|);
      if i == |z.transitions| then z.transitions[i - 1].localtimeIdx
      else FindBetween(z, i, localtime, post)
  }

  /** The part of `findLocalTime` after the search, which found `transI == begin() + i`: skipped,
      repeated or unique. With `transI` moved back to the first transition, the code goes on with
      the `prior_trans` and `prior_second` it already has. */
  function FindBetween(z: Table, i: nat, localtime: int, post: bool): (r: nat)
    requires WellFormed(z) && 0 < i < |z.transitions|
    ensures r < |z.localtimes|
  {
    var prior := z.transitions[i - 1];
    var priorSecond := PriorSecond(z, i, prior);
    if priorSecond < localtime then
      if post then z.transitions[i].localtimeIdx else prior.localtimeIdx
    else
      var prior' := if i - 1 != 0 then z.transitions[i - 2] else prior;
      var priorSecond' := if i - 1 != 0 then PriorSecond(z, i - 1, prior') else priorSecond;
      if localtime <= priorSecond' then
        if post then z.transitions[i - 1].localtimeIdx else prior'.localtimeIdx
      else z.transitions[i - 1].localtimeIdx
  }

  function ToLocalTime(z: Table, seconds: int): DateTime
    requires WellFormed(z)
  {
    BreakTime(seconds + z.localtimes[FindByUtc(z, seconds)].utcOffset)
  }

  /** The instant that the code makes of a local time. */
  function Resolve(z: Table, local: int, post: bool): int
    requires WellFormed(z)
  {
    local - z.localtimes[FindByLocal(z, local, post)].utcOffset
  }

  function FromLocalTime(z: Table, dt: DateTime, post: bool): int
    requires WellFormed(z)
  {
    Resolve(z, FromUtcTime(dt), post)
  }

  // ---------------------------------------------------------------- the reference reading of a table

  /** The offset in force from transition `i` on; for `i == -1`, before the first transition. */
  function Offset(z: Table, i: int): int
    requires WellFormed(z) && -1 <= i < |z.transitions|
  {
    if i == -1 then z.localtimes[0].utcOffset else z.localtimes[z.transitions[i].localtimeIdx].utcOffset
  }

  /** The last transition among the first `n` that is at or before `t`, by a plain scan; -1 if none. */
  function LastAtOrBefore(keys: seq<int>, t: int, n: nat): (i: int)
    requires n <= |keys|
    ensures -1 <= i < n
    ensures i >= 0 ==> keys[i] <= t
    ensures forall k :: i < k < n ==> keys[k] > t
  {
    if n == 0 then -1 else if keys[n - 1] <= t then n - 1 else LastAtOrBefore(keys, t, n - 1)
  }

  function Period(z: Table, utc: int): (i: int)
    ensures -1 <= i < |z.transitions|
  {
    LastAtOrBefore(UtcTimes(z), utc, |z.transitions|)
  }

  /** The offset from UTC in force at an instant. */
  function OffsetAt(z: Table, utc: int): int
    requires WellFormed(z)
  {
    Offset(z, Period(z, utc))
  }

  function Abs(x: int): int {
    if x < 0 then -x else x
  }

  /** How far the clocks are moved at transition `i`. */
  function Jump(z: Table, i: nat): int
    requires WellFormed(z) && i < |z.transitions|
  {
    Offset(z, i) - Offset(z, i - 1)
  }

  predicate SpacedAfter(z: Table, i: nat)
    requires WellFormed(z) && i + 1 < |z.transitions|
  {
    z.transitions[i + 1].utctime - z.transitions[i].utctime > Abs(Jump(z, i)) + Abs(Jump(z, i + 1))
  }

  /** Transition times increase by more than the two adjacent jumps together. */
  predicate Spaced(z: Table)
    requires WellFormed(z)
  {
    forall i :: 0 <= i < |z.transitions| - 1 ==> SpacedAfter(z, i)
  }

  /** The local time shown by the new clock at transition `i` ... */
  function Start(z: Table, i: nat): int
    requires WellFormed(z) && i < |z.transitions|
  {
    z.transitions[i].utctime + Offset(z, i)
  }

  /** ... and the local time the old clock would have shown. */
  function End(z: Table, i: nat): int
    requires WellFormed(z) && i < |z.transitions|
  {
    z.transitions[i].utctime + Offset(z, i - 1)
  }

  /** The local times skipped at transition `i`. */
  predicate InGap(z: Table, i: nat, local: int)
    requires WellFormed(z) && i < |z.transitions|
  {
    End(z, i) <= local < Start(z, i)
  }

  /** The local times shown twice around transition `i`. */
  predicate Repeated(z: Table, i: nat, local: int)
    requires WellFormed(z) && i < |z.transitions|
  {
    Start(z, i) <= local < End(z, i)
  }

  // ---------------------------------------------------------------- lookup is the plain scan

  predicate Sorted(keys: seq<int>) {
    forall i, j :: 0 <= i < j < |keys| ==> keys[i] <= keys[j]
  }

  lemma {:induction false} UpperBoundSplits(keys: seq<int>, v: int, first: nat, len: nat)
    requires first + len <= |keys| && Sorted(keys)
    ensures var r := UpperBound(keys, v, first, len);
            && (forall i :: first <= i < r ==> keys[i] <= v)
            && (forall i :: r <= i < first + len ==> v < keys[i])
    decreases len
  {
    if len > 0 {
      var middle := first + len / 2;
      if v < keys[middle] {
        assert forall i :: middle <= i < first + len ==> v < keys[i] by {
          assert forall i :: middle < i < first + len ==> keys[middle] <= keys[i];
        }
        UpperBoundSplits(keys, v, first, len / 2);
      } else {
        assert forall i :: first <= i <= middle ==> keys[i] <= v by {
          assert forall i :: first <= i < middle ==> keys[i] <= keys[middle];
        }
        UpperBoundSplits(keys, v, middle + 1, len - len / 2 - 1);
      }
    }
  }

  lemma BinarySearchIsScan(keys: seq<int>, v: int)
    requires Sorted(keys)
    ensures UpperBound(keys, v, 0, |keys|) == LastAtOrBefore(keys, v, |keys|) + 1
  {
    UpperBoundSplits(keys, v, 0, |keys|);
    var r := UpperBound(keys, v, 0, |keys|);
    var i := LastAtOrBefore(keys, v, |keys|);
    var next := if i + 1 < |keys| then keys[i + 1] else v + 1;  // the first key past the scan's answer
    assert r <= i + 1;
  }

  /** Local time low and high water of transition `i`: everything it skips or repeats lies between. */
  function Low(z: Table, i: nat): int
    requires WellFormed(z) && i < |z.transitions|
  {
    if Start(z, i) < End(z, i) then Start(z, i) else End(z, i)
  }

  function High(z: Table, i: nat): int
    requires WellFormed(z) && i < |z.transitions|
  {
    if Start(z, i) < End(z, i) then End(z, i) else Start(z, i)
  }

  /** In a spaced table the transitions come in order, and so do the local times they disturb. */
  lemma {:induction false} SpacedInOrder(z: Table, i: nat, j: nat)
    requires WellFormed(z) && Spaced(z) && i < j < |z.transitions|
    ensures z.transitions[i].utctime < z.transitions[j].utctime
    ensures High(z, i) < Low(z, j)
    decreases j
  {
    var k := j - 1;
    assert SpacedAfter(z, k);
    if i < k {
      SpacedInOrder(z, i, k);
    }
  }

  lemma SpacedKeysSorted(z: Table)
    requires WellFormed(z) && Spaced(z)
    ensures Sorted(UtcTimes(z)) && Sorted(LocalStarts(z))
  {
    forall i, j | 0 <= i < j < |z.transitions|
      ensures UtcTimes(z)[i] <= UtcTimes(z)[j] && LocalStarts(z)[i] <= LocalStarts(z)[j]
    {
      SpacedInOrder(z, i, j);
    }
  }

  /** The binary search picks the last transition at or before the instant, or the first type. */
  lemma FindByUtcIsScan(z: Table, utc: int)
    requires WellFormed(z) && Sorted(UtcTimes(z))
    ensures z.localtimes[FindByUtc(z, utc)].utcOffset == OffsetAt(z, utc)
    ensures FindByUtc(z, utc) == var i := Period(z, utc); if i == -1 then 0 else z.transitions[i].localtimeIdx
  {
    var n := |z.transitions|;
    BinarySearchIsScan(UtcTimes(z), utc);
    if n > 0 && utc < z.transitions[0].utctime {
      assert UtcTimes(z)[0] == z.transitions[0].utctime;
      assert forall i :: 0 < i < n ==> UtcTimes(z)[0] <= UtcTimes(z)[i];
    }
  }

  /** An instant between two consecutive transitions belongs to the period of the first. */
  lemma PeriodIs(z: Table, utc: int, i: int)
    requires WellFormed(z) && Spaced(z) && -1 <= i < |z.transitions|
    requires i >= 0 ==> z.transitions[i].utctime <= utc
    requires i + 1 < |z.transitions| ==> utc < z.transitions[i + 1].utctime
    ensures Period(z, utc) == i && OffsetAt(z, utc) == Offset(z, i)
  {
    var p := Period(z, utc);
    var reached := if i >= 0 then UtcTimes(z)[i] else utc;
    assert p >= 0 ==> UtcTimes(z)[p] <= utc;
    assert i <= p;
    if i + 1 < p {
      SpacedInOrder(z, i + 1, p);
    }
  }

  // ---------------------------------------------------------------- lookup by local time

  /** The last transition whose new clock has reached `local`; -1 if none. */
  function LastStarted(z: Table, local: int): (k: int)
    ensures -1 <= k < |z.transitions|
  {
    LastAtOrBefore(LocalStarts(z), local, |z.transitions|)
  }

  lemma FindBetweenCases(z: Table, k: nat, local: int, post: bool)
    requires WellFormed(z) && k + 1 < |z.transitions| && Start(z, k) <= local < Start(z, k + 1)
    ensures z.localtimes[FindBetween(z, k + 1, local, post)].utcOffset
            == if InGap(z, k + 1, local) then Offset(z, if post then k + 1 else k)
               else if k > 0 && Repeated(z, k, local) then Offset(z, if post then k else k - 1)
               else Offset(z, k)
  {
    PriorSecondIsEnd(z, k + 1);
    if k > 0 {
      PriorSecondIsEnd(z, k);
    }
  }

  /** Which offset the code settles on, told by the period and its two neighbouring transitions. The
      first and the last transition are not examined for repeated local times. */
  lemma FindByLocalCases(z: Table, local: int, post: bool)
    requires WellFormed(z) && Spaced(z)
    ensures var n := |z.transitions|;
            var k := LastStarted(z, local);
            z.localtimes[FindByLocal(z, local, post)].utcOffset
            == if k != -1 && k != n - 1 && InGap(z, k + 1, local) then Offset(z, if post then k + 1 else k)
               else if 0 < k < n - 1 && Repeated(z, k, local) then Offset(z, if post then k else k - 1)
               else Offset(z, k)
  {
    var n := |z.transitions|;
    var k := LastStarted(z, local);
    SearchFindsLastStarted(z, local);
    StartedFirst(z, local);
    if 0 <= k && k + 1 < n {
      FindBetweenCases(z, k, local, post);
    }
  }

  lemma SearchFindsLastStarted(z: Table, local: int)
    requires WellFormed(z) && Spaced(z)
    ensures UpperBound(LocalStarts(z), local, 0, |z.transitions|) == LastStarted(z, local) + 1
  {
    SpacedKeysSorted(z);
    BinarySearchIsScan(LocalStarts(z), local);
  }

  lemma StartedFirst(z: Table, local: int)
    requires WellFormed(z) && Spaced(z)
    ensures var k := LastStarted(z, local);
            && (k == -1 <==> z.transitions == [] || local < z.transitions[0].localtime)
            && (k >= 0 ==> Start(z, k) <= local)
            && (k + 1 < |z.transitions| ==> local < Start(z, k + 1))
  {
    SpacedKeysSorted(z);
    var starts := LocalStarts(z);
    var k := LastStarted(z, local);
    if z.transitions != [] {
      assert starts[0] == z.transitions[0].localtime;
      assert k > 0 ==> starts[0] <= starts[k];
    }
    assert k >= 0 ==> starts[k] == Start(z, k);
    assert k + 1 < |z.transitions| ==> starts[k + 1] == Start(z, k + 1);
  }

  lemma PriorSecondIsEnd(z: Table, i: nat)
    requires WellFormed(z) && 0 < i < |z.transitions|
    ensures PriorSecond(z, i, z.transitions[i - 1]) == End(z, i) - 1
  {
  }

  /** The local time shown at an instant. */
  function Shown(z: Table, utc: int): int
    requires WellFormed(z)
  {
    utc + OffsetAt(z, utc)
  }

  /** A local time at or after the start of period `i` and before its end, read with that period's
      offset, is an instant of the period. */
  lemma ReadInPeriod(z: Table, local: int, i: int)
    requires WellFormed(z) && Spaced(z) && -1 <= i < |z.transitions|
    requires i >= 0 ==> Start(z, i) <= local
    requires i + 1 < |z.transitions| ==> local < End(z, i + 1)
    ensures Shown(z, local - Offset(z, i)) == local
  {
    PeriodIs(z, local - Offset(z, i), i);
  }

  /** A gap can only lie at the next transition to start. */
  lemma GapIsNext(z: Table, local: int, i: nat)
    requires WellFormed(z) && Spaced(z) && i < |z.transitions| && InGap(z, i, local)
    ensures LastStarted(z, local) == i - 1
  {
    var k := LastStarted(z, local);
    StartedFirst(z, local);
    if i < k {
      SpacedInOrder(z, i, k);
    }
    if k + 1 < i {
      SpacedInOrder(z, k + 1, i);
    }
  }

  /** A repeated local time belongs to the last transition to start. */
  lemma RepeatIsLast(z: Table, local: int, i: nat)
    requires WellFormed(z) && Spaced(z) && i < |z.transitions| && Repeated(z, i, local)
    ensures LastStarted(z, local) == i
  {
    var k := LastStarted(z, local);
    StartedFirst(z, local);
    if i < k {
      SpacedInOrder(z, i, k);
    }
    if k + 1 < i {
      SpacedInOrder(z, k + 1, i);
    }
  }

  // ---------------------------------------------------------------- local time to instant and back

  lemma StartsInOrder(z: Table, i: nat, j: nat)
    requires WellFormed(z) && Spaced(z) && i < j < |z.transitions|
    ensures Start(z, i) < Start(z, j) && End(z, i) < End(z, j) && End(z, i) < Start(z, j)
  {
    SpacedInOrder(z, i, j);
  }

  /** The period whose offset the code applies to a local time that is not skipped. */
  lemma PeriodApplied(z: Table, local: int, post: bool) returns (i: int)
    requires WellFormed(z) && Spaced(z)
    requires forall i :: 0 <= i < |z.transitions| ==> !InGap(z, i, local)
    ensures -1 <= i < |z.transitions| && z.localtimes[FindByLocal(z, local, post)].utcOffset == Offset(z, i)
    ensures i >= 0 ==> Start(z, i) <= local
    ensures i + 1 < |z.transitions| ==> local < End(z, i + 1)
  {
    var n := |z.transitions|;
    var k := LastStarted(z, local);
    FindByLocalCases(z, local, post);
    StartedFirst(z, local);
    if k + 1 < n {
      assert !InGap(z, k + 1, local);
    }
    i := k;
    if 0 < k < n - 1 && Repeated(z, k, local) && !post {
      StartsInOrder(z, k - 1, k);
      i := k - 1;
    }
  }

  /** Every local time that is not skipped resolves, either way, to an instant that shows it. */
  lemma ResolveShowsLocal(z: Table, local: int, post: bool)
    requires WellFormed(z) && Spaced(z)
    requires forall i :: 0 <= i < |z.transitions| ==> !InGap(z, i, local)
    ensures Shown(z, Resolve(z, local, post)) == local
  {
    var i := PeriodApplied(z, local, post);
    ReadInPeriod(z, local, i);
  }

  /** A skipped local time is moved forward by the gap when read before the transition and back by
      the gap when read after it; at the first transition it is moved forward either way. */
  lemma ResolveMovesGap(z: Table, local: int, post: bool, i: nat)
    requires WellFormed(z) && Spaced(z) && i < |z.transitions| && InGap(z, i, local)
    ensures Jump(z, i) > 0
    ensures Shown(z, Resolve(z, local, post)) == if post && i > 0 then local - Jump(z, i) else local + Jump(z, i)
  {
    GapIsNext(z, local, i);
    FindByLocalCases(z, local, post);
    var utc := Resolve(z, local, post);
    if post && i > 0 {
      assert SpacedAfter(z, i - 1);
      PeriodIs(z, utc, i - 1);
    } else {
      assert i + 1 < |z.transitions| ==> SpacedAfter(z, i);
      PeriodIs(z, utc, i);
    }
  }

  // ---------------------------------------------------------------- instant to local time and back

  /** The repeated windows just before the first and the last transition, which the code does not separate. */
  predicate Unseparated(z: Table, utc: int)
    requires WellFormed(z)
  {
    var next := Period(z, utc) + 1;
    next < |z.transitions| && (next == 0 || next == |z.transitions| - 1) && Start(z, next) <= Shown(z, utc)
  }

  /** Some transition that the code examines for repeats shows `local` twice. */
  predicate ShownTwice(z: Table, local: int)
    requires WellFormed(z)
  {
    exists j :: 0 < j < |z.transitions| - 1 && Repeated(z, j, local)
  }

  lemma ShownBounds(z: Table, utc: int)
    requires WellFormed(z)
    ensures var p := Period(z, utc);
            && (p >= 0 ==> Start(z, p) <= Shown(z, utc))
            && (p + 1 < |z.transitions| ==> Shown(z, utc) < End(z, p + 1))
  {
    var p := Period(z, utc);
    assert p >= 0 ==> UtcTimes(z)[p] <= utc;
    assert p + 1 < |z.transitions| ==> UtcTimes(z)[p + 1] > utc;
  }

  /** A local time of period `p` is past the start of that period, and at most of the next. */
  lemma StartedWithinPeriod(z: Table, local: int, p: int)
    requires WellFormed(z) && Spaced(z) && -1 <= p < |z.transitions|
    requires p >= 0 ==> Start(z, p) <= local
    requires p + 1 < |z.transitions| ==> local < End(z, p + 1)
    ensures p <= LastStarted(z, local) <= p + 1
  {
    var k := LastStarted(z, local);
    StartedFirst(z, local);
    if k + 1 < p {
      StartsInOrder(z, k + 1, p);
    }
    if p + 1 < k {
      StartsInOrder(z, p + 1, k);
    }
  }

  /** What an instant's local time resolves to, told by whether the next transition has already
      started on the local clock. */
  lemma ResolveShownCases(z: Table, utc: int, post: bool)
    requires WellFormed(z) && Spaced(z)
    ensures var n := |z.transitions|;
            var p := Period(z, utc);
            var local := Shown(z, utc);
            var k := LastStarted(z, local);
            p <= k <= p + 1
            && (k > p ==> Repeated(z, k, local))
            && Resolve(z, local, post)
               == if 0 < k < n - 1 && Repeated(z, k, local) then local - Offset(z, if post then k else k - 1)
                  else local - Offset(z, k)
  {
    var p := Period(z, utc);
    var local := Shown(z, utc);
    var k := LastStarted(z, local);
    ShownBounds(z, utc);
    StartedWithinPeriod(z, local, p);
    StartedFirst(z, local);
    FindByLocalCases(z, local, post);
    if k > p && k + 1 < |z.transitions| {
      SpacedInOrder(z, k, k + 1);
    }
  }

  /** The trip from an instant to local time and back recovers the instant, for one of the two readings,
      exactly outside the unseparated windows; for both exactly when in addition the local time is
      not shown twice. Reading before the transition gives the earlier instant, after it the later. */
  lemma ResolveRecoversInstant(z: Table, utc: int)
    requires WellFormed(z) && Spaced(z)
    ensures var before := Resolve(z, Shown(z, utc), false);
            var after := Resolve(z, Shown(z, utc), true);
            && (before == utc || after == utc <==> !Unseparated(z, utc))
            && (before == utc && after == utc <==> !Unseparated(z, utc) && !ShownTwice(z, Shown(z, utc)))
            && (!Unseparated(z, utc) ==> before <= utc <= after)
  {
    UnseparatedMeansStarted(z, utc);
    ShownTwiceMeansLast(z, Shown(z, utc));
    ResolveShownCases(z, utc, false);
    ResolveShownCases(z, utc, true);
  }

  lemma UnseparatedMeansStarted(z: Table, utc: int)
    requires WellFormed(z) && Spaced(z)
    ensures var k := LastStarted(z, Shown(z, utc));
            Unseparated(z, utc) <==> k == Period(z, utc) + 1 && (k == 0 || k == |z.transitions| - 1)
  {
    ShownBounds(z, utc);
    StartedWithinPeriod(z, Shown(z, utc), Period(z, utc));
    StartedFirst(z, Shown(z, utc));
  }

  lemma ShownTwiceMeansLast(z: Table, local: int)
    requires WellFormed(z) && Spaced(z)
    ensures var k := LastStarted(z, local);
            ShownTwice(z, local) <==> 0 < k < |z.transitions| - 1 && Repeated(z, k, local)
  {
    if j :| 0 < j < |z.transitions| - 1 && Repeated(z, j, local) {
      RepeatIsLast(z, local, j);
    }
  }

  // ---------------------------------------------------------------- the same on dates and times

  lemma ToLocalTimeShows(z: Table, utc: int)
    requires WellFormed(z) && Spaced(z)
    ensures ToLocalTime(z, utc) == BreakTime(Shown(z, utc))
  {
    SpacedKeysSorted(z);
    FindByUtcIsScan(z, utc);
  }

  /** UTC to local and back, on dates and times, wherever nothing overflows: the local time is valid
      exactly from the calendar's epoch on. */
  lemma UtcRoundTrip(z: Table, utc: int)
    requires WellFormed(z) && Spaced(z) && Computable(Shown(z, utc))
    ensures ValidTime(ToLocalTime(z, utc)) <==> DayOf(Shown(z, utc)) >= EPOCH_DAY
    ensures ValidTime(ToLocalTime(z, utc)) ==>
              var before := FromLocalTime(z, ToLocalTime(z, utc), false);
              var after := FromLocalTime(z, ToLocalTime(z, utc), true);
              && (before == utc || after == utc <==> !Unseparated(z, utc))
              && (before == utc && after == utc <==> !Unseparated(z, utc) && !ShownTwice(z, Shown(z, utc)))
              && (!Unseparated(z, utc) ==> before <= utc <= after)
  {
    ToLocalTimeShows(z, utc);
    InstantRoundTrip(Shown(z, utc));
    ResolveRecoversInstant(z, utc);
  }

  lemma ThereAndBack(z: Table, dt: DateTime, post: bool)
    requires WellFormed(z) && Spaced(z)
    ensures ToLocalTime(z, FromLocalTime(z, dt, post)) == BreakTime(Shown(z, Resolve(z, FromUtcTime(dt), post)))
  {
    ToLocalTimeShows(z, FromLocalTime(z, dt, post));
  }

  lemma OtherInstantOtherTime(dt: DateTime, local: int)
    requires Computable(local) && ValidTime(dt) && FromUtcTime(dt) != local
    ensures BreakTime(local) != dt
  {
    InstantRoundTrip(local);
  }

  predicate Skipped(z: Table, local: int)
    requires WellFormed(z)
  {
    exists i :: 0 <= i < |z.transitions| && InGap(z, i, local)
  }

  /** Local to UTC and back, wherever nothing overflows: a valid local time is recovered exactly when it
      is not skipped and not before the calendar's epoch. One that is not skipped is shown by the instant
      it resolves to, so only for a skipped one another day is computed. */
  lemma LocalRoundTrip(z: Table, dt: DateTime, post: bool)
    requires WellFormed(z) && Spaced(z) && ValidTime(dt) && Computable(FromUtcTime(dt))
    requires Skipped(z, FromUtcTime(dt)) ==> Computable(Shown(z, FromLocalTime(z, dt, post)))
    ensures ToLocalTime(z, FromLocalTime(z, dt, post)) == dt
            <==> !Skipped(z, FromUtcTime(dt)) && !Before(dt.date, EPOCH)
  {
    var local := FromUtcTime(dt);
    ThereAndBack(z, dt, post);
    if i :| 0 <= i < |z.transitions| && InGap(z, i, local) {
      ResolveMovesGap(z, local, post, i);
      OtherInstantOtherTime(dt, Shown(z, Resolve(z, local, post)));
    } else {
      ResolveShowsLocal(z, local, post);
      CivilRoundTrip(dt);
    }
  }

  /** A skipped local time comes back as the one moved by exactly the gap; that is a valid date and time
      exactly if it is not moved to before the epoch. */
  lemma LocalGapMoves(z: Table, dt: DateTime, post: bool, i: nat, moved: int)
    requires WellFormed(z) && Spaced(z) && ValidTime(dt) && Computable(FromUtcTime(dt))
    requires i < |z.transitions| && InGap(z, i, FromUtcTime(dt))
    requires var gap := Start(z, i) - End(z, i);
             moved == if post && i > 0 then FromUtcTime(dt) - gap else FromUtcTime(dt) + gap
    requires Computable(moved)
    ensures var r := ToLocalTime(z, FromLocalTime(z, dt, post));
            && (ValidTime(r) <==> DayOf(moved) >= EPOCH_DAY)
            && (ValidTime(r) ==> FromUtcTime(r) == moved)
  {
    ThereAndBack(z, dt, post);
    ResolveMovesGap(z, FromUtcTime(dt), post, i);
    assert moved == Shown(z, Resolve(z, FromUtcTime(dt), post));
    InstantRoundTrip(moved);
  }
}
