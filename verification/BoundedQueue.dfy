/**
 The bounded blocking queue: its ring of slots, and its monitor with two condition variables.
 */
module BoundedQueue {

  datatype Option<T> = None | Some(value: T)

  // ---------------------------------------------------------------- the ring

  /** `(i + 1) % N` */
  function Successor(i: nat, n: nat): (j: nat)
    requires i < n
    ensures j == if i + 1 == n then 0 else i + 1
  {
    assert i + 1 < n ==> (i + 1) % n == i + 1 by { if i + 1 < n { SmallRemainder(i + 1, n); } }
    (i + 1) % n
  }

  lemma SmallRemainder(i: nat, n: nat)
    requires i < n
    ensures i % n == i
  {
  }

  class BoundedBlockQueue<T(0)> {
    const slots: array<T>  // std::array<T, N>
    var head: nat
    var tail: nat

    ghost predicate Valid()
      reads this
    {
      head < slots.Length && tail < slots.Length
    }

    ghost function Contents(): seq<T>
      requires Valid()
      reads this, slots
    {
      if head <= tail then slots[head..tail] else slots[head..] + slots[..tail]
    }

    constructor (n: nat)
      requires n > 0
      ensures Valid() && slots.Length == n && Contents() == [] && fresh(slots)
    {
      slots := new T[n];
      head, tail := 0, 0;
    }

    method IsEmptyNoLock() returns (empty: bool)
      requires Valid()
      ensures empty <==> Contents() == []
    {
      empty := head == tail;
    }

    /** One slot always stays unused. */
    method IsFullNoLock() returns (full: bool)
      requires Valid()
      ensures full <==> |Contents()| == slots.Length - 1
    {
      full := Successor(tail, slots.Length) == head;
    }

    /** One pass of `push` under the lock, from the test of the wait loop on: a full queue makes the
        caller wait, otherwise the element goes in at the tail and the call is done. */
    method TryPush(t: T) returns (done: bool)
      requires Valid()
      modifies this, slots
      ensures Valid()
      ensures done <==> |old(Contents())| < slots.Length - 1
      ensures Contents() == if done then old(Contents()) + [t] else old(Contents())
    {
      var full := IsFullNoLock();
      if full {
        return false;
      }
      slots[tail] := t;
      tail := Successor(tail, slots.Length);
      done := true;
    }

    /** One pass of `pop` under the lock: nothing from an empty queue, which makes the caller wait. */
    method TryPop() returns (front: Option<T>)
      requires Valid()
      modifies this
      ensures Valid()
      ensures front.None? <==> old(Contents()) == []
      ensures match front
              case None => Contents() == old(Contents())
              case Some(x) => [x] + Contents() == old(Contents())
    {
      var empty := IsEmptyNoLock();
      if empty {
        return None;
      }
      front := Some(slots[head]);
      head := Successor(head, slots.Length);
    }
  }

  // ---------------------------------------------------------------- the monitor

  type Tid = nat

  /** The queue with the threads that have met it. A producer waits on `m_condIsFull`, a consumer on
      `m_condIsEmpty`. A woken thread has left the condition variable but has yet to take the lock
      and test again. `pushed` and `popped` record all elements that went in and came out. */
  datatype Monitor<T> = Monitor(
    items: seq<T>,
    sleepingProducers: set<Tid>, wokenProducers: set<Tid>, offers: map<Tid, T>,
    sleepingConsumers: set<Tid>, wokenConsumers: set<Tid>,
    pushed: seq<T>, popped: seq<T>)

  /** Whom a `notify_one` wakes. */
  datatype Wake = Nobody | Thread(t: Tid)

  /** What a thread does while it holds the lock, or a wakeup without notification. */
  datatype Action<T> =
    | StartPush(t: Tid, x: T, wake: Wake)
    | ResumePush(t: Tid, wake: Wake)
    | StartPop(t: Tid, wake: Wake)
    | ResumePop(t: Tid, wake: Wake)
    | SpuriousProducer(t: Tid)
    | SpuriousConsumer(t: Tid)

  function Initial<T>(): Monitor<T> {
    Monitor([], {}, {}, map[], {}, {}, [], [])
  }

  predicate Outside<T>(m: Monitor<T>, t: Tid) {
    t !in m.sleepingProducers && t !in m.wokenProducers && t !in m.sleepingConsumers && t !in m.wokenConsumers
  }

  predicate Full<T>(n: nat, m: Monitor<T>) {
    |m.items| + 1 == n
  }

  /** `notify_one` wakes one of the sleepers, any one, if there is one; who goes to sleep wakes nobody. */
  predicate Wakes(notifies: bool, sleepers: set<Tid>, wake: Wake) {
    if !notifies || sleepers == {} then wake == Nobody else wake.Thread? && wake.t in sleepers
  }

  predicate Enabled<T>(n: nat, m: Monitor<T>, a: Action<T>) {
    match a
    case StartPush(t, x, wake) => Outside(m, t) && Wakes(!Full(n, m), m.sleepingConsumers, wake)
    case ResumePush(t, wake) =>
      t in m.wokenProducers && t in m.offers && Wakes(!Full(n, m), m.sleepingConsumers, wake)
    case StartPop(t, wake) => Outside(m, t) && Wakes(m.items != [], m.sleepingProducers, wake)
    case ResumePop(t, wake) => t in m.wokenConsumers && Wakes(m.items != [], m.sleepingProducers, wake)
    case SpuriousProducer(t) => t in m.sleepingProducers
    case SpuriousConsumer(t) => t in m.sleepingConsumers
  }

  /** The body of `push` after its loop. */
  function Put<T>(m: Monitor<T>, x: T, wake: Wake): Monitor<T> {
    var m' := m.(items := m.items + [x], pushed := m.pushed + [x]);
    match wake
    case Nobody => m'
    case Thread(t) => m'.(sleepingConsumers := m.sleepingConsumers - {t}, wokenConsumers := m.wokenConsumers + {t})
  }

  /** The body of `pop` after its loop. */
  function Take<T>(m: Monitor<T>, wake: Wake): Monitor<T>
    requires m.items != []
  {
    var m' := m.(items := m.items[1..], popped := m.popped + [m.items[0]]);
    match wake
    case Nobody => m'
    case Thread(t) => m'.(sleepingProducers := m.sleepingProducers - {t}, wokenProducers := m.wokenProducers + {t})
  }

  function Step<T>(n: nat, m: Monitor<T>, a: Action<T>): Monitor<T>
    requires Enabled(n, m, a)
  {
    match a
    case StartPush(t, x, wake) =>
      if Full(n, m) then m.(sleepingProducers := m.sleepingProducers + {t}, offers := m.offers[t := x])
      else Put(m, x, wake)
    case ResumePush(t, wake) =>
      var m' := m.(wokenProducers := m.wokenProducers - {t});
      if Full(n, m) then m'.(sleepingProducers := m.sleepingProducers + {t})
      else Put(m', m.offers[t], wake)
    case StartPop(t, wake) =>
      if m.items == [] then m.(sleepingConsumers := m.sleepingConsumers + {t})
      else Take(m, wake)
    case ResumePop(t, wake) =>
      var m' := m.(wokenConsumers := m.wokenConsumers - {t});
      if m.items == [] then m'.(sleepingConsumers := m.sleepingConsumers + {t})
      else Take(m', wake)
    case SpuriousProducer(t) =>
      m.(sleepingProducers := m.sleepingProducers - {t}, wokenProducers := m.wokenProducers + {t})
    case SpuriousConsumer(t) =>
      m.(sleepingConsumers := m.sleepingConsumers - {t}, wokenConsumers := m.wokenConsumers + {t})
  }

  /** The ring does what the monitor's step says: a pass of `push`, of a call that has just begun or of a
      thread that was woken, */
  method PushStep<T(0)>(queue: BoundedBlockQueue<T>, x: T, ghost m: Monitor<T>, ghost a: Action<T>) returns (done: bool)
    requires queue.Valid() && queue.Contents() == m.items && Enabled(queue.slots.Length, m, a)
    requires (a.StartPush? && a.x == x) || (a.ResumePush? && m.offers[a.t] == x)
    modifies queue, queue.slots
    ensures queue.Valid() && queue.Contents() == Step(queue.slots.Length, m, a).items
    ensures Step(queue.slots.Length, m, a).pushed == if done then m.pushed + [x] else m.pushed
  {
    done := queue.TryPush(x);
  }

  /** and a pass of `pop`. */
  method PopStep<T(0)>(queue: BoundedBlockQueue<T>, ghost m: Monitor<T>, ghost a: Action<T>) returns (front: Option<T>)
    requires queue.Valid() && queue.Contents() == m.items && Enabled(queue.slots.Length, m, a)
    requires a.StartPop? || a.ResumePop?
    modifies queue
    ensures queue.Valid() && queue.Contents() == Step(queue.slots.Length, m, a).items
    ensures Step(queue.slots.Length, m, a).popped == m.popped + if front.Some? then [front.value] else []
  {
    front := queue.TryPop();
    assert front.Some? ==> m.items[0] == front.value && m.items[1..] == queue.Contents();
  }

  /** A run of the monitor: every action is enabled where it happens. */
  predicate IsRun<T>(n: nat, m: Monitor<T>, actions: seq<Action<T>>)
    decreases |actions|
  {
    actions == [] || (Enabled(n, m, actions[0]) && IsRun(n, Step(n, m, actions[0]), actions[1..]))
  }

  function Run<T>(n: nat, m: Monitor<T>, actions: seq<Action<T>>): Monitor<T>
    requires IsRun(n, m, actions)
    decreases |actions|
  {
    if actions == [] then m else Run(n, Step(n, m, actions[0]), actions[1..])
  }

  // ---------------------------------------------------------------- what every run keeps

  /** No wakeup is lost: as long as a thread sleeps, there are woken threads of its kind for all the
      elements, or all the free slots, that it could be sleeping through. */
  ghost predicate NoLostWakeup<T>(n: nat, m: Monitor<T>) {
    && (m.sleepingConsumers != {} ==> |m.wokenConsumers| >= |m.items|)
    && (m.sleepingProducers != {} ==> |m.wokenProducers| >= n - 1 - |m.items|)
  }

  ghost predicate Inv<T>(n: nat, m: Monitor<T>) {
    && |m.items| < n
    && m.pushed == m.popped + m.items
    && m.sleepingProducers !! m.wokenProducers
    && m.sleepingConsumers !! m.wokenConsumers
    && m.sleepingProducers + m.wokenProducers <= m.offers.Keys
    && NoLostWakeup(n, m)
  }

  lemma PutKeepsInv<T>(n: nat, m: Monitor<T>, x: T, wake: Wake)
    requires |m.items| + 1 < n && m.pushed == m.popped + m.items
    requires m.sleepingProducers !! m.wokenProducers && m.sleepingConsumers !! m.wokenConsumers
    requires m.sleepingProducers + m.wokenProducers <= m.offers.Keys
    requires m.sleepingConsumers != {} ==> |m.wokenConsumers| >= |m.items|
    requires m.sleepingProducers != {} ==> |m.wokenProducers| >= n - 2 - |m.items|
    requires Wakes(true, m.sleepingConsumers, wake)
    ensures Inv(n, Put(m, x, wake))
  {
    assert m.pushed + [x] == m.popped + (m.items + [x]);
  }

  lemma TakeKeepsInv<T>(n: nat, m: Monitor<T>, wake: Wake)
    requires m.items != [] && |m.items| < n && m.pushed == m.popped + m.items
    requires m.sleepingProducers !! m.wokenProducers && m.sleepingConsumers !! m.wokenConsumers
    requires m.sleepingProducers + m.wokenProducers <= m.offers.Keys
    requires m.sleepingConsumers != {} ==> |m.wokenConsumers| >= |m.items| - 1
    requires m.sleepingProducers != {} ==> |m.wokenProducers| >= n - 1 - |m.items|
    requires Wakes(true, m.sleepingProducers, wake)
    ensures Inv(n, Take(m, wake))
  {
    assert m.popped + m.items == m.popped + [m.items[0]] + m.items[1..];
  }

  lemma PushKeepsInv<T>(n: nat, m: Monitor<T>, a: Action<T>)
    requires Inv(n, m) && Enabled(n, m, a) && (a.StartPush? || a.ResumePush?)
    ensures Inv(n, Step(n, m, a))
  {
    if !Full(n, m) {
      if a.StartPush? {
        PutKeepsInv(n, m, a.x, a.wake);
      } else {
        PutKeepsInv(n, m.(wokenProducers := m.wokenProducers - {a.t}), m.offers[a.t], a.wake);
      }
    }
  }

  lemma PopKeepsInv<T>(n: nat, m: Monitor<T>, a: Action<T>)
    requires Inv(n, m) && Enabled(n, m, a) && (a.StartPop? || a.ResumePop?)
    ensures Inv(n, Step(n, m, a))
  {
    if m.items != [] {
      TakeKeepsInv(n, if a.StartPop? then m else m.(wokenConsumers := m.wokenConsumers - {a.t}), a.wake);
    }
  }

  lemma SpuriousKeepsInv<T>(n: nat, m: Monitor<T>, a: Action<T>)
    requires Inv(n, m) && Enabled(n, m, a) && (a.SpuriousProducer? || a.SpuriousConsumer?)
    ensures Inv(n, Step(n, m, a))
  {
  }

  lemma StepKeepsInv<T>(n: nat, m: Monitor<T>, a: Action<T>)
    requires Inv(n, m) && Enabled(n, m, a)
    ensures Inv(n, Step(n, m, a))
  {
    match a
    case StartPush(_, _, _) => PushKeepsInv(n, m, a);
    case ResumePush(_, _) => PushKeepsInv(n, m, a);
    case StartPop(_, _) => PopKeepsInv(n, m, a);
    case ResumePop(_, _) => PopKeepsInv(n, m, a);
    case SpuriousProducer(_) => SpuriousKeepsInv(n, m, a);
    case SpuriousConsumer(_) => SpuriousKeepsInv(n, m, a);
  }

  /** From any state that satisfies the invariant, every run keeps it. */
  lemma {:induction false} RunKeepsInv<T>(n: nat, m: Monitor<T>, actions: seq<Action<T>>)
    requires Inv(n, m) && IsRun(n, m, actions)
    ensures Inv(n, Run(n, m, actions))
    decreases |actions|
  {
    if actions != [] {
      StepKeepsInv(n, m, actions[0]);
      RunKeepsInv(n, Step(n, m, actions[0]), actions[1..]);
    }
  }

  /** What came out is what went in, in order; the rest is still queued, and there is room for it. */
  lemma FirstInFirstOut<T>(n: nat, actions: seq<Action<T>>)
    requires n >= 1 && IsRun(n, Initial(), actions)
    ensures var m := Run(n, Initial(), actions); m.pushed == m.popped + m.items && |m.items| <= n - 1
  {
    RunKeepsInv(n, Initial(), actions);
  }

  // ---------------------------------------------------------------- every call is served once

  /** The elements of all calls of `push` that began in a run. */
  ghost function Begun<T>(actions: seq<Action<T>>): multiset<T> {
    if actions == [] then multiset{}
    else (if actions[0].StartPush? then multiset{actions[0].x} else multiset{}) + Begun(actions[1..])
  }

  /** The elements that a set of producers offers. */
  ghost function Offered<T>(offers: map<Tid, T>, producers: set<Tid>): multiset<T>
    requires producers <= offers.Keys
  {
    if producers == {} then multiset{}
    else
      var t :| t in producers;
      multiset{offers[t]} + Offered(offers, producers - {t})
  }

  lemma {:induction false} OfferedTakesOut<T>(offers: map<Tid, T>, producers: set<Tid>, t: Tid)
    requires producers <= offers.Keys && t in producers
    ensures Offered(offers, producers) == multiset{offers[t]} + Offered(offers, producers - {t})
    decreases producers
  {
    var first :| first in producers && Offered(offers, producers) == multiset{offers[first]} + Offered(offers, producers - {first});
    if first != t {
      OfferedTakesOut(offers, producers - {first}, t);
      OfferedTakesOut(offers, producers - {t}, first);
      assert producers - {first} - {t} == producers - {t} - {first};
    }
  }

  lemma {:induction false} OfferedKeeps<T>(offers: map<Tid, T>, offers': map<Tid, T>, producers: set<Tid>)
    requires producers <= offers.Keys && producers <= offers'.Keys
    requires forall t :: t in producers ==> offers[t] == offers'[t]
    ensures Offered(offers, producers) == Offered(offers', producers)
    decreases producers
  {
    if t :| t in producers {
      OfferedTakesOut(offers, producers, t);
      OfferedTakesOut(offers', producers, t);
      OfferedKeeps(offers, offers', producers - {t});
    }
  }

  ghost function Producers<T>(m: Monitor<T>): set<Tid> {
    m.sleepingProducers + m.wokenProducers
  }

  ghost function Consumers<T>(m: Monitor<T>): set<Tid> {
    m.sleepingConsumers + m.wokenConsumers
  }

  lemma WakingKeepsUnion(sleeping: set<Tid>, woken: set<Tid>, t: Tid)
    requires t in sleeping
    ensures (sleeping - {t}) + (woken + {t}) == sleeping + woken
  {
  }

  /** Who waits, woken or not, does not depend on whom a notification wakes. */
  lemma PutKeepsWaiting<T>(m: Monitor<T>, x: T, wake: Wake)
    requires Wakes(true, m.sleepingConsumers, wake)
    ensures Producers(Put(m, x, wake)) == Producers(m) && Consumers(Put(m, x, wake)) == Consumers(m)
  {
    if wake.Thread? {
      WakingKeepsUnion(m.sleepingConsumers, m.wokenConsumers, wake.t);
    }
  }

  lemma TakeKeepsWaiting<T>(m: Monitor<T>, wake: Wake)
    requires m.items != [] && Wakes(true, m.sleepingProducers, wake)
    ensures Producers(Take(m, wake)) == Producers(m) && Consumers(Take(m, wake)) == Consumers(m)
  {
    if wake.Thread? {
      WakingKeepsUnion(m.sleepingProducers, m.wokenProducers, wake.t);
    }
  }

  /** All elements that a call of `push` has brought: those that went in, and those that still wait. */
  ghost function Brought<T>(m: Monitor<T>): multiset<T>
    requires Producers(m) <= m.offers.Keys
  {
    multiset(m.pushed) + Offered(m.offers, Producers(m))
  }

  lemma StartedPushWaits<T>(n: nat, m: Monitor<T>, a: Action<T>)
    requires Producers(m) <= m.offers.Keys && Enabled(n, m, a) && a.StartPush? && Full(n, m)
    ensures var m' := Step(n, m, a);
            Consumers(m') == Consumers(m) && Producers(m') <= m'.offers.Keys && Brought(m') == Brought(m) + multiset{a.x}
  {
    var m' := Step(n, m, a);
    assert Producers(m') == Producers(m) + {a.t} && Producers(m') - {a.t} == Producers(m);
    OfferedTakesOut(m'.offers, Producers(m'), a.t);
    OfferedKeeps(m.offers, m'.offers, Producers(m));
  }

  lemma StartedPushGoesIn<T>(n: nat, m: Monitor<T>, a: Action<T>)
    requires Producers(m) <= m.offers.Keys && Enabled(n, m, a) && a.StartPush? && !Full(n, m)
    ensures var m' := Step(n, m, a);
            Consumers(m') == Consumers(m) && Producers(m') <= m'.offers.Keys && Brought(m') == Brought(m) + multiset{a.x}
  {
    PutKeepsWaiting(m, a.x, a.wake);
    PushedCounts(m.pushed, a.x);
  }

  lemma PushedCounts<T>(s: seq<T>, x: T)
    ensures multiset(s + [x]) == multiset(s) + multiset{x}
  {
  }

  lemma ResumedPushWaits<T>(n: nat, m: Monitor<T>, a: Action<T>)
    requires Producers(m) <= m.offers.Keys && Enabled(n, m, a) && a.ResumePush? && Full(n, m)
    ensures var m' := Step(n, m, a);
            Consumers(m') == Consumers(m) && Producers(m') <= m'.offers.Keys && Brought(m') == Brought(m)
  {
    WakingKeepsUnion(m.wokenProducers, m.sleepingProducers, a.t);
    assert Producers(Step(n, m, a)) == Producers(m);
  }

  lemma ResumedPushGoesIn<T>(n: nat, m: Monitor<T>, a: Action<T>)
    requires Producers(m) <= m.offers.Keys && m.sleepingProducers !! m.wokenProducers
    requires Enabled(n, m, a) && a.ResumePush? && !Full(n, m)
    ensures var m' := Step(n, m, a);
            Consumers(m') == Consumers(m) && Producers(m') <= m'.offers.Keys && Brought(m') == Brought(m)
  {
    var m1 := m.(wokenProducers := m.wokenProducers - {a.t});
    PutKeepsWaiting(m1, m.offers[a.t], a.wake);
    assert Producers(m1) == Producers(m) - {a.t};
    OfferedTakesOut(m.offers, Producers(m), a.t);
    PushedCounts(m.pushed, m.offers[a.t]);
  }

  lemma PopKeepsProducers<T>(n: nat, m: Monitor<T>, a: Action<T>)
    requires Enabled(n, m, a) && (a.StartPop? || a.ResumePop?)
    ensures var m' := Step(n, m, a); m'.pushed == m.pushed && m'.offers == m.offers && Producers(m') == Producers(m)
  {
    if m.items != [] {
      TakeKeepsWaiting(if a.StartPop? then m else m.(wokenConsumers := m.wokenConsumers - {a.t}), a.wake);
    }
  }

  lemma SpuriousKeepsWaiting<T>(n: nat, m: Monitor<T>, a: Action<T>)
    requires Enabled(n, m, a) && (a.SpuriousProducer? || a.SpuriousConsumer?)
    ensures var m' := Step(n, m, a);
            && m'.pushed == m.pushed && m'.popped == m.popped && m'.offers == m.offers
            && Producers(m') == Producers(m) && Consumers(m') == Consumers(m)
  {
    if a.SpuriousProducer? {
      WakingKeepsUnion(m.sleepingProducers, m.wokenProducers, a.t);
    } else {
      WakingKeepsUnion(m.sleepingConsumers, m.wokenConsumers, a.t);
    }
  }

  lemma StepBrings<T>(n: nat, m: Monitor<T>, a: Action<T>)
    requires Producers(m) <= m.offers.Keys && m.sleepingProducers !! m.wokenProducers && Enabled(n, m, a)
    ensures var m' := Step(n, m, a);
            && Producers(m') <= m'.offers.Keys
            && Brought(m') == Brought(m) + if a.StartPush? then multiset{a.x} else multiset{}
  {
    match a
    case StartPush(_, _, _) => if Full(n, m) { StartedPushWaits(n, m, a); } else { StartedPushGoesIn(n, m, a); }
    case ResumePush(_, _) => if Full(n, m) { ResumedPushWaits(n, m, a); } else { ResumedPushGoesIn(n, m, a); }
    case StartPop(_, _) => PopKeepsProducers(n, m, a);
    case ResumePop(_, _) => PopKeepsProducers(n, m, a);
    case SpuriousProducer(_) => SpuriousKeepsWaiting(n, m, a);
    case SpuriousConsumer(_) => SpuriousKeepsWaiting(n, m, a);
  }

  /** Over any run, what was brought before and by the calls that began went in or still waits. */
  lemma {:induction false} RunBrings<T>(n: nat, m: Monitor<T>, actions: seq<Action<T>>)
    requires Inv(n, m) && IsRun(n, m, actions)
    ensures var m' := Run(n, m, actions);
            Producers(m') <= m'.offers.Keys && Brought(m') == Brought(m) + Begun(actions)
    decreases |actions|
  {
    if actions != [] {
      var a := actions[0];
      StepKeepsInv(n, m, a);
      StepBrings(n, m, a);
      RunBrings(n, Step(n, m, a), actions[1..]);
    }
  }

  /** Every element given to `push` goes in once, or its producer still sleeps or has been woken. */
  lemma EveryPushCounts<T>(n: nat, actions: seq<Action<T>>)
    requires n >= 1 && IsRun(n, Initial(), actions)
    ensures var m := Run(n, Initial(), actions);
            && Producers(m) <= m.offers.Keys
            && Begun(actions) == multiset(m.pushed) + Offered(m.offers, Producers(m))
  {
    RunBrings(n, Initial(), actions);
    assert Brought(Initial<T>()) == multiset{};
  }

  /** The number of calls of `pop` that began in a run. */
  function PopsBegun<T>(actions: seq<Action<T>>): nat {
    if actions == [] then 0 else (if actions[0].StartPop? then 1 else 0) + PopsBegun(actions[1..])
  }

  ghost function PopsMet<T>(m: Monitor<T>): nat {
    |m.popped| + |Consumers(m)|
  }

  lemma StartedPopCounts<T>(n: nat, m: Monitor<T>, a: Action<T>)
    requires Enabled(n, m, a) && a.StartPop?
    ensures PopsMet(Step(n, m, a)) == PopsMet(m) + 1
  {
    if m.items == [] {
      assert Consumers(Step(n, m, a)) == Consumers(m) + {a.t} && a.t !in Consumers(m);
    } else {
      TakeKeepsWaiting(m, a.wake);
    }
  }

  lemma ResumedPopCounts<T>(n: nat, m: Monitor<T>, a: Action<T>)
    requires m.sleepingConsumers !! m.wokenConsumers && Enabled(n, m, a) && a.ResumePop?
    ensures PopsMet(Step(n, m, a)) == PopsMet(m)
  {
    var m1 := m.(wokenConsumers := m.wokenConsumers - {a.t});
    if m.items == [] {
      WakingKeepsUnion(m.wokenConsumers, m.sleepingConsumers, a.t);
      assert Consumers(Step(n, m, a)) == Consumers(m);
    } else {
      TakeKeepsWaiting(m1, a.wake);
      assert Consumers(m1) == Consumers(m) - {a.t};
    }
  }

  lemma StepServes<T>(n: nat, m: Monitor<T>, a: Action<T>)
    requires Producers(m) <= m.offers.Keys && m.sleepingProducers !! m.wokenProducers
    requires m.sleepingConsumers !! m.wokenConsumers && Enabled(n, m, a)
    ensures PopsMet(Step(n, m, a)) == PopsMet(m) + if a.StartPop? then 1 else 0
  {
    match a
    case StartPush(_, _, _) => if Full(n, m) { StartedPushWaits(n, m, a); } else { StartedPushGoesIn(n, m, a); }
    case ResumePush(_, _) => if Full(n, m) { ResumedPushWaits(n, m, a); } else { ResumedPushGoesIn(n, m, a); }
    case StartPop(_, _) => StartedPopCounts(n, m, a);
    case ResumePop(_, _) => ResumedPopCounts(n, m, a);
    case SpuriousProducer(_) => SpuriousKeepsWaiting(n, m, a);
    case SpuriousConsumer(_) => SpuriousKeepsWaiting(n, m, a);
  }

  lemma {:induction false} RunServes<T>(n: nat, m: Monitor<T>, actions: seq<Action<T>>)
    requires Inv(n, m) && IsRun(n, m, actions)
    ensures PopsMet(Run(n, m, actions)) == PopsMet(m) + PopsBegun(actions)
    decreases |actions|
  {
    if actions != [] {
      StepServes(n, m, actions[0]);
      StepKeepsInv(n, m, actions[0]);
      RunServes(n, Step(n, m, actions[0]), actions[1..]);
    }
  }

  /** Every call of `pop` gets one element, or its consumer still sleeps or has been woken. */
  lemma EveryPopCounts<T>(n: nat, actions: seq<Action<T>>)
    requires n >= 1 && IsRun(n, Initial(), actions)
    ensures var m := Run(n, Initial(), actions);
            PopsBegun(actions) == |m.popped| + |Consumers(m)|
  {
    RunServes(n, Initial(), actions);
  }

  /** Nothing but the lock keeps a thread from its next step: one that is outside may begin either call,
      and one that was woken may go on, whatever the state of the queue. */
  lemma ThreadsCanMove<T>(n: nat, actions: seq<Action<T>>, t: Tid, x: T)
    requires n >= 1 && IsRun(n, Initial(), actions)
    ensures var m := Run(n, Initial(), actions);
            && (Outside(m, t) ==> (exists wake :: Enabled(n, m, StartPush(t, x, wake)))
                                  && exists wake :: Enabled(n, m, StartPop(t, wake)))
            && (t in m.wokenProducers ==> exists wake :: Enabled(n, m, ResumePush(t, wake)))
            && (t in m.wokenConsumers ==> exists wake :: Enabled(n, m, ResumePop(t, wake)))
  {
    var m := Run(n, Initial(), actions);
    RunKeepsInv(n, Initial(), actions);
    var forPush := SomeWake(!Full(n, m), m.sleepingConsumers);
    var forPop := SomeWake(m.items != [], m.sleepingProducers);
    assert Outside(m, t) ==> Enabled(n, m, StartPush(t, x, forPush)) && Enabled(n, m, StartPop(t, forPop));
    assert t in m.wokenProducers ==> Enabled(n, m, ResumePush(t, forPush));
    assert t in m.wokenConsumers ==> Enabled(n, m, ResumePop(t, forPop));
  }

  lemma SomeWake(notifies: bool, sleepers: set<Tid>) returns (wake: Wake)
    ensures Wakes(notifies, sleepers, wake)
  {
    if notifies && sleepers != {} {
      var t :| t in sleepers;
      wake := Thread(t);
    } else {
      wake := Nobody;
    }
  }

  // ---------------------------------------------------------------- stalling

  /** With at least one usable slot the queue never stalls. While nobody is woken, consumers sleep only
      on an empty queue and producers only on a full one, so never both. */
  lemma NeverStalls<T>(n: nat, actions: seq<Action<T>>)
    requires n >= 1 && IsRun(n, Initial(), actions)
    ensures var m := Run(n, Initial(), actions);
            && NoLostWakeup(n, m)
            && m.wokenProducers <= m.offers.Keys
            && (m.sleepingConsumers != {} && m.wokenConsumers == {} ==> m.items == [])
            && (m.sleepingProducers != {} && m.wokenProducers == {} ==> Full(n, m))
            && (n >= 2 && m.sleepingConsumers != {} && m.sleepingProducers != {}
                ==> m.wokenConsumers != {} || m.wokenProducers != {})
  {
    RunKeepsInv(n, Initial(), actions);
  }

  /** With N == 1 the one slot is the one that stays unused: nothing ever goes in. */
  lemma {:induction false} OneSlotHoldsNothing<T>(m: Monitor<T>, actions: seq<Action<T>>)
    requires m.items == [] && m.pushed == [] && IsRun(1, m, actions)
    ensures Run(1, m, actions).pushed == [] && Run(1, m, actions).items == []
    decreases |actions|
  {
    if actions != [] {
      OneSlotHoldsNothing(Step(1, m, actions[0]), actions[1..]);
    }
  }

  /** A producer and a consumer both asleep, and nobody woken to serve either. */
  predicate Stalled<T>(m: Monitor<T>) {
    m.sleepingConsumers != {} && m.sleepingProducers != {} && m.wokenConsumers == {} && m.wokenProducers == {}
  }

  predicate RunStalls<T>(n: nat, actions: seq<Action<T>>) {
    IsRun(n, Initial(), actions) && Stalled(Run(n, Initial(), actions))
  }

  /** Some run stalls exactly when N == 1. */
  lemma StallsOnlyWithOneSlot<T>(n: nat, x: T)
    requires n >= 1
    ensures (exists actions: seq<Action<T>> :: RunStalls(n, actions)) <==> n == 1
  {
    if n == 1 {
      var actions: seq<Action<T>> := [StartPush(0, x, Nobody), StartPop(1, Nobody)];
      var m1 := Step(1, Initial<T>(), actions[0]);
      var rest := actions[1..];
      assert rest == [StartPop(1, Nobody)] && rest[1..] == [];
      assert Enabled(1, m1, rest[0]) && IsRun(1, Step(1, m1, rest[0]), rest[1..]);
      var m2 := Step(1, m1, rest[0]);
      assert Run(1, m2, rest[1..]) == m2;
      assert Run(1, m1, rest) == Run(1, m2, rest[1..]);
      assert 1 in m2.sleepingConsumers && 0 in m2.sleepingProducers;
      assert Run(1, Initial<T>(), actions) == m2;
      assert RunStalls(n, actions);
    } else {
      forall actions: seq<Action<T>> | IsRun(n, Initial(), actions)
        ensures !RunStalls(n, actions)
      {
        NeverStalls(n, actions);
      }
    }
  }
}
