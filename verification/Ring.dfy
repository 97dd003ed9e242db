/** The producer/consumer buffer ring of buffer_cache/buffer_cache.c as a state machine: each
    critical section is one step, any number of threads interleave, and a condition variable
    is a set of waiting threads and a set of threads already awakened. */
module Ring {
  // ---------- the counters behind the mutex ----------

  datatype Counters = Counters(num: nat, free: nat, ready: nat, front: nat, rear: nat, top: int, topUsed: int)

  /** What every critical section keeps: there is a buffer, and cursors stay inside the ring.
      The top cursor has no value before the first reset. */
  predicate Cursors(c: Counters) {
    c.num > 0 && c.front < c.num && c.rear < c.num
  }

  predicate TopCursor(c: Counters) { 0 <= c.top < c.num && 0 <= c.topUsed }

  function TakeFree(c: Counters): Counters
    requires Cursors(c) && c.free > 0
  {
    c.(free := c.free - 1, front := (c.front + 1) % c.num)
  }

  function TakeReady(c: Counters): Counters
    requires Cursors(c) && c.ready > 0
  {
    c.(ready := c.ready - 1, rear := (c.rear + 1) % c.num)
  }

  function TakeTop(c: Counters): Counters
    requires Cursors(c) && TopCursor(c) && c.topUsed < c.ready
  {
    c.(top := (c.top + 1) % c.num, topUsed := c.topUsed + 1)
  }

  // ---------- threads, buffers and history ----------

  type Tid = int
  type Data = int

  /** Threads blocked on a condition variable, and threads it has let go that have not yet
      taken the mutex again. */
  datatype Cond = Cond(waiting: set<Tid>, awake: set<Tid>)

  datatype State = State(
    c: Counters,
    slots: seq<Data>,
    heldP: seq<nat>,       // slots handed to producers and not yet marked ready, oldest first
    heldC: seq<nat>,       // slots handed to consumers and not yet released, oldest first
    available: Cond,       // available_condi
    full: Cond,            // ready_condi
    produced: seq<Data>,   // contents marked ready, in order
    consumed: seq<Data>,   // contents handed to consumers, in order
    released: nat,         // buffers released so far
    topSet: bool,          // the top cursor has been reset at least once
    peeking: bool,         // no consumer has taken a buffer since the last top reset
    peeked: seq<Data>)     // contents handed out by top requests since then

  datatype Event =
    | ProducerRequest(t: Tid) | ProducerResume(t: Tid) | ProducerSpurious(t: Tid) | ProducerTry
    | Fill(slot: nat, v: Data)
    | ProducerReady(woken: set<Tid>)
    | ConsumerRequest(t: Tid) | ConsumerResume(t: Tid) | ConsumerSpurious(t: Tid) | ConsumerTry
    | ConsumerRelease(woken: set<Tid>)
    | TopReset | TopTry

  /** A thread that is not blocked, nor about to return from a wait. */
  predicate Running(s: State, t: Tid) {
    t !in s.available.waiting + s.available.awake + s.full.waiting + s.full.awake
  }

  /** pthread_cond_signal wakes at least one waiting thread, if there is one. */
  predicate Signalled(q: Cond, woken: set<Tid>) {
    woken <= q.waiting && (q.waiting != {} ==> woken != {})
  }

  predicate Enabled(s: State, e: Event) {
    match e
    case ProducerRequest(t) => Running(s, t)
    case ProducerResume(t) => t in s.available.awake
    case ProducerSpurious(t) => t in s.available.waiting
    case ProducerTry => true
    case Fill(slot, v) => slot in s.heldP && slot < |s.slots|
    case ProducerReady(woken) => s.heldP != [] && s.heldP[0] < |s.slots| && Signalled(s.full, woken)
    case ConsumerRequest(t) => Running(s, t)
    case ConsumerResume(t) => t in s.full.awake
    case ConsumerSpurious(t) => t in s.full.waiting
    case ConsumerTry => true
    case ConsumerRelease(woken) => s.heldC != [] && Signalled(s.available, woken)
    case TopReset => true
    case TopTry => s.topSet
  }

  function Leave(q: Cond, t: Tid): Cond { q.(awake := q.awake - {t}) }

  function Block(q: Cond, t: Tid): Cond { Cond(q.waiting + {t}, q.awake - {t}) }

  function Wake(q: Cond, woken: set<Tid>): Cond { Cond(q.waiting - woken, q.awake + woken) }

  predicate Sized(s: State) {
    Cursors(s.c) && |s.slots| == s.c.num && (s.topSet ==> TopCursor(s.c))
  }

  /** A producer takes the slot at the front cursor. */
  function HandFree(s: State): State
    requires Sized(s) && s.c.free > 0
  {
    s.(c := TakeFree(s.c), heldP := s.heldP + [s.c.front])
  }

  /** A consumer takes the slot at the rear cursor. */
  function HandReady(s: State): State
    requires Sized(s) && s.c.ready > 0
  {
    s.(c := TakeReady(s.c), heldC := s.heldC + [s.c.rear],
       consumed := s.consumed + [s.slots[s.c.rear]], peeking := false)
  }

  function Step(s: State, e: Event): State
    requires Sized(s) && Enabled(s, e)
  {
    match e
    case ProducerRequest(t) =>
      if s.c.free == 0 then s.(available := Block(s.available, t)) else HandFree(s)
    case ProducerResume(t) =>
      if s.c.free == 0 then s.(available := Block(s.available, t))
      else HandFree(s).(available := Leave(s.available, t))
    case ProducerSpurious(t) => s.(available := Wake(s.available, {t}))
    case ProducerTry => if s.c.free == 0 then s else HandFree(s)
    case Fill(slot, v) => s.(slots := s.slots[slot := v])
    case ProducerReady(woken) =>
      s.(c := s.c.(ready := s.c.ready + 1), full := Wake(s.full, woken),
         heldP := s.heldP[1..], produced := s.produced + [s.slots[s.heldP[0]]])
    case ConsumerRequest(t) =>
      if s.c.ready == 0 then s.(full := Block(s.full, t)) else HandReady(s)
    case ConsumerResume(t) =>
      if s.c.ready == 0 then s.(full := Block(s.full, t))
      else HandReady(s).(full := Leave(s.full, t))
    case ConsumerSpurious(t) => s.(full := Wake(s.full, {t}))
    case ConsumerTry => if s.c.ready == 0 then s else HandReady(s)
    case ConsumerRelease(woken) =>
      s.(c := s.c.(free := s.c.free + 1), available := Wake(s.available, woken),
         heldC := s.heldC[1..], released := s.released + 1)
    case TopReset => s.(c := s.c.(top := s.c.rear, topUsed := 0), topSet := true, peeking := true, peeked := [])
    case TopTry =>
      if s.c.topUsed < s.c.ready then s.(c := TakeTop(s.c), peeked := s.peeked + [s.slots[s.c.top]]) else s
  }

  // ---------- the invariant ----------

  /** `n` consecutive slots of the ring, starting with the one that count `k` falls on. */
  function Arc(k: nat, n: nat, num: nat): (a: seq<nat>)
    requires num > 0
    ensures |a| == n && forall i :: 0 <= i < n ==> a[i] == (k + i) % num
  {
    seq(n, i => (k + i) % num)
  }

  /** Every buffer has exactly one role, and the roles are consecutive arcs of the ring, in
      the order: held by consumers, ready, held by producers, free. */
  predicate Roles(s: State) {
    && Sized(s)
    && |s.consumed| == s.released + |s.heldC| && |s.produced| == |s.consumed| + s.c.ready
    && s.c.free + |s.heldP| + s.c.ready + |s.heldC| == s.c.num
    && s.heldC == Arc(s.released, |s.heldC|, s.c.num)
    && s.c.rear == |s.consumed| % s.c.num
    && s.heldP == Arc(|s.produced|, |s.heldP|, s.c.num)
    && s.c.front == (|s.produced| + |s.heldP|) % s.c.num
  }

  /** What consumers got is what producers marked ready, in order, and buffers keep their
      contents until they are released. */
  predicate Contents(s: State)
    requires Sized(s)
  {
    && s.consumed <= s.produced
    && forall k :: s.released <= k < |s.produced| ==> s.slots[k % s.c.num] == s.produced[k]
  }

  /** While some thread waits, enough threads are on their way to take what is available. */
  predicate NoLostWakeup(q: Cond, count: nat) {
    q.waiting !! q.awake && (q.waiting != {} ==> count <= |q.awake|)
  }

  predicate Peeks(s: State)
    requires Sized(s)
  {
    s.peeking ==>
      && s.topSet && s.c.topUsed <= s.c.ready && s.c.top == (|s.consumed| + s.c.topUsed) % s.c.num
      && |s.consumed| + s.c.topUsed <= |s.produced|
      && s.peeked == s.produced[|s.consumed|..|s.consumed| + s.c.topUsed]
  }

  predicate Inv(s: State) {
    && Roles(s) && Contents(s) && Peeks(s)
    && NoLostWakeup(s.available, s.c.free) && NoLostWakeup(s.full, s.c.ready)
  }
}
