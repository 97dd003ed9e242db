/** The fields of buffer_cache/buffer_cache.c and the critical sections that change them.  Each
    method is a step of the state machine in Ring, on the state `s` that the fields stand for. */
module RingCache {
  import opened ModArith
  import opened Ring
  import opened RingProof

  class BufferCache {
    const dkbuf: array<Data>
    const num: nat
    var bufFree: nat
    var bufReady: nat
    var front: nat
    var rear: nat
    var top: int
    var topUsed: int

    /** Fields, threads and history together. */
    ghost var s: State

    ghost predicate Valid()
      reads this, dkbuf
    {
      s.c == Counters(num, bufFree, bufReady, front, rear, top, topUsed) && s.slots == dkbuf[..] && Inv(s)
    }

    /** new_buffer_cache: `n` buffers, all of them free; the top cursor is not set. */
    constructor (n: nat, top0: int, topUsed0: int)
      requires n > 0
      ensures Valid() && Initial(s) && s.c.num == n && fresh(dkbuf)
    {
      num, bufFree, bufReady, front, rear := n, n, 0, 0, 0;
      top, topUsed := top0, topUsed0;
      dkbuf := new Data[n];
      new;
      s := State(Counters(n, n, 0, 0, 0, top0, topUsed0), dkbuf[..], [], [], Cond({}, {}), Cond({}, {}), [], [], 0,
                 false, false, []);
      InitInv(s);
    }

    /** bc_producer_try_request: a slot that is in nobody's hands and not ready, or -1 for NULL
        when none is free. */
    method ProducerTryRequest() returns (slot: int)
      requires Valid()
      modifies this
      ensures Valid() && s == Step(old(s), ProducerTry)
      ensures slot == -1 <==> old(s.c.free) == 0
      ensures slot != -1 ==> Spare(old(s), slot) && s.heldP == old(s.heldP) + [slot]
    {
      hide Inv, HandFree;
      slot := TakeSlot(ProducerTry);
    }

    /** One evaluation of the loop condition of bc_producer_request under the mutex, on entry or
        after a wait: the thread gets a slot, or -1 if it has to wait. */
    method ProducerAttempt(ghost t: Tid, ghost resumed: bool) returns (slot: int)
      requires Valid() && Enabled(s, if resumed then ProducerResume(t) else ProducerRequest(t))
      modifies this
      ensures Valid() && s == Step(old(s), if resumed then ProducerResume(t) else ProducerRequest(t))
      ensures slot == -1 <==> t in s.available.waiting
      ensures slot != -1 ==> Spare(old(s), slot) && s.heldP == old(s.heldP) + [slot]
    {
      hide Inv;
      Waiters(s);
      slot := TakeSlot(if resumed then ProducerResume(t) else ProducerRequest(t));
    }

    /** The part that the producer requests have in common. */
    method TakeSlot(ghost e: Event) returns (slot: int)
      requires Valid() && (e.ProducerTry? || e.ProducerRequest? || e.ProducerResume?) && Enabled(s, e)
      modifies this
      ensures Valid() && s == Step(old(s), e)
      ensures slot == -1 <==> old(s.c.free) == 0
      ensures slot != -1 ==> Spare(old(s), slot) && s.heldP == old(s.heldP) + [slot]
    {
      hide Inv;
      InvSized(s);
      StepKeeps(s, e);
      if bufFree == 0 {
        slot := -1;
      } else {
        FrontSpare(s);
        bufFree := bufFree - 1;
        slot := front;
        front := (front + 1) % num;
      }
      s := Step(s, e);
    }

    /** A producer writes to a buffer it holds. */
    method Fill(slot: nat, v: Data)
      requires Valid() && slot in s.heldP
      modifies this`s, dkbuf
      ensures Valid() && slot < |old(s).slots| && s == Step(old(s), Ring.Fill(slot, v))
    {
      hide Inv;
      HeldInside(s, slot);
      StepKeeps(s, Ring.Fill(slot, v));
      dkbuf[slot] := v;
      s := Step(s, Ring.Fill(slot, v));
    }

    /** bc_producer_ready: what the buffer longest held by a producer contains goes to the end of
        what consumers will get.  The signal wakes the threads `woken`. */
    method ProducerReady(ghost woken: set<Tid>)
      requires Valid() && s.heldP != [] && Signalled(s.full, woken)
      modifies this
      ensures Valid() && Enabled(old(s), Ring.ProducerReady(woken)) && s == Step(old(s), Ring.ProducerReady(woken))
      ensures s.produced == old(s.produced) + [dkbuf[old(s.heldP)[0]]] && s.heldP == old(s.heldP)[1..]
    {
      hide Inv;
      HeldInside(s, s.heldP[0]);
      StepKeeps(s, Ring.ProducerReady(woken));
      bufReady := bufReady + 1;
      s := Step(s, Ring.ProducerReady(woken));
    }

    /** bc_consumer_try_request: the slot with the oldest contents not yet consumed, or -1 for NULL
        when none is ready. */
    method ConsumerTryRequest() returns (slot: int)
      requires Valid()
      modifies this
      ensures Valid() && s == Step(old(s), ConsumerTry)
      ensures slot == -1 <==> old(s.c.ready) == 0
      ensures slot != -1 ==> Oldest(old(s), slot) && s.heldC == old(s.heldC) + [slot]
    {
      hide Inv, HandReady;
      slot := TakeReadySlot(ConsumerTry);
    }

    /** One evaluation of the loop condition of bc_consumer_request under the mutex. */
    method ConsumerAttempt(ghost t: Tid, ghost resumed: bool) returns (slot: int)
      requires Valid() && Enabled(s, if resumed then ConsumerResume(t) else ConsumerRequest(t))
      modifies this
      ensures Valid() && s == Step(old(s), if resumed then ConsumerResume(t) else ConsumerRequest(t))
      ensures slot == -1 <==> t in s.full.waiting
      ensures slot != -1 ==> Oldest(old(s), slot) && s.heldC == old(s.heldC) + [slot]
    {
      hide Inv;
      Waiters(s);
      slot := TakeReadySlot(if resumed then ConsumerResume(t) else ConsumerRequest(t));
    }

    method TakeReadySlot(ghost e: Event) returns (slot: int)
      requires Valid() && TakesBuffer(e) && Enabled(s, e)
      modifies this
      ensures Valid() && s == Step(old(s), e)
      ensures slot == -1 <==> old(s.c.ready) == 0
      ensures slot != -1 ==> Oldest(old(s), slot) && s.heldC == old(s.heldC) + [slot]
    {
      hide Inv;
      InvSized(s);
      StepKeeps(s, e);
      if bufReady != 0 {
        RearOldest(s);
        slot := rear;
        rear := (rear + 1) % num;
        bufReady := bufReady - 1;
      } else {
        slot := -1;
      }
      s := Step(s, e);
    }

    /** bc_consumer_release: the buffer longest held by a consumer is free again and in nobody's
        hands.  The signal wakes the threads `woken`. */
    method ConsumerRelease(ghost woken: set<Tid>)
      requires Valid() && s.heldC != [] && Signalled(s.available, woken)
      modifies this
      ensures Valid() && s == Step(old(s), Ring.ConsumerRelease(woken))
      ensures s.heldC == old(s.heldC)[1..] && old(s.heldC)[0] !in s.heldC && old(s.heldC)[0] !in s.heldP
    {
      hide Inv;
      InvSized(s);
      OldestHeld(s);
      StepKeeps(s, Ring.ConsumerRelease(woken));
      bufFree := bufFree + 1;
      s := Step(s, Ring.ConsumerRelease(woken));
    }

    /** bc_top_try_request, after a reset.  As long as no consumer has taken a buffer since: the
        slot with the next ready contents, in nobody's hands, or -1 for NULL when all ready ones
        have been handed out. */
    method TopTryRequest() returns (slot: int)
      requires Valid() && s.topSet
      modifies this
      ensures Valid() && s == Step(old(s), TopTry)
      ensures s.peeking ==> PeekedInOrder(old(s)) && (slot == -1 <==> |old(s.peeked)| == s.c.ready)
      ensures s.peeking && slot != -1 ==> 0 <= slot < dkbuf.Length && slot !in s.heldP && slot !in s.heldC
      ensures s.peeking && slot != -1 ==> s.peeked == old(s.peeked) + [dkbuf[slot]]
    {
      hide Inv, PeekedInOrder, Roles, Contents, NoLostWakeup, Peeks;
      InvSized(s);
      StepKeeps(s, TopTry);
      if s.peeking {
        PeekedOk(s);
        PeekedLength(s);
      }
      if topUsed < bufReady {
        if s.peeking {
          TopIsReady(s);
        }
        slot := top;
        top := (top + 1) % num;
        topUsed := topUsed + 1;
      } else {
        slot := -1;
      }
      s := Step(s, TopTry);
    }

    /** bc_top_reset: the next top requests start with the oldest ready buffer. */
    method TopReset()
      requires Valid()
      modifies this
      ensures Valid() && s == Step(old(s), Ring.TopReset) && s.topSet && s.peeking && s.peeked == []
      ensures s.c.ready > 0 ==> 0 <= top < dkbuf.Length && Oldest(s, top)
    {
      hide Inv;
      InvSized(s);
      StepKeeps(s, Ring.TopReset);
      top := rear;
      topUsed := 0;
      s := Step(s, Ring.TopReset);
      if s.c.ready > 0 {
        RearOldest(s);
      }
    }

    /** bc_flush, while no consumer holds a buffer and nobody interferes: consumers are taken to
        have received everything that was ready, and those buffers are free. */
    method Flush()
      requires Valid() && s.heldC == []
      modifies this
      ensures Valid() && s.c.ready == 0 && s.heldC == [] && s.c.free == old(s.c.free) + old(s.c.ready)
      ensures s.produced == old(s.produced) && s.consumed == s.produced && s.heldP == old(s.heldP)
      ensures s.slots == old(s.slots)
    {
      hide Inv, Step, Oldest;
      Counted(s);
      TryFrame(s);
      var slot := ConsumerTryRequest();
      while slot != -1
        invariant Valid() && s.heldC == (if slot == -1 then [] else [slot])
        invariant slot == -1 ==> s.c.ready == 0
        invariant s.produced == old(s.produced) && s.heldP == old(s.heldP)
        invariant s.slots == old(s.slots) && s.c.num == old(s.c.num)
        decreases s.c.ready, slot != -1
      {
        assert Signalled(s.available, s.available.waiting);
        ghost var woken :| Signalled(s.available, woken);
        Counted(s);
        ReleaseFrame(s, woken);
        ConsumerRelease(woken);
        Counted(s);
        TryFrame(s);
        slot := ConsumerTryRequest();
      }
      Counted(s);
    }
  }

  lemma TryFrame(s: State)
    requires Sized(s)
    ensures var s' := Step(s, ConsumerTry);
            && s'.produced == s.produced && s'.heldP == s.heldP && s'.slots == s.slots && s'.c.num == s.c.num
            && (if s.c.ready == 0 then s' == s else s'.c.ready == s.c.ready - 1)
  {
  }

  lemma ReleaseFrame(s: State, woken: set<Tid>)
    requires Sized(s) && Enabled(s, ConsumerRelease(woken))
    ensures var s' := Step(s, ConsumerRelease(woken));
            && s'.produced == s.produced && s'.heldP == s.heldP && s'.slots == s.slots && s'.c.num == s.c.num
            && s'.c.ready == s.c.ready
  {
  }

  // ---------- what the invariant says about the slot at a cursor ----------

  /** In nobody's hands, and not ready. */
  ghost predicate Spare(s: State, slot: int) {
    && 0 <= slot < |s.slots| && slot !in s.heldP && slot !in s.heldC && s.c.num > 0
    && forall k :: |s.consumed| <= k < |s.produced| ==> k % s.c.num != slot
  }

  /** In nobody's hands, with the oldest contents not yet consumed. */
  ghost predicate Oldest(s: State, slot: int) {
    && 0 <= slot < |s.slots| && slot !in s.heldP && slot !in s.heldC
    && |s.consumed| < |s.produced| && s.slots[slot] == s.produced[|s.consumed|]
  }

  lemma InvSized(s: State)
    requires Inv(s)
    ensures Sized(s)
  {
  }

  /** The counts that conserve the number of buffers. */
  lemma Counted(s: State)
    requires Inv(s)
    ensures Sized(s) && s.c.free + |s.heldP| + s.c.ready + |s.heldC| == s.c.num
    ensures |s.produced| == |s.consumed| + s.c.ready && s.consumed <= s.produced
    ensures s.c.ready == 0 ==> s.consumed == s.produced
  {
  }

  lemma Waiters(s: State)
    requires Inv(s)
    ensures s.available.waiting !! s.available.awake && s.full.waiting !! s.full.awake
  {
  }

  lemma PeekedLength(s: State)
    requires PeekedInOrder(s)
    ensures |s.peeked| == s.c.topUsed
  {
  }

  lemma HeldInside(s: State, slot: nat)
    requires Inv(s) && slot in s.heldP
    ensures Sized(s) && slot < |s.slots|
  {
  }

  lemma FrontSpare(s: State)
    requires Inv(s) && s.c.free > 0
    ensures Spare(s, s.c.front)
  {
    hide Arc;
    var at, n := |s.produced| + |s.heldP|, s.c.num;
    forall k | s.released <= k < at ensures k % n != s.c.front {
      OneTurn(k, at, n);
    }
  }

  lemma RearOldest(s: State)
    requires Inv(s) && s.c.ready > 0
    ensures Oldest(s, s.c.rear)
  {
    hide Arc;
    var at := |s.consumed|;
    assert s.slots[at % s.c.num] == s.produced[at];
    forall i | 0 <= i < |s.heldC| ensures s.heldC[i] != s.c.rear {
      OneTurn(s.released + i, at, s.c.num);
    }
    forall slot | slot in s.heldP ensures slot != s.c.rear {
      HeldApart(s, slot, at);
    }
  }

  lemma OldestHeld(s: State)
    requires Inv(s) && s.heldC != []
    ensures s.heldC[0] !in s.heldC[1..] && s.heldC[0] !in s.heldP
  {
    hide Arc;
    HeldSafe(s);
    forall i | 1 <= i < |s.heldC| ensures s.heldC[i] != s.heldC[0] {
      OneTurn(s.released, s.released + i, s.c.num);
    }
  }

  // ---------- runs of the code ----------

  /** Every step of `es` is possible when its turn comes. */
  ghost predicate Possible(s: State, es: seq<Event>)
    decreases |es|
  {
    es != [] ==> Sized(s) && Enabled(s, es[0]) && Possible(Step(s, es[0]), es[1..])
  }

  /** Any interleaving of calls, wake-ups and writes to held buffers is a run of the state machine,
      so what RingProof says of reachable states holds of the code. */
  method Drive(cache: BufferCache, es: seq<Event>)
    requires cache.Valid() && Possible(cache.s, es)
    modifies cache, cache.dkbuf
    ensures cache.Valid() && Reaches(old(cache.s), es, cache.s)
    decreases |es|
  {
    hide Inv, Roles, Contents, Peeks, NoLostWakeup;
    if es != [] {
      InvSized(cache.s);
      DriveOne(cache, es[0]);
      Drive(cache, es[1..]);
    }
  }

  method DriveOne(cache: BufferCache, e: Event)
    requires cache.Valid() && Sized(cache.s) && Enabled(cache.s, e)
    modifies cache, cache.dkbuf
    ensures cache.Valid() && cache.s == Step(old(cache.s), e)
  {
    hide Inv, Spare, Oldest, PeekedInOrder, Step;
    match e
    case ProducerRequest(t) => var slot := cache.ProducerAttempt(t, false);
    case ProducerResume(t) => var slot := cache.ProducerAttempt(t, true);
    case ProducerSpurious(t) => WakeUp(cache, e);
    case ProducerTry => var slot := cache.ProducerTryRequest();
    case Fill(slot, v) => cache.Fill(slot, v);
    case ProducerReady(woken) => cache.ProducerReady(woken);
    case ConsumerRequest(t) => var slot := cache.ConsumerAttempt(t, false);
    case ConsumerResume(t) => var slot := cache.ConsumerAttempt(t, true);
    case ConsumerSpurious(t) => WakeUp(cache, e);
    case ConsumerTry => var slot := cache.ConsumerTryRequest();
    case ConsumerRelease(woken) => cache.ConsumerRelease(woken);
    case TopReset => cache.TopReset();
    case TopTry => var slot := cache.TopTryRequest();
  }

  /** A wait that ends for no reason changes no field. */
  method WakeUp(cache: BufferCache, ghost e: Event)
    requires cache.Valid() && Sized(cache.s) && Enabled(cache.s, e) && (e.ProducerSpurious? || e.ConsumerSpurious?)
    modifies cache`s
    ensures cache.Valid() && cache.s == Step(old(cache.s), e)
  {
    hide Inv;
    StepKeeps(cache.s, e);
    cache.s := Step(cache.s, e);
  }
}
