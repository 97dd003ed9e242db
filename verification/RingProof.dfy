/** Every run of the buffer ring keeps its invariant. */
module RingProof {
  import opened ModArith
  import opened Ring

  // ---------- what each step does to roles, contents and the top cursor ----------

  lemma ArcSnoc(k: nat, n: nat, num: nat)
    requires num > 0
    ensures Arc(k, n + 1, num) == Arc(k, n, num) + [(k + n) % num]
  {
  }

  lemma ArcTail(k: nat, n: nat, num: nat)
    requires num > 0 && n > 0
    ensures Arc(k, n, num)[0] == k % num && Arc(k, n, num)[1..] == Arc(k + 1, n - 1, num)
  {
  }

  lemma HandFreeKeeps(s: State)
    requires Roles(s) && Contents(s) && Peeks(s) && s.c.free > 0
    ensures var s' := HandFree(s); Roles(s') && Contents(s') && Peeks(s')
  {
    hide Arc;
    ArcSnoc(|s.produced|, |s.heldP|, s.c.num);
    ModNext(|s.produced| + |s.heldP|, s.c.num);
  }

  lemma HandReadyKeeps(s: State)
    requires Roles(s) && Contents(s) && s.c.ready > 0
    ensures var s' := HandReady(s); Roles(s') && Contents(s') && Peeks(s')
  {
    hide Arc;
    ArcSnoc(s.released, |s.heldC|, s.c.num);
    ModNext(|s.consumed|, s.c.num);
    var k := |s.consumed|;
    assert s.slots[k % s.c.num] == s.produced[k];
  }

  lemma ReadyKeeps(s: State, woken: set<Tid>)
    requires Roles(s) && Contents(s) && Peeks(s) && Enabled(s, ProducerReady(woken))
    ensures var s' := Step(s, ProducerReady(woken)); Roles(s') && Contents(s') && Peeks(s')
  {
    hide Arc;
    ArcTail(|s.produced|, |s.heldP|, s.c.num);
    var s', i := Step(s, ProducerReady(woken)), |s.consumed|;
    if s.peeking {
      assert s'.produced[i..i + s.c.topUsed] == s.produced[i..i + s.c.topUsed];
    }
  }

  lemma ReleaseKeeps(s: State, woken: set<Tid>)
    requires Roles(s) && Contents(s) && Peeks(s) && Enabled(s, ConsumerRelease(woken))
    ensures var s' := Step(s, ConsumerRelease(woken)); Roles(s') && Contents(s') && Peeks(s')
  {
    hide Arc;
    ArcTail(s.released, |s.heldC|, s.c.num);
  }

  /** A producer's slot is none of those whose contents are still wanted. */
  lemma HeldApart(s: State, slot: nat, k: nat)
    requires Roles(s) && slot in s.heldP && s.released <= k < |s.produced|
    ensures k % s.c.num != slot
  {
    var i :| 0 <= i < |s.heldP| && s.heldP[i] == slot;
    OneTurn(k, |s.produced| + i, s.c.num);
  }

  lemma FillKeeps(s: State, slot: nat, v: Data)
    requires Roles(s) && Contents(s) && Peeks(s) && Enabled(s, Fill(slot, v))
    ensures var s' := Step(s, Fill(slot, v)); Roles(s') && Contents(s') && Peeks(s')
  {
    hide Arc;
    forall k | s.released <= k < |s.produced|
      ensures k % s.c.num != slot
    {
      HeldApart(s, slot, k);
    }
  }

  /** The contents of the slot the top cursor stands on, and the cursor's next place. */
  lemma TopNext(s: State)
    requires Roles(s) && Contents(s) && Peeks(s) && s.peeking && s.c.topUsed < s.c.ready
    ensures var k := |s.consumed| + s.c.topUsed;
            && k < |s.produced| && s.slots[s.c.top] == s.produced[k]
            && (s.c.top + 1) % s.c.num == (k + 1) % s.c.num
            && s.produced[|s.consumed|..k + 1] == s.peeked + [s.produced[k]]
  {
    hide Arc;
    var k := |s.consumed| + s.c.topUsed;
    assert s.slots[k % s.c.num] == s.produced[k] && s.c.top == k % s.c.num;
    ModNext(k, s.c.num);
    SliceSnoc(s.produced, |s.consumed|, k);
  }

  lemma SliceSnoc(q: seq<Data>, i: nat, k: nat)
    requires i <= k < |q|
    ensures q[i..k + 1] == q[i..k] + [q[k]]
  {
  }

  lemma TopKeeps(s: State, e: Event)
    requires Roles(s) && Contents(s) && Peeks(s) && (e.TopReset? || e.TopTry?) && Enabled(s, e)
    ensures var s' := Step(s, e); Roles(s') && Contents(s') && Peeks(s')
  {
    hide Arc;
    if e.TopTry? && s.c.topUsed < s.c.ready {
      if s.peeking {
        TopNext(s);
      }
      var s' := Step(s, e);
      assert |s.slots| == s.c.num;
      assert Roles(s') && Contents(s');
    }
  }

  // ---------- what each step does to the waiting threads ----------

  lemma BlockKeeps(q: Cond, t: Tid)
    requires q.waiting !! q.awake
    ensures NoLostWakeup(Block(q, t), 0)
  {
  }

  lemma LeaveKeeps(q: Cond, t: Tid, count: nat)
    requires NoLostWakeup(q, count) && t in q.awake && count > 0
    ensures NoLostWakeup(Leave(q, t), count - 1)
  {
    assert |q.awake - {t}| == |q.awake| - 1;
  }

  lemma WakeKeeps(q: Cond, woken: set<Tid>, count: nat)
    requires NoLostWakeup(q, count) && woken <= q.waiting
    ensures NoLostWakeup(Wake(q, woken), count)
    ensures woken != {} || q.waiting == {} ==> NoLostWakeup(Wake(q, woken), count + 1)
  {
    assert |q.awake + woken| == |q.awake| + |woken|;
    assert woken != {} ==> |woken| > 0;
  }

  /** Who waits does not matter to who holds what. */
  lemma SameRoom(s: State, a: Cond, f: Cond)
    requires Sized(s)
    ensures var s' := s.(available := a, full := f);
            (Roles(s') <==> Roles(s)) && (Contents(s') <==> Contents(s)) && (Peeks(s') <==> Peeks(s))
  {
  }

  lemma RolesSized(s: State)
    requires Roles(s)
    ensures Sized(s)
  {
  }

  lemma RoomKeeps(s: State, e: Event)
    requires Inv(s) && Enabled(s, e)
    ensures var s' := Step(s, e); Roles(s') && Contents(s') && Peeks(s')
  {
    hide Roles, Contents, Peeks, NoLostWakeup, HandFree, HandReady;
    RolesSized(s);
    var s' := Step(s, e);
    SameRoom(s, s'.available, s'.full);
    match e
    case ProducerRequest(t) => if s.c.free > 0 { HandFreeKeeps(s); }
    case ProducerResume(t) =>
      if s.c.free > 0 {
        HandFreeKeeps(s);
        RolesSized(HandFree(s));
        SameRoom(HandFree(s), s'.available, s'.full);
      }
    case ProducerSpurious(t) =>
    case ProducerTry => if s.c.free > 0 { HandFreeKeeps(s); }
    case Fill(slot, v) => FillKeeps(s, slot, v);
    case ProducerReady(woken) => ReadyKeeps(s, woken);
    case ConsumerRequest(t) => if s.c.ready > 0 { HandReadyKeeps(s); }
    case ConsumerResume(t) =>
      if s.c.ready > 0 {
        HandReadyKeeps(s);
        RolesSized(HandReady(s));
        SameRoom(HandReady(s), s'.available, s'.full);
      }
    case ConsumerSpurious(t) =>
    case ConsumerTry => if s.c.ready > 0 { HandReadyKeeps(s); }
    case ConsumerRelease(woken) => ReleaseKeeps(s, woken);
    case TopReset => TopKeeps(s, e);
    case TopTry => TopKeeps(s, e);
  }

  lemma WaitersKeep(s: State, e: Event)
    requires Inv(s) && Enabled(s, e)
    ensures var s' := Step(s, e);
            NoLostWakeup(s'.available, s'.c.free) && NoLostWakeup(s'.full, s'.c.ready)
  {
    hide Roles, Contents, Peeks, NoLostWakeup, Block, Leave, Wake;
    RolesSized(s);
    Apart(s.available, s.c.free);
    Apart(s.full, s.c.ready);
    match e
    case ProducerRequest(t) => BlockKeeps(s.available, t);
    case ProducerResume(t) =>
      BlockKeeps(s.available, t);
      if s.c.free > 0 { LeaveKeeps(s.available, t, s.c.free); }
    case ProducerSpurious(t) => WakeKeeps(s.available, {t}, s.c.free);
    case ProducerTry =>
    case Fill(slot, v) =>
    case ProducerReady(woken) => WakeKeeps(s.full, woken, s.c.ready);
    case ConsumerRequest(t) => BlockKeeps(s.full, t);
    case ConsumerResume(t) =>
      BlockKeeps(s.full, t);
      if s.c.ready > 0 { LeaveKeeps(s.full, t, s.c.ready); }
    case ConsumerSpurious(t) => WakeKeeps(s.full, {t}, s.c.ready);
    case ConsumerTry =>
    case ConsumerRelease(woken) => WakeKeeps(s.available, woken, s.c.free);
    case TopReset =>
    case TopTry =>
  }

  lemma Apart(q: Cond, count: nat)
    requires NoLostWakeup(q, count)
    ensures q.waiting !! q.awake && forall n: nat :: n <= count ==> NoLostWakeup(q, n)
  {
  }

  lemma StepKeeps(s: State, e: Event)
    requires Inv(s) && Enabled(s, e)
    ensures Inv(Step(s, e))
  {
    hide Roles, Contents, Peeks, NoLostWakeup, Step, Enabled;
    RoomKeeps(s, e);
    WaitersKeep(s, e);
  }

  // ---------- whole runs ----------

  /** new_buffer_cache: everything is free and nobody waits; the fields of the top cursor hold
      anything. */
  predicate Initial(s: State) {
    && s.c.num > 0 && |s.slots| == s.c.num && s.c.free == s.c.num && s.c.ready == s.c.front == s.c.rear == 0
    && s.heldP == s.heldC == [] && s.available == s.full == Cond({}, {})
    && s.produced == s.consumed == s.peeked == [] && s.released == 0 && !s.topSet && !s.peeking
  }

  /** `s'` is reached from `s` by the steps `es`. */
  ghost predicate Reaches(s: State, es: seq<Event>, s': State)
    decreases |es|
  {
    if es == [] then s == s'
    else Sized(s) && Enabled(s, es[0]) && Reaches(Step(s, es[0]), es[1..], s')
  }

  lemma {:induction false} RunKeeps(s: State, es: seq<Event>, s': State)
    requires Inv(s) && Reaches(s, es, s')
    ensures Inv(s')
    decreases |es|
  {
    if es != [] {
      StepKeeps(s, es[0]);
      RunKeeps(Step(s, es[0]), es[1..], s');
    }
  }

  lemma {:induction false} SameNum(s: State, es: seq<Event>, s': State)
    requires Reaches(s, es, s')
    ensures s'.c.num == s.c.num
    decreases |es|
  {
    if es != [] {
      SameNum(Step(s, es[0]), es[1..], s');
    }
  }

  lemma InitInv(s: State)
    requires Initial(s)
    ensures Inv(s)
  {
  }

  /** Buffers held by consumers are not held by producers, and still hold what was handed out. */
  lemma HeldSafe(s: State)
    requires Roles(s) && Contents(s)
    ensures forall i, j :: 0 <= i < |s.heldC| && 0 <= j < |s.heldP| ==> s.heldC[i] != s.heldP[j]
    ensures forall i :: 0 <= i < |s.heldC| ==>
              s.heldC[i] < |s.slots| && s.slots[s.heldC[i]] == s.consumed[s.released + i]
  {
    forall i, j | 0 <= i < |s.heldC| && 0 <= j < |s.heldP|
      ensures s.heldC[i] != s.heldP[j]
    {
      HeldApart(s, s.heldP[j], s.released + i);
    }
    forall i | 0 <= i < |s.heldC|
      ensures s.heldC[i] < |s.slots| && s.slots[s.heldC[i]] == s.consumed[s.released + i]
    {
      var k := s.released + i;
      assert s.slots[k % s.c.num] == s.produced[k] && s.heldC[i] == k % s.c.num;
    }
  }

  /** In every reachable state each buffer is free, held by a producer, ready or held by a
      consumer, and consumers have received exactly what producers marked ready, in order. */
  lemma Conservation(s0: State, es: seq<Event>, s: State)
    requires Initial(s0) && Reaches(s0, es, s)
    ensures s.c.num == s0.c.num && Roles(s) && s.consumed <= s.produced
    ensures forall i, j :: 0 <= i < |s.heldC| && 0 <= j < |s.heldP| ==> s.heldC[i] != s.heldP[j]
    ensures forall i :: 0 <= i < |s.heldC| ==>
              && s.heldC[i] < |s.slots| && s.released + i < |s.consumed|
              && s.slots[s.heldC[i]] == s.consumed[s.released + i]
  {
    hide Arc;
    InitInv(s0);
    RunKeeps(s0, es, s);
    SameNum(s0, es, s);
    HeldSafe(s);
  }

  /** Nobody sleeps on an available buffer: where a producer waits although a buffer is free,
      or a consumer although one is ready, another one is already awakened to take it. */
  lemma NobodyForgotten(s0: State, es: seq<Event>, s: State)
    requires Initial(s0) && Reaches(s0, es, s)
    ensures s.c.free > 0 && s.available.waiting != {} ==> s.available.awake != {}
    ensures s.c.ready > 0 && s.full.waiting != {} ==> s.full.awake != {}
  {
    InitInv(s0);
    RunKeeps(s0, es, s);
  }

  /** The ring cannot lock up by itself: when producers and consumers all wait and none is
      awakened, somebody holds a buffer it has yet to mark ready or release. */
  lemma NoDeadlock(s0: State, es: seq<Event>, s: State)
    requires Initial(s0) && Reaches(s0, es, s)
    requires s.available.waiting != {} && s.full.waiting != {}
    requires s.available.awake == {} && s.full.awake == {}
    ensures |s.heldP| + |s.heldC| == s.c.num > 0
  {
    InitInv(s0);
    RunKeeps(s0, es, s);
  }

  // ---------- the top cursor ----------

  predicate TakesBuffer(e: Event) {
    e.ConsumerRequest? || e.ConsumerResume? || e.ConsumerTry?
  }

  predicate NoTaking(es: seq<Event>) {
    forall i :: 0 <= i < |es| ==> !TakesBuffer(es[i]) && !es[i].TopReset?
  }

  lemma PeekStep(s: State, e: Event)
    requires Sized(s) && Enabled(s, e) && !TakesBuffer(e) && !e.TopReset?
    ensures Step(s, e).peeking == s.peeking && Step(s, e).consumed == s.consumed
  {
  }

  lemma {:induction false} PeekingLasts(s: State, es: seq<Event>, s': State)
    requires Inv(s) && Reaches(s, es, s') && NoTaking(es) && s.peeking
    ensures Inv(s') && s'.peeking && s'.consumed == s.consumed
    decreases |es|
  {
    if es != [] {
      hide Inv, Step, Enabled;
      StepKeeps(s, es[0]);
      PeekStep(s, es[0]);
      var n := Step(s, es[0]);
      assert !TakesBuffer(es[0]) && !es[0].TopReset?;
      assert forall i :: 0 <= i < |es[1..]| ==> es[1..][i] == es[i + 1];
      PeekingLasts(n, es[1..], s');
    }
  }

  /** Top requests have handed out the contents of the oldest ready buffers, in the order in which
      they were marked ready, and the next one stands on a buffer in nobody's hands. */
  predicate PeekedInOrder(s: State) {
    && 0 <= s.c.topUsed <= s.c.ready && |s.produced| == |s.consumed| + s.c.ready
    && s.peeked == s.produced[|s.consumed|..|s.consumed| + s.c.topUsed]
    && (s.c.topUsed < s.c.ready ==> s.c.top !in s.heldP && s.c.top !in s.heldC)
  }

  lemma PeekedOk(s: State)
    requires Inv(s) && s.peeking
    ensures PeekedInOrder(s)
  {
    if s.c.topUsed < s.c.ready {
      TopIsReady(s);
    }
  }

  /** After a top reset, as long as no consumer takes a buffer, top requests hand out the
      contents of the ready buffers one by one in the order they were marked ready, whatever
      producers do meanwhile. */
  lemma TopReadsReadyInOrder(s: State, es: seq<Event>, s': State)
    requires Inv(s) && Reaches(Step(s, TopReset), es, s') && NoTaking(es)
    ensures s'.consumed == s.consumed <= s'.produced && PeekedInOrder(s')
  {
    hide Reaches, Roles, Peeks, NoLostWakeup, PeekedInOrder;
    RolesSized(s);
    StepKeeps(s, TopReset);
    PeekingLasts(Step(s, TopReset), es, s');
    PeekedOk(s');
  }

  /** The slot of the next top request is neither being filled nor in a consumer's hands. */
  lemma TopIsReady(s: State)
    requires Inv(s) && s.peeking && s.c.topUsed < s.c.ready
    ensures s.c.top !in s.heldP && s.c.top !in s.heldC
  {
    var k := |s.consumed| + s.c.topUsed;
    forall slot | slot in s.heldP ensures slot != s.c.top {
      HeldApart(s, slot, k);
    }
    forall i | 0 <= i < |s.heldC| ensures s.heldC[i] != s.c.top {
      OneTurn(s.released + i, k, s.c.num);
    }
  }
}
