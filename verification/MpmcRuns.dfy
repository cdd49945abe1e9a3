/** What every interleaving of pushers and poppers guarantees. */
module MpmcRuns {
  import opened Wrappers
  import opened Capacity
  import opened MpmcRing

  datatype Step<T> = Step(thread: nat, act: Act<T>)

  function Run<T>(r: Ring<T>, steps: seq<Step<T>>): (r': Ring<T>)
    requires |r.cells| == r.Cap()
    ensures r'.mask == r.mask && |r'.cells| == |r.cells| && |r'.threads| == |r.threads|
    ensures r.enq <= r'.enq && r.deq <= r'.deq
  {
    if steps == [] then r
    else
      var before := Run(r, steps[..|steps| - 1]);
      var s := steps[|steps| - 1];
      if s.thread < |before.threads| then Do(before, s.thread, s.act) else before
  }

  lemma {:induction false} RunKeepsInv<T>(r: Ring<T>, steps: seq<Step<T>>)
    requires Inv(r)
    ensures Inv(Run(r, steps))
  {
    if steps != [] {
      var n := |steps| - 1;
      RunKeepsInv(r, steps[..n]);
      if steps[n].thread < |r.threads| {
        StepInv(Run(r, steps[..n]), steps[n].thread, steps[n].act);
      }
    }
  }

  /** The invariant holds in every reachable state, whatever the interleaving. */
  lemma {:induction false} EveryRunInv<T>(mask: nat, threads: nat, steps: seq<Step<T>>)
    requires IsPow2(mask + 1) && 1 <= mask
    ensures Inv(Run(Init(mask, threads), steps))
  {
    InitInv<T>(mask, threads);
    RunKeepsInv(Init(mask, threads), steps);
  }

  // ---------------------------------------------------------------------------
  // Reading the invariant

  /** The tickets of the current lap cover each cell once, and the cell's sequence
      number alone tells free, being written, published and being read apart. */
  lemma CellTellsPhase<T>(r: Ring<T>, i: nat) returns (k: nat)
    requires Inv(r) && i < r.Cap()
    ensures r.deq <= k < r.deq + r.Cap() && Slot(k, r.mask) == i
    ensures forall j :: r.deq <= j < r.deq + r.Cap() && Slot(j, r.mask) == i ==> j == k
    ensures k < r.enq ==> (r.cells[i].turn == k <==> Writing(r, k))
    ensures k < r.enq ==> (r.cells[i].turn == k + 1 <==> !Writing(r, k))
    ensures k < r.enq && !Writing(r, k) ==> r.cells[i].data == Some(r.claims[k].value)
    ensures r.enq <= k ==>
              (r.cells[i].turn != k <==> r.Cap() <= k && k - r.Cap() < r.deq && Reading(r, k - r.Cap()))
  {
    k := WindowCovers(r.deq, r.mask, i);
    assert TicketOk(r, k);
    forall j | r.deq <= j < r.deq + r.Cap() && Slot(j, r.mask) == i
      ensures j == k
    {
      Apart(j, k, r.mask);
    }
    if k < r.enq && Writing(r, k) {
      assert ThreadOk(r, r.claims[k].owner);
    }
    if r.enq <= k && r.Cap() <= k && k - r.Cap() < r.deq && Reading(r, k - r.Cap()) {
      assert ThreadOk(r, r.takers[k - r.Cap()]);
      SlotPeriod(k - r.Cap(), r.mask);
    }
  }

  /** A value whose push returned true is in exactly one place: still in its cell,
      with the one pop that took its ticket, or already returned by that pop. */
  lemma NothingLost<T>(r: Ring<T>, k: nat)
    requires Inv(r) && k in r.pushed
    ensures k < r.enq
    ensures r.deq <= k ==> Published(r, k) && !Delivered(r, k)
    ensures k < r.deq ==> (Delivered(r, k) <==> !Reading(r, k))
  {
    if r.deq <= k {
      assert TicketOk(r, k);
    } else {
      if Reading(r, k) {
        assert ThreadOk(r, r.takers[k]);
      }
      if !Delivered(r, k) {
        TakenIsReadOrReturned(r, k);
      }
    }
  }

  /** A pop ticket whose pop has not returned is still being read. */
  lemma TakenIsReadOrReturned<T>(r: Ring<T>, k: nat)
    requires Inv(r) && k < r.deq && !Delivered(r, k)
    ensures Reading(r, k) && r.enq <= k + r.Cap()
  {
    TurnAtLeast(r, k);
    SlotPeriod(k, r.mask);
    if k + r.Cap() < r.enq {
      TurnAtLeast(r, k + r.Cap());
    } else {
      assert TicketOk(r, k + r.Cap());
    }
  }

  /** A pop returns the value pushed on its own ticket, no ticket is returned twice, and
      only tickets whose push is past its write are returned. */
  lemma PoppedOnceAsPushed<T>(r: Ring<T>, i: nat)
    requires Inv(r) && i < |r.popped|
    ensures r.popped[i].ticket < |r.claims| && r.popped[i].value == r.claims[r.popped[i].ticket].value
    ensures r.popped[i].ticket in r.pushed
    ensures forall j :: 0 <= j < |r.popped| && j != i ==> r.popped[j].ticket != r.popped[i].ticket
  {
    assert Delivered(r, r.popped[i].ticket);
  }

  /** Two threads past their compare-and-swap never work on the same cell. */
  lemma OneOwnerPerCell<T>(r: Ring<T>, t: nat, u: nat)
    requires Inv(r) && t < |r.threads| && u < |r.threads| && t != u
    requires Owns(r.threads[t]) && Owns(r.threads[u])
    ensures Slot(r.threads[t].pos, r.mask) != Slot(r.threads[u].pos, r.mask)
  {
    assert ThreadOk(r, t) && ThreadOk(r, u);
    Exclusive(r, t, u, r.threads[t].pos, r.threads[u].pos);
  }

  // ---------------------------------------------------------------------------
  // What a false result means

  /** try_push gives up exactly when, as it loads the cell, its position is current and
      the ticket one lap back has not been returned by a pop yet. */
  lemma PushFailsExactlyWhen<T>(r: Ring<T>, t: nat)
    requires Inv(r) && t < |r.threads| && r.threads[t].PushAt?
    ensures Do(r, t, Go).threads[t] == Idle <==>
            r.threads[t].pos == r.enq && r.Cap() <= r.enq && !Delivered(r, r.enq - r.Cap())
  {
    var pos := r.threads[t].pos;
    assert ThreadOk(r, t);
    if pos < r.enq {
      TurnAtLeast(r, pos);
    } else {
      NextPushTurn(r);
      if r.Cap() <= r.enq {
        SlotPeriod(r.enq - r.Cap(), r.mask);
      }
    }
  }

  /** try_pop gives up exactly when its position is current and no push has returned
      true for that ticket, which is not the same as the queue being empty. */
  lemma PopFailsExactlyWhen<T>(r: Ring<T>, t: nat)
    requires Inv(r) && t < |r.threads| && r.threads[t].PopAt?
    ensures Do(r, t, Go).threads[t] == Idle <==> r.threads[t].pos == r.deq && r.deq !in r.pushed
  {
    assert ThreadOk(r, t);
    if r.threads[t].pos < r.deq {
      TurnAtLeast(r, r.threads[t].pos);
    } else {
      NextPopTurn(r);
    }
  }

  /** Two threads on a ring of two cells: one has claimed a push ticket, the other has
      just entered try_pop. */
  function ClaimedThenPopping<T>(v: T): Ring<T> {
    var claimed := Do(Do(Do(Init(1, 2), 0, CallPush(v)), 0, Go), 0, Go);
    Do(claimed, 1, CallPop)
  }

  /** A pop can come back empty-handed although a push has claimed a ticket. */
  lemma PopFailsDuringWrite<T>(v: T)
    ensures var r := ClaimedThenPopping(v);
            && Inv(r) && r.threads[1] == PopAt(0) && r.deq < r.enq
            && Do(r, 1, Go).threads[1] == Idle
  {
    InitInv<T>(1, 2);
    SlotOfFirstLap(0, 1);
    var entered := Do(Init(1, 2), 0, CallPush(v));
    StepInv(Init(1, 2), 0, CallPush(v));
    StepInv(entered, 0, Go);
    StepInv(Do(entered, 0, Go), 0, Go);
    StepInv(Do(Do(entered, 0, Go), 0, Go), 1, CallPop);
    PopFailsExactlyWhen(ClaimedThenPopping(v), 1);
  }

  // ---------------------------------------------------------------------------
  // size_approx

  function SizeApprox(e: nat, d: nat): nat {
    if e > d then e - d else 0
  }

  /** size_approx loads the two positions at different moments; its answer still never
      exceeds the capacity, nor the number of tickets outstanding at the second load. */
  lemma SizeApproxBounded<T>(r: Ring<T>, between: seq<Step<T>>)
    requires Inv(r)
    ensures SizeApprox(r.enq, Run(r, between).deq) <= r.Cap()
    ensures SizeApprox(r.enq, Run(r, between).deq) <= Run(r, between).enq - Run(r, between).deq
  {
    RunKeepsInv(r, between);
  }

  // ---------------------------------------------------------------------------
  // Each producer's own order

  /** Pushes of one thread return true in ticket order. */
  ghost predicate Ordered<T>(r: Ring<T>)
    requires Inv(r)
  {
    && (forall i, j :: 0 <= i < j < |r.pushed| && Pusher(r, r.pushed[i]) == Pusher(r, r.pushed[j])
          ==> r.pushed[i] < r.pushed[j])
    && (forall t :: 0 <= t < |r.threads| && (r.threads[t].PushOwn? || r.threads[t].PushDone?) ==>
          PastAllOf(r, t, r.threads[t].pos))
  }

  ghost predicate PastAllOf<T>(r: Ring<T>, t: nat, pos: nat) {
    forall i :: 0 <= i < |r.pushed| && Pusher(r, r.pushed[i]) == t ==> r.pushed[i] < pos
  }

  ghost function Pusher<T>(r: Ring<T>, k: nat): nat {
    if k < |r.claims| then r.claims[k].owner else 0
  }

  lemma OrderedPublish<T>(r: Ring<T>, t: nat)
    requires Inv(r) && Ordered(r) && t < |r.threads| && r.threads[t].PushDone?
    requires Inv(Do(r, t, Go))
    ensures Ordered(Do(r, t, Go))
  {
    var r', pos := Do(r, t, Go), r.threads[t].pos;
    assert ThreadOk(r, t);
    assert PastAllOf(r, t, pos);
    forall u | 0 <= u < |r'.threads| && (r'.threads[u].PushOwn? || r'.threads[u].PushDone?)
      ensures PastAllOf(r', u, r'.threads[u].pos)
    {
      assert PastAllOf(r, u, r.threads[u].pos);
    }
  }

  /** A step that publishes nothing keeps what is known about publishing order. */
  lemma OrderedKeeps<T>(r: Ring<T>, r': Ring<T>)
    requires Inv(r) && Inv(r') && Ordered(r)
    requires r'.pushed == r.pushed && r.claims <= r'.claims && |r'.threads| == |r.threads|
    requires forall t :: 0 <= t < |r.threads| && (r'.threads[t].PushOwn? || r'.threads[t].PushDone?) ==>
               r'.threads[t].pos == r.enq ||
               ((r.threads[t].PushOwn? || r.threads[t].PushDone?) && r.threads[t].pos == r'.threads[t].pos)
    ensures Ordered(r')
  {
    forall i | 0 <= i < |r.pushed|
      ensures r.pushed[i] < r.enq && Pusher(r', r.pushed[i]) == Pusher(r, r.pushed[i])
    {
      assert r.pushed[i] in r.pushed;
    }
    forall t | 0 <= t < |r'.threads| && (r'.threads[t].PushOwn? || r'.threads[t].PushDone?)
      ensures PastAllOf(r', t, r'.threads[t].pos)
    {
      assert r'.threads[t].pos == r.enq || PastAllOf(r, t, r.threads[t].pos);
    }
  }

  lemma UnlessPublishing<T>(r: Ring<T>, t: nat, a: Act<T>)
    requires t < |r.threads| && |r.cells| == r.Cap() && !(r.threads[t].PushDone? && a == Go)
    ensures var r' := Do(r, t, a);
            && r'.pushed == r.pushed && r.claims <= r'.claims
            && (r'.threads[t].PushOwn? || r'.threads[t].PushDone? ==>
                  r'.threads[t].pos == r.enq ||
                  ((r.threads[t].PushOwn? || r.threads[t].PushDone?) && r.threads[t].pos == r'.threads[t].pos))
  {
  }

  lemma OrderedStep<T>(r: Ring<T>, t: nat, a: Act<T>)
    requires Inv(r) && Ordered(r) && t < |r.threads|
    requires Inv(Do(r, t, a))
    ensures Ordered(Do(r, t, a))
  {
    if r.threads[t].PushDone? && a == Go {
      OrderedPublish(r, t);
    } else {
      UnlessPublishing(r, t, a);
      OrderedKeeps(r, Do(r, t, a));
    }
  }

  lemma {:induction false} ProducerOrder<T>(mask: nat, threads: nat, steps: seq<Step<T>>)
    requires IsPow2(mask + 1) && 1 <= mask
    ensures Inv(Run(Init(mask, threads), steps)) && Ordered(Run(Init(mask, threads), steps))
  {
    EveryRunInv(mask, threads, steps);
    if steps != [] {
      var n := |steps| - 1;
      ProducerOrder(mask, threads, steps[..n]);
      var before := Run(Init(mask, threads), steps[..n]);
      if steps[n].thread < threads {
        assert Run(Init(mask, threads), steps) == Do(before, steps[n].thread, steps[n].act);
        OrderedStep(before, steps[n].thread, steps[n].act);
      }
    }
  }

  // ---------------------------------------------------------------------------
  // One consumer, as in the collector's pipeline

  ghost predicate InPop<T>(at: Thread<T>) {
    at.PopAt? || at.PopTry? || at.PopStale? || at.PopOwn? || at.PopDone?
  }

  function Held<T>(at: Thread<T>): nat {
    if at.PopOwn? || at.PopDone? then 1 else 0
  }

  /** Only thread c pops, and what it has popped so far is tickets 0, 1, 2, ... */
  ghost predicate SoleConsumer<T>(r: Ring<T>, c: nat) {
    && c < |r.threads|
    && (forall t :: 0 <= t < |r.threads| && t != c ==> !InPop(r.threads[t]))
    && (forall i :: 0 <= i < |r.popped| ==> r.popped[i].ticket == i)
    && |r.popped| + Held(r.threads[c]) == r.deq
  }

  lemma SoleDelivered<T>(r: Ring<T>, c: nat, k: nat)
    requires SoleConsumer(r, c)
    ensures Delivered(r, k) <==> k < |r.popped|
  {
    if k < |r.popped| {
      assert r.popped[k].ticket == k;
    }
  }

  /** How one step of thread t moves what a pop holds and what was popped. */
  lemma PopEffects<T>(r: Ring<T>, t: nat, a: Act<T>)
    requires t < |r.threads| && |r.cells| == r.Cap()
    requires r.threads[t].PopOwn? ==> r.At(r.threads[t].pos).data.Some?
    ensures var r' := Do(r, t, a);
            && (InPop(r'.threads[t]) ==> InPop(r.threads[t]) || a.CallPop?)
            && (if r.threads[t].PopDone? && a == Go then
                  r'.popped == r.popped + [Popped(r.threads[t].pos, r.threads[t].value)]
                  && r'.deq == r.deq && r'.threads[t] == Idle
                else
                  r'.popped == r.popped && r'.deq - Held(r'.threads[t]) == r.deq - Held(r.threads[t]))
  {
  }

  lemma SoleConsumerStep<T>(r: Ring<T>, c: nat, t: nat, a: Act<T>)
    requires Inv(r) && SoleConsumer(r, c) && t < |r.threads| && (a.CallPop? ==> t == c)
    ensures SoleConsumer(Do(r, t, a), c)
  {
    assert ThreadOk(r, t);
    if r.threads[t].PopDone? {
      assert !Delivered(r, r.threads[t].pos);
      SoleDelivered(r, c, r.threads[t].pos);
    }
    PopEffects(r, t, a);
    hide Do, TicketsOk, ThreadsOk, PushedOk, PoppedOk, Slot, Delivered;
  }

  lemma {:induction false} SoleConsumerRun<T>(r: Ring<T>, c: nat, steps: seq<Step<T>>)
    requires Inv(r) && SoleConsumer(r, c)
    requires forall s :: s in steps && s.act.CallPop? ==> s.thread == c
    ensures Inv(Run(r, steps)) && SoleConsumer(Run(r, steps), c)
  {
    RunKeepsInv(r, steps);
    if steps != [] {
      var n := |steps| - 1;
      assert steps[n] in steps;
      SoleConsumerRun(r, c, steps[..n]);
      RunKeepsInv(r, steps[..n]);
      if steps[n].thread < |r.threads| {
        SoleConsumerStep(Run(r, steps[..n]), c, steps[n].thread, steps[n].act);
      }
    }
  }

  /** With one consumer the popped values are always a prefix of the pushed ones, in the
      order the pushes claimed their tickets, and at most one value is in its hands. */
  lemma PoppedIsPrefix<T>(mask: nat, threads: nat, c: nat, steps: seq<Step<T>>)
    requires IsPow2(mask + 1) && 1 <= mask && c < threads
    requires forall s :: s in steps && s.act.CallPop? ==> s.thread == c
    ensures var r := Run(Init(mask, threads), steps);
            && |r.popped| <= r.deq <= |r.popped| + 1 && r.deq <= |r.claims|
            && forall i :: 0 <= i < |r.popped| ==> r.popped[i] == Popped(i, r.claims[i].value)
  {
    InitInv<T>(mask, threads);
    SoleConsumerRun(Init(mask, threads), c, steps);
  }

  /** With one consumer a refused push means the ring is full but for one cell at most. */
  lemma RefusedPushFindsRingFull<T>(r: Ring<T>, c: nat, t: nat)
    requires Inv(r) && SoleConsumer(r, c) && t < |r.threads| && r.threads[t].PushAt?
    requires Do(r, t, Go).threads[t] == Idle
    ensures r.Cap() - 1 <= r.enq - r.deq <= r.Cap()
  {
    PushFailsExactlyWhen(r, t);
    SoleDelivered(r, c, r.enq - r.Cap());
  }
}
