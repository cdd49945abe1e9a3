/**
  The bounded multi-producer multi-consumer queue as a transition system.

  Each atomic load, compare-and-swap and store of mpmc_queue.hpp is one step, taken
  by any of a fixed but arbitrary number of threads in any order. Branching on a
  value just loaded is local to the thread, so it belongs to the step that loads it.
 */
module MpmcRing {
  import opened Wrappers
  import opened Capacity

  /** A cell: its sequence number, and its value, None once that was moved out. */
  datatype Cell<T> = Cell(turn: nat, data: Option<T>)

  /** Where a thread stands inside try_push or try_pop, with the locals it still needs. */
  datatype Thread<T> =
    | Idle
    | PushAt(value: T, pos: nat)    // knows pos; next it loads that cell's seq
    | PushTry(value: T, pos: nat)   // saw seq == pos; next the compare-and-swap
    | PushStale(value: T)           // saw seq > pos; next it reloads enqueue_pos_
    | PushOwn(value: T, pos: nat)   // owns ticket pos; next it moves the value in
    | PushDone(pos: nat)            // value is in; next it publishes seq = pos + 1
    | PopAt(pos: nat)
    | PopTry(pos: nat)
    | PopStale
    | PopOwn(pos: nat)              // owns ticket pos; next it moves the value out
    | PopDone(pos: nat, value: T)   // value is out; next it recycles seq = pos + capacity

  datatype Claim<T> = Claim(owner: nat, value: T)
  datatype Popped<T> = Popped(ticket: nat, value: T)

  /**
    The shared state, the threads, and four histories: who claimed each push ticket
    and with what value, who claimed each pop ticket, the tickets of pushes that
    returned true and the results of pops that returned true, both in return order.
   */
  datatype Ring<T> = Ring(
    mask: nat, enq: nat, deq: nat, cells: seq<Cell<T>>, threads: seq<Thread<T>>,
    claims: seq<Claim<T>>, takers: seq<nat>, pushed: seq<nat>, popped: seq<Popped<T>>)
  {
    function Cap(): nat { mask + 1 }

    /** The cell of a ticket: buffer_[pos & mask_]. */
    function At(pos: nat): Cell<T>
      requires |cells| == Cap()
    {
      cells[Slot(pos, mask)]
    }

    function Put(pos: nat, c: Cell<T>): Ring<T>
      requires |cells| == Cap()
    {
      this.(cells := cells[Slot(pos, mask) := c])
    }

    function Goto(t: nat, at: Thread<T>): Ring<T>
      requires t < |threads|
    {
      this.(threads := threads[t := at])
    }
  }

  /** What a thread may do next: enter a call, take its next step, or have its weak
      compare-and-swap fail although the position matched. */
  datatype Act<T> = CallPush(value: T) | CallPop | Go | Spurious

  function Init<T>(mask: nat, threads: nat): Ring<T> {
    Ring(mask, 0, 0, seq(mask + 1, (i: nat) => Cell(i, None)), seq(threads, i => Idle), [], [], [], [])
  }

  /** One atomic step of thread t; an act the thread is not ready for changes nothing. */
  function Do<T>(r: Ring<T>, t: nat, a: Act<T>): (r': Ring<T>)
    requires t < |r.threads| && |r.cells| == r.Cap()
    ensures r'.mask == r.mask && |r'.cells| == |r.cells| && |r'.threads| == |r.threads|
    ensures forall u :: 0 <= u < |r.threads| && u != t ==> r'.threads[u] == r.threads[u]
    ensures r.enq <= r'.enq && r.deq <= r'.deq
  {
    match (r.threads[t], a)
    case (Idle, CallPush(v)) => r.Goto(t, PushAt(v, r.enq))
    case (Idle, CallPop) => r.Goto(t, PopAt(r.deq))
    case (PushAt(v, pos), Go) =>
      var turn := r.At(pos).turn;
      r.Goto(t, if turn == pos then PushTry(v, pos) else if turn < pos then Idle else PushStale(v))
    case (PushStale(v), Go) => r.Goto(t, PushAt(v, r.enq))
    case (PushTry(v, pos), Go) =>
      if r.enq == pos then
        r.Goto(t, PushOwn(v, pos)).(enq := pos + 1, claims := r.claims + [Claim(t, v)])
      else
        r.Goto(t, PushAt(v, r.enq))
    case (PushTry(v, pos), Spurious) => r.Goto(t, PushAt(v, r.enq))
    case (PushOwn(v, pos), Go) => r.Put(pos, r.At(pos).(data := Some(v))).Goto(t, PushDone(pos))
    case (PushDone(pos), Go) =>
      r.Put(pos, r.At(pos).(turn := pos + 1)).Goto(t, Idle).(pushed := r.pushed + [pos])
    case (PopAt(pos), Go) =>
      var turn := r.At(pos).turn;
      r.Goto(t, if turn == pos + 1 then PopTry(pos) else if turn < pos + 1 then Idle else PopStale)
    case (PopStale, Go) => r.Goto(t, PopAt(r.deq))
    case (PopTry(pos), Go) =>
      if r.deq == pos then
        r.Goto(t, PopOwn(pos)).(deq := pos + 1, takers := r.takers + [t])
      else
        r.Goto(t, PopAt(r.deq))
    case (PopTry(pos), Spurious) => r.Goto(t, PopAt(r.deq))
    case (PopOwn(pos), Go) =>
      match r.At(pos).data {
        case Some(v) => r.Put(pos, r.At(pos).(data := None)).Goto(t, PopDone(pos, v))
        case None => r   // never in a reachable state: see ThreadOk
      }
    case (PopDone(pos, v), Go) =>
      r.Put(pos, r.At(pos).(turn := pos + r.mask + 1)).Goto(t, Idle)
       .(popped := r.popped + [Popped(pos, v)])
    case _ => r
  }

  // ---------------------------------------------------------------------------
  // The invariant

  ghost predicate Shape<T>(r: Ring<T>) {
    && IsPow2(r.mask + 1) && 1 <= r.mask && |r.cells| == r.Cap()
    && r.deq <= r.enq <= r.deq + r.Cap()
    && |r.claims| == r.enq && |r.takers| == r.deq
  }

  /** Ticket k is claimed by a push that has not published it yet. */
  ghost predicate Writing<T>(r: Ring<T>, k: nat)
    requires Shape(r) && k < r.enq
  {
    && r.claims[k].owner < |r.threads|
    && match r.threads[r.claims[k].owner] {
         case PushOwn(v, pos) => pos == k && v == r.claims[k].value
         case PushDone(pos) => pos == k && r.At(k).data == Some(r.claims[k].value)
         case _ => false
       }
  }

  /** Ticket k is claimed by a pop that has not recycled its cell yet. */
  ghost predicate Reading<T>(r: Ring<T>, k: nat)
    requires Shape(r) && k < r.deq
  {
    && r.takers[k] < |r.threads|
    && match r.threads[r.takers[k]] {
         case PopOwn(pos) => pos == k && r.At(k).data == Some(r.claims[k].value)
         case PopDone(pos, v) => pos == k && v == r.claims[k].value
         case _ => false
       }
  }

  ghost predicate Published<T>(r: Ring<T>, k: nat)
    requires Shape(r) && k < r.enq
  {
    r.At(k).turn == k + 1 && r.At(k).data == Some(r.claims[k].value)
  }

  /** The cell of a ticket of the current lap says exactly what became of the ticket. */
  ghost predicate TicketOk<T>(r: Ring<T>, k: nat)
    requires Shape(r)
  {
    var turn := r.At(k).turn;
    if k < r.enq then
      (turn == k && Writing(r, k)) || Published(r, k)
    else
      turn == k || (r.Cap() <= k && k - r.Cap() < r.deq && turn == k - r.Cap() + 1 && Reading(r, k - r.Cap()))
  }

  ghost predicate TicketsOk<T>(r: Ring<T>)
    requires Shape(r)
  {
    forall k :: r.deq <= k < r.deq + r.Cap() ==> TicketOk(r, k)
  }

  ghost predicate ThreadOk<T>(r: Ring<T>, t: nat)
    requires Shape(r) && t < |r.threads|
  {
    match r.threads[t]
    case PushAt(_, pos) => pos <= r.enq
    case PushTry(_, pos) => pos <= r.enq && pos <= r.At(pos).turn
    case PushOwn(v, pos) =>
      r.deq <= pos < r.enq && r.claims[pos] == Claim(t, v) && r.At(pos).turn == pos
    case PushDone(pos) =>
      && r.deq <= pos < r.enq && r.claims[pos].owner == t
      && r.At(pos) == Cell(pos, Some(r.claims[pos].value))
    case PopAt(pos) => pos <= r.deq
    case PopTry(pos) => pos <= r.deq && pos + 1 <= r.At(pos).turn
    case PopOwn(pos) =>
      && pos < r.deq && r.enq <= pos + r.Cap() && r.takers[pos] == t
      && r.At(pos) == Cell(pos + 1, Some(r.claims[pos].value))
    case PopDone(pos, v) =>
      && pos < r.deq && r.enq <= pos + r.Cap() && r.takers[pos] == t
      && r.At(pos).turn == pos + 1 && v == r.claims[pos].value
    case _ => true
  }

  ghost predicate ThreadsOk<T>(r: Ring<T>)
    requires Shape(r)
  {
    forall t :: 0 <= t < |r.threads| ==> ThreadOk(r, t)
  }

  /** A push has returned true for ticket k exactly when its cell has gone past k. */
  ghost predicate PushedOk<T>(r: Ring<T>)
    requires Shape(r)
  {
    && (forall k :: k in r.pushed <==> 0 <= k < r.enq && r.At(k).turn > k)
    && (forall i, j :: 0 <= i < j < |r.pushed| ==> r.pushed[i] != r.pushed[j])
  }

  ghost predicate Delivered<T>(r: Ring<T>, k: int) {
    exists i :: 0 <= i < |r.popped| && r.popped[i].ticket == k
  }

  /** A pop has returned ticket k exactly when its cell has gone past k + 1, at most
      once, and with the value pushed on that ticket. */
  ghost predicate PoppedOk<T>(r: Ring<T>)
    requires Shape(r)
  {
    && (forall k :: Delivered(r, k) <==> 0 <= k < r.deq && r.At(k).turn > k + 1)
    && (forall i, j :: 0 <= i < j < |r.popped| ==> r.popped[i].ticket != r.popped[j].ticket)
    && (forall i :: 0 <= i < |r.popped| ==>
          r.popped[i].ticket < r.deq && r.popped[i].value == r.claims[r.popped[i].ticket].value)
  }

  ghost predicate Inv<T>(r: Ring<T>) {
    Shape(r) && TicketsOk(r) && ThreadsOk(r) && PushedOk(r) && PoppedOk(r)
  }

  // ---------------------------------------------------------------------------
  // Facts about one state

  lemma Apart(j: nat, k: nat, mask: nat)
    requires IsPow2(mask + 1)
    ensures Slot(j, mask) == Slot(k, mask) ==> j == k || j + mask + 1 <= k || k + mask + 1 <= j
  {
    if j < k <= j + mask {
      SlotDistinct(j, k, mask);
    } else if k < j <= k + mask {
      SlotDistinct(k, j, mask);
    }
  }

  /** Once a ticket is claimed its cell never shows an earlier turn again. */
  lemma {:induction false} TurnAtLeast<T>(r: Ring<T>, k: nat)
    requires Shape(r) && TicketsOk(r) && k < r.enq
    ensures k <= r.At(k).turn
    ensures k < r.deq ==> k + 1 <= r.At(k).turn
    decreases r.enq - k
  {
    SlotPeriod(k, r.mask);
    assert TicketOk(r, k) || k < r.deq;
    if k < r.deq {
      if k + r.Cap() < r.enq {
        TurnAtLeast(r, k + r.Cap());
      } else {
        assert TicketOk(r, k + r.Cap());
      }
    }
  }

  /** The cell of the next push ticket is free for it, or still belongs to the lap before. */
  lemma NextPushTurn<T>(r: Ring<T>)
    requires Shape(r) && TicketsOk(r)
    ensures r.At(r.enq).turn <= r.enq
    ensures r.At(r.enq).turn == r.enq ==> r.enq < r.deq + r.Cap()
    ensures r.At(r.enq).turn < r.enq ==>
      && r.Cap() <= r.enq && r.At(r.enq).turn <= r.enq - r.Cap() + 1
      && (r.enq - r.Cap() < r.deq ==> Reading(r, r.enq - r.Cap()))
  {
    if r.enq < r.deq + r.Cap() {
      assert TicketOk(r, r.enq);
    } else {
      SlotPeriod(r.deq, r.mask);
      assert TicketOk(r, r.deq);
    }
  }

  lemma NextPopTurn<T>(r: Ring<T>)
    requires Shape(r) && TicketsOk(r)
    ensures r.At(r.deq).turn <= r.deq + 1
    ensures r.At(r.deq).turn == r.deq + 1 <==> r.deq < r.enq && Published(r, r.deq)
  {
    assert TicketOk(r, r.deq);
  }

  // ---------------------------------------------------------------------------
  // Every step keeps the invariant

  lemma InitInv<T>(mask: nat, n: nat)
    requires IsPow2(mask + 1) && 1 <= mask
    ensures Inv(Init<T>(mask, n))
  {
    var r := Init<T>(mask, n);
    forall k | 0 <= k < r.Cap()
      ensures TicketOk(r, k)
    {
      SlotOfFirstLap(k, mask);
    }
  }

  ghost predicate Owns<T>(at: Thread<T>) {
    at.PushOwn? || at.PushDone? || at.PopOwn? || at.PopDone?
  }

  /** A step that touches nothing but the locals of a thread that owns no ticket. */
  lemma LocalStep<T>(r: Ring<T>, t: nat, at: Thread<T>)
    requires Inv(r) && t < |r.threads| && !Owns(r.threads[t]) && !Owns(at)
    requires ThreadOk(r.Goto(t, at), t)
    ensures Inv(r.Goto(t, at))
  {
    var r' := r.Goto(t, at);
    hide Slot;
    forall k | r.deq <= k < r.deq + r.Cap()
      ensures TicketOk(r', k)
    {
      assert TicketOk(r, k);
    }
    forall u | 0 <= u < |r'.threads|
      ensures ThreadOk(r', u)
    {
      assert ThreadOk(r, u);
    }
    forall k: int
      ensures Delivered(r', k) <==> Delivered(r, k)
    {
    }
    hide TicketOk, ThreadOk, Delivered;
  }

  ghost predicate OwnsTicket<T>(r: Ring<T>, t: nat, pos: nat) {
    t < |r.threads| && Owns(r.threads[t]) && r.threads[t].pos == pos
  }

  /** No two threads inside a cell at once: the tickets they own use different cells. */
  lemma Exclusive<T>(r: Ring<T>, t: nat, u: nat, p: nat, q: nat)
    requires Shape(r) && t != u && OwnsTicket(r, t, p) && OwnsTicket(r, u, q)
    requires ThreadOk(r, t) && ThreadOk(r, u)
    ensures Slot(p, r.mask) != Slot(q, r.mask)
  {
    Apart(p, q, r.mask);
  }

  // The four steps an owner takes change its own cell and its own thread, nothing else.

  ghost predicate OwnerStep<T>(r: Ring<T>, r': Ring<T>, t: nat, pos: nat)
    requires Shape(r) && OwnsTicket(r, t, pos)
  {
    && r'.mask == r.mask && r'.enq == r.enq && r'.deq == r.deq
    && r'.claims == r.claims && r'.takers == r.takers
    && |r'.threads| == |r.threads| && |r'.cells| == |r.cells|
    && (forall u :: 0 <= u < |r.threads| && u != t ==> r'.threads[u] == r.threads[u])
    && (forall i :: 0 <= i < |r.cells| && i != Slot(pos, r.mask) ==> r'.cells[i] == r.cells[i])
    && r.At(pos).turn <= r'.At(pos).turn
  }

  lemma OtherTicket<T>(r: Ring<T>, r': Ring<T>, t: nat, pos: nat, k: nat)
    requires Shape(r) && OwnsTicket(r, t, pos) && OwnerStep(r, r', t, pos)
    requires Slot(k, r.mask) != Slot(pos, r.mask) && TicketOk(r, k)
    ensures TicketOk(r', k)
  {
    if r.Cap() <= k {
      SlotPeriod(k - r.Cap(), r.mask);
    }
  }

  lemma OtherThread<T>(r: Ring<T>, r': Ring<T>, t: nat, pos: nat, u: nat)
    requires Shape(r) && OwnsTicket(r, t, pos) && OwnerStep(r, r', t, pos)
    requires ThreadOk(r, t) && u < |r.threads| && u != t && ThreadOk(r, u)
    ensures ThreadOk(r', u)
  {
    if Owns(r.threads[u]) {
      Exclusive(r, t, u, pos, r.threads[u].pos);
    }
  }

  lemma OwnerStepKeeps<T>(r: Ring<T>, r': Ring<T>, t: nat, pos: nat, k: nat)
    requires Inv(r) && OwnsTicket(r, t, pos) && OwnerStep(r, r', t, pos)
    requires r.deq <= k < r.deq + r.Cap() && Slot(k, r.mask) == Slot(pos, r.mask)
    requires ThreadOk(r', t) && TicketOk(r', k)
    ensures Shape(r') && TicketsOk(r') && ThreadsOk(r')
  {
    forall j | r'.deq <= j < r'.deq + r'.Cap()
      ensures TicketOk(r', j)
    {
      assert TicketOk(r, j);
      Apart(j, k, r.mask);
      if j != k {
        OtherTicket(r, r', t, pos, j);
      }
    }
    forall u | 0 <= u < |r'.threads|
      ensures ThreadOk(r', u)
    {
      assert ThreadOk(r, t) && ThreadOk(r, u);
      if u != t {
        OtherThread(r, r', t, pos, u);
      }
    }
  }

  /** The histories stand as long as cells move past no claimed ticket unrecorded. */
  lemma HistoryKeeps<T>(r: Ring<T>, r': Ring<T>)
    requires Shape(r) && Shape(r') && PushedOk(r) && PoppedOk(r)
    requires r'.mask == r.mask && r'.pushed == r.pushed && r'.popped == r.popped
    requires r.enq <= r'.enq && r.deq <= r'.deq && r.claims <= r'.claims
    requires forall i :: 0 <= i < |r.cells| ==> r'.cells[i].turn == r.cells[i].turn
    requires r.enq < r'.enq ==> r'.enq == r.enq + 1 && r'.At(r.enq).turn == r.enq
    requires r.deq < r'.deq ==> r'.deq == r.deq + 1 && r'.At(r.deq).turn == r.deq + 1
    ensures PushedOk(r') && PoppedOk(r')
  {
    forall k: int
      ensures Delivered(r', k) <==> Delivered(r, k)
    {
    }
  }

  lemma WritePush<T>(r: Ring<T>, t: nat)
    requires Inv(r) && t < |r.threads| && r.threads[t].PushOwn?
    ensures Inv(Do(r, t, Go))
  {
    var r', pos := Do(r, t, Go), r.threads[t].pos;
    assert ThreadOk(r, t);
    OwnerStepKeeps(r, r', t, pos, pos);
    HistoryKeeps(r, r');
  }

  lemma TakePop<T>(r: Ring<T>, t: nat)
    requires Inv(r) && t < |r.threads| && r.threads[t].PopOwn?
    ensures Inv(Do(r, t, Go))
  {
    var r', pos := Do(r, t, Go), r.threads[t].pos;
    assert ThreadOk(r, t);
    SlotPeriod(pos, r.mask);
    assert TicketOk(r, pos + r.Cap());
    hide Slot, PushedOk, PoppedOk;
    OwnerStepKeeps(r, r', t, pos, pos + r.Cap());
    HistoryKeeps(r, r');
  }

  /** Publishing one ticket's cell moves exactly that ticket past its own number, and none further. */
  lemma PublishedTicket<T>(r: Ring<T>, t: nat, k: nat)
    requires Shape(r) && TicketsOk(r) && t < |r.threads| && r.threads[t].PushDone? && k < r.enq && ThreadOk(r, t)
    ensures var turn := Do(r, t, Go).At(k).turn;
            && (turn > k <==> r.At(k).turn > k || k == r.threads[t].pos)
            && (k < r.deq ==> (turn > k + 1 <==> r.At(k).turn > k + 1))
  {
    Apart(k, r.threads[t].pos, r.mask);
    TurnAtLeast(r, k);
    hide Slot, TicketsOk;
  }

  lemma PublishHistory<T>(r: Ring<T>, t: nat)
    requires Inv(r) && t < |r.threads| && r.threads[t].PushDone?
    ensures Shape(Do(r, t, Go)) && PushedOk(Do(r, t, Go)) && PoppedOk(Do(r, t, Go))
  {
    var r', pos := Do(r, t, Go), r.threads[t].pos;
    assert ThreadOk(r, t);
    assert pos !in r.pushed;
    hide Slot, TicketsOk, ThreadsOk;
    forall k: nat | k < r.enq
      ensures k in r'.pushed <==> r'.At(k).turn > k
    {
      PublishedTicket(r, t, k);
    }
    forall k: int
      ensures Delivered(r', k) <==> 0 <= k < r'.deq && r'.At(k).turn > k + 1
    {
      assert Delivered(r', k) <==> Delivered(r, k);
      if 0 <= k < r'.deq {
        PublishedTicket(r, t, k);
      }
    }
    hide Delivered;
  }

  lemma PublishPush<T>(r: Ring<T>, t: nat)
    requires Inv(r) && t < |r.threads| && r.threads[t].PushDone?
    ensures Inv(Do(r, t, Go))
  {
    var pos := r.threads[t].pos;
    assert ThreadOk(r, t);
    OwnerStepKeeps(r, Do(r, t, Go), t, pos, pos);
    PublishHistory(r, t);
  }

  lemma AppendPopped<T>(r: Ring<T>, r': Ring<T>, p: Popped<T>)
    requires r'.popped == r.popped + [p]
    ensures forall k :: Delivered(r', k) <==> Delivered(r, k) || k == p.ticket
  {
    assert r'.popped[|r.popped|] == p;
    assert forall i :: 0 <= i < |r.popped| ==> r'.popped[i] == r.popped[i];
  }

  /** Recycling one ticket's cell takes exactly that ticket past its turn. */
  lemma RecycledTicket<T>(r: Ring<T>, t: nat, k: nat)
    requires Shape(r) && t < |r.threads| && r.threads[t].PopDone? && k < r.deq && ThreadOk(r, t)
    ensures Do(r, t, Go).At(k).turn > k + 1 <==> r.At(k).turn > k + 1 || k == r.threads[t].pos
  {
    Apart(k, r.threads[t].pos, r.mask);
    hide Slot;
  }

  lemma RecyclePopped<T>(r: Ring<T>, t: nat)
    requires Inv(r) && t < |r.threads| && r.threads[t].PopDone?
    ensures Shape(Do(r, t, Go)) && PoppedOk(Do(r, t, Go))
  {
    var r', pos := Do(r, t, Go), r.threads[t].pos;
    assert ThreadOk(r, t);
    assert !Delivered(r, pos);
    AppendPopped(r, r', Popped(pos, r.threads[t].value));
    hide Slot, TicketsOk, ThreadsOk, PushedOk;
    forall k: int
      ensures Delivered(r', k) <==> 0 <= k < r'.deq && r'.At(k).turn > k + 1
    {
      if 0 <= k < r'.deq {
        RecycledTicket(r, t, k);
      }
    }
    hide Delivered;
  }

  lemma RecyclePop<T>(r: Ring<T>, t: nat)
    requires Inv(r) && t < |r.threads| && r.threads[t].PopDone?
    ensures Inv(Do(r, t, Go))
  {
    var r', pos := Do(r, t, Go), r.threads[t].pos;
    assert ThreadOk(r, t);
    SlotPeriod(pos, r.mask);
    OwnerStepKeeps(r, r', t, pos, pos + r.Cap());
    forall k: nat | k < r.enq
      ensures k in r'.pushed <==> r'.At(k).turn > k
    {
      Apart(k, pos, r.mask);
    }
    RecyclePopped(r, t);
  }

  lemma ClaimPushTicket<T>(r: Ring<T>, t: nat, k: nat)
    requires Inv(r) && t < |r.threads| && r.threads[t].PushTry? && r.threads[t].pos == r.enq
    requires r.At(r.enq).turn == r.enq < r.deq + r.Cap() && r.deq <= k < r.deq + r.Cap()
    ensures TicketOk(Do(r, t, Go), k)
  {
    assert TicketOk(r, k);
    hide Slot, PushedOk, PoppedOk, TicketsOk, ThreadsOk;
  }

  lemma ClaimPopTicket<T>(r: Ring<T>, t: nat, k: nat)
    requires Inv(r) && t < |r.threads| && r.threads[t].PopTry? && r.threads[t].pos == r.deq
    requires r.deq < r.enq && Published(r, r.deq) && r.deq < k <= r.deq + r.Cap()
    ensures TicketOk(Do(r, t, Go), k)
  {
    SlotPeriod(r.deq, r.mask);
    assert k < r.deq + r.Cap() ==> TicketOk(r, k);
    hide Slot, PushedOk, PoppedOk, TicketsOk, ThreadsOk;
  }

  lemma ClaimPush<T>(r: Ring<T>, t: nat)
    requires Inv(r) && t < |r.threads| && r.threads[t].PushTry? && r.threads[t].pos == r.enq
    ensures Inv(Do(r, t, Go))
  {
    var r' := Do(r, t, Go);
    assert ThreadOk(r, t);
    NextPushTurn(r);
    hide Slot, PushedOk, PoppedOk, Delivered;
    hide TicketOk;
    forall k | r'.deq <= k < r'.deq + r'.Cap()
      ensures TicketOk(r', k)
    {
      ClaimPushTicket(r, t, k);
    }
    forall u | 0 <= u < |r'.threads|
      ensures ThreadOk(r', u)
    {
      ClaimKeepsThread(r, r', t, u);
    }
    HistoryKeeps(r, r');
  }

  lemma ClaimPop<T>(r: Ring<T>, t: nat)
    requires Inv(r) && t < |r.threads| && r.threads[t].PopTry? && r.threads[t].pos == r.deq
    ensures Inv(Do(r, t, Go))
  {
    var r' := Do(r, t, Go);
    assert ThreadOk(r, t);
    NextPopTurn(r);
    assert r.deq < r.enq && Published(r, r.deq);
    hide Slot, PushedOk, PoppedOk, Delivered, TicketOk;
    forall k | r'.deq <= k < r'.deq + r'.Cap()
      ensures TicketOk(r', k)
    {
      ClaimPopTicket(r, t, k);
    }
    forall u | 0 <= u < |r'.threads|
      ensures ThreadOk(r', u)
    {
      ClaimKeepsThread(r, r', t, u);
    }
    HistoryKeeps(r, r');
  }

  /** Winning a compare-and-swap claims the next ticket and leaves other threads' facts alone. */
  lemma ClaimKeepsThread<T>(r: Ring<T>, r': Ring<T>, t: nat, u: nat)
    requires Shape(r) && Shape(r') && t < |r.threads| && u < |r.threads| && |r'.threads| == |r.threads|
    requires ThreadOk(r, u)
    requires u != t ==> r'.threads[u] == r.threads[u]
    requires u == t ==> ThreadOk(r', t)
    requires r'.mask == r.mask && r'.cells == r.cells
    requires r.claims <= r'.claims && r.takers <= r'.takers
    requires r'.deq == r.deq || (r'.deq == r.deq + 1 && r.At(r.deq).turn == r.deq + 1)
    requires r'.enq == r.enq || (r'.enq == r.enq + 1 && r.At(r.enq).turn == r.enq)
    ensures ThreadOk(r', u)
  {
    if r.threads[u].PopOwn? || r.threads[u].PopDone? {
      Apart(r.threads[u].pos, r.enq, r.mask);
      SlotPeriod(r.threads[u].pos, r.mask);
    }
  }

  lemma PushStepInv<T>(r: Ring<T>, t: nat, a: Act<T>)
    requires Inv(r) && t < |r.threads|
    requires r.threads[t].PushAt? || r.threads[t].PushTry? || r.threads[t].PushStale?
    ensures Inv(Do(r, t, a))
  {
    assert ThreadOk(r, t);
    if r.threads[t].PushTry? && a == Go && r.threads[t].pos == r.enq {
      ClaimPush(r, t);
    } else {
      LocalStep(r, t, Do(r, t, a).threads[t]);
    }
  }

  lemma PopStepInv<T>(r: Ring<T>, t: nat, a: Act<T>)
    requires Inv(r) && t < |r.threads|
    requires r.threads[t].PopAt? || r.threads[t].PopTry? || r.threads[t].PopStale?
    ensures Inv(Do(r, t, a))
  {
    assert ThreadOk(r, t);
    if r.threads[t].PopTry? && a == Go && r.threads[t].pos == r.deq {
      ClaimPop(r, t);
    } else {
      LocalStep(r, t, Do(r, t, a).threads[t]);
    }
  }

  /** Whatever a thread does next, the invariant holds afterwards. */
  lemma {:induction false} StepInv<T>(r: Ring<T>, t: nat, a: Act<T>)
    requires Inv(r) && t < |r.threads|
    ensures Inv(Do(r, t, a))
  {
    match r.threads[t] {
      case Idle => LocalStep(r, t, Do(r, t, a).threads[t]);
      case PushOwn(_, _) => if a == Go { WritePush(r, t); }
      case PushDone(_) => if a == Go { PublishPush(r, t); }
      case PopOwn(_) => if a == Go { TakePop(r, t); }
      case PopDone(_, _) => if a == Go { RecyclePop(r, t); }
      case PushAt(_, _) => PushStepInv(r, t, a);
      case PushTry(_, _) => PushStepInv(r, t, a);
      case PushStale(_) => PushStepInv(r, t, a);
      case _ => PopStepInv(r, t, a);
    }
  }
}
