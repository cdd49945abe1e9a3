/**
  mpmc_queue.hpp as a class whose calls run undisturbed. Each atomic operation of the
  code carries along, as ghost state, the step of the transition system it performs.
 */
module MpmcQueue {
  import opened Wrappers
  import opened Capacity
  import opened MpmcRing

  /** Between calls a ring with one thread holds published tickets and free ones only. */
  lemma QuietTicket<T>(r: Ring<T>, k: nat)
    requires Inv(r) && r.threads == [Idle] && r.deq <= k < r.deq + r.Cap()
    ensures k < r.enq ==> Published(r, k)
    ensures r.enq <= k ==> r.At(k).turn == k
  {
    assert TicketOk(r, k);
  }

  /** Whether the next push or pop finds its cell ready is a matter of the two positions. */
  lemma QuietRing<T>(r: Ring<T>)
    requires Inv(r) && r.threads == [Idle]
    ensures r.At(r.enq).turn <= r.enq && r.At(r.deq).turn <= r.deq + 1
    ensures r.At(r.enq).turn == r.enq <==> r.enq < r.deq + r.Cap()
    ensures r.At(r.deq).turn == r.deq + 1 <==> r.deq < r.enq
    ensures r.deq < r.enq ==> r.At(r.deq).data == Some(r.claims[r.deq].value)
  {
    NextPushTurn(r);
    NextPopTurn(r);
    if r.enq < r.deq + r.Cap() {
      QuietTicket(r, r.enq);
    }
    QuietTicket(r, r.deq);
  }

  /** The five steps of one whole call of the only thread. */
  function Ran<T>(r: Ring<T>, call: Act<T>): (r': Ring<T>)
    requires |r.threads| == 1 && |r.cells| == r.Cap()
    ensures |r'.threads| == 1 && |r'.cells| == r'.Cap()
  {
    Do(Do(Do(Do(Do(r, 0, call), 0, Go), 0, Go), 0, Go), 0, Go)
  }

  lemma RanKeeps<T>(r: Ring<T>, call: Act<T>)
    requires Inv(r) && |r.threads| == 1 && |r.cells| == r.Cap()
    ensures Inv(Ran(r, call))
  {
    hide Inv, Do;
    StepInv(r, 0, call);
    var r1 := Do(r, 0, call);
    StepInv(r1, 0, Go);
    var r2 := Do(r1, 0, Go);
    StepInv(r2, 0, Go);
    var r3 := Do(r2, 0, Go);
    StepInv(r3, 0, Go);
    StepInv(Do(r3, 0, Go), 0, Go);
  }

  /** The first three steps of an undisturbed push: entry, load, compare-and-swap. */
  lemma PushClaims<T>(r: Ring<T>, v: T)
    requires r.threads == [Idle] && |r.cells| == r.Cap() && r.At(r.enq).turn == r.enq
    ensures Do(Do(Do(r, 0, CallPush(v)), 0, Go), 0, Go)
         == r.Goto(0, PushOwn(v, r.enq)).(enq := r.enq + 1, claims := r.claims + [Claim(0, v)])
  {
    hide Slot;
    var r1 := r.Goto(0, PushAt(v, r.enq));
    assert Do(r, 0, CallPush(v)) == r1;
    assert Do(r1, 0, Go) == r.Goto(0, PushTry(v, r.enq));
  }

  /** The last two: the value moves in and is published. */
  lemma PushWrites<T>(r: Ring<T>, v: T, pos: nat)
    requires r.threads == [PushOwn(v, pos)] && |r.cells| == r.Cap()
    ensures Do(Do(r, 0, Go), 0, Go)
         == r.Put(pos, Cell(pos + 1, Some(v))).Goto(0, Idle).(pushed := r.pushed + [pos])
  {
    hide Slot;
    var i := Slot(pos, r.mask);
    var r1 := r.Put(pos, r.At(pos).(data := Some(v))).Goto(0, PushDone(pos));
    assert Do(r, 0, Go) == r1;
    assert r1.cells[i := Cell(pos + 1, Some(v))] == r.cells[i := Cell(pos + 1, Some(v))];
  }

  lemma PopClaims<T>(r: Ring<T>)
    requires r.threads == [Idle] && |r.cells| == r.Cap() && r.At(r.deq).turn == r.deq + 1
    ensures Do(Do(Do(r, 0, CallPop), 0, Go), 0, Go)
         == r.Goto(0, PopOwn(r.deq)).(deq := r.deq + 1, takers := r.takers + [0])
  {
    hide Slot;
    var r1 := r.Goto(0, PopAt(r.deq));
    assert Do(r, 0, CallPop) == r1;
    assert Do(r1, 0, Go) == r.Goto(0, PopTry(r.deq));
  }

  lemma PopTakes<T>(r: Ring<T>, pos: nat, v: T)
    requires r.threads == [PopOwn(pos)] && |r.cells| == r.Cap() && r.At(pos).data == Some(v)
    ensures Do(Do(r, 0, Go), 0, Go)
         == r.Put(pos, Cell(pos + r.Cap(), None)).Goto(0, Idle).(popped := r.popped + [Popped(pos, v)])
  {
    hide Slot;
    var i := Slot(pos, r.mask);
    var r1 := r.Put(pos, r.At(pos).(data := None)).Goto(0, PopDone(pos, v));
    assert Do(r, 0, Go) == r1;
    assert r1.cells[i := Cell(pos + r.Cap(), None)] == r.cells[i := Cell(pos + r.Cap(), None)];
  }

  lemma PushRuns<T>(r: Ring<T>, v: T)
    requires r.threads == [Idle] && |r.cells| == r.Cap() && r.At(r.enq).turn == r.enq
    ensures Ran(r, CallPush(v))
         == r.Put(r.enq, Cell(r.enq + 1, Some(v)))
             .(enq := r.enq + 1, claims := r.claims + [Claim(0, v)], pushed := r.pushed + [r.enq])
  {
    PushClaims(r, v);
    var r3 := r.Goto(0, PushOwn(v, r.enq)).(enq := r.enq + 1, claims := r.claims + [Claim(0, v)]);
    PushWrites(r3, v, r.enq);
    hide Do, Slot;
    assert r3.Goto(0, Idle).threads == r.threads;
  }

  lemma PopRuns<T>(r: Ring<T>, v: T)
    requires r.threads == [Idle] && |r.cells| == r.Cap() && r.At(r.deq) == Cell(r.deq + 1, Some(v))
    ensures Ran(r, CallPop)
         == r.Put(r.deq, Cell(r.deq + r.Cap(), None))
             .(deq := r.deq + 1, takers := r.takers + [0], popped := r.popped + [Popped(r.deq, v)])
  {
    PopClaims(r);
    var r3 := r.Goto(0, PopOwn(r.deq)).(deq := r.deq + 1, takers := r.takers + [0]);
    PopTakes(r3, r.deq, v);
    hide Do, Slot;
    assert r3.Goto(0, Idle).threads == r.threads;
  }

  /** The ring after one thread has run a whole successful push. */
  ghost function Push<T>(r: Ring<T>, v: T): (r': Ring<T>)
    requires Inv(r) && r.threads == [Idle] && r.enq < r.deq + r.Cap()
    ensures Inv(r') && r'.threads == [Idle]
    ensures r' == r.Put(r.enq, Cell(r.enq + 1, Some(v)))
                   .(enq := r.enq + 1, claims := r.claims + [Claim(0, v)], pushed := r.pushed + [r.enq])
  {
    QuietRing(r);
    PushRuns(r, v);
    RanKeeps(r, CallPush(v));
    Ran(r, CallPush(v))
  }

  ghost function Pop<T>(r: Ring<T>): (r': Ring<T>)
    requires Inv(r) && r.threads == [Idle] && r.deq < r.enq
    ensures Inv(r') && r'.threads == [Idle]
    ensures r' == r.Put(r.deq, Cell(r.deq + r.Cap(), None))
                   .(deq := r.deq + 1, takers := r.takers + [0],
                     popped := r.popped + [Popped(r.deq, r.claims[r.deq].value)])
  {
    QuietRing(r);
    PopRuns(r, r.claims[r.deq].value);
    RanKeeps(r, CallPop);
    Ran(r, CallPop)
  }

  function Values<T>(claims: seq<Claim<T>>): (vs: seq<T>)
    ensures |vs| == |claims| && forall i :: 0 <= i < |vs| ==> vs[i] == claims[i].value
  {
    seq(|claims|, i requires 0 <= i < |claims| => claims[i].value)
  }

  lemma Oldest<T>(claims: seq<Claim<T>>, d: nat)
    requires d < |claims|
    ensures Values(claims[d..]) == [claims[d].value] + Values(claims[d + 1..])
  {
  }

  class MpmcQueue<T> {
    const mask: nat
    const buffer: array<Cell<T>>
    var enqueuePos: nat
    var dequeuePos: nat
    ghost var ring: Ring<T>

    ghost predicate Valid()
      reads this, buffer
    {
      && Inv(ring) && ring.threads == [Idle]
      && ring.mask == mask && ring.cells == buffer[..]
      && ring.enq == enqueuePos && ring.deq == dequeuePos
    }

    ghost function Contents(): (vs: seq<T>)
      requires Valid()
      reads this, buffer
      ensures |vs| <= mask + 1
    {
      Values(ring.claims[ring.deq..])
    }

    constructor (capacity: nat)
      requires IsPow2(capacity) && 2 <= capacity
      ensures Valid() && fresh(buffer) && mask + 1 == capacity && Contents() == []
    {
      mask := capacity - 1;
      buffer := new Cell<T>[capacity];
      enqueuePos, dequeuePos := 0, 0;
      ring := Init(capacity - 1, 1);
      new;
      for i := 0 to capacity
        invariant ring == Init(capacity - 1, 1) && enqueuePos == dequeuePos == 0
        invariant forall j :: 0 <= j < i ==> buffer[j] == Cell(j, None)
      {
        buffer[i] := Cell(i, None);
      }
      assert buffer[..] == ring.cells && ring.threads == [Idle];
      InitInv<T>(capacity - 1, 1);
    }

    /** Succeeds exactly when there is room, appending the value; changes nothing otherwise. */
    method TryPush(value: T) returns (ok: bool)
      requires Valid()
      modifies this`enqueuePos, this`ring, buffer
      ensures Valid()
      ensures ok <==> |old(Contents())| < mask + 1
      ensures Contents() == if ok then old(Contents()) + [value] else old(Contents())
    {
      hide Push, TicketsOk, ThreadsOk, PushedOk, PoppedOk, Slot;
      var pos := enqueuePos;
      var i := Slot(pos, mask);
      QuietRing(ring);
      if buffer[i].turn < pos {
        return false;  // full
      }
      enqueuePos := pos + 1;  // the compare-and-swap: undisturbed, it succeeds at once
      buffer[i] := buffer[i].(data := Some(value));
      buffer[i] := buffer[i].(turn := pos + 1);
      ring := Push(ring, value);
      return true;
    }

    /** Succeeds exactly when the queue is not empty, removing the oldest value. */
    method TryPop() returns (out: Option<T>)
      requires Valid()
      modifies this`dequeuePos, this`ring, buffer
      ensures Valid()
      ensures old(Contents()) == [] ==> out == None && Contents() == []
      ensures old(Contents()) != [] ==>
                out == Some(old(Contents())[0]) && Contents() == old(Contents())[1..]
    {
      hide Pop, TicketsOk, ThreadsOk, PushedOk, PoppedOk, Slot;
      var pos := dequeuePos;
      var i := Slot(pos, mask);
      QuietRing(ring);
      if buffer[i].turn < pos + 1 {
        return None;  // empty
      }
      Oldest(ring.claims, pos);
      dequeuePos := pos + 1;
      out := buffer[i].data;
      buffer[i] := buffer[i].(data := None);
      buffer[i] := buffer[i].(turn := pos + mask + 1);
      ring := Pop(ring);
    }
  }
}
