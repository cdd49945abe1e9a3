/**
  Adapters, sink, queue and consumer of main.cpp as one transition system over the
  queue's own steps, through the signal, the join of the adapters and the final drain.
 */
module Pipeline {
  import opened Wrappers
  import opened Capacity
  import opened MpmcRing
  import opened MpmcRuns

  /** One adapter thread: between lines, inside try_push with its event, refused and at
      the head of the retry loop, or joined. */
  datatype Adapter<E> =
    | Reading
    | Pushing(event: E, refusals: nat)
    | Refused(event: E, refusals: nat)
    | Joined

  /** Each session has up to two adapters: one on its message log, one on its event log. */
  datatype Kind = MessageLog | EventLog

  /** What an adapter makes of a line. A message log line is a message or nothing; an event
      log line, which the tailer never hands on empty, always makes an event, if only one
      that says no rule matched. */
  datatype Parsed<E> = Nothing | Understood(event: E) | Unmatched(event: E)

  /** What an adapter has counted, and what it made of each line so far. */
  datatype Tally<E> = Tally(lines: nat, parseErrors: nat, accepted: nat, dropped: nat, seen: seq<Parsed<E>>)

  /** The consumer: at the top of its loop, popping, waiting for adapters to finish,
      draining what they left, or done. */
  datatype Consumer = LoopTop | Polling | Joining | Draining | Exited

  /** Thread i of the ring is adapter i; the last thread is the consumer. */
  datatype Pipe<E> = Pipe(
    waitMs: nat, kinds: seq<Kind>, stop: bool, ring: Ring<E>, adapters: seq<Adapter<E>>, tallies: seq<Tally<E>>,
    consumer: Consumer, staged: seq<E>)

  datatype Move<E> =
    | Signal                                  // SIGINT or SIGTERM sets g_stop
    | Line(adapter: nat, parsed: Parsed<E>)   // the tailer hands a line to the adapter
    | Atomic(adapter: nat, spurious: bool)    // the adapter's next atomic operation in try_push
    | Retry(adapter: nat)                     // the sink's loop head after a refused push
    | Finish(adapter: nat)                    // stop() lets the adapter's thread return
    | Consume(spurious: bool)                 // the consumer's next operation

  predicate WellSized<E>(p: Pipe<E>) {
    && |p.ring.cells| == p.ring.Cap() && |p.ring.threads| == |p.adapters| + 1
    && |p.tallies| == |p.adapters| == |p.kinds|
  }

  function Start<E>(mask: nat, kinds: seq<Kind>, waitMs: nat): Pipe<E> {
    Pipe(waitMs, kinds, false, Init(mask, |kinds| + 1), seq(|kinds|, i => Reading),
         seq(|kinds|, i => Tally(0, 0, 0, 0, [])), LoopTop, [])
  }

  /** The results an adapter of a kind can come to. */
  predicate Possible<E>(k: Kind, parsed: Parsed<E>) {
    match k
    case MessageLog => !parsed.Unmatched?
    case EventLog => !parsed.Nothing?
  }

  /** The lines counted as parse errors: messages not understood, and event log lines no rule
      matched, which are passed on all the same. */
  predicate IsError<E>(k: Kind, parsed: Parsed<E>) {
    match k
    case MessageLog => parsed.Nothing?
    case EventLog => parsed.Unmatched?
  }

  function Noted<E>(t: Tally<E>, k: Kind, parsed: Parsed<E>): Tally<E> {
    t.(lines := t.lines + 1, parseErrors := t.parseErrors + (if IsError(k, parsed) then 1 else 0),
       seen := t.seen + [parsed])
  }

  function Operation<E>(spurious: bool): Act<E> {
    if spurious then Spurious else Go
  }

  function Moved<E>(p: Pipe<E>, m: Move<E>): (p': Pipe<E>)
    requires WellSized(p)
    ensures WellSized(p') && p'.waitMs == p.waitMs && p'.kinds == p.kinds
  {
    match m
    case Signal => p.(stop := true)
    case Line(a, parsed) =>
      if a < |p.adapters| && p.adapters[a].Reading? && Possible(p.kinds[a], parsed) then
        var noted := p.(tallies := p.tallies[a := Noted(p.tallies[a], p.kinds[a], parsed)]);
        if parsed.Nothing? then noted else EnterPush(noted, a, parsed.event, 0)
      else p
    case Atomic(a, spurious) =>
      if a < |p.adapters| && p.adapters[a].Pushing? then AdapterOperation(p, a, spurious) else p
    case Retry(a) =>
      if a < |p.adapters| && p.adapters[a].Refused? then
        var n := p.adapters[a].refusals;
        if n <= p.waitMs && !p.stop then EnterPush(p, a, p.adapters[a].event, n)
        else
          p.(adapters := p.adapters[a := Reading],
             tallies := p.tallies[a := p.tallies[a].(dropped := p.tallies[a].dropped + 1)])
      else p
    case Finish(a) =>
      if a < |p.adapters| && p.adapters[a].Reading? && p.consumer == Joining
      then p.(adapters := p.adapters[a := Joined])
      else p
    case Consume(spurious) => ConsumerOperation(p, spurious)
  }

  function EnterPush<E>(p: Pipe<E>, a: nat, ev: E, n: nat): (p': Pipe<E>)
    requires WellSized(p) && a < |p.adapters|
    ensures WellSized(p') && p'.waitMs == p.waitMs && p'.kinds == p.kinds
  {
    p.(ring := Do(p.ring, a, CallPush(ev)), adapters := p.adapters[a := Pushing(ev, n)])
  }

  /** One operation of try_push; when it returns, the sink counts it or turns to its loop. */
  function AdapterOperation<E>(p: Pipe<E>, a: nat, spurious: bool): (p': Pipe<E>)
    requires WellSized(p) && a < |p.adapters| && p.adapters[a].Pushing?
    ensures WellSized(p') && p'.waitMs == p.waitMs && p'.kinds == p.kinds
  {
    var ring := Do(p.ring, a, Operation(spurious));
    var p' := p.(ring := ring);
    if !ring.threads[a].Idle? then p'
    else if p.ring.threads[a].PushDone? then
      p'.(adapters := p.adapters[a := Reading],
          tallies := p.tallies[a := p.tallies[a].(accepted := p.tallies[a].accepted + 1)])
    else
      p'.(adapters := p.adapters[a := Refused(p.adapters[a].event, p.adapters[a].refusals + 1)])
  }

  function ConsumerOperation<E>(p: Pipe<E>, spurious: bool): (p': Pipe<E>)
    requires WellSized(p)
    ensures WellSized(p') && p'.waitMs == p.waitMs && p'.kinds == p.kinds
  {
    var c := |p.adapters|;
    match p.consumer
    case LoopTop =>
      if p.stop then p.(consumer := Joining)
      else p.(consumer := Polling, ring := Do(p.ring, c, CallPop))
    case Joining =>
      if forall a :: 0 <= a < |p.adapters| ==> p.adapters[a].Joined?
      then p.(consumer := Draining) else p
    case Exited => p
    case _ =>
      if p.ring.threads[c].Idle? then p.(ring := Do(p.ring, c, CallPop))
      else
        var ring := Do(p.ring, c, Operation(spurious));
        var p' := p.(ring := ring);
        if !ring.threads[c].Idle? then p'
        else if p.ring.threads[c].PopDone? then p'.(staged := p.staged + [p.ring.threads[c].value])
        else p'.(consumer := if p.consumer == Polling then LoopTop else Exited)
  }

  function Moves<E>(p: Pipe<E>, ms: seq<Move<E>>): (p': Pipe<E>)
    requires WellSized(p)
    ensures WellSized(p') && p'.kinds == p.kinds && p'.waitMs == p.waitMs
  {
    if ms == [] then p else Moved(Moves(p, ms[..|ms| - 1]), ms[|ms| - 1])
  }

  // ---------------------------------------------------------------------------
  // The invariant

  /** The value a pushing thread carries, or has put into its ticket's cell. */
  ghost predicate Carries<E>(r: Ring<E>, t: nat, ev: E)
    requires t < |r.threads|
  {
    match r.threads[t]
    case PushAt(v, _) => v == ev
    case PushTry(v, _) => v == ev
    case PushStale(v) => v == ev
    case PushOwn(v, _) => v == ev
    case PushDone(pos) => pos < |r.claims| && r.claims[pos].value == ev
    case _ => false
  }

  /** Every line is accounted for: `held` is 1 while the sink has its event. A line that made
      no event was a parse error; one that made an event was accepted, dropped or is held. */
  predicate Balanced<E>(k: Kind, t: Tally<E>, held: nat) {
    && t.lines == (if k.MessageLog? then t.parseErrors else 0) + t.accepted + t.dropped + held
    && t.lines == |t.seen| && t.parseErrors == Errors(k, t.seen)
  }

  function Errors<E>(k: Kind, seen: seq<Parsed<E>>): nat {
    if seen == [] then 0
    else Errors(k, seen[..|seen| - 1]) + (if IsError(k, seen[|seen| - 1]) then 1 else 0)
  }

  /** The adapter's event is the one its thread is pushing, it has been refused no more
      often than the sink allows, and every line it read is accounted for. */
  ghost predicate AdapterOk<E>(p: Pipe<E>, a: nat)
    requires WellSized(p) && a < |p.adapters|
  {
    match p.adapters[a]
    case Pushing(ev, n) => Carries(p.ring, a, ev) && n <= p.waitMs && Balanced(p.kinds[a], p.tallies[a], 1)
    case Refused(ev, n) =>
      p.ring.threads[a] == Idle && 1 <= n <= p.waitMs + 1 && Balanced(p.kinds[a], p.tallies[a], 1)
    case _ => p.ring.threads[a] == Idle && Balanced(p.kinds[a], p.tallies[a], 0)
  }

  /** How many pushes of one thread have returned true. */
  ghost function AcceptedOf<E>(r: Ring<E>, pushed: seq<nat>, a: nat): nat {
    if pushed == [] then 0
    else
      AcceptedOf(r, pushed[..|pushed| - 1], a) +
      (if Pusher(r, pushed[|pushed| - 1]) == a then 1 else 0)
  }

  ghost predicate ConsumerOk<E>(p: Pipe<E>)
    requires WellSized(p)
  {
    var at := p.ring.threads[|p.adapters|];
    && (p.consumer == LoopTop || p.consumer == Joining || p.consumer == Exited ==> at == Idle)
    && (at == Idle || InPop(at))
    && (p.consumer == Draining || p.consumer == Exited ==>
          forall a :: 0 <= a < |p.adapters| ==> p.adapters[a].Joined?)
    && (p.consumer == Exited ==> p.ring.deq == p.ring.enq)
  }

  ghost predicate StagedOk<E>(p: Pipe<E>) {
    |p.staged| == |p.ring.popped| && forall i :: 0 <= i < |p.staged| ==> p.staged[i] == p.ring.popped[i].value
  }

  ghost predicate Counted<E>(p: Pipe<E>)
    requires WellSized(p)
  {
    forall a :: 0 <= a < |p.adapters| ==> p.tallies[a].accepted == AcceptedOf(p.ring, p.ring.pushed, a)
  }

  ghost predicate AdaptersOk<E>(p: Pipe<E>, but: int)
    requires WellSized(p)
  {
    forall a :: 0 <= a < |p.adapters| && a != but ==> AdapterOk(p, a)
  }

  ghost predicate RingOk<E>(p: Pipe<E>) {
    Inv(p.ring) && Ordered(p.ring) && SoleConsumer(p.ring, |p.adapters|)
  }

  ghost predicate PipeInv<E>(p: Pipe<E>) {
    && WellSized(p) && RingOk(p)
    && AdaptersOk(p, -1) && Counted(p) && ConsumerOk(p) && StagedOk(p)
  }

  // ---------------------------------------------------------------------------
  // Every move keeps it

  /** Which histories one operation of the queue extends. */
  lemma Effects<T>(r: Ring<T>, t: nat, a: Act<T>)
    requires t < |r.threads| && |r.cells| == r.Cap()
    ensures var r' := Do(r, t, a);
            && r.claims <= r'.claims
            && r'.pushed == (if r.threads[t].PushDone? && a == Go then r.pushed + [r.threads[t].pos] else r.pushed)
            && r'.popped == (if r.threads[t].PopDone? && a == Go
                             then r.popped + [Popped(r.threads[t].pos, r.threads[t].value)] else r.popped)
  {
  }

  lemma {:induction false} AcceptedStable<E>(r: Ring<E>, r': Ring<E>, pushed: seq<nat>, a: nat)
    requires r.claims <= r'.claims && forall i :: 0 <= i < |pushed| ==> pushed[i] < |r.claims|
    ensures AcceptedOf(r', pushed, a) == AcceptedOf(r, pushed, a)
  {
    if pushed != [] {
      AcceptedStable(r, r', pushed[..|pushed| - 1], a);
    }
  }

  /** A queue operation of one thread leaves the other adapters' threads and counts as they are. */
  lemma OthersKeep<E>(p: Pipe<E>, t: nat, a: Act<E>, u: nat)
    requires WellSized(p) && Inv(p.ring) && t < |p.ring.threads| && u < |p.adapters| && u != t
    requires AdapterOk(p, u)
    ensures AdapterOk(p.(ring := Do(p.ring, t, a)), u)
  {
    Effects(p.ring, t, a);
    assert ThreadOk(p.ring, u);
  }

  lemma CountsKeep<E>(r: Ring<E>, t: nat, a: Act<E>, u: nat)
    requires Inv(r) && t < |r.threads|
    ensures AcceptedOf(Do(r, t, a), Do(r, t, a).pushed, u) ==
            AcceptedOf(r, r.pushed, u) + (if r.threads[t].PushDone? && a == Go && u == t then 1 else 0)
  {
    var r' := Do(r, t, a);
    Effects(r, t, a);
    forall i | 0 <= i < |r.pushed|
      ensures r.pushed[i] < |r.claims|
    {
      assert r.pushed[i] in r.pushed;
    }
    AcceptedStable(r, r', r.pushed, u);
    if r.threads[t].PushDone? && a == Go {
      assert ThreadOk(r, t);
      assert r'.pushed[..|r'.pushed| - 1] == r.pushed;
    }
  }

  /** An adapter's queue operation, seen from everything but that adapter itself. */
  lemma AdapterSide<E>(p: Pipe<E>, a: nat, act: Act<E>)
    requires WellSized(p) && RingOk(p) && a < |p.adapters|
    requires AdaptersOk(p, a) && ConsumerOk(p) && StagedOk(p) && !act.CallPop?
    requires !p.adapters[a].Joined? && p.consumer != Draining && p.consumer != Exited
    ensures var p' := p.(ring := Do(p.ring, a, act));
            && RingOk(p')
            && AdaptersOk(p', a) && ConsumerOk(p') && StagedOk(p')
  {
    StepInv(p.ring, a, act);
    OrderedStep(p.ring, a, act);
    SoleConsumerStep(p.ring, |p.adapters|, a, act);
    Effects(p.ring, a, act);
    forall u | 0 <= u < |p.adapters| && u != a
      ensures AdapterOk(p.(ring := Do(p.ring, a, act)), u)
    {
      OthersKeep(p, a, act, u);
    }
  }

  lemma CarriesOn<E>(r: Ring<E>, t: nat, ev: E, spurious: bool)
    requires Inv(r) && t < |r.threads| && Carries(r, t, ev)
    ensures var r' := Do(r, t, Operation(spurious));
            r'.threads[t] == Idle || Carries(r', t, ev)
  {
    assert ThreadOk(r, t);
  }

  /** The sink starts an attempt with the very event it was given. */
  lemma EnterPushKeeps<E>(p: Pipe<E>, a: nat, ev: E, n: nat)
    requires WellSized(p) && RingOk(p) && a < |p.adapters|
    requires AdaptersOk(p, a) && Counted(p) && ConsumerOk(p) && StagedOk(p)
    requires !p.adapters[a].Joined? && p.consumer != Draining && p.consumer != Exited
    requires p.ring.threads[a] == Idle && n <= p.waitMs
    requires Balanced(p.kinds[a], p.tallies[a], 1)
    ensures PipeInv(EnterPush(p, a, ev, n))
  {
    AdapterSide(p, a, CallPush(ev));
    var p1 := p.(ring := Do(p.ring, a, CallPush(ev)));
    var p' := EnterPush(p, a, ev, n);
    forall u | 0 <= u < |p.adapters|
      ensures AdapterOk(p', u) && p'.tallies[u].accepted == AcceptedOf(p'.ring, p'.ring.pushed, u)
    {
      CountsKeep(p.ring, a, CallPush(ev), u);
      assert u != a ==> AdapterOk(p1, u);
    }
  }

  lemma NotedBalances<E>(k: Kind, t: Tally<E>, parsed: Parsed<E>)
    requires Balanced(k, t, 0) && Possible(k, parsed)
    ensures Balanced(k, Noted(t, k, parsed), if parsed.Nothing? then 0 else 1)
  {
    assert Noted(t, k, parsed).seen[..|t.seen|] == t.seen;
  }

  lemma LineKeeps<E>(p: Pipe<E>, a: nat, parsed: Parsed<E>)
    requires PipeInv(p) && a < |p.adapters| && p.adapters[a].Reading? && Possible(p.kinds[a], parsed)
    ensures PipeInv(Moved(p, Line(a, parsed)))
  {
    assert AdapterOk(p, a);
    NotedBalances(p.kinds[a], p.tallies[a], parsed);
    hide Balanced;
    var p1 := p.(tallies := p.tallies[a := Noted(p.tallies[a], p.kinds[a], parsed)]);
    assert AdaptersOk(p1, a) by {
      forall u | 0 <= u < |p.adapters| && u != a
        ensures AdapterOk(p1, u)
      {
        assert AdapterOk(p, u);
      }
    }
    if !parsed.Nothing? {
      EnterPushKeeps(p1, a, parsed.event, 0);
    } else {
      forall u | 0 <= u < |p.adapters|
        ensures AdapterOk(p1, u)
      {
        assert u != a ==> AdapterOk(p1, u);
      }
    }
  }

  /** What one operation in try_push makes of the adapter that took it. */
  lemma AtomicOwn<E>(p: Pipe<E>, a: nat, spurious: bool)
    requires WellSized(p) && a < |p.adapters| && p.adapters[a].Pushing? && AdapterOk(p, a) && Inv(p.ring)
    ensures AdapterOk(AdapterOperation(p, a, spurious), a)
  {
    CarriesOn(p.ring, a, p.adapters[a].event, spurious);
    hide Carries, Inv, Errors;
  }

  /** What one operation in try_push leaves alone, and what it counts. */
  lemma AtomicFrame<E>(p: Pipe<E>, a: nat, spurious: bool)
    requires WellSized(p) && a < |p.adapters| && p.adapters[a].Pushing?
    ensures var p' := AdapterOperation(p, a, spurious);
            && p' == p.(ring := Do(p.ring, a, Operation(spurious)), adapters := p'.adapters, tallies := p'.tallies)
            && !p'.adapters[a].Joined?
            && (forall u | 0 <= u < |p.adapters| && u != a ::
                  p'.adapters[u] == p.adapters[u] && p'.tallies[u] == p.tallies[u])
            && p'.tallies[a].accepted
               == p.tallies[a].accepted + if p.ring.threads[a].PushDone? && !spurious then 1 else 0
  {
    PushReturns(p.ring, a, spurious);
    hide Do;
  }

  lemma SameAdapter<E>(p: Pipe<E>, p': Pipe<E>, u: nat)
    requires WellSized(p) && WellSized(p') && u < |p.adapters| && AdapterOk(p, u)
    requires p'.ring == p.ring && p'.waitMs == p.waitMs && p'.kinds == p.kinds
    requires p'.adapters[u] == p.adapters[u] && p'.tallies[u] == p.tallies[u]
    ensures AdapterOk(p', u)
  {
    hide Carries, Balanced;
  }

  lemma AtomicKeeps<E>(p: Pipe<E>, a: nat, spurious: bool)
    requires PipeInv(p) && a < |p.adapters| && p.adapters[a].Pushing?
    ensures PipeInv(AdapterOperation(p, a, spurious))
  {
    assert AdapterOk(p, a);
    var act := Operation(spurious);
    AdapterSide(p, a, act);
    AtomicOwn(p, a, spurious);
    AtomicFrame(p, a, spurious);
    var p1 := p.(ring := Do(p.ring, a, act));
    var p' := AdapterOperation(p, a, spurious);
    hide AdapterOperation, Do, Inv, Ordered, SoleConsumer, AdapterOk, AcceptedOf;
    forall u | 0 <= u < |p.adapters|
      ensures AdapterOk(p', u) && p'.tallies[u].accepted == AcceptedOf(p'.ring, p'.ring.pushed, u)
    {
      CountsKeep(p.ring, a, act, u);
      if u != a {
        SameAdapter(p1, p', u);
      }
    }
  }

  /** A push returns true exactly at its publishing step. */
  lemma PushReturns<E>(r: Ring<E>, t: nat, spurious: bool)
    requires t < |r.threads| && |r.cells| == r.Cap()
    ensures r.threads[t].PushDone? ==> (Do(r, t, Operation(spurious)).threads[t].Idle? <==> !spurious)
  {
  }

  lemma RetryKeeps<E>(p: Pipe<E>, a: nat)
    requires PipeInv(p) && a < |p.adapters| && p.adapters[a].Refused?
    ensures PipeInv(Moved(p, Retry(a)))
  {
    assert AdapterOk(p, a);
    hide Inv, Ordered, SoleConsumer, Errors, AcceptedOf;
    var n := p.adapters[a].refusals;
    if n <= p.waitMs && !p.stop {
      EnterPushKeeps(p, a, p.adapters[a].event, n);
    } else {
      var p' := Moved(p, Retry(a));
      forall u | 0 <= u < |p.adapters|
        ensures AdapterOk(p', u)
      {
        assert AdapterOk(p, u);
      }
    }
  }

  lemma FinishKeeps<E>(p: Pipe<E>, a: nat)
    requires PipeInv(p)
    ensures PipeInv(Moved(p, Finish(a)))
  {
    var p' := Moved(p, Finish(a));
    forall u | 0 <= u < |p.adapters|
      ensures AdapterOk(p', u)
    {
      assert AdapterOk(p, u);
    }
  }

  /** When every adapter has been joined, a pop that finds nothing means nothing is left. */
  lemma DrainedMeansEmpty<E>(p: Pipe<E>)
    requires PipeInv(p) && p.consumer == Draining && p.ring.threads[|p.adapters|].PopAt?
    requires Do(p.ring, |p.adapters|, Go).threads[|p.adapters|] == Idle
    ensures p.ring.deq == p.ring.enq
  {
    var c := |p.adapters|;
    PopFailsExactlyWhen(p.ring, c);
    assert TicketOk(p.ring, p.ring.deq);
    forall u | 0 <= u < c
      ensures p.ring.threads[u] == Idle
    {
      assert AdapterOk(p, u);
    }
  }

  lemma ConsumerRingStep<E>(p: Pipe<E>, act: Act<E>)
    requires PipeInv(p)
    ensures var p' := p.(ring := Do(p.ring, |p.adapters|, act));
            && RingOk(p') && AdaptersOk(p', -1)
            && (p.ring.threads[|p.adapters|].PushDone? || Counted(p'))
  {
    var c := |p.adapters|;
    StepInv(p.ring, c, act);
    OrderedStep(p.ring, c, act);
    SoleConsumerStep(p.ring, c, c, act);
    forall u | 0 <= u < c
      ensures AdapterOk(p.(ring := Do(p.ring, c, act)), u)
      ensures AcceptedOf(Do(p.ring, c, act), Do(p.ring, c, act).pushed, u) == p.tallies[u].accepted
    {
      assert AdapterOk(p, u);
      OthersKeep(p, c, act, u);
      CountsKeep(p.ring, c, act, u);
    }
  }

  lemma AdaptersOkAlike<E>(p: Pipe<E>, p': Pipe<E>, but: int)
    requires WellSized(p) && WellSized(p') && AdaptersOk(p, but)
    requires p'.ring == p.ring && p'.adapters == p.adapters && p'.tallies == p.tallies
    requires p'.waitMs == p.waitMs && p'.kinds == p.kinds
    ensures AdaptersOk(p', but)
  {
    forall u | 0 <= u < |p.adapters| && u != but
      ensures AdapterOk(p', u)
    {
      assert AdapterOk(p, u);
    }
  }

  lemma ConsumerCallsPop<E>(p: Pipe<E>)
    requires PipeInv(p) && p.ring.threads[|p.adapters|].Idle? && p.consumer != Joining && p.consumer != Exited
    requires p.consumer == LoopTop ==> !p.stop
    ensures PipeInv(ConsumerOperation(p, false))
  {
    var c := |p.adapters|;
    ConsumerRingStep(p, CallPop);
    Effects(p.ring, c, CallPop);
    AdaptersOkAlike(p.(ring := Do(p.ring, c, CallPop)), ConsumerOperation(p, false), -1);
  }

  lemma PopStepInPop<E>(r: Ring<E>, c: nat, act: Act<E>)
    requires c < |r.threads| && |r.cells| == r.Cap() && InPop(r.threads[c])
    ensures Do(r, c, act).threads[c] == Idle || InPop(Do(r, c, act).threads[c])
    ensures Do(r, c, act).enq == r.enq
    ensures Do(r, c, act).threads[c] == Idle && !r.threads[c].PopDone? ==>
              r.threads[c].PopAt? && Do(r, c, act) == Do(r, c, Go) && Do(r, c, act).deq == r.deq
  {
  }

  /** The consumer inside try_pop, called from the main loop or from the drain. */
  lemma PopKeeps<E>(p: Pipe<E>, spurious: bool)
    requires PipeInv(p) && (p.consumer == Polling || p.consumer == Draining)
    requires !p.ring.threads[|p.adapters|].Idle?
    ensures PipeInv(ConsumerOperation(p, spurious))
  {
    var c := |p.adapters|;
    var p' := ConsumerOperation(p, spurious);
    var act := Operation(spurious);
    ConsumerRingStep(p, act);
    Effects(p.ring, c, act);
    PopStepInPop(p.ring, c, act);
    hide Inv, Ordered, SoleConsumer, AcceptedOf;
    if p'.consumer == Exited {
      DrainedMeansEmpty(p);
    }
    AdaptersOkAlike(p.(ring := Do(p.ring, c, act)), p', -1);
  }

  lemma ConsumeKeeps<E>(p: Pipe<E>, spurious: bool)
    requires PipeInv(p)
    ensures PipeInv(ConsumerOperation(p, spurious))
  {
    if p.consumer == Joining || p.consumer == Exited || (p.consumer == LoopTop && p.stop) {
      AdaptersOkAlike(p, ConsumerOperation(p, spurious), -1);
    } else if p.ring.threads[|p.adapters|].Idle? {
      ConsumerCallsPop(p);
    } else {
      PopKeeps(p, spurious);
    }
  }

  lemma MoveKeeps<E>(p: Pipe<E>, m: Move<E>)
    requires PipeInv(p)
    ensures PipeInv(Moved(p, m))
  {
    match m {
      case Signal => AdaptersOkAlike(p, p.(stop := true), -1);
      case Line(a, parsed) =>
        if a < |p.adapters| && p.adapters[a].Reading? && Possible(p.kinds[a], parsed) { LineKeeps(p, a, parsed); }
      case Atomic(a, spurious) => if a < |p.adapters| && p.adapters[a].Pushing? { AtomicKeeps(p, a, spurious); }
      case Retry(a) => if a < |p.adapters| && p.adapters[a].Refused? { RetryKeeps(p, a); }
      case Finish(a) => FinishKeeps(p, a);
      case Consume(spurious) => ConsumeKeeps(p, spurious);
    }
  }

  lemma StartInv<E>(mask: nat, kinds: seq<Kind>, waitMs: nat)
    requires IsPow2(mask + 1) && 1 <= mask
    ensures PipeInv(Start<E>(mask, kinds, waitMs))
  {
    InitInv<E>(mask, |kinds| + 1);
  }

  lemma {:induction false} EveryRunKeeps<E>(p: Pipe<E>, ms: seq<Move<E>>)
    requires PipeInv(p)
    ensures PipeInv(Moves(p, ms))
  {
    if ms != [] {
      EveryRunKeeps(p, ms[..|ms| - 1]);
      MoveKeeps(Moves(p, ms[..|ms| - 1]), ms[|ms| - 1]);
    }
  }

  // ---------------------------------------------------------------------------
  // What the collector promises

  /** The states some run from an empty queue comes to, with adapters of any kinds. */
  ghost predicate Reached<E>(p: Pipe<E>, mask: nat, kinds: seq<Kind>, waitMs: nat, ms: seq<Move<E>>) {
    IsPow2(mask + 1) && 1 <= mask && p == Moves(Start<E>(mask, kinds, waitMs), ms)
  }

  lemma ReachedInv<E>(p: Pipe<E>, mask: nat, kinds: seq<Kind>, waitMs: nat, ms: seq<Move<E>>)
    requires Reached(p, mask, kinds, waitMs, ms)
    ensures PipeInv(p) && p.kinds == kinds && p.waitMs == waitMs
  {
    StartInv<E>(mask, kinds, waitMs);
    EveryRunKeeps(Start<E>(mask, kinds, waitMs), ms);
  }

  predicate InSink<E>(at: Adapter<E>) {
    at.Pushing? || at.Refused?
  }

  /** At every moment of every run, by kind: a message log line was a parse error, or its
      event was accepted, or dropped, or the sink still holds it; an event log line always
      made an event, and the parse errors are those no rule matched. The sink has been
      refused at most wait_ms + 1 times. */
  lemma EveryLineAccountedFor<E>(p: Pipe<E>, mask: nat, kinds: seq<Kind>, waitMs: nat, ms: seq<Move<E>>, a: nat)
    requires Reached(p, mask, kinds, waitMs, ms) && a < |kinds|
    ensures |p.adapters| == |p.tallies| == |kinds|
    ensures var t, held := p.tallies[a], if InSink(p.adapters[a]) then 1 else 0;
            && (kinds[a].MessageLog? ==> t.lines == t.parseErrors + t.accepted + t.dropped + held)
            && (kinds[a].EventLog? ==> t.lines == t.accepted + t.dropped + held)
            && t.lines == |t.seen| && t.parseErrors == Errors(kinds[a], t.seen)
            && t.accepted == AcceptedOf(p.ring, p.ring.pushed, a)
            && (held == 1 ==> p.adapters[a].refusals <= waitMs + 1)
  {
    ReachedInv(p, mask, kinds, waitMs, ms);
    hide Reached, Errors;
    assert AdapterOk(p, a);
  }

  /** When an attempt ends, either the event the sink was given sits on a ticket of its
      own and is counted accepted, or the sink still has that same event. */
  lemma AttemptEndsOneWay<E>(p: Pipe<E>, a: nat, spurious: bool)
    requires PipeInv(p) && a < |p.adapters| && p.adapters[a].Pushing?
    ensures var ev, p' := p.adapters[a].event, Moved(p, Atomic(a, spurious));
            match p'.adapters[a]
            case Pushing(ev', _) => ev' == ev && p'.ring.pushed == p.ring.pushed
            case Refused(ev', _) => ev' == ev && p'.ring.pushed == p.ring.pushed && p'.tallies == p.tallies
            case Reading =>
              && |p'.ring.pushed| == |p.ring.pushed| + 1 && p'.ring.pushed[|p.ring.pushed|] < |p'.ring.claims|
              && p'.ring.claims[p'.ring.pushed[|p.ring.pushed|]] == Claim(a, ev)
              && p'.tallies[a] == p.tallies[a].(accepted := p.tallies[a].accepted + 1)
            case Joined => false
  {
    assert AdapterOk(p, a) && ThreadOk(p.ring, a) && Carries(p.ring, a, p.adapters[a].event) && Shape(p.ring);
    hide PipeInv, AdapterOk, ThreadOk, Carries, Shape, Do;
    var r := p.ring;
    Effects(r, a, Operation(spurious));
    CarriesOnTicket(r, a, p.adapters[a].event, spurious);
    PushReturns(r, a, spurious);
    if r.threads[a].PushDone? && !spurious {
      assert Moved(p, Atomic(a, spurious)).ring.pushed[|r.pushed|] == r.threads[a].pos;
    }
  }

  /** A push that returns true has its own event on its ticket. */
  lemma CarriesOnTicket<E>(r: Ring<E>, t: nat, ev: E, spurious: bool)
    requires Shape(r) && t < |r.threads| && ThreadOk(r, t) && Carries(r, t, ev)
    ensures var r' := Do(r, t, Operation(spurious));
            && (r.threads[t].PushDone? && !spurious ==>
                  r'.threads[t] == Idle && r.threads[t].pos < |r.claims| && r.claims[r.threads[t].pos] == Claim(t, ev))
            && (r.threads[t].PushDone? && spurious ==> r' == r)
  {
    hide Slot;
  }

  /** Nothing is staged out of order or twice while the collector runs: what the consumer
      has applied is always a prefix of the pushed events in ticket order, which is each
      adapter's own order. */
  lemma StagedIsPrefix<E>(p: Pipe<E>, mask: nat, kinds: seq<Kind>, waitMs: nat, ms: seq<Move<E>>)
    requires Reached(p, mask, kinds, waitMs, ms)
    ensures && |p.staged| <= |p.ring.claims|
            && (forall i :: 0 <= i < |p.staged| ==> p.staged[i] == p.ring.claims[i].value)
            && (forall i, j | 0 <= i < j < |p.ring.pushed| &&
                              Pusher(p.ring, p.ring.pushed[i]) == Pusher(p.ring, p.ring.pushed[j]) ::
                  p.ring.pushed[i] < p.ring.pushed[j])
  {
    ReachedInv(p, mask, kinds, waitMs, ms);
    hide Reached;
  }

  /** At exit the staged sequence is exactly the accepted events: every claimed ticket's
      push returned true, every one was staged, and no line is still in a sink. */
  lemma ExitLosesNothing<E>(p: Pipe<E>, mask: nat, kinds: seq<Kind>, waitMs: nat, ms: seq<Move<E>>)
    requires Reached(p, mask, kinds, waitMs, ms)
    requires p.consumer == Exited
    ensures |p.tallies| == |kinds|
    ensures && |p.staged| == |p.ring.claims|
            && (forall i :: 0 <= i < |p.staged| ==> p.staged[i] == p.ring.claims[i].value && i in p.ring.pushed)
            && (forall a :: 0 <= a < |kinds| ==>
                  p.tallies[a].lines == (if kinds[a].MessageLog? then p.tallies[a].parseErrors else 0)
                                        + AcceptedOf(p.ring, p.ring.pushed, a) + p.tallies[a].dropped)
  {
    ReachedInv(p, mask, kinds, waitMs, ms);
    hide Reached;
    forall i | 0 <= i < |p.staged|
      ensures p.staged[i] == p.ring.claims[i].value && i in p.ring.pushed
    {
      PoppedOnceAsPushed(p.ring, i);
    }
    forall a | 0 <= a < |kinds|
      ensures p.tallies[a].lines == (if kinds[a].MessageLog? then p.tallies[a].parseErrors else 0)
                                    + AcceptedOf(p.ring, p.ring.pushed, a) + p.tallies[a].dropped
    {
      assert AdapterOk(p, a);
    }
  }
}
