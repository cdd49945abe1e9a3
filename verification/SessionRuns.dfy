/**
  What whole runs of the session registry come to: sessions do not disturb each other, gap
  arithmetic telescopes, a live session rests on a logon, and silence alone makes it stale.
 */
module SessionRuns {
  import opened Sessions

  function Run(inputs: seq<Input>, multiple: int): map<string, Snapshot> {
    if inputs == [] then map[]
    else Moved(Run(inputs[..|inputs| - 1], multiple), inputs[|inputs| - 1], multiple)
  }

  /** One session followed on its own. */
  function MovedOne(s: Snapshot, id: string, input: Input, multiple: int): Snapshot {
    match input
    case Enrol(other, heartbeat) => if other == id then Enrolled(s, id, heartbeat) else s
    case Deliver(ev) => if ev.sessionId == id then Applied(s, ev) else s
    case Tick(now) => Evaluated(s, now, multiple)
  }

  function RunOne(id: string, inputs: seq<Input>, multiple: int): Snapshot {
    if inputs == [] then Unheard(id)
    else MovedOne(RunOne(id, inputs[..|inputs| - 1], multiple), id, inputs[|inputs| - 1], multiple)
  }

  /** The inputs that can concern one session. */
  predicate Concerns(input: Input, id: string) {
    match input
    case Enrol(other, _) => other == id
    case Deliver(ev) => ev.sessionId == id
    case Tick(_) => true
  }

  function Own(inputs: seq<Input>, id: string): seq<Input> {
    if inputs == [] then []
    else
      var i := inputs[|inputs| - 1];
      Own(inputs[..|inputs| - 1], id) + (if Concerns(i, id) then [i] else [])
  }

  /** In the shared map every session stands as if it had been run alone on its own inputs. */
  lemma {:induction false} SessionsDoNotInterfere(inputs: seq<Input>, id: string, multiple: int)
    ensures SnapshotOf(Run(inputs, multiple), id) == RunOne(id, inputs, multiple)
    ensures RunOne(id, inputs, multiple) == RunOne(id, Own(inputs, id), multiple)
  {
    if inputs != [] {
      var before := inputs[..|inputs| - 1];
      var i := inputs[|inputs| - 1];
      SessionsDoNotInterfere(before, id, multiple);
      var own := Own(before, id);
      if Concerns(i, id) {
        assert (own + [i])[..|own + [i]| - 1] == own;
      } else {
        assert own + [] == own;
      }
    }
  }

  // ---------------------------------------------------------------------------
  // Gap arithmetic

  /** The sequence numbers a session's inbound messages present, duplicates aside. */
  function Presented(inputs: seq<Input>, id: string): seq<nat> {
    if inputs == [] then []
    else
      var i := inputs[|inputs| - 1];
      Presented(inputs[..|inputs| - 1], id)
      + (if i.Deliver? && i.ev.sessionId == id && Sequenced(i.ev) then [i.ev.msgSeqNum] else [])
  }

  /** What `Apply` returned for the session's messages, summed. */
  function MessagesMissed(inputs: seq<Input>, id: string, multiple: int): nat {
    if inputs == [] then 0
    else
      var before := inputs[..|inputs| - 1];
      var i := inputs[|inputs| - 1];
      MessagesMissed(before, id, multiple)
      + (if i.Deliver? && i.ev.sessionId == id && i.ev.eventClass.FixMessage?
         then GapOf(RunOne(id, before, multiple), i.ev) else 0)
  }

  /** How far the numbers stepped back below the one expected, summed. */
  function BackSteps(seqs: seq<nat>): nat {
    if |seqs| <= 1 then 0
    else
      var prev, next := seqs[|seqs| - 2], seqs[|seqs| - 1];
      BackSteps(seqs[..|seqs| - 1]) + (if next <= prev then prev - next + 1 else 0)
  }

  /** How many times a number came later than the one expected. */
  function Jumps(seqs: seq<nat>): nat {
    if |seqs| <= 1 then 0
    else Jumps(seqs[..|seqs| - 1]) + (if seqs[|seqs| - 1] > seqs[|seqs| - 2] + 1 then 1 else 0)
  }

  lemma EvaluatedKeepsCounters(s: Snapshot, now: int, multiple: int)
    ensures Evaluated(s, now, multiple) == s.(state := Evaluated(s, now, multiple).state)
  {
  }

  lemma AppliedExpects(s: Snapshot, ev: Event)
    ensures Applied(s, ev).nextExpectedIn == if Sequenced(ev) then ev.msgSeqNum + 1 else s.nextExpectedIn
    ensures Applied(s, ev).seqGaps == s.seqGaps + (if MessageGap(s, ev) > 0 then 1 else 0)
  {
    MovesKeepNumbers(Counted(Stamped(s, ev), ev), ev);
    hide ByMsgType, BySessionEvent;
    if !ev.eventClass.FixMessage? {
      MovesKeepNumbers(Stamped(s, ev), ev);
    }
  }

  lemma MovesKeepNumbers(s: Snapshot, ev: Event)
    ensures ByMsgType(s, ev).nextExpectedIn == s.nextExpectedIn && ByMsgType(s, ev).seqGaps == s.seqGaps
    ensures BySessionEvent(s, ev).nextExpectedIn == s.nextExpectedIn && BySessionEvent(s, ev).seqGaps == s.seqGaps
  {
  }

  lemma SnocParts<T>(s: seq<T>, x: T)
    ensures (s + [x])[..|s + [x]| - 1] == s
    ensures |s| > 0 ==> (s + [x])[|s + [x]| - 2] == s[|s| - 1]
  {
  }

  ghost predicate Telescoped(s: Snapshot, seqs: seq<nat>, missed: nat) {
    && s.nextExpectedIn == (if seqs == [] then 0 else seqs[|seqs| - 1] + 1)
    && s.seqGaps == Jumps(seqs)
    && (seqs == [] ==> missed == 0)
    && (seqs != [] ==> seqs[|seqs| - 1] + 1 + BackSteps(seqs) == seqs[0] + |seqs| + missed)
  }

  lemma TelescopeStep(s: Snapshot, ev: Event, seqs: seq<nat>, missed: nat)
    requires Telescoped(s, seqs, missed) && Sequenced(ev)
    ensures Telescoped(Applied(s, ev), seqs + [ev.msgSeqNum], missed + MessageGap(s, ev))
  {
    AppliedExpects(s, ev);
    SnocParts(seqs, ev.msgSeqNum);
    hide Applied;
  }

  /** The gaps reported, the messages seen and the steps back account for the distance covered. */
  lemma {:induction false} GapsTelescope(inputs: seq<Input>, id: string, multiple: int)
    ensures Telescoped(RunOne(id, inputs, multiple), Presented(inputs, id), MessagesMissed(inputs, id, multiple))
  {
    hide Applied, Evaluated, Telescoped, GapOf;
    if inputs == [] {
      NothingTelescopes(id);
    } else {
      var before, input := inputs[..|inputs| - 1], inputs[|inputs| - 1];
      var s, seqs, missed := RunOne(id, before, multiple), Presented(before, id), MessagesMissed(before, id, multiple);
      GapsTelescope(before, id, multiple);
      assert seqs + [] == seqs;
      if Hears(input, id) {
        HeardTelescopes(s, input.ev, seqs, missed);
      } else if input.Tick? {
        TickTelescopes(s, input.now, multiple, seqs, missed);
      } else if input.Enrol? {
        EnrolTelescopes(s, id, input.heartbeat, seqs, missed);
      }
    }
  }

  lemma NothingTelescopes(id: string)
    ensures Telescoped(Unheard(id), [], 0)
  {
  }

  lemma HeardTelescopes(s: Snapshot, ev: Event, seqs: seq<nat>, missed: nat)
    requires Telescoped(s, seqs, missed)
    ensures Telescoped(Applied(s, ev), seqs + (if Sequenced(ev) then [ev.msgSeqNum] else []),
                       missed + if ev.eventClass.FixMessage? then GapOf(s, ev) else 0)
  {
    assert seqs + [] == seqs;
    AppliedExpects(s, ev);
    if Sequenced(ev) {
      TelescopeStep(s, ev, seqs, missed);
    }
    hide Applied;
  }

  lemma TickTelescopes(s: Snapshot, now: int, multiple: int, seqs: seq<nat>, missed: nat)
    requires Telescoped(s, seqs, missed)
    ensures Telescoped(Evaluated(s, now, multiple), seqs, missed)
  {
    EvaluatedKeepsCounters(s, now, multiple);
    hide Evaluated;
  }

  lemma EnrolTelescopes(s: Snapshot, id: string, heartbeat: int, seqs: seq<nat>, missed: nat)
    requires Telescoped(s, seqs, missed)
    ensures Telescoped(Enrolled(s, id, heartbeat), seqs, missed)
  {
  }

  predicate Climbing(seqs: seq<nat>) {
    forall i, j | 0 <= i < j < |seqs| :: seqs[i] < seqs[j]
  }

  /** The numbers between the first and the last that never came. */
  function Absent(seqs: seq<nat>): set<nat> {
    if seqs == [] then {}
    else set n: nat | seqs[0] <= n <= seqs[|seqs| - 1] && n !in seqs
  }

  lemma {:induction false} ClimbingNeverSteps(seqs: seq<nat>)
    requires Climbing(seqs)
    ensures BackSteps(seqs) == 0
  {
    if |seqs| > 1 {
      ClimbingNeverSteps(seqs[..|seqs| - 1]);
    }
  }

  predicate InSpan(n: nat, lo: nat, hi: nat) {
    lo <= n < hi
  }

  function Span(lo: nat, hi: nat): set<nat> {
    set n: nat | lo <= n < hi && InSpan(n, lo, hi)
  }

  lemma {:induction false} SpanSize(lo: nat, hi: nat)
    requires lo <= hi
    ensures |Span(lo, hi)| == hi - lo
    decreases hi
  {
    if lo < hi {
      SpanSize(lo, hi - 1);
      assert Span(lo, hi) == Span(lo, hi - 1) + {hi - 1};
    } else {
      assert Span(lo, hi) == {};
    }
  }

  lemma AbsentSnoc(seqs: seq<nat>, x: nat)
    requires seqs != [] && Climbing(seqs + [x])
    ensures Absent(seqs + [x]) == Absent(seqs) + Span(seqs[|seqs| - 1] + 1, x)
    ensures Absent(seqs) !! Span(seqs[|seqs| - 1] + 1, x)
  {
    var all := seqs + [x];
    var last := seqs[|seqs| - 1];
    assert forall i | 0 <= i < |seqs| :: all[i] == seqs[i];
    assert all[|seqs|] == x;
    forall n: nat | n in seqs
      ensures n <= last < x
    {
      var i :| 0 <= i < |seqs| && seqs[i] == n;
    }
    assert forall n :: n in all <==> n in seqs || n == x;
  }

  lemma {:induction false} AbsentSize(seqs: seq<nat>)
    requires Climbing(seqs) && seqs != []
    ensures |Absent(seqs)| + |seqs| == seqs[|seqs| - 1] + 1 - seqs[0]
  {
    if |seqs| == 1 {
      assert Absent(seqs) == {};
    } else {
      var before, x := seqs[..|seqs| - 1], seqs[|seqs| - 1];
      assert seqs == before + [x];
      AbsentSize(before);
      AbsentSnoc(before, x);
      SpanSize(before[|before| - 1] + 1, x);
    }
  }

  /** Without a step back, the gaps returned add up to exactly the numbers that never came. */
  lemma GapsAreTheMissing(inputs: seq<Input>, id: string, multiple: int)
    requires Climbing(Presented(inputs, id))
    ensures MessagesMissed(inputs, id, multiple) == |Absent(Presented(inputs, id))|
  {
    var seqs := Presented(inputs, id);
    GapsTelescope(inputs, id, multiple);
    ClimbingNeverSteps(seqs);
    if seqs != [] {
      AbsentSize(seqs);
    }
  }

  // ---------------------------------------------------------------------------
  // Times, told from the inputs

  predicate Hears(input: Input, id: string) {
    input.Deliver? && input.ev.sessionId == id
  }

  predicate IsInbound(ev: Event) {
    ev.eventClass.FixMessage? && ev.direction.Incoming?
  }

  /** The time of the latest inbound message, 0 if none came. */
  function LatestInbound(inputs: seq<Input>, id: string): int {
    if inputs == [] then 0
    else
      var i := inputs[|inputs| - 1];
      if Hears(i, id) && IsInbound(i.ev) then i.ev.Ts() else LatestInbound(inputs[..|inputs| - 1], id)
  }

  /** The greatest time of anything heard, 0 at least. */
  function Newest(inputs: seq<Input>, id: string): int {
    if inputs == [] then 0
    else
      var i, before := inputs[|inputs| - 1], Newest(inputs[..|inputs| - 1], id);
      if Hears(i, id) && i.ev.Ts() > before then i.ev.Ts() else before
  }

  /** The interval of the latest enrolment, 30 seconds without one. */
  function Interval(inputs: seq<Input>, id: string): int {
    if inputs == [] then 30
    else
      match inputs[|inputs| - 1]
      case Enrol(other, heartbeat) =>
        if other != id then Interval(inputs[..|inputs| - 1], id)
        else if heartbeat > 0 then heartbeat else 30
      case _ => Interval(inputs[..|inputs| - 1], id)
  }

  function TimeHeard(inputs: seq<Input>, id: string): int {
    if LatestInbound(inputs, id) != 0 then LatestInbound(inputs, id) else Newest(inputs, id)
  }

  /** The moves by type and by narration leave times and the number sent alone. */
  lemma MovesKeepTimes(s: Snapshot, ev: Event)
    ensures ByMsgType(s, ev) == s.(state := ByMsgType(s, ev).state, logonTs := ByMsgType(s, ev).logonTs,
                                   sessionRejects := ByMsgType(s, ev).sessionRejects,
                                   businessRejects := ByMsgType(s, ev).businessRejects,
                                   execRejects := ByMsgType(s, ev).execRejects,
                                   resendRequests := ByMsgType(s, ev).resendRequests,
                                   lastRejectText := ByMsgType(s, ev).lastRejectText)
  {
  }

  lemma NarrationKeepsTimes(s: Snapshot, ev: Event)
    ensures var r := BySessionEvent(s, ev);
            && r.lastIncomingTs == s.lastIncomingTs && r.lastEventTs == s.lastEventTs
            && r.heartbeatInterval == s.heartbeatInterval && r.lastOutgoingSeq == s.lastOutgoingSeq
  {
  }

  predicate IsOutgoing(ev: Event) {
    ev.eventClass.FixMessage? && ev.direction.Outgoing?
  }

  lemma AppliedTimes(s: Snapshot, ev: Event)
    ensures Applied(s, ev).lastIncomingTs == if IsInbound(ev) then ev.Ts() else s.lastIncomingTs
    ensures Applied(s, ev).lastEventTs == if ev.Ts() > s.lastEventTs then ev.Ts() else s.lastEventTs
    ensures Applied(s, ev).heartbeatInterval == s.heartbeatInterval
    ensures var n := if IsOutgoing(ev) then ev.msgSeqNum else 0;
            Applied(s, ev).lastOutgoingSeq == if n > s.lastOutgoingSeq then n else s.lastOutgoingSeq
  {
    MovesKeepTimes(Counted(Stamped(s, ev), ev), ev);
    NarrationKeepsTimes(Stamped(s, ev), ev);
    hide ByMsgType, BySessionEvent;
  }

  /** What the clock looks at is the history of what was heard and enrolled. */
  lemma {:induction false} TimesAreHistory(inputs: seq<Input>, id: string, multiple: int)
    ensures var s := RunOne(id, inputs, multiple);
            && s.lastIncomingTs == LatestInbound(inputs, id) && s.lastEventTs == Newest(inputs, id)
            && s.heartbeatInterval == Interval(inputs, id)
            && LastHeard(s) == TimeHeard(inputs, id)
  {
    hide Applied, Evaluated, IsInbound;
    if inputs != [] {
      var before, n := inputs[..|inputs| - 1], |inputs| - 1;
      var s := RunOne(id, before, multiple);
      TimesAreHistory(before, id, multiple);
      if Hears(inputs[n], id) {
        AppliedTimes(s, inputs[n].ev);
      } else if inputs[n].Tick? {
        EvaluatedKeepsCounters(s, inputs[n].now, multiple);
      }
    }
  }

  // ---------------------------------------------------------------------------
  // What a live state rests on

  /** An inbound logon, seen on the wire or narrated by the engine. */
  predicate Raises(ev: Event) {
    if ev.eventClass.FixMessage? then ev.msgType == "A" && ev.direction.Incoming?
    else ev.sessionEvent.LogonReceived?
  }

  /** Logout, disconnection, refusal, or the start of a new attempt. */
  predicate Lowers(ev: Event) {
    if ev.eventClass.FixMessage? then ev.msgType == "5"
    else
      || ev.sessionEvent.Connecting? || ev.sessionEvent.ConnectFailed? || ev.sessionEvent.LogonSent?
      || ev.sessionEvent.LogonRejected? || ev.sessionEvent.LogoutSent? || ev.sessionEvent.LogoutReceived?
      || ev.sessionEvent.Disconnected? || ev.sessionEvent.ReconnectAttempt?
  }

  /** A logon of our own, which is only news to a session that is not logged on. */
  predicate Answers(ev: Event) {
    ev.eventClass.FixMessage? && ev.msgType == "A" && !ev.direction.Incoming?
  }

  predicate Live(s: Snapshot) {
    s.state.LoggedOn? || s.state.Stale?
  }

  /** A look at the clock that can tell: something with a time has been heard. */
  predicate LooksAt(inputs: seq<Input>, id: string, i: nat)
    requires i < |inputs|
  {
    inputs[i].Tick? && TimeHeard(inputs[..i], id) != 0
  }

  /** At that look the session had been silent for longer than its tolerance. */
  predicate SilentAt(inputs: seq<Input>, id: string, i: nat, multiple: int)
    requires i < |inputs| && inputs[i].Tick?
  {
    inputs[i].now - TimeHeard(inputs[..i], id) > Interval(inputs[..i], id) * multiple * 1_000_000_000
  }

  /** The latest look between inputs r and n, if any, found the session silent. */
  predicate SilentSince(inputs: seq<Input>, id: string, r: nat, n: nat, multiple: int)
    requires n <= |inputs|
    decreases n
  {
    r + 1 < n && if LooksAt(inputs, id, n - 1) then SilentAt(inputs, id, n - 1, multiple)
                 else SilentSince(inputs, id, r, n - 1, multiple)
  }

  predicate RaisedAt(inputs: seq<Input>, id: string, r: nat) {
    r < |inputs| && Hears(inputs[r], id) && Raises(inputs[r].ev)
  }

  /** What input j must not be for the logon at r to stand: another logon, a lowering event, or
      a logon of our own when the latest look since r had found silence. */
  predicate SparedBy(inputs: seq<Input>, id: string, r: nat, j: nat, multiple: int)
    requires j < |inputs|
  {
    Hears(inputs[j], id) ==>
      && !Raises(inputs[j].ev) && !Lowers(inputs[j].ev)
      && (Answers(inputs[j].ev) ==> !SilentSince(inputs, id, r, j, multiple))
  }

  /** The latest inbound logon is the one at r, and nothing since has ended it. */
  predicate StandsFrom(inputs: seq<Input>, id: string, r: nat, multiple: int) {
    RaisedAt(inputs, id, r) && forall j: nat | r < j < |inputs| :: SparedBy(inputs, id, r, j, multiple)
  }

  ghost predicate LogonStands(inputs: seq<Input>, id: string, multiple: int) {
    exists r: nat :: StandsFrom(inputs, id, r, multiple)
  }

  ghost predicate SilenceStands(inputs: seq<Input>, id: string, multiple: int) {
    exists r: nat :: StandsFrom(inputs, id, r, multiple) && SilentSince(inputs, id, r, |inputs|, multiple)
  }

  lemma AppliedLiveness(s: Snapshot, ev: Event)
    ensures Raises(ev) ==> Applied(s, ev).state == LoggedOn && Applied(s, ev).logonTs == ev.Ts()
    ensures Lowers(ev) ==> !Live(Applied(s, ev))
    ensures !Raises(ev) ==> Applied(s, ev).logonTs == s.logonTs
    ensures !Raises(ev) && !Lowers(ev) && !Answers(ev) ==> Applied(s, ev).state == s.state
    ensures Live(Applied(s, ev)) && !Raises(ev) ==> Live(s)
    ensures Applied(s, ev).state == Stale ==> s.state == Stale
  {
  }

  lemma EvaluatedLiveness(s: Snapshot, now: int, multiple: int)
    ensures Live(Evaluated(s, now, multiple)) == Live(s)
    ensures Evaluated(s, now, multiple).logonTs == s.logonTs
  {
  }

  lemma OwnLogonDrops(s: Snapshot, ev: Event)
    requires Answers(ev)
    ensures Live(Applied(s, ev)) <==> s.state == LoggedOn
    ensures s.state == LoggedOn ==> Applied(s, ev).state == LoggedOn
  {
  }

  lemma EvaluatedState(s: Snapshot, now: int, multiple: int)
    ensures Live(s) && LastHeard(s) != 0 ==>
              Evaluated(s, now, multiple).state
              == if now - LastHeard(s) > s.heartbeatInterval * multiple * 1_000_000_000 then Stale else LoggedOn
    ensures !Live(s) || LastHeard(s) == 0 ==> Evaluated(s, now, multiple) == s
  {
  }

  lemma {:induction false} SilentBefore(inputs: seq<Input>, id: string, r: nat, n: nat, multiple: int)
    requires n <= |inputs| - 1
    ensures SilentSince(inputs[..|inputs| - 1], id, r, n, multiple) == SilentSince(inputs, id, r, n, multiple)
    decreases n
  {
    hide TimeHeard, Interval;
    if r + 1 < n {
      SilentBefore(inputs, id, r, n - 1, multiple);
      assert inputs[..|inputs| - 1][..n - 1] == inputs[..n - 1];
    }
  }

  lemma SparedBefore(inputs: seq<Input>, id: string, r: nat, j: nat, multiple: int)
    requires j < |inputs| - 1
    ensures SparedBy(inputs[..|inputs| - 1], id, r, j, multiple) == SparedBy(inputs, id, r, j, multiple)
  {
    SilentBefore(inputs, id, r, j, multiple);
    hide SilentSince, Raises, Lowers, Answers;
  }

  /** A logon stands after one more input iff it stood before and the input spares it. */
  lemma StandsOn(inputs: seq<Input>, id: string, r: nat, multiple: int)
    requires r < |inputs| - 1
    ensures StandsFrom(inputs, id, r, multiple)
       <==> (StandsFrom(inputs[..|inputs| - 1], id, r, multiple) && SparedBy(inputs, id, r, |inputs| - 1, multiple))
  {
    hide SparedBy, Raises;
    var before, n := inputs[..|inputs| - 1], |inputs| - 1;
    forall j: nat | j < n
      ensures SparedBy(before, id, r, j, multiple) == SparedBy(inputs, id, r, j, multiple)
    {
      SparedBefore(inputs, id, r, j, multiple);
    }
    assert RaisedAt(before, id, r) == RaisedAt(inputs, id, r);
    if StandsFrom(before, id, r, multiple) && SparedBy(inputs, id, r, n, multiple) {
      forall j: nat | r < j < |inputs|
        ensures SparedBy(inputs, id, r, j, multiple)
      {
        assert j < n ==> SparedBy(before, id, r, j, multiple);
      }
    }
  }

  /** A standing logon keeps the session logged on, or stale if the latest look found silence. */
  lemma {:induction false} StandingDecides(inputs: seq<Input>, id: string, r: nat, multiple: int)
    requires StandsFrom(inputs, id, r, multiple)
    ensures RunOne(id, inputs, multiple).state
         == if SilentSince(inputs, id, r, |inputs|, multiple) then Stale else LoggedOn
  {
    hide Applied, Evaluated, Raises, Lowers, Answers, TimeHeard, Interval, LastHeard;
    var before, n := inputs[..|inputs| - 1], |inputs| - 1;
    var s := RunOne(id, before, multiple);
    if Hears(inputs[n], id) {
      AppliedLiveness(s, inputs[n].ev);
    }
    if r < n {
      StandsOn(inputs, id, r, multiple);
      StandingDecides(before, id, r, multiple);
      SilentBefore(inputs, id, r, n, multiple);
      TimesAreHistory(before, id, multiple);
      StandingStep(inputs, id, r, multiple);
    }
  }

  lemma StandingStep(inputs: seq<Input>, id: string, r: nat, multiple: int)
    requires r < |inputs| - 1 && SparedBy(inputs, id, r, |inputs| - 1, multiple)
    requires RunOne(id, inputs[..|inputs| - 1], multiple).state
          == if SilentSince(inputs, id, r, |inputs| - 1, multiple) then Stale else LoggedOn
    ensures RunOne(id, inputs, multiple).state
         == if SilentSince(inputs, id, r, |inputs|, multiple) then Stale else LoggedOn
  {
    hide Applied, Evaluated, Raises, Lowers, Answers, TimeHeard, Interval, LastHeard;
    var before, n := inputs[..|inputs| - 1], |inputs| - 1;
    var s := RunOne(id, before, multiple);
    TimesAreHistory(before, id, multiple);
    if Hears(inputs[n], id) {
      AppliedLiveness(s, inputs[n].ev);
      if Answers(inputs[n].ev) {
        OwnLogonDrops(s, inputs[n].ev);
      }
    } else if inputs[n].Tick? {
      EvaluatedState(s, inputs[n].now, multiple);
    }
  }

  /** A live session has a standing logon behind it. */
  lemma {:induction false} LiveNeedsLogon(inputs: seq<Input>, id: string, multiple: int) returns (r: nat)
    requires Live(RunOne(id, inputs, multiple))
    ensures StandsFrom(inputs, id, r, multiple)
  {
    hide Applied, Evaluated, Raises, Lowers, Answers, SilentSince;
    var before, n := inputs[..|inputs| - 1], |inputs| - 1;
    var s := RunOne(id, before, multiple);
    if Hears(inputs[n], id) {
      AppliedLiveness(s, inputs[n].ev);
    } else if inputs[n].Tick? {
      EvaluatedLiveness(s, inputs[n].now, multiple);
    }
    if RaisedAt(inputs, id, n) {
      r := n;
    } else {
      r := LiveNeedsLogon(before, id, multiple);
      StandingDecides(before, id, r, multiple);
      SilentBefore(inputs, id, r, n, multiple);
      if Hears(inputs[n], id) && Answers(inputs[n].ev) {
        OwnLogonDrops(s, inputs[n].ev);
      }
      StandsOn(inputs, id, r, multiple);
    }
  }

  /**
    A session shows as logged on or stale exactly while an inbound logon stands: nothing later
    lowered it, and no logon of our own came after a look that had found it silent.
   */
  lemma LiveExactlyWhileLogonStands(inputs: seq<Input>, id: string, multiple: int)
    ensures Live(RunOne(id, inputs, multiple)) <==> LogonStands(inputs, id, multiple)
  {
    hide RunOne, StandsFrom, SilentSince;
    if Live(RunOne(id, inputs, multiple)) {
      var r := LiveNeedsLogon(inputs, id, multiple);
    }
    forall r: nat | StandsFrom(inputs, id, r, multiple)
      ensures Live(RunOne(id, inputs, multiple))
    {
      StandingDecides(inputs, id, r, multiple);
    }
  }

  /** And it shows as stale exactly when, besides, the latest look since that logon found it silent. */
  lemma StaleExactlyAfterSilence(inputs: seq<Input>, id: string, multiple: int)
    ensures RunOne(id, inputs, multiple).state == Stale <==> SilenceStands(inputs, id, multiple)
  {
    hide RunOne, StandsFrom, SilentSince;
    if RunOne(id, inputs, multiple).state == Stale {
      var r := LiveNeedsLogon(inputs, id, multiple);
      StandingDecides(inputs, id, r, multiple);
    }
    forall r: nat | StandsFrom(inputs, id, r, multiple) && SilentSince(inputs, id, r, |inputs|, multiple)
      ensures RunOne(id, inputs, multiple).state == Stale
    {
      StandingDecides(inputs, id, r, multiple);
    }
  }

  function LatestLogon(inputs: seq<Input>, id: string): int {
    if inputs == [] then 0
    else
      var i := inputs[|inputs| - 1];
      if Hears(i, id) && Raises(i.ev) then i.ev.Ts() else LatestLogon(inputs[..|inputs| - 1], id)
  }

  /** The logon time kept is that of the latest inbound logon. */
  lemma {:induction false} LogonTimeIsLatest(inputs: seq<Input>, id: string, multiple: int)
    ensures RunOne(id, inputs, multiple).logonTs == LatestLogon(inputs, id)
  {
    hide Applied, Evaluated, Raises;
    if inputs != [] {
      var before, n := inputs[..|inputs| - 1], |inputs| - 1;
      LogonTimeIsLatest(before, id, multiple);
      var s := RunOne(id, before, multiple);
      if Hears(inputs[n], id) {
        AppliedLiveness(s, inputs[n].ev);
      } else if inputs[n].Tick? {
        EvaluatedLiveness(s, inputs[n].now, multiple);
      }
    }
  }

  // ---------------------------------------------------------------------------
  // Staleness

  predicate StaleAt(inputs: seq<Input>, id: string, i: nat, multiple: int)
    requires i <= |inputs|
  {
    RunOne(id, inputs[..i], multiple).state == Stale
  }

  /** Every stretch of staleness begins with a look at the clock, at a session that was logged on. */
  lemma {:induction false} OnlyTheClockMakesStale(inputs: seq<Input>, id: string, multiple: int) returns (i: nat)
    requires RunOne(id, inputs, multiple).state == Stale
    ensures i < |inputs| && inputs[i].Tick? && RunOne(id, inputs[..i], multiple).state == LoggedOn
    ensures forall j: nat | i < j <= |inputs| :: StaleAt(inputs, id, j, multiple)
  {
    hide Applied, Evaluated;
    var before, n := inputs[..|inputs| - 1], |inputs| - 1;
    var s := RunOne(id, before, multiple);
    assert inputs[..|inputs|] == inputs;
    if s.state == Stale {
      i := OnlyTheClockMakesStale(before, id, multiple);
      assert before[..i] == inputs[..i];
      forall j: nat | i < j <= n
        ensures StaleAt(inputs, id, j, multiple)
      {
        assert before[..j] == inputs[..j] && StaleAt(before, id, j, multiple);
      }
    } else {
      i := n;
      if Hears(inputs[n], id) {
        AppliedLiveness(s, inputs[n].ev);
      } else if inputs[n].Tick? {
        EvaluatedLiveness(s, inputs[n].now, multiple);
      }
    }
  }

  predicate AllTicks(inputs: seq<Input>) {
    forall i | 0 <= i < |inputs| :: inputs[i].Tick?
  }

  lemma LastLookCounts(s: Snapshot, now: int, later: int, multiple: int)
    ensures Evaluated(Evaluated(s, now, multiple), later, multiple) == Evaluated(s, later, multiple)
  {
  }

  /** While nothing happens, only the latest look at the clock counts, whatever the earlier ones saw. */
  lemma {:induction false} IdleLooksCollapse(inputs: seq<Input>, idle: seq<Input>, id: string, multiple: int)
    requires AllTicks(idle) && idle != []
    ensures RunOne(id, inputs + idle, multiple)
         == Evaluated(RunOne(id, inputs, multiple), idle[|idle| - 1].now, multiple)
  {
    hide Applied, Evaluated;
    var before, n := idle[..|idle| - 1], |idle| - 1;
    assert (inputs + idle)[..|inputs + idle| - 1] == inputs + before;
    if before == [] {
      assert inputs + before == inputs;
    } else {
      IdleLooksCollapse(inputs, before, id, multiple);
      LastLookCounts(RunOne(id, inputs, multiple), before[|before| - 1].now, idle[n].now, multiple);
    }
  }

  lemma StaleLaterToo(s: Snapshot, now: int, later: int, multiple: int)
    requires Evaluated(s, now, multiple).state == Stale && now <= later
    ensures Evaluated(s, later, multiple).state == Stale
  {
  }

  /** A session that went stale stays so until something is heard, as long as the clock does not run back. */
  lemma {:induction false} SilenceStaysStale(inputs: seq<Input>, idle: seq<Input>, now: int, id: string, multiple: int)
    requires AllTicks(idle) && forall i | 0 <= i < |idle| :: idle[i].now >= now
    requires RunOne(id, inputs + [Tick(now)], multiple).state == Stale
    ensures RunOne(id, inputs + [Tick(now)] + idle, multiple).state == Stale
  {
    hide RunOne, Evaluated, Applied;
    if idle == [] {
      assert inputs + [Tick(now)] + idle == inputs + [Tick(now)];
    } else {
      var ticks := [Tick(now)] + idle;
      assert inputs + [Tick(now)] + idle == inputs + ticks;
      IdleLooksCollapse(inputs, [Tick(now)], id, multiple);
      StaleLaterToo(RunOne(id, inputs, multiple), now, idle[|idle| - 1].now, multiple);
      IdleLooksCollapse(inputs, ticks, id, multiple);
    }
  }

  // ---------------------------------------------------------------------------
  // What a snapshot remembers

  /** The events a session has heard, in order. */
  function EventsOf(inputs: seq<Input>, id: string): seq<Event> {
    if inputs == [] then []
    else
      var i := inputs[|inputs| - 1];
      EventsOf(inputs[..|inputs| - 1], id) + if Hears(i, id) then [i.ev] else []
  }

  ghost predicate IsMaximum(m: int, values: seq<int>) {
    (forall i | 0 <= i < |values| :: values[i] <= m) && (m == 0 || m in values)
  }

  function Times(evs: seq<Event>): seq<int> {
    seq(|evs|, i requires 0 <= i < |evs| => evs[i].Ts())
  }

  function OutgoingNumbers(evs: seq<Event>): seq<int> {
    seq(|evs|, i requires 0 <= i < |evs| => if IsOutgoing(evs[i]) then evs[i].msgSeqNum else 0)
  }

  lemma MaximumSnoc(m: int, values: seq<int>, x: int)
    requires IsMaximum(m, values)
    ensures IsMaximum(if x > m then x else m, values + [x])
  {
    assert (values + [x])[|values|] == x;
  }

  /** The newest time and the highest number sent are the maxima over everything heard, in any order. */
  lemma {:induction false} HighWaterMarks(inputs: seq<Input>, id: string, multiple: int)
    ensures var s, evs := RunOne(id, inputs, multiple), EventsOf(inputs, id);
            IsMaximum(s.lastEventTs, Times(evs)) && IsMaximum(s.lastOutgoingSeq, OutgoingNumbers(evs))
  {
    hide Applied, Evaluated, IsMaximum;
    if inputs == [] {
      NoMaximum();
    } else {
      var before, input := inputs[..|inputs| - 1], inputs[|inputs| - 1];
      var s, evs := RunOne(id, before, multiple), EventsOf(before, id);
      HighWaterMarks(before, id, multiple);
      if Hears(input, id) {
        var ev := input.ev;
        AppliedTimes(s, ev);
        MaximumSnoc(s.lastEventTs, Times(evs), ev.Ts());
        MaximumSnoc(s.lastOutgoingSeq, OutgoingNumbers(evs), if IsOutgoing(ev) then ev.msgSeqNum else 0);
        assert Times(evs + [ev]) == Times(evs) + [ev.Ts()];
        assert OutgoingNumbers(evs + [ev]) == OutgoingNumbers(evs) + [if IsOutgoing(ev) then ev.msgSeqNum else 0];
      } else {
        assert evs + [] == evs;
        if input.Tick? {
          EvaluatedKeepsCounters(s, input.now, multiple);
        }
      }
    }
  }

  lemma NoMaximum()
    ensures IsMaximum(0, Times([])) && IsMaximum(0, OutgoingNumbers([]))
  {
  }

  /** An event that may explain a rejection, and one that may explain a disconnection. */
  predicate Explains(ev: Event, rejection: bool) {
    && ev.text != ""
    && if rejection then
         ev.eventClass.FixMessage?
         && (ev.msgType == "3" || ev.msgType == "j" || ev.msgType == "9" || (ev.msgType == "8" && ev.ordStatus == "8"))
       else
         !ev.eventClass.FixMessage?
         && (ev.sessionEvent.ConnectFailed? || ev.sessionEvent.LogonRejected? || ev.sessionEvent.LogoutSent?
             || ev.sessionEvent.LogoutReceived? || ev.sessionEvent.Disconnected?)
  }

  function LatestText(evs: seq<Event>, rejection: bool): string {
    if evs == [] then ""
    else if Explains(evs[|evs| - 1], rejection) then evs[|evs| - 1].text
    else LatestText(evs[..|evs| - 1], rejection)
  }

  lemma AppliedTexts(s: Snapshot, ev: Event)
    ensures Applied(s, ev).lastRejectText == if Explains(ev, true) then ev.text else s.lastRejectText
    ensures Applied(s, ev).lastDisconnectReason == if Explains(ev, false) then ev.text else s.lastDisconnectReason
  {
    if ev.eventClass.FixMessage? {
      TextByType(Counted(Stamped(s, ev), ev), ev);
    } else {
      TextByNarration(Stamped(s, ev), ev);
    }
    hide ByMsgType, BySessionEvent, Explains;
  }

  lemma TextByType(s: Snapshot, ev: Event)
    requires ev.eventClass.FixMessage?
    ensures ByMsgType(s, ev).lastRejectText == if Explains(ev, true) then ev.text else s.lastRejectText
    ensures ByMsgType(s, ev).lastDisconnectReason == s.lastDisconnectReason && !Explains(ev, false)
  {
  }

  lemma TextByNarration(s: Snapshot, ev: Event)
    requires !ev.eventClass.FixMessage?
    ensures BySessionEvent(s, ev).lastDisconnectReason
         == if Explains(ev, false) then ev.text else s.lastDisconnectReason
    ensures BySessionEvent(s, ev).lastRejectText == s.lastRejectText && !Explains(ev, true)
  {
  }

  /** The texts shown are those of the latest rejection and disconnection that gave one. */
  lemma {:induction false} TextsAreLatest(inputs: seq<Input>, id: string, multiple: int)
    ensures var s, evs := RunOne(id, inputs, multiple), EventsOf(inputs, id);
            s.lastRejectText == LatestText(evs, true) && s.lastDisconnectReason == LatestText(evs, false)
  {
    hide Applied, Evaluated, Explains;
    if inputs != [] {
      var before, input := inputs[..|inputs| - 1], inputs[|inputs| - 1];
      var s, evs := RunOne(id, before, multiple), EventsOf(before, id);
      TextsAreLatest(before, id, multiple);
      if Hears(input, id) {
        AppliedTexts(s, input.ev);
        assert (evs + [input.ev])[..|evs|] == evs;
      } else {
        assert evs + [] == evs;
        if input.Tick? {
          EvaluatedKeepsCounters(s, input.now, multiple);
        }
      }
    }
  }
}
