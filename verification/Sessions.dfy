/**
  session_state.cpp: one record per session, moved by the events of both adapters and by
  the staleness clock. Times and counters are unbounded here.
 */
module Sessions {

  datatype EventClass = UnknownClass | FixMessage | SessionEvent
  datatype Source = UnknownSource | MessageLog | EventLog | Pcap | EngineHook
  datatype Direction = UnknownDirection | Incoming | Outgoing

  datatype SessionEventType =
    | NoEvent | SessionCreated | Connecting | ConnectFailed | LogonSent | LogonReceived
    | LogonRejected | LogoutSent | LogoutReceived | Disconnected | SeqNumTooLow | SeqNumTooHigh
    | ResendRequested | SequenceReset | HeartbeatTimeout | TestRequestSent | ReconnectAttempt
    | SessionScheduled | ConfigError | Unparsed

  datatype Event = Event(
    eventClass: EventClass, source: Source, sessionId: string, direction: Direction,
    engineTs: int, ingestTs: int,
    msgType: string, msgSeqNum: nat, possDup: bool, rejectReason: int, refTagId: int,
    ordStatus: string, text: string,
    sessionEvent: SessionEventType, expectedSeqNum: nat, receivedSeqNum: nat)
  {
    function Ts(): int {
      if engineTs != 0 then engineTs else ingestTs
    }
  }

  datatype LinkState = UnknownState | Down | ConnectingState | LogonPending | LoggedOn | Stale

  datatype Snapshot = Snapshot(
    sessionId: string, state: LinkState,
    lastEventTs: int, lastIncomingTs: int, lastOutgoingTs: int, logonTs: int,
    nextExpectedIn: nat, lastOutgoingSeq: nat, msgsIn: nat, msgsOut: nat,
    seqGaps: nat, seqGapsReported: nat, seqTooLow: nat, resendRequests: nat,
    heartbeatTimeouts: nat, disconnects: nat, reconnectAttempts: nat, logonRejects: nat,
    sessionRejects: nat, businessRejects: nat, execRejects: nat,
    lastDisconnectReason: string, lastRejectText: string, clockSkew: int, heartbeatInterval: int)

  /** A session nobody has heard of yet. */
  function Unheard(id: string): Snapshot {
    Snapshot(id, UnknownState, 0, 0, 0, 0, 0, 0, 0, 0, 0, 0, 0, 0, 0, 0, 0, 0, 0, 0, 0, "", "", 0, 30)
  }

  // ---------------------------------------------------------------------------
  // One event

  function Stamped(s: Snapshot, ev: Event): Snapshot {
    s.(lastEventTs := if ev.Ts() > s.lastEventTs then ev.Ts() else s.lastEventTs,
       clockSkew := if ev.engineTs != 0 && ev.ingestTs != 0 then ev.ingestTs - ev.engineTs else s.clockSkew)
  }

  /** Whether a message takes part in inbound gap detection. */
  predicate Sequenced(ev: Event) {
    ev.eventClass.FixMessage? && ev.direction.Incoming? && !ev.possDup && ev.msgSeqNum > 0
  }

  function MessageGap(s: Snapshot, ev: Event): nat {
    if Sequenced(ev) && s.nextExpectedIn != 0 && ev.msgSeqNum > s.nextExpectedIn
    then ev.msgSeqNum - s.nextExpectedIn else 0
  }

  function Counted(s: Snapshot, ev: Event): Snapshot {
    match ev.direction
    case Incoming =>
      s.(msgsIn := s.msgsIn + 1, lastIncomingTs := ev.Ts(),
         seqGaps := s.seqGaps + (if MessageGap(s, ev) > 0 then 1 else 0),
         nextExpectedIn := if Sequenced(ev) then ev.msgSeqNum + 1 else s.nextExpectedIn)
    case Outgoing =>
      s.(msgsOut := s.msgsOut + 1, lastOutgoingTs := ev.Ts(),
         lastOutgoingSeq := if ev.msgSeqNum > s.lastOutgoingSeq then ev.msgSeqNum else s.lastOutgoingSeq)
    case UnknownDirection => s
  }

  function WithRejectText(s: Snapshot, ev: Event): Snapshot {
    if ev.text == "" then s else s.(lastRejectText := ev.text)
  }

  function WithDisconnectReason(s: Snapshot, ev: Event): Snapshot {
    if ev.text == "" then s else s.(lastDisconnectReason := ev.text)
  }

  /** Session-layer transitions visible in the message stream. */
  function ByMsgType(s: Snapshot, ev: Event): Snapshot {
    if ev.msgType == "A" then
      if ev.direction.Incoming? then s.(state := LoggedOn, logonTs := ev.Ts())
      else if s.state != LoggedOn then s.(state := LogonPending)
      else s
    else if ev.msgType == "5" then s.(state := Down)
    else if ev.msgType == "3" then WithRejectText(s.(sessionRejects := s.sessionRejects + 1), ev)
    else if ev.msgType == "j" then WithRejectText(s.(businessRejects := s.businessRejects + 1), ev)
    else if ev.msgType == "2" then
      if ev.direction.Outgoing? then s.(resendRequests := s.resendRequests + 1) else s
    else if (ev.msgType == "8" && ev.ordStatus == "8") || ev.msgType == "9" then
      WithRejectText(s.(execRejects := s.execRejects + 1), ev)
    else s
  }

  function BySessionEvent(s: Snapshot, ev: Event): Snapshot {
    match ev.sessionEvent
    case Connecting => s.(state := ConnectingState)
    case ConnectFailed => WithDisconnectReason(s.(state := Down), ev)
    case LogonSent => s.(state := LogonPending)
    case LogonReceived => s.(state := LoggedOn, logonTs := ev.Ts())
    case LogonRejected => WithDisconnectReason(s.(logonRejects := s.logonRejects + 1, state := Down), ev)
    case LogoutSent => WithDisconnectReason(s.(disconnects := s.disconnects + 1, state := Down), ev)
    case LogoutReceived => WithDisconnectReason(s.(disconnects := s.disconnects + 1, state := Down), ev)
    case Disconnected => WithDisconnectReason(s.(disconnects := s.disconnects + 1, state := Down), ev)
    case SeqNumTooLow => s.(seqTooLow := s.seqTooLow + 1)
    case SeqNumTooHigh => s.(seqGapsReported := s.seqGapsReported + 1)
    case ResendRequested => s.(resendRequests := s.resendRequests + 1)
    case HeartbeatTimeout => s.(heartbeatTimeouts := s.heartbeatTimeouts + 1)
    case ReconnectAttempt => s.(reconnectAttempts := s.reconnectAttempts + 1, state := ConnectingState)
    case _ => s
  }

  function Applied(s: Snapshot, ev: Event): Snapshot {
    if ev.eventClass.FixMessage? then ByMsgType(Counted(Stamped(s, ev), ev), ev)
    else BySessionEvent(Stamped(s, ev), ev)
  }

  /** The gap an event reveals: derived from the message stream, or narrated by the engine. */
  function GapOf(s: Snapshot, ev: Event): nat {
    if ev.eventClass.FixMessage? then MessageGap(s, ev)
    else if ev.sessionEvent.SeqNumTooHigh? && ev.expectedSeqNum != 0 && ev.receivedSeqNum > ev.expectedSeqNum
    then ev.receivedSeqNum - ev.expectedSeqNum
    else 0
  }

  // ---------------------------------------------------------------------------
  // Staleness

  function Tolerance(s: Snapshot, multiple: int): int {
    s.heartbeatInterval * multiple * 1_000_000_000
  }

  function LastHeard(s: Snapshot): int {
    if s.lastIncomingTs != 0 then s.lastIncomingTs else s.lastEventTs
  }

  function Evaluated(s: Snapshot, now: int, multiple: int): Snapshot {
    if (s.state != LoggedOn && s.state != Stale) || LastHeard(s) == 0 then s
    else s.(state := if now - LastHeard(s) > Tolerance(s, multiple) then Stale else LoggedOn)
  }

  // ---------------------------------------------------------------------------
  // The registry

  function SnapshotOf(sessions: map<string, Snapshot>, id: string): Snapshot {
    if id in sessions then sessions[id] else Unheard(id)
  }

  /** What can happen to the registry: a session imported from config, an event, or a look at the clock. */
  datatype Input = Enrol(id: string, heartbeat: int) | Deliver(ev: Event) | Tick(now: int)

  function Enrolled(s: Snapshot, id: string, heartbeat: int): Snapshot {
    s.(sessionId := id, heartbeatInterval := if heartbeat > 0 then heartbeat else 30)
  }

  function Swept(sessions: map<string, Snapshot>, now: int, multiple: int): map<string, Snapshot> {
    map id | id in sessions :: Evaluated(sessions[id], now, multiple)
  }

  function Heard(sessions: map<string, Snapshot>, ev: Event): map<string, Snapshot> {
    sessions[ev.sessionId := Applied(SnapshotOf(sessions, ev.sessionId), ev)]
  }

  /** The registry after one input. */
  function Moved(sessions: map<string, Snapshot>, input: Input, multiple: int): map<string, Snapshot> {
    match input
    case Enrol(id, heartbeat) => sessions[id := Enrolled(SnapshotOf(sessions, id), id, heartbeat)]
    case Deliver(ev) => Heard(sessions, ev)
    case Tick(now) => Swept(sessions, now, multiple)
  }

  class SessionRegistry {
    const staleMultiple: int
    var sessions: map<string, Snapshot>

    constructor (staleAfterMultiple: int)
      ensures sessions == map[]
      ensures staleMultiple == if staleAfterMultiple < 1 then 2 else staleAfterMultiple
    {
      staleMultiple := if staleAfterMultiple < 1 then 2 else staleAfterMultiple;
      sessions := map[];
    }

    method RegisterSession(id: string, heartbeat: int)
      modifies this
      ensures sessions == Moved(old(sessions), Enrol(id, heartbeat), staleMultiple)
    {
      var s := SnapshotOf(sessions, id);
      s := s.(sessionId := id);
      s := s.(heartbeatInterval := if heartbeat > 0 then heartbeat else 30);
      sessions := sessions[id := s];
    }

    /** Counts a message and, inbound, compares its number with the one expected. */
    static method CountMessage(before: Snapshot, ev: Event, ts: int) returns (s: Snapshot, gap: nat)
      requires ev.eventClass.FixMessage? && ts == ev.Ts()
      ensures s == Counted(before, ev) && gap == MessageGap(before, ev)
    {
      s, gap := before, 0;
      if ev.direction == Incoming {
        s := s.(msgsIn := s.msgsIn + 1);
        s := s.(lastIncomingTs := ts);
        if !ev.possDup && ev.msgSeqNum > 0 {
          if s.nextExpectedIn != 0 && ev.msgSeqNum > s.nextExpectedIn {
            gap := ev.msgSeqNum - s.nextExpectedIn;
            s := s.(seqGaps := s.seqGaps + 1);
          }
          s := s.(nextExpectedIn := ev.msgSeqNum + 1);
        }
      } else if ev.direction == Outgoing {
        s := s.(msgsOut := s.msgsOut + 1);
        s := s.(lastOutgoingTs := ts);
        if ev.msgSeqNum > s.lastOutgoingSeq { s := s.(lastOutgoingSeq := ev.msgSeqNum); }
      }
    }

    /** Session-layer transitions visible in the message stream itself. */
    static method MoveByMessage(before: Snapshot, ev: Event, ts: int) returns (s: Snapshot)
      requires ts == ev.Ts()
      ensures s == ByMsgType(before, ev)
    {
      s := before;
      if ev.msgType == "A" {
        if ev.direction == Incoming {
          s := s.(state := LoggedOn);
          s := s.(logonTs := ts);
        } else if s.state != LoggedOn {
          s := s.(state := LogonPending);
        }
      } else if ev.msgType == "5" {
        s := s.(state := Down);
      } else if ev.msgType == "3" {
        s := s.(sessionRejects := s.sessionRejects + 1);
        if ev.text != "" { s := s.(lastRejectText := ev.text); }
      } else if ev.msgType == "j" {
        s := s.(businessRejects := s.businessRejects + 1);
        if ev.text != "" { s := s.(lastRejectText := ev.text); }
      } else if ev.msgType == "2" {
        if ev.direction == Outgoing { s := s.(resendRequests := s.resendRequests + 1); }
      } else if ev.msgType == "8" && ev.ordStatus == "8" {
        s := s.(execRejects := s.execRejects + 1);
        if ev.text != "" { s := s.(lastRejectText := ev.text); }
      } else if ev.msgType == "9" {
        s := s.(execRejects := s.execRejects + 1);
        if ev.text != "" { s := s.(lastRejectText := ev.text); }
      }
    }

    /** Transitions the engine narrates in its event log. */
    static method MoveByNarration(before: Snapshot, ev: Event, ts: int) returns (s: Snapshot)
      requires ts == ev.Ts()
      ensures s == BySessionEvent(before, ev)
    {
      s := before;
      match ev.sessionEvent {
        case Connecting =>
          s := s.(state := ConnectingState);
        case ConnectFailed =>
          s := s.(state := Down);
          if ev.text != "" { s := s.(lastDisconnectReason := ev.text); }
        case LogonSent =>
          s := s.(state := LogonPending);
        case LogonReceived =>
          s := s.(state := LoggedOn);
          s := s.(logonTs := ts);
        case LogonRejected =>
          s := s.(logonRejects := s.logonRejects + 1);
          s := s.(state := Down);
          if ev.text != "" { s := s.(lastDisconnectReason := ev.text); }
        case LogoutSent | LogoutReceived | Disconnected =>
          s := s.(disconnects := s.disconnects + 1);
          s := s.(state := Down);
          if ev.text != "" { s := s.(lastDisconnectReason := ev.text); }
        case SeqNumTooLow =>
          s := s.(seqTooLow := s.seqTooLow + 1);
        case SeqNumTooHigh =>
          s := s.(seqGapsReported := s.seqGapsReported + 1);
        case ResendRequested =>
          s := s.(resendRequests := s.resendRequests + 1);
        case HeartbeatTimeout =>
          s := s.(heartbeatTimeouts := s.heartbeatTimeouts + 1);
        case ReconnectAttempt =>
          s := s.(reconnectAttempts := s.reconnectAttempts + 1);
          s := s.(state := ConnectingState);
        case _ =>
      }
    }

    /** Moves the event's own session on, and no other. */
    method Apply(ev: Event) returns (gap: nat)
      modifies this
      ensures sessions == Heard(old(sessions), ev)
      ensures gap == GapOf(SnapshotOf(old(sessions), ev.sessionId), ev)
    {
      hide ByMsgType, BySessionEvent, Counted;
      var s := SnapshotOf(sessions, ev.sessionId);
      var ts := if ev.engineTs != 0 then ev.engineTs else ev.ingestTs;
      if ts > s.lastEventTs {
        s := s.(lastEventTs := ts);
      }
      if ev.engineTs != 0 && ev.ingestTs != 0 {
        s := s.(clockSkew := ev.ingestTs - ev.engineTs);
      }
      gap := 0;
      if ev.eventClass == FixMessage {
        s, gap := CountMessage(s, ev, ts);
        s := MoveByMessage(s, ev, ts);
      } else {
        s := MoveByNarration(s, ev, ts);
        if ev.sessionEvent == SeqNumTooHigh && ev.expectedSeqNum != 0 && ev.receivedSeqNum > ev.expectedSeqNum {
          gap := ev.receivedSeqNum - ev.expectedSeqNum;
        }
      }
      sessions := sessions[ev.sessionId := s];
    }

    /** The body of the sweep, for one session. */
    static method Evaluate(before: Snapshot, now: int, multiple: int) returns (s: Snapshot)
      ensures s == Evaluated(before, now, multiple)
    {
      s := before;
      if s.state == LoggedOn || s.state == Stale {
        var tolerance := s.heartbeatInterval * multiple * 1_000_000_000;
        var last := if s.lastIncomingTs != 0 then s.lastIncomingTs else s.lastEventTs;
        if last != 0 {
          if now - last > tolerance {
            s := s.(state := Stale);
          } else if s.state == Stale {
            s := s.(state := LoggedOn);
          }
        }
      }
    }

    method EvaluateStaleness(now: int)
      modifies this`sessions
      ensures sessions == Swept(old(sessions), now, staleMultiple)
    {
      hide Evaluated;
      var todo := sessions.Keys;
      while todo != {}
        invariant todo <= sessions.Keys == old(sessions).Keys
        invariant forall id :: id in sessions ==>
                    sessions[id] == if id in todo then old(sessions)[id]
                                    else Evaluated(old(sessions)[id], now, staleMultiple)
        decreases |todo|
      {
        var id :| id in todo;
        todo := todo - {id};
        var s := Evaluate(sessions[id], now, staleMultiple);
        sessions := sessions[id := s];
      }
    }
  }
}
