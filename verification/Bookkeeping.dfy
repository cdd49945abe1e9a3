/**
  main.cpp: the consumer hands every event to the session registry and, independently, to
  update_metrics. The totals a scrape would show are read off the printed series and agree with
  the registry's own counters, as long as the series cap turned nothing away.
 */
module Bookkeeping {
  import opened Labels
  import opened Metrics
  import SessionRuns
  import opened Sessions
  import Secrets

  // ---------------------------------------------------------------------------
  // update_metrics

  /** How message types, events and numbers are worded; no total depends on it. */
  datatype Wording = Wording(msgTypeName: string -> string, event: SessionEventType -> string, number: int -> string)

  function SourceName(s: Source): string {
    match s
    case MessageLog => "message_log"
    case EventLog => "event_log"
    case Pcap => "pcap"
    case EngineHook => "engine_hook"
    case UnknownSource => "unknown"
  }

  function DirectionName(d: Direction): string {
    match d
    case Incoming => "in"
    case Outgoing => "out"
    case UnknownDirection => "unknown"
  }

  /** One call of the helper `inc`: which family, which labels, by how much. */
  datatype Inc = Inc(name: string, labels: seq<Label>, n: nat)

  function OrNone(w: Wording, v: int): string {
    if v >= 0 then w.number(v) else "none"
  }

  function EveryEvent(w: Wording, ev: Event): Inc {
    if ev.eventClass.FixMessage? then
      Inc("fixmon_messages_total",
          [("session", ev.sessionId), ("direction", DirectionName(ev.direction)),
           ("msg_type", ev.msgType), ("msg_type_name", w.msgTypeName(ev.msgType))], 1)
    else
      Inc("fixmon_session_events_total", [("session", ev.sessionId), ("type", w.event(ev.sessionEvent))], 1)
  }

  function ByType(w: Wording, ev: Event): seq<Inc> {
    var reason := ("reason", OrNone(w, ev.rejectReason));
    if ev.msgType == "3" then
      [Inc("fixmon_session_rejects_total",
           [("session", ev.sessionId), reason, ("ref_tag", OrNone(w, ev.refTagId))], 1)]
    else if ev.msgType == "j" then
      [Inc("fixmon_business_rejects_total", [("session", ev.sessionId), reason], 1)]
    else if (ev.msgType == "8" && ev.ordStatus == "8") || ev.msgType == "9" then
      [Inc("fixmon_exec_rejects_total", [("session", ev.sessionId), reason], 1)]
    else if ev.msgType == "2" && ev.direction.Outgoing? then
      [Inc("fixmon_resend_requests_total", [("session", ev.sessionId), ("src", "message_log")], 1)]
    else []
  }

  function ByEvent(ev: Event): seq<Inc> {
    match ev.sessionEvent
    case SeqNumTooLow => [Inc("fixmon_seq_too_low_total", [("session", ev.sessionId)], 1)]
    case ResendRequested =>
      [Inc("fixmon_resend_requests_total", [("session", ev.sessionId), ("src", "event_log")], 1)]
    case HeartbeatTimeout => [Inc("fixmon_heartbeat_timeouts_total", [("session", ev.sessionId)], 1)]
    case Disconnected => [Inc("fixmon_disconnects_total", [("session", ev.sessionId)], 1)]
    case LogoutReceived => [Inc("fixmon_disconnects_total", [("session", ev.sessionId)], 1)]
    case LogoutSent => [Inc("fixmon_disconnects_total", [("session", ev.sessionId)], 1)]
    case ReconnectAttempt => [Inc("fixmon_reconnect_attempts_total", [("session", ev.sessionId)], 1)]
    case LogonRejected => [Inc("fixmon_logon_rejects_total", [("session", ev.sessionId)], 1)]
    case _ => []
  }

  function ByGap(ev: Event, gap: nat): seq<Inc> {
    if gap == 0 then []
    else
      var l := [("session", ev.sessionId), ("src", SourceName(ev.source))];
      [Inc("fixmon_seq_gaps_total", l, 1), Inc("fixmon_seq_gap_messages_total", l, gap)]
  }

  function Incs(w: Wording, ev: Event, gap: nat): seq<Inc> {
    [EveryEvent(w, ev)] + (if ev.eventClass.FixMessage? then ByType(w, ev) else ByEvent(ev)) + ByGap(ev, gap)
  }

  /** The metric registry with the values of its counters. */
  datatype Store = Store(reg: Registry, values: map<Id, nat>)

  function ValueOf(values: map<Id, nat>, id: Id): nat {
    if id in values then values[id] else 0
  }

  /** A null handle is tolerated: the increment is dropped. */
  function Bumped(store: Store, max: nat, inc: Inc): Store {
    var r := Request(CounterKind, inc.name, inc.labels);
    var (reg, a) := Obtained(store.reg, max, r);
    Store(reg, if a.Handle? then store.values[IdOf(r) := ValueOf(store.values, IdOf(r)) + inc.n] else store.values)
  }

  function Updated(store: Store, max: nat, incs: seq<Inc>): Store {
    if incs == [] then store
    else Bumped(Updated(store, max, incs[..|incs| - 1]), max, incs[|incs| - 1])
  }

  // ---------------------------------------------------------------------------
  // The totals of a scrape

  datatype Tally =
    | MessagesIn | MessagesOut | SessionRejects | BusinessRejects | ExecRejects | ResendRequests
    | HeartbeatTimeouts | Disconnects | ReconnectAttempts | LogonRejects | TooLow | MessageGaps | GapMessages

  function FamilyName(t: Tally): string {
    match t
    case MessagesIn => "fixmon_messages_total"
    case MessagesOut => "fixmon_messages_total"
    case SessionRejects => "fixmon_session_rejects_total"
    case BusinessRejects => "fixmon_business_rejects_total"
    case ExecRejects => "fixmon_exec_rejects_total"
    case ResendRequests => "fixmon_resend_requests_total"
    case HeartbeatTimeouts => "fixmon_heartbeat_timeouts_total"
    case Disconnects => "fixmon_disconnects_total"
    case ReconnectAttempts => "fixmon_reconnect_attempts_total"
    case LogonRejects => "fixmon_logon_rejects_total"
    case TooLow => "fixmon_seq_too_low_total"
    case MessageGaps => "fixmon_seq_gaps_total"
    case GapMessages => "fixmon_seq_gap_messages_total"
  }

  /** The label selection of the query; the others are summed over. */
  predicate Selects(t: Tally, session: string, labels: seq<Label>) {
    && ("session", session) in labels
    && (t.MessagesIn? ==> ("direction", "in") in labels)
    && (t.MessagesOut? ==> ("direction", "out") in labels)
    && (t.MessageGaps? || t.GapMessages? ==> ("src", "message_log") in labels)
  }

  predicate Belongs(t: Tally, session: string, id: Id) {
    && id.kind.CounterKind? && id.name == FamilyName(t)
    && Decode(id.key).Some? && Selects(t, session, Decode(id.key).value)
  }

  function Share(t: Tally, session: string, values: map<Id, nat>, id: Id): nat {
    if Belongs(t, session, id) then ValueOf(values, id) else 0
  }

  ghost function SumOver(t: Tally, session: string, values: map<Id, nat>, ids: set<Id>): nat {
    if ids == {} then 0
    else
      var id :| id in ids;
      Share(t, session, values, id) + SumOver(t, session, values, ids - {id})
  }

  ghost function Total(t: Tally, session: string, store: Store): nat {
    SumOver(t, session, store.values, store.values.Keys)
  }

  lemma {:induction false} SumSplit(t: Tally, session: string, values: map<Id, nat>, ids: set<Id>, id: Id)
    requires id in ids
    ensures SumOver(t, session, values, ids)
         == Share(t, session, values, id) + SumOver(t, session, values, ids - {id})
    decreases |ids|
  {
    hide Share;
    var first :| first in ids && SumOver(t, session, values, ids)
                 == Share(t, session, values, first) + SumOver(t, session, values, ids - {first});
    if first != id {
      SumSplit(t, session, values, ids - {first}, id);
      SumSplit(t, session, values, ids - {id}, first);
      assert ids - {first} - {id} == ids - {id} - {first};
    }
  }

  lemma {:induction false} SumFrame(t: Tally, session: string, a: map<Id, nat>, b: map<Id, nat>, ids: set<Id>)
    requires forall id | id in ids :: ValueOf(a, id) == ValueOf(b, id)
    ensures SumOver(t, session, a, ids) == SumOver(t, session, b, ids)
    decreases |ids|
  {
    hide ValueOf, Belongs;
    if ids != {} {
      var id :| id in ids;
      SumSplit(t, session, a, ids, id);
      SumSplit(t, session, b, ids, id);
      SumFrame(t, session, a, b, ids - {id});
    }
  }

  lemma SumBump(t: Tally, session: string, values: map<Id, nat>, id: Id, n: nat)
    ensures var next := values[id := ValueOf(values, id) + n];
            SumOver(t, session, next, next.Keys)
            == SumOver(t, session, values, values.Keys) + (if Belongs(t, session, id) then n else 0)
  {
    hide Belongs;
    var next := values[id := ValueOf(values, id) + n];
    var rest := values.Keys - {id};
    assert next.Keys - {id} == rest;
    SumSplit(t, session, next, next.Keys, id);
    SumFrame(t, session, values, next, rest);
    if id in values {
      SumSplit(t, session, values, values.Keys, id);
    } else {
      assert rest == values.Keys;
    }
  }

  // ---------------------------------------------------------------------------
  // One event, in the totals

  predicate Counts(t: Tally, session: string, inc: Inc) {
    inc.name == FamilyName(t) && Selects(t, session, inc.labels)
  }

  function CountedBy(t: Tally, session: string, inc: Inc): nat {
    if Counts(t, session, inc) then inc.n else 0
  }

  function Sum(t: Tally, session: string, incs: seq<Inc>): nat {
    if incs == [] then 0
    else Sum(t, session, incs[..|incs| - 1]) + CountedBy(t, session, incs[|incs| - 1])
  }

  predicate Harmless(inc: Inc) {
    Plain(inc.labels) && !NamesSecret(inc.labels)
  }

  lemma HarmlessBelongs(t: Tally, session: string, inc: Inc)
    requires Harmless(inc)
    ensures Belongs(t, session, IdOf(Request(CounterKind, inc.name, inc.labels))) <==> Counts(t, session, inc)
  {
    hide Decode, Encoded, Selects, FamilyName, NamesSecret;
    ReadsBackExactlyWhen(inc.labels);
  }

  /** What an increment would have added to a total, had the cap not refused its series. */
  function LostBy(store: Store, max: nat, inc: Inc, t: Tally, session: string): nat {
    if Obtained(store.reg, max, Request(CounterKind, inc.name, inc.labels)).1.AtCap? then CountedBy(t, session, inc)
    else 0
  }

  function LostOver(store: Store, max: nat, incs: seq<Inc>, t: Tally, session: string): nat {
    if incs == [] then 0
    else
      var before := incs[..|incs| - 1];
      LostOver(store, max, before, t, session)
      + LostBy(Updated(store, max, before), max, incs[|incs| - 1], t, session)
  }

  lemma BumpedTotal(store: Store, max: nat, inc: Inc, t: Tally, session: string)
    requires Harmless(inc)
    ensures Total(t, session, Bumped(store, max, inc)) + LostBy(store, max, inc, t, session)
         == Total(t, session, store) + CountedBy(t, session, inc)
    ensures Bumped(store, max, inc).reg.rejected >= store.reg.rejected
    ensures Bumped(store, max, inc).reg.rejected == store.reg.rejected ==> LostBy(store, max, inc, t, session) == 0
  {
    hide Belongs, SumOver, Counts, Plain, NamesSecret, ValueOf, IdOf;
    HarmlessBelongs(t, session, inc);
    SumBump(t, session, store.values, IdOf(Request(CounterKind, inc.name, inc.labels)), inc.n);
  }

  lemma {:induction false} UpdatedTotal(store: Store, max: nat, incs: seq<Inc>, t: Tally, session: string)
    requires forall k | 0 <= k < |incs| :: Harmless(incs[k])
    ensures Total(t, session, Updated(store, max, incs)) + LostOver(store, max, incs, t, session)
         == Total(t, session, store) + Sum(t, session, incs)
    ensures Updated(store, max, incs).reg.rejected >= store.reg.rejected
    ensures Updated(store, max, incs).reg.rejected == store.reg.rejected ==>
              LostOver(store, max, incs, t, session) == 0
  {
    hide Harmless, Bumped, Total, Counts, LostBy, CountedBy;
    if incs != [] {
      UpdatedTotal(store, max, incs[..|incs| - 1], t, session);
      BumpedTotal(Updated(store, max, incs[..|incs| - 1]), max, incs[|incs| - 1], t, session);
    }
  }

  lemma {:induction false} SumAppend(t: Tally, session: string, a: seq<Inc>, b: seq<Inc>)
    ensures Sum(t, session, a + b) == Sum(t, session, a) + Sum(t, session, b)
  {
    hide CountedBy;
    if b == [] {
      assert a + b == a;
    } else {
      SumAppend(t, session, a, b[..|b| - 1]);
      assert (a + b)[..|a + b| - 1] == a + b[..|b| - 1];
    }
  }

  predicate IsLabelName(n: string) {
    || n == "session" || n == "direction" || n == "msg_type" || n == "msg_type_name"
    || n == "reason" || n == "ref_tag" || n == "src" || n == "type"
  }

  predicate SpellsNoSecret(n: string) {
    && (forall i | 0 <= i < |n| :: Secrets.IsCommon(n[i]))
    && (|n| < 6 || (forall i | 0 <= i < |n| :: n[i] != 'c') || (forall i | 0 <= i < |n| :: n[i] != 's'))
  }

  lemma ShortNamesSpellNoSecret()
    ensures SpellsNoSecret("session") && SpellsNoSecret("reason") && SpellsNoSecret("ref_tag")
    ensures SpellsNoSecret("src") && SpellsNoSecret("type")
  {
  }

  lemma LongNamesSpellNoSecret()
    ensures SpellsNoSecret("direction") && SpellsNoSecret("msg_type") && SpellsNoSecret("msg_type_name")
  {
  }

  lemma LabelNameIsHarmless(n: string)
    requires IsLabelName(n)
    ensures !Secrets.IsSensitiveKey(n) && '=' !in n
  {
    ShortNamesSpellNoSecret();
    LongNamesSpellNoSecret();
    assert SpellsNoSecret(n);
    hide IsLabelName;
    Secrets.HarmlessName(n);
    assert forall i | 0 <= i < |n| :: Secrets.IsCommon(n[i]) && n[i] != '=';
  }

  predicate OwnLabels(inc: Inc) {
    forall i | 0 <= i < |inc.labels| :: IsLabelName(inc.labels[i].0)
  }

  lemma OwnLabelsHarmless(inc: Inc)
    requires OwnLabels(inc)
    ensures Harmless(inc)
  {
    forall i | 0 <= i < |inc.labels|
      ensures !Secrets.IsSensitiveKey(inc.labels[i].0) && '=' !in inc.labels[i].0
    {
      hide IsLabelName;
      LabelNameIsHarmless(inc.labels[i].0);
    }
  }

  lemma EveryEventOwn(w: Wording, ev: Event)
    ensures OwnLabels(EveryEvent(w, ev))
  {
  }

  lemma ByTypeOwn(w: Wording, ev: Event)
    ensures forall k | 0 <= k < |ByType(w, ev)| :: OwnLabels(ByType(w, ev)[k])
  {
  }

  lemma ByEventOwn(ev: Event)
    ensures forall k | 0 <= k < |ByEvent(ev)| :: OwnLabels(ByEvent(ev)[k])
  {
  }

  lemma ByGapOwn(ev: Event, gap: nat)
    ensures forall k | 0 <= k < |ByGap(ev, gap)| :: OwnLabels(ByGap(ev, gap)[k])
  {
  }

  lemma IncsHarmless(w: Wording, ev: Event, gap: nat)
    ensures forall k | 0 <= k < |Incs(w, ev, gap)| :: Harmless(Incs(w, ev, gap)[k])
  {
    var incs := Incs(w, ev, gap);
    EveryEventOwn(w, ev);
    ByTypeOwn(w, ev);
    ByEventOwn(ev);
    ByGapOwn(ev, gap);
    hide EveryEvent, ByType, ByEvent, ByGap, OwnLabels;
    forall k | 0 <= k < |incs|
      ensures Harmless(incs[k])
    {
      OwnLabelsHarmless(incs[k]);
    }
  }

  /** What an event of this session is worth to each total; `gap` is what the registry returned for it. */
  function Worth(t: Tally, ev: Event, gap: nat): nat {
    var fix := ev.eventClass.FixMessage?;
    var fromLog := ev.source.MessageLog? && gap > 0;
    match t
    case MessagesIn => if fix && ev.direction.Incoming? then 1 else 0
    case MessagesOut => if fix && ev.direction.Outgoing? then 1 else 0
    case SessionRejects => if fix && ev.msgType == "3" then 1 else 0
    case BusinessRejects => if fix && ev.msgType == "j" then 1 else 0
    case ExecRejects => if fix && ((ev.msgType == "8" && ev.ordStatus == "8") || ev.msgType == "9") then 1 else 0
    case ResendRequests =>
      if fix then (if ev.msgType == "2" && ev.direction.Outgoing? then 1 else 0)
      else if ev.sessionEvent.ResendRequested? then 1 else 0
    case HeartbeatTimeouts => if !fix && ev.sessionEvent.HeartbeatTimeout? then 1 else 0
    case Disconnects =>
      if !fix && (ev.sessionEvent.Disconnected? || ev.sessionEvent.LogoutReceived? || ev.sessionEvent.LogoutSent?)
      then 1 else 0
    case ReconnectAttempts => if !fix && ev.sessionEvent.ReconnectAttempt? then 1 else 0
    case LogonRejects => if !fix && ev.sessionEvent.LogonRejected? then 1 else 0
    case TooLow => if !fix && ev.sessionEvent.SeqNumTooLow? then 1 else 0
    case MessageGaps => if fromLog then 1 else 0
    case GapMessages => if fromLog then gap else 0
  }

  function WorthTo(t: Tally, session: string, ev: Event, gap: nat): nat {
    if ev.sessionId == session then Worth(t, ev, gap) else 0
  }

  lemma SumOne(t: Tally, session: string, inc: Inc)
    ensures Sum(t, session, [inc]) == CountedBy(t, session, inc)
    ensures Sum(t, session, []) == 0
  {
    assert [inc][..0] == [];
  }

  /** The session label decides first: another session's increment counts for nothing. */
  lemma OneSessionLabel(labels: seq<Label>, id: string, session: string)
    requires labels != [] && labels[0] == ("session", id)
    requires forall i | 0 < i < |labels| :: labels[i].0 != "session"
    ensures ("session", session) in labels <==> session == id
  {
    assert labels[0] in labels;
  }

  /** The increment every event brings is worth something to the message totals only. */
  lemma EveryEventWorth(w: Wording, t: Tally, session: string, ev: Event)
    ensures CountedBy(t, session, EveryEvent(w, ev))
         == if t.MessagesIn? || t.MessagesOut? then WorthTo(t, session, ev, 0) else 0
  {
    MessageFamilies(t);
    if ev.eventClass.FixMessage? {
      MessageLabels(w, t, session, ev);
    }
    hide FamilyName, Selects, DirectionName;
  }

  lemma MessageFamilies(t: Tally)
    ensures FamilyName(t) == "fixmon_messages_total" <==> t.MessagesIn? || t.MessagesOut?
    ensures FamilyName(t) != "fixmon_session_events_total"
  {
    assert FamilyName(MessagesIn) == "fixmon_messages_total";
    var n := "fixmon_session_events_total";
    assert |n| == 27 && |FamilyName(t)| != 27;
    if FamilyName(t) == "fixmon_messages_total" && t != MessagesIn {
      FamiliesDiffer(t, MessagesIn);
    }
  }

  lemma MessageLabels(w: Wording, t: Tally, session: string, ev: Event)
    requires ev.eventClass.FixMessage?
    ensures t.MessagesIn? ==>
              (Selects(t, session, EveryEvent(w, ev).labels) <==> ev.sessionId == session && ev.direction.Incoming?)
    ensures t.MessagesOut? ==>
              (Selects(t, session, EveryEvent(w, ev).labels) <==> ev.sessionId == session && ev.direction.Outgoing?)
  {
    var labels := EveryEvent(w, ev).labels;
    OneSessionLabel(labels, ev.sessionId, session);
    assert labels[1] in labels;
    assert forall d | ("direction", d) in labels :: d == DirectionName(ev.direction);
  }

  /** The total that hears of a message type, if any. */
  predicate TalliesType(t: Tally, ev: Event) {
    match t
    case SessionRejects => ev.msgType == "3"
    case BusinessRejects => ev.msgType == "j"
    case ExecRejects => (ev.msgType == "8" && ev.ordStatus == "8") || ev.msgType == "9"
    case ResendRequests => ev.msgType == "2" && ev.direction.Outgoing?
    case _ => false
  }

  lemma ByTypeOne(w: Wording, t: Tally, ev: Event)
    requires TalliesType(t, ev)
    ensures !t.MessagesIn? && !t.MessagesOut? && !t.MessageGaps? && !t.GapMessages?
    ensures |ByType(w, ev)| == 1
    ensures var inc := ByType(w, ev)[0];
            && inc.name == FamilyName(t) && inc.n == 1
            && inc.labels != [] && inc.labels[0] == ("session", ev.sessionId)
            && forall i | 0 < i < |inc.labels| :: inc.labels[i].0 != "session"
  {
  }

  lemma ByTypeNone(w: Wording, ev: Event)
    requires forall t :: !TalliesType(t, ev)
    ensures ByType(w, ev) == []
  {
    assert !TalliesType(SessionRejects, ev) && !TalliesType(BusinessRejects, ev);
    assert !TalliesType(ExecRejects, ev) && !TalliesType(ResendRequests, ev);
  }

  lemma OneTypeEach(t: Tally, u: Tally, ev: Event)
    requires TalliesType(u, ev)
    ensures TalliesType(t, ev) <==> t == u
  {
  }

  lemma TypeWorth(t: Tally, ev: Event)
    requires ev.eventClass.FixMessage?
    ensures t.MessagesIn? || t.MessagesOut? || Worth(t, ev, 0) == if TalliesType(t, ev) then 1 else 0
    ensures t.MessagesIn? || t.MessagesOut? ==> !TalliesType(t, ev)
  {
  }

  lemma ByTypeWorth(w: Wording, t: Tally, session: string, ev: Event)
    requires ev.eventClass.FixMessage?
    ensures Sum(t, session, ByType(w, ev))
         == if t.MessagesIn? || t.MessagesOut? then 0 else WorthTo(t, session, ev, 0)
  {
    hide *;
    TypeWorth(t, ev);
    WorthToOther(t, session, ev, 0);
    if u :| TalliesType(u, ev) {
      ByTypeOne(w, u, ev);
      var inc := ByType(w, ev)[0];
      assert ByType(w, ev) == [inc];
      SumOne(t, session, inc);
      EventCounted(t, u, session, ev.sessionId, inc);
      OneTypeEach(t, u, ev);
    } else {
      ByTypeNone(w, ev);
      SumNone(t, session);
    }
  }

  /** The total that hears of a session event, if any. */
  predicate TalliesEvent(t: Tally, e: SessionEventType) {
    match t
    case ResendRequests => e.ResendRequested?
    case HeartbeatTimeouts => e.HeartbeatTimeout?
    case Disconnects => e.Disconnected? || e.LogoutReceived? || e.LogoutSent?
    case ReconnectAttempts => e.ReconnectAttempt?
    case LogonRejects => e.LogonRejected?
    case TooLow => e.SeqNumTooLow?
    case _ => false
  }

  lemma FamiliesDiffer(t: Tally, u: Tally)
    requires FamilyName(t) == FamilyName(u) && t != u
    ensures (t.MessagesIn? || t.MessagesOut?) && (u.MessagesIn? || u.MessagesOut?)
  {
    var a, b := FamilyName(t), FamilyName(u);
    assert |a| == |b| && a[7] == b[7] && a[8] == b[8] && a[11] == b[11];
  }

  lemma ByEventOne(t: Tally, ev: Event)
    requires TalliesEvent(t, ev.sessionEvent)
    ensures !t.MessagesIn? && !t.MessagesOut? && !t.MessageGaps? && !t.GapMessages?
    ensures |ByEvent(ev)| == 1
    ensures var inc := ByEvent(ev)[0];
            && inc.name == FamilyName(t) && inc.n == 1
            && inc.labels != [] && inc.labels[0] == ("session", ev.sessionId)
            && forall i | 0 < i < |inc.labels| :: inc.labels[i].0 != "session"
  {
  }

  lemma ByEventNone(ev: Event)
    requires forall t :: !TalliesEvent(t, ev.sessionEvent)
    ensures ByEvent(ev) == []
  {
    var e := ev.sessionEvent;
    assert !TalliesEvent(ResendRequests, e) && !TalliesEvent(HeartbeatTimeouts, e) && !TalliesEvent(Disconnects, e);
    assert !TalliesEvent(ReconnectAttempts, e) && !TalliesEvent(LogonRejects, e) && !TalliesEvent(TooLow, e);
  }

  lemma SumNone(t: Tally, session: string)
    ensures Sum(t, session, []) == 0
  {
  }

  lemma EventWorth(t: Tally, ev: Event)
    requires !ev.eventClass.FixMessage?
    ensures Worth(t, ev, 0) == if TalliesEvent(t, ev.sessionEvent) then 1 else 0
  {
  }

  lemma WorthToOther(t: Tally, session: string, ev: Event, gap: nat)
    ensures WorthTo(t, session, ev, gap) == if ev.sessionId == session then Worth(t, ev, gap) else 0
  {
    hide Worth;
  }

  lemma OneTallyEach(t: Tally, u: Tally, e: SessionEventType)
    requires TalliesEvent(u, e)
    ensures TalliesEvent(t, e) <==> t == u
  {
  }

  /** An increment of family `u` that names session `id` counts for that total of that session alone. */
  lemma EventCounted(t: Tally, u: Tally, session: string, id: string, inc: Inc)
    requires !u.MessagesIn? && !u.MessagesOut? && !u.MessageGaps? && !u.GapMessages?
    requires inc.name == FamilyName(u) && inc.n == 1
    requires inc.labels != [] && inc.labels[0] == ("session", id)
    requires forall i | 0 < i < |inc.labels| :: inc.labels[i].0 != "session"
    ensures CountedBy(t, session, inc) == if t == u && session == id then 1 else 0
  {
    hide FamilyName;
    OneSessionLabel(inc.labels, id, session);
    if inc.name == FamilyName(t) && t != u {
      FamiliesDiffer(t, u);
    }
  }

  lemma ByEventWorth(t: Tally, session: string, ev: Event)
    requires !ev.eventClass.FixMessage?
    ensures Sum(t, session, ByEvent(ev)) == WorthTo(t, session, ev, 0)
  {
    EventWorth(t, ev);
    hide *;
    if u :| TalliesEvent(u, ev.sessionEvent) {
      ByEventOne(u, ev);
      var inc := ByEvent(ev)[0];
      assert ByEvent(ev) == [inc];
      SumOne(t, session, inc);
      EventCounted(t, u, session, ev.sessionId, inc);
      OneTallyEach(t, u, ev.sessionEvent);
      WorthToOther(t, session, ev, 0);
    } else {
      ByEventNone(ev);
      SumNone(t, session);
      WorthToOther(t, session, ev, 0);
    }
  }

  lemma ByGapWorth(t: Tally, session: string, ev: Event, gap: nat)
    ensures Sum(t, session, ByGap(ev, gap))
         == if t.MessageGaps? || t.GapMessages? then WorthTo(t, session, ev, gap) else 0
  {
    if gap > 0 {
      var incs := ByGap(ev, gap);
      var l := incs[0].labels;
      assert incs == [Inc("fixmon_seq_gaps_total", l, 1)] + [Inc("fixmon_seq_gap_messages_total", l, gap)];
      SumAppend(t, session, [incs[0]], [incs[1]]);
      SumOne(t, session, incs[0]);
      SumOne(t, session, incs[1]);
      if t.MessageGaps? || t.GapMessages? {
        GapLabels(t, session, ev);
      }
      GapFamilies(t);
      hide Sum, ByGap, FamilyName, Selects, SourceName;
    } else {
      SumNone(t, session);
    }
  }

  lemma GapFamilies(t: Tally)
    ensures FamilyName(t) == "fixmon_seq_gaps_total" <==> t.MessageGaps?
    ensures FamilyName(t) == "fixmon_seq_gap_messages_total" <==> t.GapMessages?
  {
    if FamilyName(t) == "fixmon_seq_gaps_total" {
      assert FamilyName(MessageGaps) == "fixmon_seq_gaps_total";
      if t != MessageGaps {
        FamiliesDiffer(t, MessageGaps);
      }
    }
  }

  lemma GapLabels(t: Tally, session: string, ev: Event)
    requires t.MessageGaps? || t.GapMessages?
    ensures Selects(t, session, [("session", ev.sessionId), ("src", SourceName(ev.source))])
       <==> ev.sessionId == session && ev.source.MessageLog?
  {
    var l := [("session", ev.sessionId), ("src", SourceName(ev.source))];
    OneSessionLabel(l, ev.sessionId, session);
    assert l[1] in l;
  }

  /** Put together, the increments of one event add to every total what the event is worth. */
  lemma IncsWorth(w: Wording, t: Tally, session: string, ev: Event, gap: nat)
    ensures Sum(t, session, Incs(w, ev, gap)) == WorthTo(t, session, ev, gap)
  {
    var head, tail := [EveryEvent(w, ev)], ByGap(ev, gap);
    var mid := if ev.eventClass.FixMessage? then ByType(w, ev) else ByEvent(ev);
    SumAppend(t, session, head + mid, tail);
    SumAppend(t, session, head, mid);
    SumOne(t, session, EveryEvent(w, ev));
    EveryEventWorth(w, t, session, ev);
    ByGapWorth(t, session, ev, gap);
    if ev.eventClass.FixMessage? {
      ByTypeWorth(w, t, session, ev);
    } else {
      ByEventWorth(t, session, ev);
    }
    hide Sum, EveryEvent, ByType, ByEvent, ByGap, CountedBy;
  }

  // ---------------------------------------------------------------------------
  // The same event, in the registry

  /** The registry's own counter for each total; the messages missed are what `Apply` returned. */
  function CounterOf(t: Tally, s: Snapshot, missed: nat): nat {
    match t
    case MessagesIn => s.msgsIn
    case MessagesOut => s.msgsOut
    case SessionRejects => s.sessionRejects
    case BusinessRejects => s.businessRejects
    case ExecRejects => s.execRejects
    case ResendRequests => s.resendRequests
    case HeartbeatTimeouts => s.heartbeatTimeouts
    case Disconnects => s.disconnects
    case ReconnectAttempts => s.reconnectAttempts
    case LogonRejects => s.logonRejects
    case TooLow => s.seqTooLow
    case MessageGaps => s.seqGaps
    case GapMessages => missed
  }

  /** The adapters' rule: messages, and nothing else, come from the message log. */
  predicate FromAdapters(ev: Event) {
    ev.eventClass.FixMessage? <==> ev.source.MessageLog?
  }

  function Missed(s: Snapshot, ev: Event): nat {
    if ev.eventClass.FixMessage? then GapOf(s, ev) else 0
  }

  /** Totals moved by counting and sequencing a message, and those moved by its type. */
  predicate BySequence(t: Tally) {
    t.MessagesIn? || t.MessagesOut? || t.MessageGaps? || t.GapMessages?
  }

  lemma CountedCounters(t: Tally, s: Snapshot, ev: Event, missed: nat)
    requires FromAdapters(ev) && ev.eventClass.FixMessage?
    ensures CounterOf(t, Counted(Stamped(s, ev), ev), missed + Missed(s, ev))
         == CounterOf(t, s, missed) + if BySequence(t) then Worth(t, ev, GapOf(s, ev)) else 0
  {
  }

  lemma TypedCounters(t: Tally, s: Snapshot, ev: Event, missed: nat, gap: nat)
    requires FromAdapters(ev) && ev.eventClass.FixMessage?
    ensures CounterOf(t, ByMsgType(s, ev), missed)
         == CounterOf(t, s, missed) + if BySequence(t) then 0 else Worth(t, ev, gap)
  {
  }

  lemma AppliedMessage(t: Tally, s: Snapshot, ev: Event, missed: nat)
    requires FromAdapters(ev) && ev.eventClass.FixMessage?
    ensures CounterOf(t, Applied(s, ev), missed + Missed(s, ev)) == CounterOf(t, s, missed) + Worth(t, ev, GapOf(s, ev))
  {
    CountedCounters(t, s, ev, missed);
    TypedCounters(t, Counted(Stamped(s, ev), ev), ev, missed + Missed(s, ev), GapOf(s, ev));
    hide Counted, Stamped, ByMsgType, CounterOf, Worth, GapOf, Missed;
  }

  lemma AppliedNarration(t: Tally, s: Snapshot, ev: Event, missed: nat)
    requires FromAdapters(ev) && !ev.eventClass.FixMessage?
    ensures CounterOf(t, Applied(s, ev), missed + Missed(s, ev)) == CounterOf(t, s, missed) + Worth(t, ev, GapOf(s, ev))
  {
  }

  lemma EvaluatedCounters(t: Tally, s: Snapshot, now: int, multiple: int, missed: nat)
    ensures CounterOf(t, Evaluated(s, now, multiple), missed) == CounterOf(t, s, missed)
  {
    SessionRuns.EvaluatedKeepsCounters(s, now, multiple);
    hide Evaluated;
  }

  // ---------------------------------------------------------------------------
  // Whole runs

  /** One turn of the consumer: something for the registry, or a gauge or mirrored counter looked up. */
  datatype Turn = Session(input: Input) | Publish(r: Request)
  datatype Books = Books(sessions: map<string, Snapshot>, store: Store)
  datatype Setup = Setup(multiple: int, maxSeries: nat, wording: Wording)

  function Turned(b: Books, turn: Turn, c: Setup): Books {
    match turn
    case Publish(r) => b.(store := b.store.(reg := Obtained(b.store.reg, c.maxSeries, r).0))
    case Session(input) =>
      Books(Moved(b.sessions, input, c.multiple),
            match input
            case Deliver(ev) =>
              Updated(b.store, c.maxSeries,
                      Incs(c.wording, ev, GapOf(SnapshotOf(b.sessions, ev.sessionId), ev)))
            case _ => b.store)
  }

  function RunBooks(turns: seq<Turn>, c: Setup): Books {
    if turns == [] then Books(map[], Store(EMPTY, map[]))
    else Turned(RunBooks(turns[..|turns| - 1], c), turns[|turns| - 1], c)
  }

  function InputsOf(turns: seq<Turn>): seq<Input> {
    if turns == [] then []
    else
      var turn := turns[|turns| - 1];
      InputsOf(turns[..|turns| - 1]) + (if turn.Session? then [turn.input] else [])
  }

  predicate AllFromAdapters(turns: seq<Turn>) {
    forall k | 0 <= k < |turns| ::
      turns[k].Session? && turns[k].input.Deliver? ==> FromAdapters(turns[k].input.ev)
  }

  /** The shared map of the run is the registry's own run. */
  lemma {:induction false} BooksRunTheRegistry(turns: seq<Turn>, c: Setup)
    ensures RunBooks(turns, c).sessions == SessionRuns.Run(InputsOf(turns), c.multiple)
  {
    if turns != [] {
      BooksRunTheRegistry(turns[..|turns| - 1], c);
      var before, turn := InputsOf(turns[..|turns| - 1]), turns[|turns| - 1];
      if turn.Session? {
        assert (before + [turn.input])[..|before + [turn.input]| - 1] == before;
      } else {
        assert before + [] == before;
      }
      hide Moved, Obtained, Updated, Incs, GapOf;
    }
  }

  /** What the cap kept from a total when one event was counted. */
  function LostOn(b: Books, ev: Event, c: Setup, t: Tally, session: string): nat {
    LostOver(b.store, c.maxSeries, Incs(c.wording, ev, GapOf(SnapshotOf(b.sessions, ev.sessionId), ev)), t, session)
  }

  /** What the cap kept from a total over a run. */
  function LostIn(turns: seq<Turn>, c: Setup, t: Tally, session: string): nat {
    if turns == [] then 0
    else
      var before, turn := turns[..|turns| - 1], turns[|turns| - 1];
      LostIn(before, c, t, session)
      + if turn.Session? && turn.input.Deliver? then LostOn(RunBooks(before, c), turn.input.ev, c, t, session) else 0
  }

  /** Delivering an event adds its worth to the total, less what the cap refused. */
  lemma DeliverTotals(b: Books, ev: Event, c: Setup, t: Tally, session: string)
    ensures var next, gap := Turned(b, Session(Deliver(ev)), c), GapOf(SnapshotOf(b.sessions, ev.sessionId), ev);
            && Total(t, session, next.store) + LostOn(b, ev, c, t, session)
               == Total(t, session, b.store) + WorthTo(t, session, ev, gap)
            && next.store.reg.rejected >= b.store.reg.rejected
            && (next.store.reg.rejected == b.store.reg.rejected ==> LostOn(b, ev, c, t, session) == 0)
  {
    var gap := GapOf(SnapshotOf(b.sessions, ev.sessionId), ev);
    hide Incs, Total, Heard, GapOf, Updated, Worth, Sum, LostOver;
    IncsHarmless(c.wording, ev, gap);
    UpdatedTotal(b.store, c.maxSeries, Incs(c.wording, ev, gap), t, session);
    IncsWorth(c.wording, t, session, ev, gap);
  }

  /** And the same worth to the registry's counter. */
  lemma DeliverCounts(b: Books, ev: Event, c: Setup, t: Tally, session: string, missed: nat)
    requires FromAdapters(ev)
    ensures var next, s := Turned(b, Session(Deliver(ev)), c), SnapshotOf(b.sessions, session);
            CounterOf(t, SnapshotOf(next.sessions, session),
                      missed + if ev.sessionId == session then Missed(s, ev) else 0)
            == CounterOf(t, s, missed)
               + WorthTo(t, session, ev, GapOf(SnapshotOf(b.sessions, ev.sessionId), ev))
  {
    var s := SnapshotOf(b.sessions, ev.sessionId);
    hide Incs, CounterOf, Applied, GapOf, Updated, Worth, Missed;
    if ev.sessionId == session {
      if ev.eventClass.FixMessage? {
        AppliedMessage(t, s, ev, missed);
      } else {
        AppliedNarration(t, s, ev, missed);
      }
    }
  }

  /** Any other turn changes neither side. */
  lemma OtherTurnAddsNothing(b: Books, turn: Turn, c: Setup, t: Tally, session: string, missed: nat)
    requires !(turn.Session? && turn.input.Deliver?)
    ensures var next := Turned(b, turn, c);
            && next.store.reg.rejected >= b.store.reg.rejected
            && Total(t, session, next.store) == Total(t, session, b.store)
            && CounterOf(t, SnapshotOf(next.sessions, session), missed)
               == CounterOf(t, SnapshotOf(b.sessions, session), missed)
  {
    hide SumOver, Evaluated, CounterOf;
    if turn.Session? {
      if turn.input.Tick? && session in b.sessions {
        EvaluatedCounters(t, b.sessions[session], turn.input.now, c.multiple, missed);
      } else if turn.input.Enrol? {
        EnrolledCounters(t, SnapshotOf(b.sessions, turn.input.id), turn.input.id, turn.input.heartbeat, missed);
      }
    }
  }

  lemma EnrolledCounters(t: Tally, s: Snapshot, id: string, heartbeat: int, missed: nat)
    ensures CounterOf(t, Enrolled(s, id, heartbeat), missed) == CounterOf(t, s, missed)
  {
  }

  lemma MissedGrows(inputs: seq<Input>, input: Input, session: string, multiple: int)
    ensures SessionRuns.MessagesMissed(inputs + [input], session, multiple)
         == SessionRuns.MessagesMissed(inputs, session, multiple)
            + if input.Deliver? && input.ev.sessionId == session
              then Missed(SnapshotOf(SessionRuns.Run(inputs, multiple), session), input.ev) else 0
  {
    SessionRuns.SessionsDoNotInterfere(inputs, session, multiple);
    assert (inputs + [input])[..|inputs|] == inputs;
    hide GapOf;
  }

  /** How the messages missed move with one turn. */
  lemma MissedOnTurn(turns: seq<Turn>, turn: Turn, c: Setup, session: string)
    ensures SessionRuns.MessagesMissed(InputsOf(turns + [turn]), session, c.multiple)
         == SessionRuns.MessagesMissed(InputsOf(turns), session, c.multiple)
            + if turn.Session? && turn.input.Deliver? && turn.input.ev.sessionId == session
              then Missed(SnapshotOf(RunBooks(turns, c).sessions, session), turn.input.ev) else 0
  {
    assert (turns + [turn])[..|turns|] == turns;
    BooksRunTheRegistry(turns, c);
    hide RunBooks, Missed, SessionRuns.MessagesMissed;
    if turn.Session? {
      MissedGrows(InputsOf(turns), turn.input, session, c.multiple);
    } else {
      assert InputsOf(turns) + [] == InputsOf(turns);
    }
  }

  /**
    The two bookkeepers never drift apart: on every run the total a scrape shows for a session
    falls short of the registry's own counter by exactly what the series cap refused.
   */
  lemma {:induction false} BookkeepersAgreeButForLosses(turns: seq<Turn>, c: Setup, t: Tally, session: string)
    requires AllFromAdapters(turns)
    ensures Total(t, session, RunBooks(turns, c).store) + LostIn(turns, c, t, session)
         == CounterOf(t, SnapshotOf(RunBooks(turns, c).sessions, session),
                      SessionRuns.MessagesMissed(InputsOf(turns), session, c.multiple))
  {
    hide Total, CounterOf, Turned, Missed, GapOf, LostOn, InputsOf, SessionRuns.MessagesMissed;
    if turns != [] {
      var before, turn := turns[..|turns| - 1], turns[|turns| - 1];
      var b, missed := RunBooks(before, c), SessionRuns.MessagesMissed(InputsOf(before), session, c.multiple);
      assert before + [turn] == turns;
      MissedOnTurn(before, turn, c, session);
      BookkeepersAgreeButForLosses(before, c, t, session);
      if turn.Session? && turn.input.Deliver? {
        DeliverTotals(b, turn.input.ev, c, t, session);
        DeliverCounts(b, turn.input.ev, c, t, session, missed);
      } else {
        OtherTurnAddsNothing(b, turn, c, t, session, missed);
      }
    } else {
      NothingCounted(t, session, c);
    }
  }

  lemma {:induction false} NothingLostWithinCap(turns: seq<Turn>, c: Setup, t: Tally, session: string)
    requires RunBooks(turns, c).store.reg.rejected == 0
    ensures LostIn(turns, c, t, session) == 0
  {
    hide Total, CounterOf, Turned, LostOn, GapOf;
    if turns != [] {
      var before, turn := turns[..|turns| - 1], turns[|turns| - 1];
      var b := RunBooks(before, c);
      if turn.Session? && turn.input.Deliver? {
        DeliverTotals(b, turn.input.ev, c, t, session);
      } else {
        OtherTurnAddsNothing(b, turn, c, t, session, 0);
      }
      NothingLostWithinCap(before, c, t, session);
    }
  }

  /** So they agree outright on every run in which the cap turned nothing away. */
  lemma BookkeepersAgree(turns: seq<Turn>, c: Setup, t: Tally, session: string)
    requires AllFromAdapters(turns)
    requires RunBooks(turns, c).store.reg.rejected == 0
    ensures Total(t, session, RunBooks(turns, c).store)
         == CounterOf(t, SnapshotOf(RunBooks(turns, c).sessions, session),
                      SessionRuns.MessagesMissed(InputsOf(turns), session, c.multiple))
  {
    hide Total, CounterOf, RunBooks, LostIn, SessionRuns.MessagesMissed;
    BookkeepersAgreeButForLosses(turns, c, t, session);
    NothingLostWithinCap(turns, c, t, session);
  }

  lemma NothingCounted(t: Tally, session: string, c: Setup)
    ensures Total(t, session, RunBooks([], c).store) == 0 == CounterOf(t, SnapshotOf(map[], session), 0)
    ensures SessionRuns.MessagesMissed(InputsOf([]), session, c.multiple) == 0
  {
  }
}
