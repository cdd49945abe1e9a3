/** main.cpp: the single consumer's turn for one event, and update_metrics as it is written there. */
module Consumer {
  import opened Bookkeeping
  import opened Labels
  import opened Metrics
  import opened Sessions

  lemma UpdatedSnoc(store: Store, max: nat, incs: seq<Inc>, inc: Inc)
    ensures Updated(store, max, incs + [inc]) == Bumped(Updated(store, max, incs), max, inc)
  {
    hide Bumped;
    assert (incs + [inc])[..|incs|] == incs;
  }

  lemma UpdatedByOne(store: Store, max: nat, incs: seq<Inc>)
    ensures incs == [] ==> Updated(store, max, incs) == store
    ensures |incs| == 1 ==> Updated(store, max, incs) == Bumped(store, max, incs[0])
  {
    hide Bumped;
  }

  lemma {:induction false} UpdatedAppend(store: Store, max: nat, a: seq<Inc>, b: seq<Inc>)
    ensures Updated(store, max, a + b) == Updated(Updated(store, max, a), max, b)
  {
    hide Bumped;
    if b == [] {
      assert a + b == a;
    } else {
      UpdatedAppend(store, max, a, b[..|b| - 1]);
      assert (a + b)[..|a + b| - 1] == a + b[..|b| - 1];
    }
  }

  /** The increments of an event, made one group after the other. */
  lemma UpdatedInOrder(store: Store, max: nat, w: Wording, ev: Event, gap: nat)
    ensures var mid := if ev.eventClass.FixMessage? then ByType(w, ev) else ByEvent(ev);
            Updated(store, max, Incs(w, ev, gap))
            == Updated(Updated(Bumped(store, max, EveryEvent(w, ev)), max, mid), max, ByGap(ev, gap))
  {
    hide Bumped, ByType, ByEvent, ByGap, EveryEvent;
    var mid := if ev.eventClass.FixMessage? then ByType(w, ev) else ByEvent(ev);
    UpdatedAppend(store, max, [EveryEvent(w, ev)] + mid, ByGap(ev, gap));
    UpdatedAppend(store, max, [EveryEvent(w, ev)], mid);
    UpdatedByOne(store, max, [EveryEvent(w, ev)]);
  }

  class MetricStore {
    const maxSeries: nat
    const wording: Wording
    var store: Store

    constructor (max: nat, w: Wording)
      ensures maxSeries == max && wording == w && store == Store(EMPTY, map[])
    {
      maxSeries, wording := max, w;
      store := Store(EMPTY, map[]);
    }

    /** Finds or makes the series and adds to it; a null handle is passed over. */
    method Bump(name: string, labels: seq<Label>, n: nat)
      modifies this
      ensures store == Bumped(old(store), maxSeries, Inc(name, labels, n))
    {
      var r := Request(CounterKind, name, labels);
      var (reg, a) := Obtained(store.reg, maxSeries, r);
      store := store.(reg := reg);
      if a.Handle? {
        store := store.(values := store.values[IdOf(r) := ValueOf(store.values, IdOf(r)) + n]);
      }
    }

    method UpdateMetrics(ev: Event, gap: nat)
      modifies this
      ensures store == Updated(old(store), maxSeries, Incs(wording, ev, gap))
    {
      UpdatedInOrder(store, maxSeries, wording, ev, gap);
      hide Bumped, Updated, ByType, ByEvent, ByGap, Incs;
      var sid := ev.sessionId;
      if ev.eventClass == FixMessage {
        Bump("fixmon_messages_total",
             [("session", sid), ("direction", DirectionName(ev.direction)),
              ("msg_type", ev.msgType), ("msg_type_name", wording.msgTypeName(ev.msgType))], 1);
        ByMessage(ev);
      } else {
        Bump("fixmon_session_events_total", [("session", sid), ("type", wording.event(ev.sessionEvent))], 1);
        ByNarration(ev);
      }
      ByGaps(ev, gap);
    }

    method ByMessage(ev: Event)
      modifies this
      ensures store == Updated(old(store), maxSeries, ByType(wording, ev))
    {
      ghost var before := store;
      hide Bumped;
      var sid := ev.sessionId;
      var reason := if ev.rejectReason >= 0 then wording.number(ev.rejectReason) else "none";
      if ev.msgType == "3" {
        Bump("fixmon_session_rejects_total",
             [("session", sid), ("reason", reason),
              ("ref_tag", if ev.refTagId >= 0 then wording.number(ev.refTagId) else "none")], 1);
      } else if ev.msgType == "j" {
        Bump("fixmon_business_rejects_total", [("session", sid), ("reason", reason)], 1);
      } else if (ev.msgType == "8" && ev.ordStatus == "8") || ev.msgType == "9" {
        Bump("fixmon_exec_rejects_total", [("session", sid), ("reason", reason)], 1);
      } else if ev.msgType == "2" && ev.direction == Outgoing {
        Bump("fixmon_resend_requests_total", [("session", sid), ("src", "message_log")], 1);
      }
      UpdatedByOne(before, maxSeries, ByType(wording, ev));
    }

    method ByNarration(ev: Event)
      modifies this
      ensures store == Updated(old(store), maxSeries, ByEvent(ev))
    {
      ghost var before := store;
      hide Bumped;
      var sid := ev.sessionId;
      match ev.sessionEvent {
        case SeqNumTooLow => Bump("fixmon_seq_too_low_total", [("session", sid)], 1);
        case ResendRequested =>
          Bump("fixmon_resend_requests_total", [("session", sid), ("src", "event_log")], 1);
        case HeartbeatTimeout => Bump("fixmon_heartbeat_timeouts_total", [("session", sid)], 1);
        case Disconnected => Bump("fixmon_disconnects_total", [("session", sid)], 1);
        case LogoutReceived => Bump("fixmon_disconnects_total", [("session", sid)], 1);
        case LogoutSent => Bump("fixmon_disconnects_total", [("session", sid)], 1);
        case ReconnectAttempt => Bump("fixmon_reconnect_attempts_total", [("session", sid)], 1);
        case LogonRejected => Bump("fixmon_logon_rejects_total", [("session", sid)], 1);
        case _ =>
      }
      UpdatedByOne(before, maxSeries, ByEvent(ev));
    }

    method ByGaps(ev: Event, gap: nat)
      modifies this
      ensures store == Updated(old(store), maxSeries, ByGap(ev, gap))
    {
      ghost var before := store;
      hide Bumped;
      if gap > 0 {
        var l := [("session", ev.sessionId), ("src", SourceName(ev.source))];
        Bump("fixmon_seq_gaps_total", l, 1);
        Bump("fixmon_seq_gap_messages_total", l, gap);
        var both := ByGap(ev, gap);
        assert both == ([] + [both[0]]) + [both[1]];
        UpdatedSnoc(before, maxSeries, [], both[0]);
        UpdatedSnoc(before, maxSeries, [both[0]], both[1]);
      }
    }
  }

  /** The pipeline behind the queue. */
  class Pipeline {
    const registry: SessionRegistry
    const metrics: MetricStore
    var staged: seq<Event>

    constructor (r: SessionRegistry, m: MetricStore)
      ensures registry == r && metrics == m && staged == []
    {
      registry, metrics, staged := r, m, [];
    }

    /** One popped event: session state, metrics, store, in that order. */
    method Consume(ev: Event)
      modifies this, registry, metrics
      ensures var c := Setup(registry.staleMultiple, metrics.maxSeries, metrics.wording);
              Books(registry.sessions, metrics.store)
              == Turned(Books(old(registry.sessions), old(metrics.store)), Session(Deliver(ev)), c)
      ensures staged == old(staged) + [ev]
    {
      hide Applied, GapOf, Incs, Updated;
      var gap := registry.Apply(ev);
      metrics.UpdateMetrics(ev, gap);
      staged := staged + [ev];
    }
  }
}
