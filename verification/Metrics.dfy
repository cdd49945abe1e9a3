/**
  metrics.cpp: series are found under a shared lock and made under an exclusive one, so a caller
  may be overtaken between the two. Handles are numbered in the order they are made.
 */
module Metrics {
  import opened Labels
  import Secrets

  datatype Kind = CounterKind | GaugeKind
  datatype Request = Request(kind: Kind, name: string, labels: seq<Label>)
  datatype Id = Id(kind: Kind, name: string, key: string)
  datatype Answer = Handle(h: nat) | AtCap | Refused

  function IdOf(r: Request): Id {
    Id(r.kind, r.name, Encoded(r.labels))
  }

  predicate NamesSecret(labels: seq<Label>) {
    exists i | 0 <= i < |labels| :: Secrets.IsSensitiveKey(labels[i].0)
  }

  datatype Registry = Registry(series: map<Id, nat>, rejected: nat, redacted: nat)

  const EMPTY := Registry(map[], 0, 0)

  /** One request served with nobody in between. */
  function Obtained(reg: Registry, max: nat, r: Request): (Registry, Answer) {
    if NamesSecret(r.labels) then (reg.(redacted := reg.redacted + 1), Refused)
    else if IdOf(r) in reg.series then (reg, Handle(reg.series[IdOf(r)]))
    else if |reg.series| >= max then (reg.(rejected := reg.rejected + 1), AtCap)
    else (reg.(series := reg.series[IdOf(r) := |reg.series|]), Handle(|reg.series|))
  }

  datatype Entry = Entry(request: Request, answer: Answer)

  /** Requests served one after the other. */
  function Served(max: nat, log: seq<Entry>): Registry {
    if log == [] then EMPTY else Obtained(Served(max, log[..|log| - 1]), max, log[|log| - 1].request).0
  }

  /** Every answer in the log is the one its request gets when the log is served in order. */
  predicate Faithful(max: nat, log: seq<Entry>) {
    forall k | 0 <= k < |log| :: log[k].answer == Obtained(Served(max, log[..k]), max, log[k].request).1
  }

  // ---------------------------------------------------------------------------
  // Any number of threads

  datatype Phase = Idle | LookingUp(r: Request) | Inserting(r: Request)
  datatype State = State(reg: Registry, threads: map<nat, Phase>, log: seq<Entry>)
  datatype Act = Call(t: nat, r: Request) | LookUp(t: nat) | Insert(t: nat)

  function PhaseOf(s: State, t: nat): Phase {
    if t in s.threads then s.threads[t] else Idle
  }

  function Answered(s: State, t: nat, reg: Registry, r: Request, a: Answer): State {
    State(reg, s.threads[t := Idle], s.log + [Entry(r, a)])
  }

  /** One atomic piece of some thread's call; a piece that is not due changes nothing. */
  function Step(s: State, max: nat, act: Act): State {
    var p := PhaseOf(s, act.t);
    match act
    case Call(t, r) =>
      if !p.Idle? then s
      else if NamesSecret(r.labels) then
        Answered(s, t, s.reg.(redacted := s.reg.redacted + 1), r, Refused)
      else s.(threads := s.threads[t := LookingUp(r)])
    case LookUp(t) =>
      if !p.LookingUp? then s
      else if IdOf(p.r) in s.reg.series then Answered(s, t, s.reg, p.r, Handle(s.reg.series[IdOf(p.r)]))
      else s.(threads := s.threads[t := Inserting(p.r)])
    case Insert(t) =>
      if !p.Inserting? then s
      else if IdOf(p.r) in s.reg.series then Answered(s, t, s.reg, p.r, Handle(s.reg.series[IdOf(p.r)]))
      else if |s.reg.series| >= max then Answered(s, t, s.reg.(rejected := s.reg.rejected + 1), p.r, AtCap)
      else Answered(s, t, s.reg.(series := s.reg.series[IdOf(p.r) := |s.reg.series|]), p.r,
                    Handle(|s.reg.series|))
  }

  function Run(max: nat, acts: seq<Act>): State {
    if acts == [] then State(EMPTY, map[], [])
    else Step(Run(max, acts[..|acts| - 1]), max, acts[|acts| - 1])
  }

  ghost predicate Screened(s: State) {
    forall t | t in s.threads :: !s.threads[t].Idle? ==> !NamesSecret(s.threads[t].r.labels)
  }

  ghost predicate Linear(s: State, max: nat) {
    s.reg == Served(max, s.log) && Faithful(max, s.log) && Screened(s)
  }

  lemma LogSnoc(max: nat, log: seq<Entry>, e: Entry)
    requires Faithful(max, log)
    requires e.answer == Obtained(Served(max, log), max, e.request).1
    ensures Served(max, log + [e]) == Obtained(Served(max, log), max, e.request).0
    ensures Faithful(max, log + [e])
  {
    hide Obtained;
    var all := log + [e];
    assert all[..|all| - 1] == log;
    forall k | 0 <= k < |all|
      ensures all[k].answer == Obtained(Served(max, all[..k]), max, all[k].request).1
    {
      if k < |log| {
        assert all[..k] == log[..k];
      }
    }
  }

  lemma StepScreens(s: State, max: nat, act: Act)
    requires Screened(s)
    ensures Screened(Step(s, max, act))
  {
  }

  lemma StepServes(s: State, max: nat, act: Act)
    requires Screened(s)
    ensures var next := Step(s, max, act);
            || (next.log == s.log && next.reg == s.reg)
            || (|next.log| == |s.log| + 1
                && var e := next.log[|s.log|];
                   next.log == s.log + [e] && (next.reg, e.answer) == Obtained(s.reg, max, e.request))
  {
  }

  lemma StepStaysLinear(s: State, max: nat, act: Act)
    requires Linear(s, max)
    ensures Linear(Step(s, max, act), max)
  {
    hide Step, Obtained, Faithful;
    var next := Step(s, max, act);
    StepScreens(s, max, act);
    StepServes(s, max, act);
    if next.log != s.log {
      LogSnoc(max, s.log, next.log[|s.log|]);
    }
  }

  /**
    However the callers' pieces interleave, registry and answers are those of serving the calls
    one at a time, in the order they were answered.
   */
  lemma {:induction false} EveryRunIsLinear(max: nat, acts: seq<Act>)
    ensures Linear(Run(max, acts), max)
  {
    hide Step, Linear;
    if acts != [] {
      EveryRunIsLinear(max, acts[..|acts| - 1]);
      StepStaysLinear(Run(max, acts[..|acts| - 1]), max, acts[|acts| - 1]);
    } else {
      NothingIsLinear(max);
    }
  }

  lemma NothingIsLinear(max: nat)
    ensures Linear(State(EMPTY, map[], []), max)
  {
  }

  // ---------------------------------------------------------------------------
  // What serving in order comes to

  function CountOf(log: seq<Entry>, a: Answer): nat {
    if log == [] then 0
    else CountOf(log[..|log| - 1], a) + (if log[|log| - 1].answer == a then 1 else 0)
  }

  /** How an answer once given binds the registry from then on. */
  predicate Binds(reg: Registry, max: nat, e: Entry) {
    match e.answer
    case Refused => NamesSecret(e.request.labels)
    case Handle(h) =>
      !NamesSecret(e.request.labels) && IdOf(e.request) in reg.series && reg.series[IdOf(e.request)] == h
    case AtCap =>
      !NamesSecret(e.request.labels) && IdOf(e.request) !in reg.series && |reg.series| == max
  }

  ghost predicate Numbered(reg: Registry) {
    && (forall i | i in reg.series :: reg.series[i] < |reg.series|)
    && (forall i, j | i in reg.series && j in reg.series :: reg.series[i] == reg.series[j] ==> i == j)
  }

  lemma ObtainedKeeps(reg: Registry, max: nat, r: Request)
    requires |reg.series| <= max && Numbered(reg)
    ensures var (next, a) := Obtained(reg, max, r);
            && |next.series| <= max && Numbered(next)
            && Binds(next, max, Entry(r, a))
            && next.rejected == reg.rejected + (if a == AtCap then 1 else 0)
            && next.redacted == reg.redacted + (if a == Refused then 1 else 0)
  {
    var next := Obtained(reg, max, r).0;
    if next.series != reg.series {
      assert next.series.Keys == reg.series.Keys + {IdOf(r)};
      assert |next.series.Keys| == |reg.series.Keys| + 1;
    }
  }

  lemma ObtainedKeepsBinding(reg: Registry, max: nat, r: Request, e: Entry)
    requires Binds(reg, max, e)
    ensures Binds(Obtained(reg, max, r).0, max, e)
  {
  }

  ghost predicate Settled(max: nat, log: seq<Entry>) {
    var reg := Served(max, log);
    && |reg.series| <= max && Numbered(reg)
    && (forall k | 0 <= k < |log| :: Binds(reg, max, log[k]))
    && reg.rejected == CountOf(log, AtCap)
    && reg.redacted == CountOf(log, Refused)
  }

  lemma {:induction false} EveryLogSettles(max: nat, log: seq<Entry>)
    requires Faithful(max, log)
    ensures Settled(max, log)
  {
    hide Obtained, Binds, Numbered;
    if log == [] {
      NothingNumbered();
    } else {
      var before, e := log[..|log| - 1], log[|log| - 1];
      FaithfulBefore(max, log);
      EveryLogSettles(max, before);
      ObtainedKeeps(Served(max, before), max, e.request);
      assert e == Entry(e.request, e.answer);
      hide Faithful;
      hide Served;
      forall k | 0 <= k < |before|
        ensures Binds(Served(max, log), max, log[k])
      {
        ObtainedKeepsBinding(Served(max, before), max, e.request, before[k]);
      }
    }
  }

  lemma FaithfulBefore(max: nat, log: seq<Entry>)
    requires Faithful(max, log) && log != []
    ensures Faithful(max, log[..|log| - 1])
    ensures var before, e := log[..|log| - 1], log[|log| - 1];
            e.answer == Obtained(Served(max, before), max, e.request).1
            && Served(max, log) == Obtained(Served(max, before), max, e.request).0
  {
    ServedLast(max, log);
    hide Obtained, Served;
    var before := log[..|log| - 1];
    forall k | 0 <= k < |before|
      ensures before[k].answer == Obtained(Served(max, before[..k]), max, before[k].request).1
    {
      assert before[k] == log[k] && before[..k] == log[..k];
    }
  }

  lemma ServedLast(max: nat, log: seq<Entry>)
    requires log != []
    ensures Served(max, log) == Obtained(Served(max, log[..|log| - 1]), max, log[|log| - 1].request).0
  {
    hide Obtained;
  }

  lemma NothingNumbered()
    ensures Numbered(EMPTY)
  {
  }

  /** At no point are there more series than the cap allows, and both refusal counters are exact. */
  lemma {:induction false} CapAndCountersHold(max: nat, acts: seq<Act>)
    ensures var s := Run(max, acts);
            && |s.reg.series| <= max
            && s.reg.rejected == CountOf(s.log, AtCap)
            && s.reg.redacted == CountOf(s.log, Refused)
  {
    hide Run;
    EveryRunIsLinear(max, acts);
    EveryLogSettles(max, Run(max, acts).log);
  }

  /**
    A series gets one answer for ever: whoever asked first and whoever raced, every caller is
    handed the same handle, even at the cap; and one turned away at the cap is never let in later.
   */
  lemma OneAnswerPerSeries(max: nat, acts: seq<Act>, i: nat, j: nat)
    requires i < |Run(max, acts).log| && j < |Run(max, acts).log|
    ensures var log := Run(max, acts).log;
            && (log[i].request == log[j].request ==> log[i].answer == log[j].answer)
            && (IdOf(log[i].request) == IdOf(log[j].request) && log[i].answer.Handle? && !log[j].answer.Refused?
                ==> log[j].answer == log[i].answer)
  {
    hide Run;
    var s := Run(max, acts);
    EveryRunIsLinear(max, acts);
    EveryLogSettles(max, s.log);
    assert Binds(s.reg, max, s.log[i]) && Binds(s.reg, max, s.log[j]);
  }

  predicate LegalNames(r: Request) {
    forall k | 0 <= k < |r.labels| :: LegalName(r.labels[k].0)
  }

  /** Two requests share a handle only when they ask for the same name, labels and kind. */
  lemma HandlesAreNotShared(max: nat, acts: seq<Act>, i: nat, j: nat)
    requires i < |Run(max, acts).log| && j < |Run(max, acts).log|
    requires LegalNames(Run(max, acts).log[i].request) && LegalNames(Run(max, acts).log[j].request)
    requires Run(max, acts).log[i].answer.Handle?
    ensures Run(max, acts).log[i].answer == Run(max, acts).log[j].answer
       <==> Run(max, acts).log[i].request == Run(max, acts).log[j].request
  {
    OneAnswerPerSeries(max, acts, i, j);
    hide Run;
    var s := Run(max, acts);
    EveryRunIsLinear(max, acts);
    EveryLogSettles(max, s.log);
    assert Binds(s.reg, max, s.log[i]) && Binds(s.reg, max, s.log[j]);
    if s.log[i].answer == s.log[j].answer {
      DistinctListsDistinctKeys(s.log[i].request.labels, s.log[j].request.labels);
    }
  }
}
