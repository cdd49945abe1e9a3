/**
  The neutral history of fixmon-chat: a turn that calls tools is followed by one result per call,
  in call order. Trimming and the chat loop keep it so, whatever the model and the tools answer.
 */
module ChatHistory {

  datatype ToolCall = ToolCall(id: string, name: string, arguments: string)

  datatype Message =
    | User(content: string)
    | Assistant(content: string, calls: seq<ToolCall>)
    | Tool(callId: string, name: string, content: string)

  predicate Answers(m: Message, c: ToolCall) {
    m.Tool? && m.callId == c.id && m.name == c.name
  }

  /** The messages at the front answer the calls one by one. */
  predicate AnswersAll(h: seq<Message>, calls: seq<ToolCall>) {
    |calls| <= |h| && forall j | 0 <= j < |calls| :: Answers(h[j], calls[j])
  }

  function CallsOf(m: Message): seq<ToolCall> {
    if m.Assistant? then m.calls else []
  }

  /** No result without its call in front, no call without its results right behind. */
  predicate Paired(h: seq<Message>) {
    h == [] || (!h[0].Tool? && AnswersAll(h[1..], CallsOf(h[0])) && Paired(h[1 + |CallsOf(h[0])|..]))
  }

  lemma AnswersFront(h: seq<Message>, more: seq<Message>, calls: seq<ToolCall>)
    requires AnswersAll(h, calls)
    ensures AnswersAll(h + more, calls)
  {
    assert forall j | 0 <= j < |calls| :: Answers(h[j], calls[j]) && (h + more)[j] == h[j];
  }

  /** The length of the turn that opens a paired history. */
  function TurnLength(h: seq<Message>): nat
    requires h != []
  {
    1 + |CallsOf(h[0])|
  }

  lemma AnswersAreTools(h: seq<Message>, calls: seq<ToolCall>)
    requires AnswersAll(h, calls)
    ensures |calls| <= |h| && forall j | 0 <= j < |calls| :: h[j].Tool?
  {
    assert forall j | 0 <= j < |calls| :: Answers(h[j], calls[j]);
  }

  lemma PairedParts(h: seq<Message>)
    requires Paired(h) && h != []
    ensures !h[0].Tool? && AnswersAll(h[1..], CallsOf(h[0]))
    ensures TurnLength(h) <= |h| && Paired(h[TurnLength(h)..])
  {
    hide AnswersAll, CallsOf;
    AnswersAreTools(h[1..], CallsOf(h[0]));
  }

  lemma PairedTools(h: seq<Message>)
    requires Paired(h) && h != []
    ensures TurnLength(h) <= |h| && forall i | 0 < i < TurnLength(h) :: h[i].Tool?
  {
    PairedParts(h);
    hide Paired, AnswersAll, CallsOf;
    AnswersAreTools(h[1..], CallsOf(h[0]));
    assert forall i | 0 < i < TurnLength(h) :: h[i] == h[1..][i - 1];
  }

  lemma PairedTurn(h: seq<Message>)
    requires h != [] && !h[0].Tool? && AnswersAll(h[1..], CallsOf(h[0])) && Paired(h[TurnLength(h)..])
    ensures Paired(h)
  {
  }

  lemma {:induction false} PairedAppend(a: seq<Message>, b: seq<Message>)
    requires Paired(a) && Paired(b)
    ensures Paired(a + b)
    decreases |a|
  {
    hide Paired, AnswersAll, CallsOf;
    if a == [] {
      assert a + b == b;
    } else {
      var n := TurnLength(a);
      PairedParts(a);
      PairedAppend(a[n..], b);
      AnswersFront(a[1..], b, CallsOf(a[0]));
      assert (a + b)[n..] == a[n..] + b;
      assert (a + b)[1..] == a[1..] + b;
      PairedTurn(a + b);
    }
  }

  /** A paired history may be cut in front of anything but a tool result. */
  lemma {:induction false} PairedFrom(h: seq<Message>, cut: nat)
    requires Paired(h) && cut <= |h| && (cut < |h| ==> !h[cut].Tool?)
    ensures Paired(h[cut..])
    decreases |h|
  {
    hide Paired, AnswersAll, CallsOf;
    if cut == 0 {
      assert h[0..] == h;
    } else {
      PairedParts(h);
      PairedTools(h);
      var n := TurnLength(h);
      PairedFrom(h[n..], cut - n);
      assert h[n..][cut - n..] == h[cut..];
    }
  }

  // ---------------------------------------------------------------------------
  // Trimming

  /** How far the cut moves on to clear the tool results it would strand. */
  function Cleared(h: seq<Message>, cut: nat): (r: nat)
    requires cut <= |h|
    ensures cut <= r <= |h|
    ensures forall i | cut <= i < r :: h[i].Tool?
    ensures r < |h| ==> !h[r].Tool?
    decreases |h| - cut
  {
    if cut < |h| && h[cut].Tool? then Cleared(h, cut + 1) else cut
  }

  function Trimmed(h: seq<Message>, max: nat): seq<Message> {
    if |h| > max then h[Cleared(h, |h| - max)..] else h
  }

  /** Trimming keeps the longest paired end of the history that fits. */
  lemma TrimKeepsTheLongest(h: seq<Message>, max: nat, s: nat)
    requires Paired(h) && s <= |h|
    ensures Paired(Trimmed(h, max)) && |Trimmed(h, max)| <= max
    ensures Trimmed(h, max) == h[|h| - |Trimmed(h, max)|..]
    ensures Paired(h[s..]) && |h| - s <= max ==> |h| - s <= |Trimmed(h, max)|
  {
    if |h| > max {
      var cut := Cleared(h, |h| - max);
      PairedFrom(h, cut);
      if |h| - max <= s < cut {
        assert h[s..][0] == h[s] && h[s].Tool?;
      }
    }
  }

  // ---------------------------------------------------------------------------
  // One question

  /** What the provider does when asked for the n-th time: it may call tools, answer or fail. */
  datatype Reply = Completion(text: string, calls: seq<ToolCall>) | Failure

  /** The provider, the tools and the clock, as they will behave during one request. */
  datatype World = World(reply: nat -> Reply, result: (nat, nat) -> string, asOf: (nat, nat) -> string)

  /** A result as it is kept: with the moment it was read in front. */
  function Stamped(asOf: string, result: string): string {
    "[retrieved at " + asOf + "]\n" + result
  }

  datatype Outcome = Answered(text: string) | OutOfRounds | ProviderFailed

  function Results(w: World, round: nat, calls: seq<ToolCall>): (r: seq<Message>)
    ensures |r| == |calls| && AnswersAll(r, calls)
  {
    seq(|calls|, j requires 0 <= j < |calls| => 
      Tool(calls[j].id, calls[j].name, Stamped(w.asOf(round, j), w.result(round, j))))
  }

  /** One round's contribution to the history. */
  function Turn(w: World, round: nat): seq<Message> {
    match w.reply(round)
    case Failure => []
    case Completion(text, calls) => [Assistant(text, calls)] + Results(w, round, calls)
  }

  /** The rounds from `round` on: how the request ends, and the history it leaves. */
  function Continued(h: seq<Message>, w: World, round: nat, rounds: nat): (Outcome, seq<Message>)
    requires round <= rounds
    decreases rounds - round
  {
    if round == rounds then (OutOfRounds, h)
    else
      match w.reply(round)
      case Failure => (ProviderFailed, h)
      case Completion(text, calls) =>
        if calls == [] then (Answered(text), h + Turn(w, round))
        else Continued(h + Turn(w, round), w, round + 1, rounds)
  }

  /** A request: only one that does not fail is saved, and so trimmed. */
  function Asked(h: seq<Message>, question: string, w: World, rounds: nat, max: nat): (Outcome, seq<Message>) {
    var (outcome, after) := Continued(h + [User(question)], w, 0, rounds);
    (outcome, if outcome.ProviderFailed? then after else Trimmed(after, max))
  }

  /** The history the provider is sent in a round, if the request gets that far. */
  function Sent(h: seq<Message>, w: World, round: nat): seq<Message> {
    if round == 0 then h else Sent(h, w, round - 1) + Turn(w, round - 1)
  }

  lemma TurnIsPaired(w: World, round: nat)
    ensures Paired(Turn(w, round))
  {
    if w.reply(round).Completion? {
      var t := Turn(w, round);
      assert t[1..] == Results(w, round, w.reply(round).calls);
    }
  }

  lemma {:induction false} SentIsPaired(h: seq<Message>, w: World, round: nat)
    requires Paired(h)
    ensures Paired(Sent(h, w, round))
  {
    hide Paired, Turn;
    if round > 0 {
      SentIsPaired(h, w, round - 1);
      TurnIsPaired(w, round - 1);
      PairedAppend(Sent(h, w, round - 1), Turn(w, round - 1));
    }
  }

  /** Where a request stops: the first reply without calls, or the first failure, if any comes in time. */
  predicate Ends(w: World, round: nat) {
    w.reply(round).Failure? || w.reply(round).calls == []
  }

  function LastRound(w: World, round: nat, rounds: nat): (n: nat)
    requires round <= rounds
    ensures round <= n <= rounds && (forall i | round <= i < n :: !Ends(w, i)) && (n < rounds ==> Ends(w, n))
    decreases rounds - round
  {
    if round == rounds || Ends(w, round) then round else LastRound(w, round + 1, rounds)
  }

  /** The history after a request is what its rounds added, up to and with the round it ended in. */
  lemma {:induction false} ContinuedIsSent(h: seq<Message>, w: World, round: nat, rounds: nat)
    requires round <= rounds
    ensures var (outcome, after) := Continued(Sent(h, w, round), w, round, rounds);
            var n := LastRound(w, round, rounds);
            && outcome == (if n == rounds then OutOfRounds
                           else if w.reply(n).Failure? then ProviderFailed else Answered(w.reply(n).text))
            && after == Sent(h, w, if outcome.Answered? then n + 1 else n)
    decreases rounds - round
  {
    hide Turn;
    if round < rounds && !Ends(w, round) {
      ContinuedIsSent(h, w, round + 1, rounds);
    }
  }

  lemma {:induction false} ContinuedIsPaired(h: seq<Message>, w: World, round: nat, rounds: nat)
    requires round <= rounds && Paired(h)
    ensures Paired(Continued(h, w, round, rounds).1)
    decreases rounds - round
  {
    hide Paired, Turn;
    if round < rounds {
      TurnIsPaired(w, round);
      PairedAppend(h, Turn(w, round));
      if !Ends(w, round) {
        ContinuedIsPaired(h + Turn(w, round), w, round + 1, rounds);
      }
    }
  }

  // ---------------------------------------------------------------------------
  // Any number of questions

  datatype Question = Question(text: string, world: World)

  function Conversation(qs: seq<Question>, rounds: nat, max: nat): seq<Message> {
    if qs == [] then []
    else
      var q := qs[|qs| - 1];
      Asked(Conversation(qs[..|qs| - 1], rounds, max), q.text, q.world, rounds, max).1
  }

  /** The history the provider is sent in a round of the next question. */
  function Request(qs: seq<Question>, next: Question, round: nat, rounds: nat, max: nat): seq<Message> {
    Sent(Conversation(qs, rounds, max) + [User(next.text)], next.world, round)
  }

  lemma AskedIsPaired(h: seq<Message>, q: Question, rounds: nat, max: nat)
    requires Paired(h)
    ensures Paired(Asked(h, q.text, q.world, rounds, max).1)
    ensures !Asked(h, q.text, q.world, rounds, max).0.ProviderFailed? ==>
              |Asked(h, q.text, q.world, rounds, max).1| <= max
  {
    PairedAppend(h, [User(q.text)]);
    ContinuedIsPaired(h + [User(q.text)], q.world, 0, rounds);
    var after := Continued(h + [User(q.text)], q.world, 0, rounds).1;
    hide Paired, Continued;
    TrimKeepsTheLongest(after, max, |after|);
  }

  /**
    Whatever was asked before and whatever models and tools did, every history sent to a provider
    is paired, and so is the one kept; after a request that did not fail it has at most `max` messages.
   */
  lemma {:induction false} EveryHistoryIsPaired(qs: seq<Question>, next: Question, round: nat, rounds: nat, max: nat)
    ensures Paired(Conversation(qs, rounds, max))
    ensures Paired(Request(qs, next, round, rounds, max))
    ensures qs != [] ==>
              var q := qs[|qs| - 1];
              Asked(Conversation(qs[..|qs| - 1], rounds, max), q.text, q.world, rounds, max).0.ProviderFailed?
              || |Conversation(qs, rounds, max)| <= max
  {
    if qs != [] {
      EveryHistoryIsPaired(qs[..|qs| - 1], next, round, rounds, max);
      AskedIsPaired(Conversation(qs[..|qs| - 1], rounds, max), qs[|qs| - 1], rounds, max);
    }
    PairedAppend(Conversation(qs, rounds, max), [User(next.text)]);
    SentIsPaired(Conversation(qs, rounds, max) + [User(next.text)], next.world, round);
  }

  // ---------------------------------------------------------------------------
  // Stamps

  predicate HasStamp(m: Message) {
    m.Tool? ==> |m.content| >= 2 && m.content[0] == '[' && m.content[1] == 'r'
  }

  predicate AllStamped(h: seq<Message>) {
    forall i | 0 <= i < |h| :: HasStamp(h[i])
  }

  lemma StampShows(asOf: string, result: string)
    ensures |Stamped(asOf, result)| >= 2 && Stamped(asOf, result)[0] == '[' && Stamped(asOf, result)[1] == 'r'
  {
  }

  lemma TurnIsStamped(w: World, round: nat)
    ensures AllStamped(Turn(w, round))
  {
    hide Stamped;
    if w.reply(round).Completion? {
      forall j | 0 <= j < |w.reply(round).calls| {
        StampShows(w.asOf(round, j), w.result(round, j));
      }
      hide AnswersAll;
      assert forall j | 0 < j < |Turn(w, round)| ::
          Turn(w, round)[j].content == Stamped(w.asOf(round, j - 1), w.result(round, j - 1));
    }
  }

  lemma {:induction false} SentIsStamped(h: seq<Message>, w: World, round: nat)
    requires AllStamped(h)
    ensures AllStamped(Sent(h, w, round))
  {
    hide Turn, HasStamp;
    if round > 0 {
      SentIsStamped(h, w, round - 1);
      TurnIsStamped(w, round - 1);
    }
  }

  lemma {:induction false} ContinuedIsStamped(h: seq<Message>, w: World, round: nat, rounds: nat)
    requires round <= rounds && AllStamped(h)
    ensures AllStamped(Continued(h, w, round, rounds).1)
    decreases rounds - round
  {
    hide Turn, HasStamp;
    if round < rounds {
      TurnIsStamped(w, round);
      if !Ends(w, round) {
        ContinuedIsStamped(h + Turn(w, round), w, round + 1, rounds);
      }
    }
  }

  /** Every result a provider is sent carries the stamp in front. */
  lemma {:induction false} EveryResultIsStamped(qs: seq<Question>, next: Question, round: nat, rounds: nat, max: nat)
    ensures AllStamped(Conversation(qs, rounds, max))
    ensures AllStamped(Request(qs, next, round, rounds, max))
  {
    hide HasStamp, Continued, Turn;
    UserHasStamp(next.text);
    if qs != [] {
      var q, before := qs[|qs| - 1], Conversation(qs[..|qs| - 1], rounds, max);
      EveryResultIsStamped(qs[..|qs| - 1], next, round, rounds, max);
      UserHasStamp(q.text);
      ContinuedIsStamped(before + [User(q.text)], q.world, 0, rounds);
    }
    SentIsStamped(Conversation(qs, rounds, max) + [User(next.text)], next.world, round);
  }

  lemma UserHasStamp(text: string)
    ensures HasStamp(User(text))
  {
  }
}
