/** store.py and main.py: the conversation store and one chat request, as they change objects in place. */
module Chat {
  import opened ChatHistory
  import opened Wrappers

  class Conversation {
    const id: string
    const userId: string
    var messages: seq<Message>

    constructor (id: string, userId: string)
      ensures this.id == id && this.userId == userId && messages == []
    {
      this.id, this.userId, messages := id, userId, [];
    }
  }

  class ConversationStore {
    const max: nat
    var data: map<string, Conversation>

    ghost predicate Valid()
      reads this
    {
      forall k | k in data :: data[k].id == k
    }

    constructor (maxMessages: nat)
      ensures Valid() && data == map[] && max == maxMessages
    {
      max, data := maxMessages, map[];
    }

    /** None is the refusal: the conversation is another user's. */
    method GetOrCreate(id: string, userId: string) returns (conv: Option<Conversation>)
      requires Valid()
      modifies this
      ensures Valid()
      ensures id in old(data) ==> data == old(data)
      ensures id in old(data) ==> conv == if data[id].userId == userId then Some(data[id]) else None
      ensures id !in old(data) ==>
                && conv.Some? && fresh(conv.value) && data == old(data)[id := conv.value]
                && conv.value.userId == userId && conv.value.messages == []
    {
      if id in data {
        if data[id].userId != userId {
          return None;
        }
        return Some(data[id]);
      }
      var c := new Conversation(id, userId);
      data := data[id := c];
      conv := Some(c);
    }

    method Save(conv: Conversation)
      requires Valid()
      modifies this, conv
      ensures Valid() && data == old(data)[conv.id := conv]
      ensures conv.messages == Trimmed(old(conv.messages), max)
    {
      var n := |conv.messages|;
      if n > max {
        var cut := n - max;
        while cut < n && conv.messages[cut].Tool?
          invariant n - max <= cut <= n == |conv.messages| && conv.messages == old(conv.messages)
          invariant Cleared(conv.messages, cut) == Cleared(conv.messages, n - max)
        {
          cut := cut + 1;
        }
        conv.messages := conv.messages[cut..];
      }
      data := data[conv.id := conv];
    }

    method Reset(id: string)
      requires Valid()
      modifies this
      ensures Valid() && data == old(data) - {id}
    {
      data := data - {id};
    }
  }

  /** The tools called in the first n rounds, in order. */
  function UsedBefore(w: World, n: nat): seq<string> {
    if n == 0 then []
    else UsedBefore(w, n - 1) + match w.reply(n - 1)
                                case Failure => []
                                case Completion(_, calls) => NamesOf(calls)
  }

  function NamesOf(calls: seq<ToolCall>): seq<string> {
    seq(|calls|, i requires 0 <= i < |calls| => calls[i].name)
  }

  datatype Response = Denied | Response(outcome: Outcome, used: seq<string>, rounds: nat)

  /** A turn that calls tools: the calls, then each result stored as it comes. */
  method RunTools(conv: Conversation, w: World, round: nat, text: string, calls: seq<ToolCall>)
      returns (names: seq<string>)
    requires w.reply(round) == Completion(text, calls)
    modifies conv
    ensures conv.messages == old(conv.messages) + Turn(w, round)
    ensures names == NamesOf(calls)
  {
    conv.messages := conv.messages + [Assistant(text, calls)];
    names := [];
    for i := 0 to |calls|
      invariant conv.messages == old(conv.messages) + [Assistant(text, calls)] + Results(w, round, calls)[..i]
      invariant names == NamesOf(calls)[..i]
    {
      var call := calls[i];
      var result := w.result(round, i);
      names := names + [call.name];
      conv.messages := conv.messages + [Tool(call.id, call.name, Stamped(w.asOf(round, i), result))];
    }
    assert Results(w, round, calls)[..|calls|] == Results(w, round, calls);
    assert NamesOf(calls)[..|calls|] == NamesOf(calls);
  }

  /** How far a request that began with history `h` has come. */
  ghost predicate Underway(h: seq<Message>, w: World, maxRounds: nat,
                           now: seq<Message>, round: nat, sent: seq<seq<Message>>, used: seq<string>)
  {
    && round <= maxRounds && |sent| == round
    && now == Sent(h, w, round)
    && Continued(h, w, 0, maxRounds) == Continued(now, w, round, maxRounds)
    && (forall k | 0 <= k < round :: sent[k] == Sent(h, w, k))
    && used == UsedBefore(w, round)
  }

  /** What the request leaves. */
  ghost predicate Over(h: seq<Message>, w: World, maxRounds: nat,
                       outcome: Outcome, now: seq<Message>, round: nat, sent: seq<seq<Message>>, used: seq<string>)
  {
    && (outcome, now) == Continued(h, w, 0, maxRounds)
    && |sent| == round <= maxRounds
    && (forall k | 0 <= k < round :: sent[k] == Sent(h, w, k))
    && used == UsedBefore(w, round)
  }

  lemma UnderwayAtFirst(h: seq<Message>, w: World, maxRounds: nat)
    ensures Underway(h, w, maxRounds, h, 0, [], [])
  {
  }

  lemma AfterTools(h: seq<Message>, w: World, maxRounds: nat,
                   now: seq<Message>, round: nat, sent: seq<seq<Message>>, used: seq<string>)
    requires Underway(h, w, maxRounds, now, round, sent, used) && round < maxRounds
    requires w.reply(round).Completion? && w.reply(round).calls != []
    ensures Underway(h, w, maxRounds, now + Turn(w, round), round + 1, sent + [now],
                     used + NamesOf(w.reply(round).calls))
  {
    hide Turn, NamesOf;
  }

  lemma AfterFailure(h: seq<Message>, w: World, maxRounds: nat,
                     now: seq<Message>, round: nat, sent: seq<seq<Message>>, used: seq<string>)
    requires Underway(h, w, maxRounds, now, round, sent, used) && round < maxRounds
    requires w.reply(round).Failure?
    ensures Over(h, w, maxRounds, ProviderFailed, now, round + 1, sent + [now], used)
  {
    hide Sent;
  }

  lemma PlainTurn(w: World, round: nat, text: string)
    requires w.reply(round) == Completion(text, [])
    ensures Turn(w, round) == [Assistant(text, [])]
  {
    assert Results(w, round, []) == [];
  }

  lemma AfterAnswer(h: seq<Message>, w: World, maxRounds: nat,
                    now: seq<Message>, round: nat, sent: seq<seq<Message>>, used: seq<string>, text: string)
    requires Underway(h, w, maxRounds, now, round, sent, used) && round < maxRounds
    requires w.reply(round) == Completion(text, [])
    ensures Over(h, w, maxRounds, Answered(text), now + [Assistant(text, [])], round + 1, sent + [now], used)
  {
    PlainTurn(w, round, text);
    hide Turn, Sent;
    assert NamesOf([]) == [];
  }

  lemma AfterAll(h: seq<Message>, w: World, maxRounds: nat,
                 now: seq<Message>, sent: seq<seq<Message>>, used: seq<string>)
    requires Underway(h, w, maxRounds, now, maxRounds, sent, used)
    ensures Over(h, w, maxRounds, OutOfRounds, now, maxRounds, sent, used)
  {
  }

  /** The loop of rounds; `sent` lists the histories the provider was given. */
  method RunRounds(conv: Conversation, w: World, maxRounds: nat)
      returns (outcome: Outcome, used: seq<string>, rounds: nat, sent: seq<seq<Message>>)
    modifies conv
    ensures Over(old(conv.messages), w, maxRounds, outcome, conv.messages, rounds, sent, used)
  {
    ghost var h := conv.messages;
    hide *;
    UnderwayAtFirst(h, w, maxRounds);
    sent, used, rounds := [], [], 0;
    while rounds < maxRounds
      invariant rounds <= maxRounds
      invariant Underway(h, w, maxRounds, conv.messages, rounds, sent, used)
    {
      var completion := w.reply(rounds);
      rounds := rounds + 1;
      if completion.Failure? {
        AfterFailure(h, w, maxRounds, conv.messages, rounds - 1, sent, used);
        sent := sent + [conv.messages];
        return ProviderFailed, used, rounds, sent;
      }
      var text, calls := completion.text, completion.calls;
      if calls == [] {
        AfterAnswer(h, w, maxRounds, conv.messages, rounds - 1, sent, used, text);
        sent := sent + [conv.messages];
        conv.messages := conv.messages + [Assistant(text, [])];
        return Answered(text), used, rounds, sent;
      }
      AfterTools(h, w, maxRounds, conv.messages, rounds - 1, sent, used);
      sent := sent + [conv.messages];
      var names := RunTools(conv, w, rounds - 1, text, calls);
      used := used + names;
    }
    AfterAll(h, w, maxRounds, conv.messages, sent, used);
    outcome := OutOfRounds;
  }

  /** One request. A provider failure leaves in place what was added to the history, unsaved. */
  method Ask(store: ConversationStore, id: string, userId: string, question: string, w: World, maxRounds: nat)
      returns (response: Response, sent: seq<seq<Message>>)
    requires store.Valid()
    modifies store, if id in store.data then {store.data[id]} else {}
    ensures store.Valid() && store.data.Keys == old(store.data.Keys) + {id}
    ensures forall k | k in old(store.data) :: store.data[k] == old(store.data[k])
    ensures response.Denied? <==> id in old(store.data) && old(store.data[id]).userId != userId
    ensures response.Denied? ==> sent == [] && store.data[id].messages == old(store.data[id].messages)
    ensures !response.Denied? ==>
              var before := if id in old(store.data) then old(store.data[id].messages) else [];
              && store.data[id].userId == userId
              && (response.outcome, store.data[id].messages) == Asked(before, question, w, maxRounds, store.max)
              && |sent| == response.rounds <= maxRounds
              && (forall k | 0 <= k < |sent| :: sent[k] == Sent(before + [User(question)], w, k))
              && response.used == UsedBefore(w, response.rounds)
  {
    hide Sent, Turn, Continued, Trimmed, UsedBefore;
    var found := store.GetOrCreate(id, userId);
    if found == None {
      return Denied, [];
    }
    var conv := found.value;
    assert store.data[id] == conv && conv.id == id;
    ghost var data := store.data;
    assert data.Keys == old(store.data.Keys) + {id};
    conv.messages := conv.messages + [User(question)];
    var outcome, used, rounds;
    outcome, used, rounds, sent := RunRounds(conv, w, maxRounds);
    if !outcome.ProviderFailed? {
      store.Save(conv);
    }
    assert store.data == data;
    response := Response(outcome, used, rounds);
  }
}
