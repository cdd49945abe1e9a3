/**
  anthropic.py and gemini.py: the neutral history on the wire. Consecutive results travel in one
  message; read back, a paired history comes out as it went in, up to what a provider has no field for.
 */
module Wire {
  import opened ChatHistory

  // ---------------------------------------------------------------------------
  // The grouping both providers share

  datatype Group = Said(m: Message) | Called(m: Message) | Returned(results: seq<Message>)

  /** A result joins the results before it; anything else starts a group of its own. */
  predicate Merges(gs: seq<Group>, m: Message) {
    m.Tool? && gs != [] && gs[|gs| - 1].Returned?
  }

  function GroupOf(m: Message): Group {
    if m.Tool? then Returned([m]) else if CallsOf(m) != [] then Called(m) else Said(m)
  }

  function Joined(gs: seq<Group>, m: Message): seq<Group> {
    if Merges(gs, m) then gs[..|gs| - 1] + [Returned(gs[|gs| - 1].results + [m])] else gs + [GroupOf(m)]
  }

  function Grouped(h: seq<Message>): seq<Group> {
    if h == [] then [] else Joined(Grouped(h[..|h| - 1]), h[|h| - 1])
  }

  function Messages(g: Group): seq<Message> {
    match g
    case Said(m) => [m]
    case Called(m) => [m]
    case Returned(results) => results
  }

  function Flat(gs: seq<Group>): seq<Message> {
    if gs == [] then [] else Flat(gs[..|gs| - 1]) + Messages(gs[|gs| - 1])
  }

  /** A group of its own kind: results are all tool results, and there is at least one. */
  predicate Proper(g: Group) {
    match g
    case Said(m) => !m.Tool? && CallsOf(m) == []
    case Called(m) => m.Assistant? && m.calls != []
    case Returned(results) => results != [] && forall j | 0 <= j < |results| :: results[j].Tool?
  }

  predicate AllProper(gs: seq<Group>) {
    forall i | 0 <= i < |gs| :: Proper(gs[i])
  }

  predicate PairedAt(gs: seq<Group>, i: nat)
    requires i < |gs|
  {
    && (gs[i].Called? ==> i + 1 < |gs| && Matches(gs[i], gs[i + 1]))
    && (gs[i].Returned? ==> i > 0 && gs[i - 1].Called?)
  }

  /** A call group is followed at once by the results of exactly its calls, in order. */
  predicate GroupsPaired(gs: seq<Group>) {
    forall i | 0 <= i < |gs| :: PairedAt(gs, i)
  }

  predicate Matches(c: Group, r: Group) {
    && c.Called? && r.Returned?
    && |r.results| == |CallsOf(c.m)| && AnswersAll(r.results, CallsOf(c.m))
  }

  lemma FlatSnoc(gs: seq<Group>, g: Group)
    ensures Flat(gs + [g]) == Flat(gs) + Messages(g)
  {
    assert (gs + [g])[..|gs|] == gs;
  }

  lemma ProperSnoc(gs: seq<Group>, m: Message)
    requires AllProper(gs)
    ensures AllProper(Joined(gs, m))
  {
    if Merges(gs, m) {
      assert Proper(gs[|gs| - 1]);
    }
  }

  lemma JoinedFlat(gs: seq<Group>, m: Message)
    ensures Flat(Joined(gs, m)) == Flat(gs) + [m]
  {
    if Merges(gs, m) {
      var before, last := gs[..|gs| - 1], gs[|gs| - 1];
      FlatSnoc(before, Returned(last.results + [m]));
      FlatSnoc(before, last);
      assert before + [last] == gs;
      hide Flat;
      assert Flat(before) + (last.results + [m]) == Flat(before) + last.results + [m];
    } else {
      FlatSnoc(gs, GroupOf(m));
      hide Flat;
      assert Messages(GroupOf(m)) == [m];
    }
  }

  /** Grouping loses nothing and reorders nothing, whatever the history. */
  lemma {:induction false} GroupingKeepsAll(h: seq<Message>)
    ensures Flat(Grouped(h)) == h
    ensures AllProper(Grouped(h))
  {
    hide Joined, Proper, Flat;
    if h != [] {
      GroupingKeepsAll(h[..|h| - 1]);
      ProperSnoc(Grouped(h[..|h| - 1]), h[|h| - 1]);
      JoinedFlat(Grouped(h[..|h| - 1]), h[|h| - 1]);
    } else {
      FlatNothing();
    }
  }

  lemma FlatNothing()
    ensures Flat([]) == []
  {
  }

  lemma JoinedBehind(a: seq<Group>, b: seq<Group>, m: Message)
    requires b != [] || !m.Tool?
    ensures Joined(a + b, m) == a + Joined(b, m) && Joined(b, m) != []
  {
    hide GroupOf;
    if b != [] {
      assert (a + b)[|a + b| - 1] == b[|b| - 1];
      assert (a + b)[..|a + b| - 1] == a + b[..|b| - 1];
    }
  }

  lemma {:induction false} GroupedFrom(a: seq<Message>, b: seq<Message>)
    requires b != [] ==> !b[0].Tool?
    ensures Grouped(a + b) == Grouped(a) + Grouped(b)
    ensures b != [] ==> Grouped(b) != []
    decreases |b|
  {
    hide Joined;
    if b == [] {
      assert a + b == a;
    } else {
      GroupedFrom(a, b[..|b| - 1]);
      assert (a + b)[..|a + b| - 1] == a + b[..|b| - 1];
      JoinedBehind(Grouped(a), Grouped(b[..|b| - 1]), b[|b| - 1]);
    }
  }

  lemma GroupedOne(m: Message)
    ensures Grouped([m]) == [GroupOf(m)]
  {
    hide GroupOf;
    assert [m][..0] == [];
  }

  lemma {:induction false} GroupedResults(m: Message, rs: seq<Message>)
    requires CallsOf(m) != []
    requires forall j | 0 <= j < |rs| :: rs[j].Tool?
    ensures Grouped([m] + rs) == if rs == [] then [Called(m)] else [Called(m), Returned(rs)]
  {
    GroupedOne(m);
    hide Grouped, Joined;
    if rs == [] {
      assert [m] + rs == [m];
    } else {
      var before, last := rs[..|rs| - 1], rs[|rs| - 1];
      GroupedResults(m, before);
      GroupedLast([m] + before, last);
      ResultsJoined(m, before, last);
      assert [m] + before + [last] == [m] + rs;
      assert before + [last] == rs;
      assert before == [] ==> rs == [last];
    }
  }

  lemma GroupedLast(h: seq<Message>, m: Message)
    ensures Grouped(h + [m]) == Joined(Grouped(h), m)
  {
    hide Joined;
    assert (h + [m])[..|h|] == h;
  }

  lemma ResultsJoined(m: Message, before: seq<Message>, last: Message)
    requires last.Tool?
    ensures Joined([Called(m)], last) == [Called(m), Returned([last])]
    ensures Joined([Called(m), Returned(before)], last) == [Called(m), Returned(before + [last])]
  {
    assert [Called(m), Returned(before)][..1] == [Called(m)];
  }

  lemma PairedAdds(a: seq<Group>, b: seq<Group>)
    requires GroupsPaired(a) && GroupsPaired(b)
    ensures GroupsPaired(a + b)
  {
    hide Matches;
    forall i: nat | i < |a + b|
      ensures PairedAt(a + b, i)
    {
      if i < |a| {
        assert PairedAt(a, i);
      } else {
        assert PairedAt(b, i - |a|);
      }
    }
  }

  lemma TurnGroups(m: Message, rs: seq<Message>)
    requires !m.Tool? && |rs| == |CallsOf(m)| && AnswersAll(rs, CallsOf(m))
    ensures GroupsPaired(Grouped([m] + rs))
  {
    AnswersAreTools(rs, CallsOf(m));
    hide AnswersAll, Grouped, GroupsPaired;
    if rs == [] {
      GroupedOne(m);
      assert [m] + rs == [m];
      OnePaired(m);
    } else {
      GroupedResults(m, rs);
      TwoPaired(Called(m), Returned(rs));
    }
  }

  lemma OnePaired(m: Message)
    requires !m.Tool? && CallsOf(m) == []
    ensures GroupsPaired([GroupOf(m)])
  {
  }

  lemma TwoPaired(c: Group, r: Group)
    requires Matches(c, r)
    ensures GroupsPaired([c, r])
  {
    hide AnswersAll;
  }

  lemma AnswersExactly(h: seq<Message>, calls: seq<ToolCall>)
    requires AnswersAll(h, calls)
    ensures |calls| <= |h| && AnswersAll(h[..|calls|], calls)
  {
  }

  lemma OpeningTurn(h: seq<Message>)
    requires Paired(h) && h != []
    ensures TurnLength(h) <= |h|
    ensures GroupsPaired(Grouped(h[..TurnLength(h)]))
  {
    hide Paired, GroupsPaired, Grouped, CallsOf, AnswersAll;
    PairedParts(h);
    var rs := h[1..][..|CallsOf(h[0])|];
    AnswersExactly(h[1..], CallsOf(h[0]));
    assert h[..TurnLength(h)] == [h[0]] + rs;
    TurnGroups(h[0], rs);
  }

  /** On a paired history each run of results becomes one group, right behind its calls. */
  lemma {:induction false} GroupingKeepsPairs(h: seq<Message>)
    requires Paired(h)
    ensures GroupsPaired(Grouped(h))
    decreases |h|
  {
    hide Grouped, GroupsPaired, Paired;
    if h != [] {
      var n := TurnLength(h);
      PairedParts(h);
      OpeningTurn(h);
      GroupingKeepsPairs(h[n..]);
      if h[n..] != [] {
        PairedParts(h[n..]);
      }
      GroupedFrom(h[..n], h[n..]);
      assert h[..n] + h[n..] == h;
      PairedAdds(Grouped(h[..n]), Grouped(h[n..]));
    } else {
      NoGroups();
    }
  }

  lemma NoGroups()
    ensures GroupsPaired(Grouped([]))
  {
  }

  // ---------------------------------------------------------------------------
  // Anthropic

  datatype Role = UserRole | AssistantRole
  datatype Block = Text(text: string) | ToolUse(call: ToolCall) | ToolResult(callId: string, content: string)
  datatype Content = Plain(text: string) | Blocks(blocks: seq<Block>)
  datatype WireMessage = WireMessage(role: Role, content: Content)

  function ToolUses(calls: seq<ToolCall>): seq<Block> {
    seq(|calls|, i requires 0 <= i < |calls| => ToolUse(calls[i]))
  }

  function ResultBlocks(results: seq<Message>): seq<Block>
    requires forall j | 0 <= j < |results| :: results[j].Tool?
  {
    seq(|results|, j requires 0 <= j < |results| => ToolResult(results[j].callId, results[j].content))
  }

  /** An empty text is left out beside calls, and kept on its own. */
  function TextBlock(text: string): seq<Block> {
    if text == "" then [] else [Text(text)]
  }

  function Sent(g: Group): WireMessage
    requires Proper(g)
  {
    match g
    case Returned(results) => WireMessage(UserRole, Blocks(ResultBlocks(results)))
    case Called(m) => WireMessage(AssistantRole, Blocks(TextBlock(m.content) + ToolUses(m.calls)))
    case Said(m) => WireMessage(if m.User? then UserRole else AssistantRole, Plain(m.content))
  }

  function OnWire(gs: seq<Group>): seq<WireMessage>
    requires AllProper(gs)
  {
    seq(|gs|, i requires 0 <= i < |gs| => Sent(gs[i]))
  }

  /** What one wire message says; results take their names from the calls they answer. */
  function Heard(w: WireMessage, calls: seq<ToolCall>): seq<Message> {
    match w.content
    case Plain(text) => [if w.role.UserRole? then User(text) else Assistant(text, [])]
    case Blocks(bs) =>
      if w.role.UserRole? then
        seq(|bs|, j requires 0 <= j < |bs| =>
          Tool(if bs[j].ToolResult? then bs[j].callId else "", if j < |calls| then calls[j].name else "",
               if bs[j].ToolResult? then bs[j].content else ""))
      else [Assistant(if bs != [] && bs[0].Text? then bs[0].text else "", CallsIn(w))]
  }

  function CallsIn(w: WireMessage): seq<ToolCall> {
    match w.content
    case Plain(_) => []
    case Blocks(bs) =>
      var uses := if bs != [] && bs[0].Text? then bs[1..] else bs;
      seq(|uses|, i requires 0 <= i < |uses| => if uses[i].ToolUse? then uses[i].call else ToolCall("", "", ""))
  }

  function ReadBack(ws: seq<WireMessage>): seq<Message> {
    if ws == [] then []
    else
      var last := ws[|ws| - 1];
      ReadBack(ws[..|ws| - 1]) + Heard(last, if |ws| > 1 then CallsIn(ws[|ws| - 2]) else [])
  }

  lemma CalledHeard(g: Group)
    requires Proper(g) && g.Called?
    ensures CallsIn(Sent(g)) == CallsOf(g.m)
    ensures Heard(Sent(g), []) == [g.m]
  {
    var m := g.m;
    var bs := TextBlock(m.content) + ToolUses(m.calls);
    var uses := if bs != [] && bs[0].Text? then bs[1..] else bs;
    assert uses == ToolUses(m.calls);
    assert CallsIn(Sent(g)) == m.calls;
  }

  lemma ReturnedHeard(c: Group, g: Group)
    requires Proper(g) && Matches(c, g)
    ensures Heard(Sent(g), CallsOf(c.m)) == g.results
  {
    var calls, heard := CallsOf(c.m), Heard(Sent(g), CallsOf(c.m));
    forall j | 0 <= j < |g.results|
      ensures heard[j] == g.results[j]
    {
      assert Answers(g.results[j], calls[j]);
    }
  }

  lemma GroupHeard(gs: seq<Group>, i: nat, calls: seq<ToolCall>)
    requires AllProper(gs) && i < |gs| && PairedAt(gs, i) && (i > 0 ==> PairedAt(gs, i - 1))
    requires calls == if i > 0 then CallsIn(Sent(gs[i - 1])) else []
    ensures Heard(Sent(gs[i]), calls) == Messages(gs[i])
  {
    var g := gs[i];
    assert Proper(g);
    match g
    case Called(m) => CalledHeard(g);
    case Returned(_) => CalledHeard(gs[i - 1]); ReturnedHeard(gs[i - 1], g);
    case Said(m) =>
  }

  lemma {:induction false} WireReadsBack(gs: seq<Group>, n: nat)
    requires AllProper(gs) && GroupsPaired(gs) && n <= |gs|
    ensures ReadBack(OnWire(gs)[..n]) == Flat(gs[..n])
  {
    hide Proper, PairedAt, Heard, CallsIn, Sent;
    if n > 0 {
      WireReadsBack(gs, n - 1);
      var ws := OnWire(gs)[..n];
      assert ws[..n - 1] == OnWire(gs)[..n - 1];
      assert gs[..n][..n - 1] == gs[..n - 1];
      GroupHeard(gs, n - 1, if n > 1 then CallsIn(Sent(gs[n - 2])) else []);
    }
  }

  /** What goes out to Anthropic can be read back to the very history, when that is paired. */
  lemma {:induction false} AnthropicRoundTrip(h: seq<Message>)
    requires Paired(h)
    ensures AllProper(Grouped(h)) && ReadBack(OnWire(Grouped(h))) == h
  {
    GroupingKeepsAll(h);
    GroupingKeepsPairs(h);
    hide Paired, Grouped, GroupsPaired, AllProper;
    var gs := Grouped(h);
    WireReadsBack(gs, |gs|);
    assert OnWire(gs)[..|gs|] == OnWire(gs) && gs[..|gs|] == gs;
  }

  /** So whatever was asked, answered and trimmed before, every request a provider gets carries its whole history. */
  lemma EveryRequestTravelsWhole(qs: seq<Question>, next: Question, round: nat, rounds: nat, max: nat)
    ensures var h := Request(qs, next, round, rounds, max);
            AllProper(Grouped(h)) && ReadBack(OnWire(Grouped(h))) == h
  {
    hide *;
    EveryHistoryIsPaired(qs, next, round, rounds, max);
    AnthropicRoundTrip(Request(qs, next, round, rounds, max));
  }

  /** Every message with calls is answered by the next one, block for block, and nothing else is. */
  predicate WireAnswered(ws: seq<WireMessage>, i: nat)
    requires i < |ws|
  {
    && (ws[i].role.AssistantRole? && ws[i].content.Blocks? ==>
          i + 1 < |ws| && IsAnswerTo(ws[i + 1], CallsIn(ws[i])))
    && (ws[i].role.UserRole? && ws[i].content.Blocks? ==>
          i > 0 && ws[i - 1].role.AssistantRole? && ws[i - 1].content.Blocks?)
  }

  predicate IsAnswerTo(w: WireMessage, calls: seq<ToolCall>) {
    && w.role.UserRole? && w.content.Blocks? && |w.content.blocks| == |calls|
    && forall j | 0 <= j < |calls| :: w.content.blocks[j].ToolResult? && w.content.blocks[j].callId == calls[j].id
  }

  lemma MatchesAnswers(c: Group, r: Group)
    requires Proper(c) && Proper(r) && Matches(c, r)
    ensures IsAnswerTo(Sent(r), CallsIn(Sent(c)))
  {
    CalledHeard(c);
    hide CallsIn;
    assert forall j | 0 <= j < |CallsOf(c.m)| :: Answers(r.results[j], CallsOf(c.m)[j]);
  }

  lemma GroupAnswered(gs: seq<Group>, i: nat)
    requires AllProper(gs) && GroupsPaired(gs) && i < |gs|
    ensures WireAnswered(OnWire(gs), i)
  {
    assert PairedAt(gs, i) && Proper(gs[i]);
    if gs[i].Called? {
      MatchesAnswers(gs[i], gs[i + 1]);
    }
    hide IsAnswerTo, CallsIn;
    assert gs[i].Returned? ==> Proper(gs[i - 1]);
  }

  /** On a paired history each message of calls is followed by one message of exactly their results. */
  lemma AnthropicAnswers(h: seq<Message>, i: nat)
    requires Paired(h) && AllProper(Grouped(h)) && i < |Grouped(h)|
    ensures WireAnswered(OnWire(Grouped(h)), i)
  {
    hide *;
    GroupingKeepsPairs(h);
    GroupAnswered(Grouped(h), i);
  }

  /** The loop's step: what one more message of the history does to the wire. */
  function Appended(out: seq<WireMessage>, m: Message): seq<WireMessage> {
    match m
    case Tool(callId, _, content) =>
      var block := ToolResult(callId, content);
      if out != [] && out[|out| - 1].role.UserRole? && out[|out| - 1].content.Blocks? then
        out[..|out| - 1] + [WireMessage(UserRole, Blocks(out[|out| - 1].content.blocks + [block]))]
      else out + [WireMessage(UserRole, Blocks([block]))]
    case Assistant(content, calls) =>
      out + [WireMessage(AssistantRole,
                         if calls != [] then Blocks(TextBlock(content) + ToolUses(calls)) else Plain(content))]
    case User(content) => out + [WireMessage(UserRole, Plain(content))]
  }

  lemma OnWireSnoc(gs: seq<Group>, g: Group)
    requires AllProper(gs) && Proper(g)
    ensures AllProper(gs + [g]) && OnWire(gs + [g]) == OnWire(gs) + [Sent(g)]
  {
    hide Proper, Sent;
  }

  lemma WireJoined(gs: seq<Group>, m: Message)
    requires AllProper(gs) && AllProper(Joined(gs, m))
    ensures OnWire(Joined(gs, m)) == Appended(OnWire(gs), m)
  {
    if Merges(gs, m) {
      var before, last := gs[..|gs| - 1], gs[|gs| - 1];
      var more := Returned(last.results + [m]);
      assert Proper(last) && Proper(more);
      OnWireSnoc(before, last);
      OnWireSnoc(before, more);
      assert before + [last] == gs;
      assert ResultBlocks(more.results) == ResultBlocks(last.results) + [ToolResult(m.callId, m.content)];
      hide OnWire, AllProper;
    } else {
      OnWireSnoc(gs, GroupOf(m));
      if gs != [] {
        LastSent(gs);
      }
      assert m.Tool? ==> ResultBlocks([m]) == [ToolResult(m.callId, m.content)];
      hide OnWire, AllProper, ResultBlocks;
    }
  }

  lemma LastSent(gs: seq<Group>)
    requires AllProper(gs) && gs != []
    ensures var last := OnWire(gs)[|gs| - 1];
            last == Sent(gs[|gs| - 1])
            && (last.role.UserRole? && last.content.Blocks? <==> gs[|gs| - 1].Returned?)
  {
    assert Proper(gs[|gs| - 1]);
  }

  method ToAnthropic(history: seq<Message>) returns (out: seq<WireMessage>)
    ensures AllProper(Grouped(history)) && out == OnWire(Grouped(history))
  {
    hide Joined, OnWire, AllProper, GroupOf;
    out := [];
    NothingOnWire();
    for i := 0 to |history|
      invariant AllProper(Grouped(history[..i]))
      invariant out == OnWire(Grouped(history[..i]))
    {
      var m := history[i];
      assert history[..i + 1] == history[..i] + [m];
      GroupedLast(history[..i], m);
      ProperSnoc(Grouped(history[..i]), m);
      WireJoined(Grouped(history[..i]), m);
      ghost var before := out;
      match m {
        case Tool(callId, _, content) =>
          var block := ToolResult(callId, content);
          if out != [] && out[|out| - 1].role.UserRole? && out[|out| - 1].content.Blocks? {
            out := out[..|out| - 1] + [out[|out| - 1].(content := Blocks(out[|out| - 1].content.blocks + [block]))];
          } else {
            out := out + [WireMessage(UserRole, Blocks([block]))];
          }
        case Assistant(content, calls) =>
          if calls != [] {
            var blocks: seq<Block> := [];
            if content != "" {
              blocks := blocks + [Text(content)];
            }
            ghost var head := TextBlock(content);
            assert ToolUses(calls[..0]) == [];
            for k := 0 to |calls|
              invariant blocks == head + ToolUses(calls[..k])
            {
              assert ToolUses(calls[..k + 1]) == ToolUses(calls[..k]) + [ToolUse(calls[k])];
              blocks := blocks + [ToolUse(calls[k])];
            }
            assert calls[..|calls|] == calls;
            out := out + [WireMessage(AssistantRole, Blocks(blocks))];
          } else {
            out := out + [WireMessage(AssistantRole, Plain(content))];
          }
        case User(content) => out := out + [WireMessage(UserRole, Plain(content))];
      }
      assert out == Appended(before, m);
    }
    assert history[..|history|] == history;
  }

  lemma NothingOnWire()
    ensures AllProper(Grouped([])) && OnWire(Grouped([])) == []
  {
  }
}
