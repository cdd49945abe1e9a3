/**
  gemini.py: the same grouping with calls and results paired by name and place. Ids are not sent,
  so a history reads back without them. A result that is JSON is sent as what it says; a stamped
  one is not JSON, and travels whole.
 */
module Gemini {
  import opened ChatHistory
  import opened Wire
  import opened Wrappers

  datatype Speaker = UserSpeaker | ModelSpeaker
  datatype Part<J> = TextPart(text: string) | FunctionCall(name: string, arguments: string)
                   | FunctionResponse(name: string, response: Response<J>)
  datatype Turned<J> = Turned(speaker: Speaker, parts: seq<Part<J>>)

  /** The object a response must be: the result itself, or the result under a key of its own. */
  datatype Response<J> = Whole(dict: J) | Wrapped(value: J) | WrappedText(raw: string)

  /** A JSON reader, whatever its values are: what it makes of a text, and which are objects. */
  datatype Json<!J> = Json(loads: string -> Option<J>, isDict: J -> bool)

  function AsObject<J>(p: Json<J>, raw: string): Response<J> {
    match p.loads(raw)
    case None => WrappedText(raw)
    case Some(j) => if p.isDict(j) then Whole(j) else Wrapped(j)
  }

  /** No JSON text opens with a bracket and a letter r: no value starts with one (RFC 8259, section 3). */
  ghost predicate RejectsStamps<J>(p: Json<J>) {
    forall s: string :: |s| >= 2 && s[0] == '[' && s[1] == 'r' ==> p.loads(s).None?
  }

  predicate IsFunctionResponse<J>(c: Turned<J>) {
    c.parts != [] && forall i | 0 <= i < |c.parts| :: c.parts[i].FunctionResponse?
  }

  function CallParts<J>(calls: seq<ToolCall>): seq<Part<J>> {
    seq(|calls|, i requires 0 <= i < |calls| => FunctionCall(calls[i].name, calls[i].arguments))
  }

  function ResponseParts<J>(p: Json<J>, results: seq<Message>): seq<Part<J>>
    requires forall j | 0 <= j < |results| :: results[j].Tool?
  {
    seq(|results|, j requires 0 <= j < |results| => FunctionResponse(results[j].name, AsObject(p, results[j].content)))
  }

  function TextParts<J>(text: string): seq<Part<J>> {
    if text == "" then [] else [TextPart(text)]
  }

  function Spoken<J>(p: Json<J>, g: Group): Turned<J>
    requires Proper(g)
  {
    match g
    case Returned(results) => Turned(UserSpeaker, ResponseParts(p, results))
    case Called(m) => Turned(ModelSpeaker, TextParts(m.content) + CallParts(m.calls))
    case Said(m) => Turned(if m.User? then UserSpeaker else ModelSpeaker, [TextPart(m.content)])
  }

  function Contents<J>(p: Json<J>, gs: seq<Group>): seq<Turned<J>>
    requires AllProper(gs)
  {
    seq(|gs|, i requires 0 <= i < |gs| => Spoken(p, gs[i]))
  }

  // ---------------------------------------------------------------------------
  // Reading back

  function NoId(c: ToolCall): ToolCall {
    c.(id := "")
  }

  function Erased(m: Message): Message {
    match m
    case User(_) => m
    case Assistant(content, calls) =>
      Assistant(content, seq(|calls|, i requires 0 <= i < |calls| => NoId(calls[i])))
    case Tool(_, name, content) => Tool("", name, content)
  }

  function ErasedAll(h: seq<Message>): seq<Message> {
    seq(|h|, i requires 0 <= i < |h| => Erased(h[i]))
  }

  function CallsIn<J>(parts: seq<Part<J>>): seq<ToolCall> {
    seq(|parts|, i requires 0 <= i < |parts| =>
      if parts[i].FunctionCall? then ToolCall("", parts[i].name, parts[i].arguments) else ToolCall("", "", ""))
  }

  /** The text a response was made of, where it was sent as text. */
  function ResultOf<J>(part: Part<J>): string {
    if part.FunctionResponse? && part.response.WrappedText? then part.response.raw else ""
  }

  function Heard<J>(c: Turned<J>): seq<Message> {
    if c.speaker.UserSpeaker? then
      if IsFunctionResponse(c) then
        seq(|c.parts|, j requires 0 <= j < |c.parts| => Tool("", c.parts[j].name, ResultOf(c.parts[j])))
      else [User(if c.parts != [] && c.parts[0].TextPart? then c.parts[0].text else "")]
    else if c.parts != [] && c.parts[0].TextPart? then [Assistant(c.parts[0].text, CallsIn(c.parts[1..]))]
    else [Assistant("", CallsIn(c.parts))]
  }

  function ReadBack<J>(cs: seq<Turned<J>>): seq<Message> {
    if cs == [] then [] else ReadBack(cs[..|cs| - 1]) + Heard(cs[|cs| - 1])
  }

  /** Results that are not JSON. */
  predicate PlainText<J>(p: Json<J>, h: seq<Message>) {
    forall i | 0 <= i < |h| :: h[i].Tool? ==> p.loads(h[i].content).None?
  }

  lemma CallsHeard<J>(calls: seq<ToolCall>)
    ensures CallsIn(CallParts<J>(calls)) == seq(|calls|, i requires 0 <= i < |calls| => NoId(calls[i]))
  {
  }

  lemma CalledHeard<J>(p: Json<J>, m: Message)
    requires m.Assistant? && m.calls != []
    ensures Heard(Spoken(p, Called(m))) == [Erased(m)]
  {
    CallsHeard<J>(m.calls);
    var cs := CallParts<J>(m.calls);
    if m.content != "" {
      assert (TextParts<J>(m.content) + cs)[1..] == cs;
    } else {
      assert TextParts<J>(m.content) + cs == cs;
    }
  }

  lemma ReturnedHeard<J>(p: Json<J>, results: seq<Message>)
    requires Proper(Returned(results)) && PlainText(p, results)
    ensures Heard(Spoken(p, Returned(results))) == ErasedAll(results)
  {
    var c := Spoken(p, Returned(results));
    assert IsFunctionResponse(c);
    forall j | 0 <= j < |results|
      ensures Heard(c)[j] == Erased(results[j])
    {
      assert results[j].Tool? && p.loads(results[j].content).None?;
    }
  }

  lemma SaidHeard<J>(p: Json<J>, m: Message)
    requires Proper(Said(m))
    ensures Heard(Spoken(p, Said(m))) == [Erased(m)]
  {
    var c := Spoken(p, Said(m));
    assert !c.parts[0].FunctionResponse?;
    assert c.parts[1..] == [];
    assert m.Assistant? ==> CallsIn<J>([]) == [] == Erased(m).calls;
  }

  lemma GroupHeard<J>(p: Json<J>, g: Group)
    requires Proper(g) && PlainText(p, Messages(g))
    ensures Heard(Spoken(p, g)) == ErasedAll(Messages(g))
  {
    match g
    case Called(m) => CalledHeard(p, m); assert ErasedAll([m]) == [Erased(m)];
    case Said(m) => SaidHeard(p, m); assert ErasedAll([m]) == [Erased(m)];
    case Returned(results) => ReturnedHeard(p, results);
  }

  lemma ErasedAppend(a: seq<Message>, b: seq<Message>)
    ensures ErasedAll(a + b) == ErasedAll(a) + ErasedAll(b)
  {
    hide Erased;
  }

  lemma PlainTextParts<J>(p: Json<J>, gs: seq<Group>, n: nat)
    requires n < |gs| && PlainText(p, Flat(gs[..n + 1]))
    ensures PlainText(p, Flat(gs[..n])) && PlainText(p, Messages(gs[n]))
  {
    assert gs[..n + 1][..n] == gs[..n];
    var before, all := Flat(gs[..n]), Flat(gs[..n + 1]);
    assert all == before + Messages(gs[n]);
    hide Flat, Messages;
    assert forall i | 0 <= i < |before| :: before[i] == all[i];
    assert forall i | 0 <= i < |Messages(gs[n])| :: Messages(gs[n])[i] == all[|before| + i];
  }

  lemma {:induction false} ContentsReadBack<J>(p: Json<J>, gs: seq<Group>, n: nat)
    requires AllProper(gs) && n <= |gs| && PlainText(p, Flat(gs[..n]))
    ensures ReadBack(Contents(p, gs)[..n]) == ErasedAll(Flat(gs[..n]))
  {
    hide Proper, Heard, Spoken, ErasedAll, PlainText;
    if n > 0 {
      PlainTextParts(p, gs, n - 1);
      ContentsReadBack(p, gs, n - 1);
      assert Contents(p, gs)[..n][..n - 1] == Contents(p, gs)[..n - 1];
      assert gs[..n][..n - 1] == gs[..n - 1];
      GroupHeard(p, gs[n - 1]);
      ErasedAppend(Flat(gs[..n - 1]), Messages(gs[n - 1]));
    } else {
      NothingErased();
    }
  }

  lemma NothingErased()
    ensures ErasedAll([]) == []
  {
  }

  /** What goes out to Gemini reads back to the history without its ids, if no result is JSON. */
  lemma {:induction false} GeminiRoundTrip<J>(p: Json<J>, h: seq<Message>)
    requires PlainText(p, h)
    ensures AllProper(Grouped(h)) && ReadBack(Contents(p, Grouped(h))) == ErasedAll(h)
  {
    GroupingKeepsAll(h);
    hide Grouped, AllProper, ErasedAll, PlainText;
    var gs := Grouped(h);
    assert Contents(p, gs)[..|gs|] == Contents(p, gs) && gs[..|gs|] == gs;
    ContentsReadBack(p, gs, |gs|);
  }

  /** And none ever is: every request of every conversation reads back, for any JSON reader. */
  lemma {:induction false} EveryRequestReadsBack<J>(p: Json<J>, qs: seq<Question>, next: Question, round: nat,
                                                    rounds: nat, max: nat)
    requires RejectsStamps(p)
    ensures var h := Request(qs, next, round, rounds, max);
            AllProper(Grouped(h)) && ReadBack(Contents(p, Grouped(h))) == ErasedAll(h)
  {
    var h := Request(qs, next, round, rounds, max);
    EveryResultIsStamped(qs, next, round, rounds, max);
    hide Request, Conversation, Grouped, AllProper, ReadBack, Contents, ErasedAll;
    assert forall i | 0 <= i < |h| :: HasStamp(h[i]);
    GeminiRoundTrip(p, h);
  }

  /** The calls of one content are answered by the next, name for name and in order. */
  predicate NamesAnswered<J>(cs: seq<Turned<J>>, i: nat, calls: seq<ToolCall>)
    requires i < |cs|
  {
    && i + 1 < |cs| && cs[i + 1].speaker.UserSpeaker? && |cs[i + 1].parts| == |calls|
    && forall j | 0 <= j < |calls| ::
         cs[i + 1].parts[j].FunctionResponse? && cs[i + 1].parts[j].name == calls[j].name
  }

  lemma GroupAnswered<J>(p: Json<J>, gs: seq<Group>, i: nat)
    requires AllProper(gs) && GroupsPaired(gs) && i < |gs| && gs[i].Called?
    ensures NamesAnswered(Contents(p, gs), i, CallsOf(gs[i].m))
  {
    assert PairedAt(gs, i);
    var r, calls := gs[i + 1], CallsOf(gs[i].m);
    assert Proper(r);
    forall j | 0 <= j < |calls|
      ensures r.results[j].Tool? && r.results[j].name == calls[j].name
    {
      assert Answers(r.results[j], calls[j]);
    }
  }

  lemma GeminiAnswers<J>(p: Json<J>, h: seq<Message>, i: nat)
    requires Paired(h) && AllProper(Grouped(h)) && i < |Grouped(h)| && Grouped(h)[i].Called?
    ensures NamesAnswered(Contents(p, Grouped(h)), i, CallsOf(Grouped(h)[i].m))
  {
    hide *;
    GroupingKeepsPairs(h);
    GroupAnswered(p, Grouped(h), i);
  }

  // ---------------------------------------------------------------------------
  // The loop

  function Appended<J>(p: Json<J>, out: seq<Turned<J>>, m: Message): seq<Turned<J>> {
    match m
    case Tool(_, name, content) =>
      var part := FunctionResponse(name, AsObject(p, content));
      if out != [] && out[|out| - 1].speaker.UserSpeaker? && IsFunctionResponse(out[|out| - 1]) then
        out[..|out| - 1] + [Turned(UserSpeaker, out[|out| - 1].parts + [part])]
      else out + [Turned(UserSpeaker, [part])]
    case Assistant(content, calls) =>
      out + [Turned(ModelSpeaker, if calls != [] then TextParts(content) + CallParts(calls) else [TextPart(content)])]
    case User(content) => out + [Turned(UserSpeaker, [TextPart(content)])]
  }

  lemma ContentsSnoc<J>(p: Json<J>, gs: seq<Group>, g: Group)
    requires AllProper(gs) && Proper(g)
    ensures AllProper(gs + [g]) && Contents(p, gs + [g]) == Contents(p, gs) + [Spoken(p, g)]
  {
    hide Proper, Spoken;
  }

  lemma LastSpoken<J>(p: Json<J>, gs: seq<Group>)
    requires AllProper(gs) && gs != []
    ensures var last := Contents(p, gs)[|gs| - 1];
            last == Spoken(p, gs[|gs| - 1])
            && (last.speaker.UserSpeaker? && IsFunctionResponse(last) <==> gs[|gs| - 1].Returned?)
  {
    var g := gs[|gs| - 1];
    assert Proper(g);
    if g.Said? {
      assert !Spoken(p, g).parts[0].FunctionResponse?;
    }
  }

  lemma ContentsJoined<J>(p: Json<J>, gs: seq<Group>, m: Message)
    requires AllProper(gs) && AllProper(Joined(gs, m))
    ensures Contents(p, Joined(gs, m)) == Appended(p, Contents(p, gs), m)
  {
    if gs != [] {
      LastSpoken(p, gs);
    }
    hide IsFunctionResponse;
    if Merges(gs, m) {
      var before, last := gs[..|gs| - 1], gs[|gs| - 1];
      var more := Returned(last.results + [m]);
      assert Proper(last) && Proper(more);
      ContentsSnoc(p, before, last);
      ContentsSnoc(p, before, more);
      assert before + [last] == gs;
      assert ResponseParts(p, more.results)
          == ResponseParts(p, last.results) + [FunctionResponse(m.name, AsObject(p, m.content))];
      hide Contents, AllProper;
    } else {
      ContentsSnoc(p, gs, GroupOf(m));
      assert m.Tool? ==> ResponseParts(p, [m]) == [FunctionResponse(m.name, AsObject(p, m.content))];
      hide Contents, AllProper, ResponseParts;
    }
  }

  lemma NoContents<J>(p: Json<J>)
    ensures AllProper(Grouped([])) && Contents(p, Grouped([])) == []
  {
  }

  method ToGemini<J>(p: Json<J>, history: seq<Message>) returns (out: seq<Turned<J>>)
    ensures AllProper(Grouped(history)) && out == Contents(p, Grouped(history))
  {
    hide Joined, Contents, AllProper, GroupOf;
    out := [];
    NoContents(p);
    for i := 0 to |history|
      invariant AllProper(Grouped(history[..i]))
      invariant out == Contents(p, Grouped(history[..i]))
    {
      var m := history[i];
      assert history[..i + 1] == history[..i] + [m];
      GroupedLast(history[..i], m);
      ProperSnoc(Grouped(history[..i]), m);
      ContentsJoined(p, Grouped(history[..i]), m);
      ghost var before := out;
      match m {
        case Tool(_, name, content) =>
          var part := FunctionResponse(name, AsObject(p, content));
          if out != [] && out[|out| - 1].speaker.UserSpeaker? && IsFunctionResponse(out[|out| - 1]) {
            out := out[..|out| - 1] + [out[|out| - 1].(parts := out[|out| - 1].parts + [part])];
          } else {
            out := out + [Turned(UserSpeaker, [part])];
          }
        case Assistant(content, calls) =>
          if calls != [] {
            var parts: seq<Part<J>> := [];
            if content != "" {
              parts := parts + [TextPart(content)];
            }
            assert CallParts<J>(calls[..0]) == [];
            for k := 0 to |calls|
              invariant parts == TextParts<J>(content) + CallParts<J>(calls[..k])
            {
              assert CallParts<J>(calls[..k + 1])
                  == CallParts(calls[..k]) + [FunctionCall(calls[k].name, calls[k].arguments)];
              parts := parts + [FunctionCall(calls[k].name, calls[k].arguments)];
            }
            assert calls[..|calls|] == calls;
            out := out + [Turned(ModelSpeaker, parts)];
          } else {
            out := out + [Turned(ModelSpeaker, [TextPart(content)])];
          }
        case User(content) => out := out + [Turned(UserSpeaker, [TextPart(content)])];
      }
      assert out == Appended(p, before, m);
    }
    assert history[..|history|] == history;
  }
}
