/**
  MessageLogAdapter::parse_line of message_log_adapter.cpp: lift the fields diagnosis
  needs, then mask the body.
 */
module MessageLog {
  import opened Wrappers
  import opened FixTags
  import opened FixBody
  import opened FixBodyMeaning
  import opened FixFields
  import FreeText
  import LogLine
  import opened Sessions

  /** The columns derived from a FIX body. */
  datatype Lifted = Lifted(
    msgType: string, msgSeqNum: nat, possDup: bool, possResend: bool, direction: Direction,
    rejectReason: int, refTagId: int, refSeqNum: nat, ordStatus: string, text: string)

  /** What goes to the sink: the event proper, what only the store keeps, and the body. */
  datatype MessageEvent = MessageEvent(event: Event, possResend: bool, refSeqNum: nat, raw: string)

  /** Every message log event is a FIX message of the adapter's own session, from that log. */
  function EventOf(session: string, engineTs: int, now: int, l: Lifted): Event {
    Event(FixMessage, MessageLog, session, l.direction, engineTs, now,
          l.msgType, l.msgSeqNum, l.possDup, l.rejectReason, l.refTagId, l.ordStatus, l.text, NoEvent, 0, 0)
  }

  function ToNat(s: string): nat {
    Leading(s, 0)
  }

  function AllDigits(s: string, v: nat): int {
    if s == "" then v
    else if !IsDigit(s[0]) then -1
    else AllDigits(s[1..], v * 10 + (s[0] as int - '0' as int))
  }

  function ToSigned(s: string): int {
    if s == "" then -1 else AllDigits(s, 0)
  }

  function NumberOf(tags: TagMap, tag: int): nat {
    if tag in tags then ToNat(tags[tag]) else 0
  }

  function CodeOf(tags: TagMap, tag: int): int {
    if tag in tags then ToSigned(tags[tag]) else -1
  }

  /** SessionRejectReason, else BusinessRejectReason, else OrdRejReason, else CxlRejReason;
      a present OrdRejReason hides CxlRejReason even when it is no number. */
  function ReasonOf(tags: TagMap): int {
    var session := CodeOf(tags, 373);
    var business := if session < 0 then (if 380 in tags then CodeOf(tags, 380) else session) else session;
    if business >= 0 then business
    else if 103 in tags then CodeOf(tags, 103)
    else if 102 in tags then CodeOf(tags, 102)
    else business
  }

  function Lift(tags: TagMap, sender: string): Lifted
    requires 35 in tags
  {
    Lifted(
      tags[35], NumberOf(tags, 34), Lookup(tags, 43) == Some("Y"), Lookup(tags, 97) == Some("Y"),
      if 49 in tags then (if tags[49] == sender then Outgoing else Incoming) else UnknownDirection,
      ReasonOf(tags), CodeOf(tags, 371), NumberOf(tags, 45),
      if 39 in tags then tags[39] else "", if 58 in tags then FreeText.Redacted(tags[58]) else "")
  }

  predicate StartsBody(s: string, i: int) {
    0 <= i && i + 5 <= |s| && s[i..i + 5] == "8=FIX"
  }

  ghost predicate BodyAt(payload: string, i: int) {
    StartsBody(payload, i) && forall j :: j < i ==> !StartsBody(payload, j)
  }

  /** The first "8=FIX" of a payload. */
  method FindBody(payload: string) returns (begin: Option<nat>)
    ensures begin.None? ==> forall i :: !BodyAt(payload, i)
    ensures begin.Some? ==> StartsBody(payload, begin.value) && BodyAt(payload, begin.value)
    ensures begin.Some? ==> forall i :: BodyAt(payload, i) ==> i == begin.value
  {
    var i := 0;
    while i + 5 <= |payload|
      invariant forall j :: j < i ==> !StartsBody(payload, j)
    {
      if payload[i..i + 5] == "8=FIX" {
        return Some(i);
      }
      i := i + 1;
    }
    return None;
  }

  /** Every column comes from the body as logged; the stored body is the masked one. */
  method ParseLine(line: string, session: string, sender: string, maskBodies: bool, now: int)
      returns (ev: Option<MessageEvent>)
    ensures var (ts, payload) := LogLine.Split(line);
            && (ev.None? <==> forall i | BodyAt(payload, i) :: 35 !in Collect(payload[i..], map[]))
            && (ev.Some? ==>
                  exists i | BodyAt(payload, i) ::
                    && 35 in Collect(payload[i..], map[])
                    && var l := Lift(Collect(payload[i..], map[]), sender);
                       ev.value == MessageEvent(EventOf(session, ts, now, l), l.possResend, l.refSeqNum,
                                                Mask(payload[i..], Nothing, maskBodies)))
  {
    hide Lift, Mask, Collect, BodyAt, LogLine.Split;
    var ts, payload := LogLine.SplitLogLine(line);
    var begin := FindBody(payload);
    if begin.None? {
      return None;
    }
    var body := payload[begin.value..];
    var found, tags := ParseFixFields(body);
    if !found || 35 !in tags {
      return None;
    }
    var lifted := Lift(tags, sender);
    var raw := MaskFixBody(body, maskBodies);
    ev := Some(MessageEvent(EventOf(session, ts, now, lifted), lifted.possResend, lifted.refSeqNum, raw));
  }

  /** The columns lifted before masking are the ones the masked body still yields. */
  lemma {:induction false} LiftSurvivesMasking(items: seq<Item>, sender: string, maskBodies: bool)
    requires WellFormed(items) && Plain(items)
    requires 35 in Collect(Render(items), map[])
    ensures var masked := Mask(Render(items), Nothing, maskBodies);
            && 35 in Collect(masked, map[])
            && Lift(Collect(masked, map[]), sender) == Lift(Collect(Render(items), map[]), sender)
  {
    hide Collect, Mask, Render, Plain, WellFormed, FreeText.Redacted;
    var before, after := Collect(Render(items), map[]), Collect(Mask(Render(items), Nothing, maskBodies), map[]);
    forall tag | tag in {35, 34, 43, 97, 49, 373, 380, 371, 45, 39, 103, 102}
      ensures Lookup(after, tag) == Lookup(before, tag)
    {
      ParseAfterMask(items, tag, maskBodies);
    }
    ParseAfterMask(items, 58, maskBodies);
    if 58 in before {
      FreeText.RedactedTwice(before[58]);
      FreeText.RedactedKeepsEmptiness(before[58]);
    }
    LiftDependsOn(before, after, sender);
  }

  lemma LiftDependsOn(a: TagMap, b: TagMap, sender: string)
    requires 35 in a
    requires forall tag | tag in {35, 34, 43, 97, 49, 373, 380, 371, 45, 39, 103, 102} ::
               Lookup(a, tag) == Lookup(b, tag)
    requires 58 in a <==> 58 in b
    requires 58 in a ==> FreeText.Redacted(a[58]) == FreeText.Redacted(b[58])
    ensures 35 in b && Lift(a, sender) == Lift(b, sender)
  {
    hide FreeText.Redacted, ToSigned, ToNat;
    forall tag | tag in {35, 34, 43, 97, 49, 373, 380, 371, 45, 39, 103, 102}
      ensures (tag in a <==> tag in b) && (tag in a ==> a[tag] == b[tag])
    {
      assert Lookup(a, tag) == Lookup(b, tag);
    }
  }
}
