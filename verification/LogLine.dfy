/** fix_parser.cpp: the timestamp an engine puts in front of a log line, split off. */
module LogLine {
  import opened Calendar
  import opened Timestamp
  import opened Wrappers

  function FindPad(s: string): (r: Option<nat>)
    ensures r.Some? ==> r.value + 3 <= |s| && s[r.value..r.value + 3] == " : "
  {
    if |s| < 3 then None
    else if s[..3] == " : " then Some(0)
    else
      match FindPad(s[1..])
      case None => None
      case Some(n) => Some(n + 1)
  }

  function FindColon(s: string): (r: Option<nat>)
    ensures r.Some? ==> r.value < |s| && s[r.value] == ':' && forall i | 0 <= i < r.value :: s[i] != ':'
  {
    if s == "" then None
    else if s[0] == ':' then Some(0)
    else
      match FindColon(s[1..])
      case None => None
      case Some(n) => Some(n + 1)
  }

  predicate IsBlank(c: char) {
    c == ' ' || c == '\t'
  }

  function TrimEnd(s: string): string {
    if s != "" && IsBlank(s[|s| - 1]) then TrimEnd(s[..|s| - 1]) else s
  }

  function TrimStart(s: string): string {
    if s != "" && IsBlank(s[0]) then TrimStart(s[1..]) else s
  }

  /** The padded separator if it stands near the front, else the first colon. */
  function Separator(line: string): (r: Option<nat>)
    ensures r.Some? ==> r.value < |line|
  {
    var pad := FindPad(line);
    if pad.None? || pad.value > 32 then FindColon(line) else pad
  }

  /** The timestamp, 0 if none is recognised, and the rest of the line. */
  function Split(line: string): (int, string) {
    match Separator(line)
    case None => (0, line)
    case Some(sep) =>
      var parsed := Parsed(TrimEnd(line[..sep]));
      if parsed == 0 then (0, line)
      else (parsed, TrimStart(line[if sep + 3 <= |line| then sep + 3 else |line|..]))
  }

  method SplitLogLine(line: string) returns (ts: int, payload: string)
    ensures (ts, payload) == Split(line)
  {
    hide Parsed;
    ts, payload := 0, line;
    var found := FindPad(line);
    if found.None? || found.value > 32 {
      found := FindColon(line);
      if found.None? {
        return;
      }
    }
    var sep := found.value;
    var head := line[..sep];
    while head != "" && (head[|head| - 1] == ' ' || head[|head| - 1] == '\t')
      invariant TrimEnd(head) == TrimEnd(line[..sep])
      decreases |head|
    {
      head := head[..|head| - 1];
    }
    var parsed := ParseTimestamp(head);
    if parsed == 0 {
      return;
    }
    ts := parsed;
    var start := if sep + 3 <= |line| then sep + 3 else |line|;
    payload := line[start..];
    while payload != "" && (payload[0] == ' ' || payload[0] == '\t')
      invariant TrimStart(payload) == TrimStart(line[start..])
      decreases |payload|
    {
      payload := payload[1..];
    }
  }

  // ---------------------------------------------------------------------------
  // What is and what is not recognised

  lemma {:induction false} FindPadAfter(pre: string, rest: string)
    requires ' ' !in pre
    ensures FindPad(pre + " : " + rest) == Some(|pre|)
  {
    var s := pre + " : " + rest;
    if pre == "" {
      assert s[..3] == " : ";
    } else {
      assert s[..3][0] == pre[0];
      assert s[1..] == pre[1..] + " : " + rest;
      FindPadAfter(pre[1..], rest);
    }
  }

  predicate Solid(s: string) {
    forall i | 0 <= i < |s| :: !IsBlank(s[i])
  }

  lemma DigitsSolid(v: nat, len: nat)
    requires Fits(v, len)
    ensures Solid(Digits(v, len))
  {
    DigitsRead(v, len);
    hide Digits, Number, Fits;
  }

  lemma StampSolid(a: Stamp)
    requires a.Valid()
    ensures Solid(a.Text()) && 17 <= |a.Text()| <= 27
  {
    var c := a.time;
    MonthFits(c);
    Small(c.y);
    Small(c.m);
    Small(c.d);
    Small(c.hour);
    Small(c.min);
    Small(c.sec);
    DigitsSolid(c.y, 4);
    DigitsSolid(c.m, 2);
    DigitsSolid(c.d, 2);
    DigitsSolid(c.hour, 2);
    DigitsSolid(c.min, 2);
    DigitsSolid(c.sec, 2);
    DigitsSolid(a.frac, a.places);
    hide Digits, Fits, Civil.Valid;
  }

  /** A printed timestamp has no blank in it or behind it, and reads back. */
  lemma StampStands(a: Stamp)
    requires a.Valid()
    ensures Parsed(a.Text()) == a.time.Nanos() && ' ' !in a.Text() && TrimEnd(a.Text()) == a.Text()
    ensures |a.Text()| <= 27
  {
    StampSolid(a);
    PrintedParsesExactly(a.time, a.frac, a.places);
    hide Printed, Parsed, Civil.Nanos, Civil.Valid, Fits, Scaled;
  }

  /** A line the engine writes, timestamp and padded colon, gives its time and its payload. */
  lemma PaddedLineSplits(a: Stamp, payload: string)
    requires a.Valid() && a.time.Nanos() > 0
    ensures Split(a.Text() + " : " + payload) == (a.time.Nanos(), TrimStart(payload))
  {
    hide *;
    StampStands(a);
    FindPadAfter(a.Text(), payload);
    PaddedParts(a.Text(), payload);
    SplitAt(a.Text() + " : " + payload, a.Text(), payload);
  }

  lemma PaddedParts(ts: string, payload: string)
    ensures var line := ts + " : " + payload;
            |line| == |ts| + 3 + |payload| && line[..|ts|] == ts && line[|ts| + 3..] == payload
  {
  }

  lemma SplitAt(line: string, ts: string, payload: string)
    requires FindPad(line) == Some(|ts|) && |ts| <= 32 && TrimEnd(ts) == ts && Parsed(ts) != 0
    requires |line| == |ts| + 3 + |payload| && line[..|ts|] == ts && line[|ts| + 3..] == payload
    ensures Split(line) == (Parsed(ts), TrimStart(payload))
  {
    hide FindPad, TrimEnd, TrimStart, Parsed;
  }

  lemma {:induction false} TrimEndIsPrefix(s: string)
    ensures TrimEnd(s) <= s
  {
    if s != "" && IsBlank(s[|s| - 1]) {
      TrimEndIsPrefix(s[..|s| - 1]);
    }
  }

  /**
    The fallback for lines without the padding recognises nothing: what stands before the first
    colon has no colon, and every timestamp has one.
   */
  lemma UnpaddedIsNeverRecognised(line: string)
    requires FindPad(line).None? || FindPad(line).value > 32
    ensures Split(line) == (0, line)
  {
    if FindColon(line).Some? {
      var sep := FindColon(line).value;
      var head := TrimEnd(line[..sep]);
      TrimEndIsPrefix(line[..sep]);
      assert |head| > 11 ==> head[11] == line[..sep][11] == line[11] && line[11] != ':';
      assert !Shaped(head);
      hide Shaped, TrimEnd;
    }
  }

  lemma {:induction false} PadBehind(pre: string, rest: string)
    requires Solid(pre) && FindPad(pre + rest).Some?
    ensures |pre| <= FindPad(pre + rest).value
  {
    var s := pre + rest;
    if pre != "" {
      assert s[..3][0] == pre[0];
      assert s[1..] == pre[1..] + rest;
      PadBehind(pre[1..], rest);
    }
  }

  lemma {:induction false} TrimEndKeepsSolid(pre: string, rest: string)
    requires pre != "" && Solid(pre)
    ensures pre <= TrimEnd(pre + rest)
  {
    var s := pre + rest;
    if rest == "" {
      assert s == pre;
    } else if IsBlank(s[|s| - 1]) {
      assert s[..|s| - 1] == pre + rest[..|rest| - 1];
      TrimEndKeepsSolid(pre, rest[..|rest| - 1]);
    }
  }

  /**
    A line that begins with a timestamp after the Epoch, whatever follows, is recognised exactly
    when a padded colon stands within its first letters.
   */
  lemma RecognisedExactlyWhenPadded(a: Stamp, rest: string)
    requires a.Valid() && a.time.Nanos() > 0
    ensures var line := a.Text() + rest;
            Split(line).0 != 0 <==> FindPad(line).Some? && FindPad(line).value <= 32
  {
    var ts := a.Text();
    var line := ts + rest;
    StampSolid(a);
    if FindPad(line).Some? && FindPad(line).value <= 32 {
      var sep := FindPad(line).value;
      PadBehind(ts, rest);
      var gap := rest[..sep - |ts|];
      assert line[..sep] == ts + gap;
      TrimEndKeepsSolid(ts, gap);
      var head := TrimEnd(ts + gap);
      assert head == ts + head[|ts|..];
      StampBehindParses(a, head[|ts|..]);
      hide Parsed, Stamp.Text, Stamp.Valid, Civil.Nanos, FindPad, TrimEnd, TrimStart;
    } else {
      UnpaddedIsNeverRecognised(line);
    }
  }

  /** So a bare colon behind the timestamp, which the fallback is for, is not recognised. */
  lemma BareColonIsNotRecognised(a: Stamp, payload: string)
    requires a.Valid()
    requires var line := a.Text() + ":" + payload; FindPad(line).None? || FindPad(line).value > 32
    ensures Split(a.Text() + ":" + payload) == (0, a.Text() + ":" + payload)
  {
    UnpaddedIsNeverRecognised(a.Text() + ":" + payload);
  }
}
