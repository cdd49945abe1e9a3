/** fix_parser.cpp: FIX timestamps, YYYYMMDD-HH:MM:SS with up to nine digits of fraction. 0 means none. */
module Timestamp {
  import opened Calendar

  predicate IsDigit(c: char) {
    '0' <= c <= '9'
  }

  function DigitOf(c: char): int {
    c as int - '0' as int
  }

  /** The value of a run of digits, -1 if anything else is in it. */
  function Number(s: string): int {
    if s == "" then 0
    else
      var before := Number(s[..|s| - 1]);
      if before < 0 || !IsDigit(s[|s| - 1]) then -1 else before * 10 + DigitOf(s[|s| - 1])
  }

  /** How many of the first `limit` letters are digits, before anything else. */
  function Leading(s: string, limit: nat): (n: nat)
    ensures n <= limit && n <= |s| && forall i | 0 <= i < n :: IsDigit(s[i])
    decreases limit
  {
    if limit == 0 || s == "" || !IsDigit(s[0]) then 0 else 1 + Leading(s[1..], limit - 1)
  }

  function Scaled(v: int, places: nat): int
    decreases places
  {
    if places == 0 then v else Scaled(v * 10, places - 1)
  }

  /** Nanoseconds of the fraction that follows the point. */
  function Fraction(s: string): int {
    var n := Leading(s, 9);
    Scaled(Number(s[..n]), 9 - n)
  }

  predicate Shaped(ts: string) {
    && |ts| >= 17 && ts[8] == '-' && ts[11] == ':' && ts[14] == ':'
    && Number(ts[0..4]) >= 0 && Number(ts[4..6]) >= 0 && Number(ts[6..8]) >= 0
    && Number(ts[9..11]) >= 0 && Number(ts[12..14]) >= 0 && Number(ts[15..17]) >= 0
  }

  function Epoch(ts: string): int
    requires Shaped(ts)
  {
    Timegm(Number(ts[0..4]), Number(ts[4..6]), Number(ts[6..8]),
           Number(ts[9..11]), Number(ts[12..14]), Number(ts[15..17]))
  }

  function Parsed(ts: string): int {
    if !Shaped(ts) || Epoch(ts) == -1 then 0
    else Epoch(ts) * 1_000_000_000 + if |ts| > 18 && ts[17] == '.' then Fraction(ts[18..]) else 0
  }

  // ---------------------------------------------------------------------------
  // The loops

  lemma NumberOfNothing(s: string, lo: nat)
    requires lo <= |s|
    ensures Number(s[lo..lo]) == 0
  {
  }

  lemma SliceOfSlice(s: string, lo: nat, mid: nat, hi: nat)
    requires lo <= mid <= hi <= |s|
    ensures s[lo..hi][..mid - lo] == s[lo..mid]
  {
  }

  lemma NumberNext(s: string, lo: nat, k: nat)
    requires lo <= k < |s|
    ensures var before := Number(s[lo..k]);
            Number(s[lo..k + 1]) == if before < 0 || !IsDigit(s[k]) then -1 else before * 10 + DigitOf(s[k])
  {
    SliceOfSlice(s, lo, k, k + 1);
    assert s[lo..k + 1][k - lo] == s[k];
  }

  method ReadNumber(ts: string, pos: nat, len: nat) returns (v: int)
    requires pos + len <= |ts|
    ensures v == Number(ts[pos..pos + len])
  {
    hide Number;
    NumberOfNothing(ts, pos);
    v := 0;
    for k := pos to pos + len
      invariant v == Number(ts[pos..k]) && v >= 0
    {
      var c := ts[k];
      NumberNext(ts, pos, k);
      if c < '0' || c > '9' {
        SliceOfSlice(ts, pos, k + 1, pos + len);
        NumberPrefix(ts[pos..pos + len], k + 1 - pos);
        return -1;
      }
      v := v * 10 + (c as int - '0' as int);
    }
  }

  lemma {:induction false} NumberPrefix(s: string, n: nat)
    requires n <= |s| && Number(s[..n]) < 0
    ensures Number(s) == -1
  {
    if n < |s| {
      assert s[..|s| - 1][..n] == s[..n];
      NumberPrefix(s[..|s| - 1], n);
    } else {
      assert s[..n] == s;
    }
  }

  lemma {:induction false} LeadingAt(s: string, limit: nat, n: nat)
    requires n <= limit && n <= |s| && forall i | 0 <= i < n :: IsDigit(s[i])
    requires n == limit || n == |s| || !IsDigit(s[n])
    ensures Leading(s, limit) == n
    decreases limit
  {
    if n > 0 {
      LeadingAt(s[1..], limit - 1, n - 1);
    }
  }

  lemma ScaledNext(v: int, places: nat)
    ensures Scaled(v, 0) == v
    ensures Scaled(v, places + 1) == Scaled(v * 10, places)
  {
  }

  method ReadFraction(ts: string) returns (frac: int)
    requires |ts| > 18
    ensures frac == Fraction(ts[18..])
  {
    hide Number, Leading, Scaled;
    frac := 0;
    var digits := 0;
    ghost var s := ts[18..];
    NumberOfNothing(s, 0);
    var k := 18;
    while k < |ts| && digits < 9
      invariant k == 18 + digits && digits <= 9 && k <= |ts|
      invariant forall i | 0 <= i < digits :: IsDigit(s[i])
      invariant frac == Number(s[..digits]) && frac >= 0
    {
      var c := ts[k];
      if c < '0' || c > '9' {
        break;
      }
      NumberNext(s, 0, digits);
      assert s[digits] == c;
      frac := frac * 10 + (c as int - '0' as int);
      digits := digits + 1;
      k := k + 1;
    }
    LeadingAt(s, 9, digits);
    assert Scaled(frac, 9 - digits) == Fraction(s);
    for j := digits to 9
      invariant Scaled(frac, 9 - j) == Fraction(s)
    {
      ScaledNext(frac, 8 - j);
      frac := frac * 10;
    }
    ScaledNext(frac, 0);
  }

  method ParseTimestamp(ts: string) returns (ns: int)
    ensures ns == Parsed(ts)
  {
    hide Number, Timegm, Fraction;
    if |ts| < 17 {
      return 0;
    }
    if ts[8] != '-' || ts[11] != ':' || ts[14] != ':' {
      return 0;
    }
    var year := ReadNumber(ts, 0, 4);
    var mon := ReadNumber(ts, 4, 2);
    var day := ReadNumber(ts, 6, 2);
    var hour := ReadNumber(ts, 9, 2);
    var min := ReadNumber(ts, 12, 2);
    var sec := ReadNumber(ts, 15, 2);
    if year < 0 || mon < 0 || day < 0 || hour < 0 || min < 0 || sec < 0 {
      return 0;
    }
    var epoch := Timegm(year, mon, day, hour, min, sec);
    if epoch == -1 {
      return 0;
    }
    ns := epoch * 1_000_000_000;
    if |ts| > 18 && ts[17] == '.' {
      var frac := ReadFraction(ts);
      ns := ns + frac;
    }
  }

  // ---------------------------------------------------------------------------
  // Printing, and the way back

  function Digits(v: nat, len: nat): (s: string)
    ensures |s| == len
  {
    if len == 0 then "" else Digits(v / 10, len - 1) + [('0' as int + v % 10) as char]
  }

  predicate Fits(v: int, len: nat) {
    if len == 0 then v == 0 else v >= 0 && Fits(v / 10, len - 1)
  }

  lemma {:induction false} DigitsRead(v: nat, len: nat)
    requires Fits(v, len)
    ensures Number(Digits(v, len)) == v
    ensures forall i | 0 <= i < len :: IsDigit(Digits(v, len)[i])
  {
    if len > 0 {
      DigitsRead(v / 10, len - 1);
      var s := Digits(v, len);
      assert s[..len - 1] == Digits(v / 10, len - 1);
    }
  }

  /** The printed form, with the first `places` digits of the fraction; none means no point either. */
  function Printed(c: Civil, frac: nat, places: nat): string
    requires c.Valid()
  {
    Digits(c.y, 4) + Digits(c.m, 2) + Digits(c.d, 2) + "-"
    + Digits(c.hour, 2) + ":" + Digits(c.min, 2) + ":" + Digits(c.sec, 2)
    + if places == 0 then "" else "." + Digits(frac, places)
  }

  lemma Small(v: int)
    ensures 0 <= v < 100 ==> Fits(v, 2)
    ensures 0 <= v < 10000 ==> Fits(v, 4)
  {
    assert 0 <= v < 10000 ==> v / 10 < 1000 && v / 10 / 10 < 100 && v / 10 / 10 / 10 < 10;
  }

  lemma PrintedParts(c: Civil, frac: nat, places: nat)
    requires c.Valid()
    ensures var ts := Printed(c, frac, places);
            && |ts| == 17 + (if places == 0 then 0 else 1 + places)
            && ts[0..4] == Digits(c.y, 4) && ts[4..6] == Digits(c.m, 2) && ts[6..8] == Digits(c.d, 2)
            && ts[8] == '-' && ts[9..11] == Digits(c.hour, 2)
            && ts[11] == ':' && ts[12..14] == Digits(c.min, 2)
            && ts[14] == ':' && ts[15..17] == Digits(c.sec, 2)
            && (places > 0 ==> ts[17] == '.' && ts[18..] == Digits(frac, places))
  {
    hide Digits, Civil.Valid;
  }

  lemma FractionRead(frac: nat, places: nat)
    requires 1 <= places <= 9 && Fits(frac, places)
    ensures Fraction(Digits(frac, places)) == Scaled(frac, 9 - places)
  {
    DigitsRead(frac, places);
    var s := Digits(frac, places);
    hide Digits, Number, Scaled;
    LeadingAt(s, 9, places);
    assert s[..places] == s;
  }

  lemma MonthFits(c: Civil)
    requires c.Valid()
    ensures c.d <= 31
  {
  }

  /** A printed timestamp parses back to the exact count of nanoseconds. */
  lemma PrintedParsesExactly(c: Civil, frac: nat, places: nat)
    requires c.Valid() && c.y <= 2261
    requires places <= 9 && Fits(frac, places) && c.nano == Scaled(frac, 9 - places)
    ensures Parsed(Printed(c, frac, places)) == c.Nanos()
  {
    var ts := Printed(c, frac, places);
    PrintedParts(c, frac, places);
    MonthFits(c);
    Small(c.y);
    Small(c.m);
    Small(c.d);
    Small(c.hour);
    Small(c.min);
    Small(c.sec);
    DigitsRead(c.y, 4);
    DigitsRead(c.m, 2);
    DigitsRead(c.d, 2);
    DigitsRead(c.hour, 2);
    DigitsRead(c.min, 2);
    DigitsRead(c.sec, 2);
    TimegmCounts(c);
    hide Digits, Number, Printed, Timegm, Fraction, Scaled, Fits, Civil.Seconds;
    assert Shaped(ts);
    assert Epoch(ts) == c.Seconds();
    if places > 0 {
      FractionRead(frac, places);
    } else {
      NothingScaled(frac);
    }
  }

  lemma NothingScaled(frac: nat)
    ensures Fits(frac, 0) ==> Scaled(frac, 9) == 0
  {
  }

  /** A time whose count fits 64 bits, and how many digits of fraction it is printed with. */
  datatype Stamp = Stamp(time: Civil, frac: nat, places: nat)
  {
    predicate Valid() {
      && time.Valid() && time.y <= 2261
      && places <= 9 && Fits(frac, places) && time.nano == Scaled(frac, 9 - places)
    }

    function Text(): string
      requires Valid()
    {
      Printed(time, frac, places)
    }
  }

  /** However finely they are printed, timestamps parse in the order of the calendar. */
  lemma ParsingKeepsOrder(a: Stamp, b: Stamp)
    requires a.Valid() && b.Valid() && Earlier(a.time, b.time)
    ensures Parsed(a.Text()) < Parsed(b.Text())
  {
    PrintedParsesExactly(a.time, a.frac, a.places);
    PrintedParsesExactly(b.time, b.frac, b.places);
    NanosClimb(a.time, b.time);
    hide *;
  }

  /** The result fits 64 bits, and 0, "no timestamp", comes from the Epoch alone. */
  lemma {:induction false} ParsingStaysInRange(a: Stamp)
    requires a.Valid()
    ensures 0 <= Parsed(a.Text()) < 0x8000_0000_0000_0000
    ensures Parsed(a.Text()) == 0 <==> a.time == Civil(1970, 1, 1, 0, 0, 0, 0)
  {
    PrintedParsesExactly(a.time, a.frac, a.places);
    FitsInt64(a.time);
    OnlyEpochIsZero(a.time);
    hide Civil.Nanos, Parsed, Printed, Civil.Valid;
  }

  // ---------------------------------------------------------------------------
  // What follows a timestamp

  lemma {:induction false} NumberGrows(s: string, n: nat)
    requires n <= |s| && forall i | 0 <= i < |s| :: IsDigit(s[i])
    ensures 0 <= Number(s[..n]) <= Number(s)
  {
    if s == "" {
    } else if n == |s| {
      assert s[..n] == s;
      NumberGrows(s[..n - 1], n - 1);
      assert s[..n - 1][..n - 1] == s[..n - 1];
    } else {
      NumberGrows(s[..|s| - 1], n);
      assert s[..|s| - 1][..n] == s[..n];
    }
  }

  lemma {:induction false} ScaledSign(v: int, places: nat)
    ensures v >= 0 ==> Scaled(v, places) >= v
    ensures v > 0 <==> Scaled(v, places) > 0
    decreases places
  {
    if places > 0 {
      ScaledSign(v * 10, places - 1);
    }
  }

  /** A fraction is no less for the digits, or anything else, written behind it. */
  lemma FractionSign(s: string, n: nat)
    requires n <= 9 && n <= |s| && forall i | 0 <= i < n :: IsDigit(s[i])
    ensures Fraction(s) >= 0
    ensures Number(s[..n]) > 0 ==> Fraction(s) > 0
  {
    var all := Leading(s, 9);
    LeadingAtLeast(s, 9, n);
    NumberGrows(s[..all], n);
    assert s[..all][..n] == s[..n];
    ScaledSign(Number(s[..all]), 9 - all);
    hide Number, Leading, Scaled;
  }

  lemma {:induction false} LeadingAtLeast(s: string, limit: nat, n: nat)
    requires n <= limit && n <= |s| && forall i | 0 <= i < n :: IsDigit(s[i])
    ensures n <= Leading(s, limit)
    decreases limit
  {
    if n > 0 {
      LeadingAtLeast(s[1..], limit - 1, n - 1);
    }
  }

  lemma ShapedBehind(ts: string, rest: string)
    requires Shaped(ts)
    ensures Shaped(ts + rest) && Epoch(ts + rest) == Epoch(ts)
  {
    hide Number, Timegm;
    var all := ts + rest;
    assert all[0..4] == ts[0..4] && all[4..6] == ts[4..6] && all[6..8] == ts[6..8];
    assert all[9..11] == ts[9..11] && all[12..14] == ts[12..14] && all[15..17] == ts[15..17];
  }

  lemma StampShaped(a: Stamp)
    requires a.Valid()
    ensures Shaped(a.Text()) && Epoch(a.Text()) == a.time.Seconds()
  {
    var c := a.time;
    PrintedParts(c, a.frac, a.places);
    MonthFits(c);
    Small(c.y);
    Small(c.m);
    Small(c.d);
    Small(c.hour);
    Small(c.min);
    Small(c.sec);
    DigitsRead(c.y, 4);
    DigitsRead(c.m, 2);
    DigitsRead(c.d, 2);
    DigitsRead(c.hour, 2);
    DigitsRead(c.min, 2);
    DigitsRead(c.sec, 2);
    TimegmCounts(c);
    hide Digits, Number, Printed, Timegm, Fits, Scaled, Civil.Seconds;
  }

  lemma DigitsLead(v: nat, len: nat, rest: string)
    requires Fits(v, len) && len <= 9 && v > 0
    ensures Fraction(Digits(v, len) + rest) > 0
  {
    DigitsRead(v, len);
    var s := Digits(v, len) + rest;
    hide Digits, Fits, Number, Fraction;
    assert s[..len] == Digits(v, len);
    FractionSign(s, len);
  }

  lemma FractionPlace(a: Stamp, rest: string)
    requires a.Valid() && a.places > 0
    ensures var all := a.Text() + rest;
            |all| > 18 && all[17] == '.' && all[18..] == Digits(a.frac, a.places) + rest
  {
    var ts := a.Text();
    PrintedParts(a.time, a.frac, a.places);
    assert |ts| > 18 && ts[17] == '.' && ts[18..] == Digits(a.frac, a.places);
    hide *;
    DropBehind(ts, rest, 18);
  }

  lemma DropBehind(s: string, rest: string, n: nat)
    requires n <= |s|
    ensures (s + rest)[n..] == s[n..] + rest
  {
  }

  /** Where a printed fraction is not zero, what follows cannot make it so. */
  lemma FractionBehind(a: Stamp, rest: string)
    requires a.Valid() && a.places > 0 && a.time.nano > 0
    ensures Fraction((a.Text() + rest)[18..]) > 0
  {
    FractionPlace(a, rest);
    ScaledSign(a.frac, 9 - a.places);
    hide Digits, Fits, Scaled, Fraction, Printed, Civil.Valid, Stamp.Text;
    DigitsLead(a.frac, a.places, rest);
  }

  lemma PlainStampIsWhole(a: Stamp)
    requires a.Valid() && a.places == 0
    ensures a.time.nano == 0
  {
    NothingScaled(a.frac);
    hide Fits, Scaled, Civil.Valid;
  }

  lemma FractionIsNoLess(all: string)
    ensures |all| > 18 ==> Fraction(all[18..]) >= 0
  {
    if |all| > 18 {
      FractionSign(all[18..], 0);
    }
  }

  /** A text that begins with the timestamp of a time after the Epoch never parses to 0. */
  lemma StampBehindParses(a: Stamp, rest: string)
    requires a.Valid() && a.time.Nanos() > 0
    ensures Parsed(a.Text() + rest) > 0
  {
    StampShaped(a);
    ShapedBehind(a.Text(), rest);
    FractionIsNoLess(a.Text() + rest);
    if a.places == 0 {
      PlainStampIsWhole(a);
    } else {
      FractionPlace(a, rest);
      if a.time.nano > 0 {
        FractionBehind(a, rest);
      }
    }
    assert a.time.Nanos() == a.time.Seconds() * 1_000_000_000 + a.time.nano;
    hide Shaped, Epoch, Fraction, Digits, Stamp.Text, Stamp.Valid, Civil.Seconds, Civil.Valid, Civil.Nanos;
  }
}
