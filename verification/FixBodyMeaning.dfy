/** The masker means: mask every field. When a second pass changes nothing. */
module FixBodyMeaning {
  import opened Secrets
  import opened FixTags
  import opened FixBody
  import FreeText

  ghost predicate NoSeparator(s: string) {
    forall i :: 0 <= i < |s| ==> !IsSeparator(s[i])
  }

  ghost predicate NoEquals(s: string) {
    forall i :: 0 <= i < |s| ==> s[i] != '='
  }

  ghost predicate NameOk(f: Field) {
    var s := if f.Pair? then f.name else f.text;
    NoSeparator(s) && NoEquals(s)
  }

  ghost predicate SepOk(sep: string, last: bool) {
    if sep == "" then last else |sep| == 1 && IsSeparator(sep[0])
  }

  predicate Due(e: Expect, f: Field) {
    e.Data? && TagOf(f) > 0 && TagOf(f) == e.tag
  }

  function After(f: Field): Expect {
    if f.Pair? then Announces(TagOf(f), f.value) else Nothing
  }

  /** A value free of separators, unless the field before it declared its length: then the
      length is exact, or reaches past the end of the body and is not trusted. */
  ghost predicate ValueOk(f: Field, e: Expect, tail: string) {
    f.Pair? ==>
      if Due(e, f) then
        |f.value| == e.len || (NoSeparator(f.value) && |f.value| + |tail| < e.len)
      else NoSeparator(f.value)
  }

  ghost predicate WellFormedAfter(items: seq<Item>, e: Expect) {
    items == [] ||
    (var f, tail := items[0].field, items[0].sep + Render(items[1..]);
     && NameOk(f) && SepOk(items[0].sep, |items| == 1) && ValueOk(f, e, tail)
     && WellFormedAfter(items[1..], After(f)))
  }

  /** Field lists whose rendering the scanner is meant for. */
  ghost predicate WellFormed(items: seq<Item>) {
    WellFormedAfter(items, Nothing)
  }

  // ---------------------------------------------------------------------------
  // The scanner takes a rendered body apart at its fields

  ghost predicate TailOk(tail: string) {
    tail == "" || IsSeparator(tail[0])
  }

  lemma HeadLabel(f: Field, tail: string)
    requires NameOk(f) && TailOk(tail)
    ensures var s := Text(f) + tail;
            LabelEnd(s) == (if f.Pair? then |f.name| else |f.text|) && HeadTag(s) == TagOf(f)
  {
    var s := Text(f) + tail;
    var p := if f.Pair? then |f.name| else |f.text|;
    assert s[..p] == if f.Pair? then f.name else f.text;
    assert p < |s| ==> s[p] == if f.Pair? then '=' else tail[0];
    forall i | 0 <= i < p
      ensures s[i] != '=' && !IsSeparator(s[i])
    {
      assert s[i] == s[..p][i];
    }
    LabelEndIs(s, p);
  }

  lemma HeadExtent(f: Field, e: Expect, tail: string)
    requires NameOk(f) && TailOk(tail) && ValueOk(f, e, tail)
    ensures HeadEnd(Text(f) + tail, e) == |Text(f)|
  {
    var s, n := Text(f) + tail, |Text(f)|;
    HeadLabel(f, tail);
    var p := LabelEnd(s);
    if !(f.Pair? && Due(e, f) && |f.value| == e.len) {
      forall i | p <= i < n
        ensures !IsSeparator(s[i])
      {
        assert s[i] == if i == p then '=' else f.value[i - p - 1];
      }
      assert n < |s| ==> s[n] == tail[0];
      NextSeparatorIs(s, p, n);
    }
  }

  lemma HeadShown(f: Field, tail: string, maskBusiness: bool)
    requires NameOk(f) && TailOk(tail)
    ensures ShownHead(Text(f) + tail, |Text(f)|, maskBusiness) == Text(MaskField(f, maskBusiness))
    ensures NextExpect(Text(f) + tail, |Text(f)|) == After(f)
  {
    hide MaskValue;
    var s, n := Text(f) + tail, |Text(f)|;
    HeadLabel(f, tail);
    if f.Pair? {
      var p := |f.name|;
      assert s[..p + 1] == f.name + "=" && s[p + 1..n] == f.value && s[..n] == Text(f);
      if TagOf(f) <= 0 || f.value == "" {
        NothingToMask(TagOf(f), f.value, maskBusiness);
      }
    } else {
      assert s[..n] == f.text;
    }
  }

  lemma NothingToMask(tag: int, value: string, maskBusiness: bool)
    requires tag <= 0 || value == ""
    ensures MaskValue(tag, value, maskBusiness) == value
  {
  }

  lemma MaskStep(s: string, e: Expect, maskBusiness: bool)
    requires s != ""
    ensures var n := HeadEnd(s, e);
            Mask(s, e, maskBusiness) == ShownHead(s, n, maskBusiness) +
              (if n < |s| then [s[n]] + Mask(s[n + 1..], NextExpect(s, n), maskBusiness) else "")
  {
    hide ShownHead, HeadEnd, NextExpect;
  }

  lemma HeadMasked(f: Field, sep: string, rest: string, e: Expect, maskBusiness: bool)
    requires NameOk(f) && SepOk(sep, rest == "") && ValueOk(f, e, sep + rest)
    ensures Mask(Text(f) + sep + rest, e, maskBusiness) ==
            Text(MaskField(f, maskBusiness)) + sep + (if sep == "" then "" else Mask(rest, After(f), maskBusiness))
  {
    hide Mask, MaskField, HeadEnd, ShownHead, NextExpect, LabelEnd, HeadTag, After, Text, ValueOk, NameOk;
    var s := Text(f) + (sep + rest);
    assert Text(f) + sep + rest == s;
    HeadExtent(f, e, sep + rest);
    HeadShown(f, sep + rest, maskBusiness);
    if s == "" {
      EmptyBare(f, e, maskBusiness);
    } else {
      MaskStep(s, e, maskBusiness);
      var n := |Text(f)|;
      if sep != "" {
        assert s[n] == sep[0] && s[n + 1..] == rest;
      }
    }
  }

  lemma EmptyBare(f: Field, e: Expect, maskBusiness: bool)
    requires Text(f) == ""
    ensures Mask("", e, maskBusiness) == "" && Text(MaskField(f, maskBusiness)) == ""
  {
  }

  lemma MaskItemsFront(items: seq<Item>, maskBusiness: bool)
    requires items != []
    ensures MaskItems(items, maskBusiness)[1..] == MaskItems(items[1..], maskBusiness)
    ensures Render(MaskItems(items, maskBusiness)) ==
            Text(MaskField(items[0].field, maskBusiness)) + items[0].sep +
            Render(MaskItems(items[1..], maskBusiness))
  {
    hide MaskField;
  }

  lemma {:induction false} MaskingIsFieldwiseAfter(items: seq<Item>, e: Expect, maskBusiness: bool)
    requires WellFormedAfter(items, e)
    ensures Mask(Render(items), e, maskBusiness) == Render(MaskItems(items, maskBusiness))
  {
    if items != [] {
      hide Mask, MaskField, Text, NameOk, ValueOk, MaskItems;
      var f, sep, rest := items[0].field, items[0].sep, Render(items[1..]);
      assert SepOk(sep, rest == "");
      HeadMasked(f, sep, rest, e, maskBusiness);
      MaskingIsFieldwiseAfter(items[1..], After(f), maskBusiness);
      MaskItemsFront(items, maskBusiness);
    }
  }

  /** Masking the rendering of a field list is rendering the masked fields, data values
      with separators inside them included. */
  lemma {:induction false} MaskingIsFieldwise(items: seq<Item>, maskBusiness: bool)
    requires WellFormed(items)
    ensures Mask(Render(items), Nothing, maskBusiness) == Render(MaskItems(items, maskBusiness))
  {
    MaskingIsFieldwiseAfter(items, Nothing, maskBusiness);
  }

  /** Tags of which the mask leaves nothing to see. */
  predicate Hidden(tag: int, maskBusiness: bool) {
    tag > 0 && (IsCredentialTag(tag) || IsOpaqueTextTag(tag)
                || (maskBusiness && IsBusinessTag(tag) && !IsFreeTextTag(tag)))
  }

  /** The same field, or the same hidden tag with another value; empty values stay empty. */
  predicate SameButHidden(a: Field, b: Field, maskBusiness: bool) {
    a == b || (a.Pair? && b.Pair? && a.name == b.name && Hidden(ParseTag(a.name), maskBusiness)
               && (a.value == "" <==> b.value == ""))
  }

  lemma HiddenMaskAlike(a: Field, b: Field, maskBusiness: bool)
    requires SameButHidden(a, b, maskBusiness)
    ensures MaskField(a, maskBusiness) == MaskField(b, maskBusiness)
  {
    hide ParseTag, FreeText.Redacted;
  }

  /** Nothing of a hidden value gets through: messages that differ only in the values of
      credentials, opaque texts or, when asked, business fields mask to the same body. */
  lemma {:induction false} HiddenValuesDoNotShow(a: seq<Item>, b: seq<Item>, maskBusiness: bool)
    requires WellFormed(a) && WellFormed(b) && |a| == |b|
    requires forall i | 0 <= i < |a| :: a[i].sep == b[i].sep && SameButHidden(a[i].field, b[i].field, maskBusiness)
    ensures Mask(Render(a), Nothing, maskBusiness) == Mask(Render(b), Nothing, maskBusiness)
  {
    hide Mask, Render, WellFormed, SameButHidden, MaskField;
    MaskingIsFieldwise(a, maskBusiness);
    MaskingIsFieldwise(b, maskBusiness);
    forall i | 0 <= i < |a|
      ensures MaskItems(a, maskBusiness)[i] == MaskItems(b, maskBusiness)[i]
    {
      HiddenMaskAlike(a[i].field, b[i].field, maskBusiness);
    }
    assert MaskItems(a, maskBusiness) == MaskItems(b, maskBusiness);
  }

  // ---------------------------------------------------------------------------
  // A second pass

  lemma MarkersHaveNoSeparator()
    ensures NoSeparator(REDACTED) && NoSeparator(MASKED)
  {
  }

  lemma MaskValueTwice(tag: int, value: string, maskBusiness: bool)
    ensures MaskValue(tag, MaskValue(tag, value, maskBusiness), maskBusiness) ==
            MaskValue(tag, value, maskBusiness)
  {
    hide FreeText.Redacted;
    FreeText.RedactedTwice(value);
    FreeText.RedactedKeepsEmptiness(value);
  }

  lemma RedactedNoSeparator(value: string)
    requires NoSeparator(value)
    ensures NoSeparator(FreeText.Redacted(value))
  {
    hide FreeText.Redacted;
    MarkersHaveNoSeparator();
    var r := FreeText.Redacted(value);
    forall i | 0 <= i < |r|
      ensures !IsSeparator(r[i])
    {
      FreeText.RedactedAddsNothing(value, r[i]);
    }
  }

  /** A data field's value is masked whole; what is left of any field has no separator in it. */
  lemma MaskedNoSeparator(f: Field, e: Expect, tail: string, maskBusiness: bool)
    requires f.Pair? && ValueOk(f, e, tail)
    requires Due(e, f) ==> IsCredentialTag(e.tag) || IsOpaqueTextTag(e.tag)
    ensures NoSeparator(MaskField(f, maskBusiness).value)
  {
    hide FreeText.Redacted;
    MarkersHaveNoSeparator();
    if IsFreeTextTag(TagOf(f)) {
      RedactedNoSeparator(f.value);
    }
  }

  /** Only a masked field list's own length fields decide what a second pass expects. */
  ghost predicate DataTags(e: Expect) {
    e.Data? ==> e.tag in {91, 96, 355} && 0 < e.len
  }

  /** Every value of the list is free of separators. */
  ghost predicate Flat(items: seq<Item>) {
    forall i :: 0 <= i < |items| ==>
      NameOk(items[i].field) && SepOk(items[i].sep, i == |items| - 1) &&
      (items[i].field.Pair? ==> NoSeparator(items[i].field.value))
  }

  lemma {:induction false} MaskedIsFlat(items: seq<Item>, e: Expect, maskBusiness: bool)
    requires WellFormedAfter(items, e) && DataTags(e)
    ensures Flat(MaskItems(items, maskBusiness))
  {
    if items != [] {
      hide MaskField, NameOk, ValueOk, NoSeparator, SepOk;
      var f, tail := items[0].field, items[0].sep + Render(items[1..]);
      MaskedIsFlat(items[1..], After(f), maskBusiness);
      MaskedNameOk(f, maskBusiness);
      if f.Pair? {
        MaskedNoSeparator(f, e, tail, maskBusiness);
      }
      var ms := MaskItems(items, maskBusiness);
      MaskItemsFront(items, maskBusiness);
      assert ms[1..] == MaskItems(items[1..], maskBusiness);
      forall i | 0 <= i < |ms|
        ensures NameOk(ms[i].field) && SepOk(ms[i].sep, i == |ms| - 1)
        ensures ms[i].field.Pair? ==> NoSeparator(ms[i].field.value)
      {
        assert i > 0 ==> ms[i] == ms[1..][i - 1];
      }
    }
  }

  lemma MaskedNameOk(f: Field, maskBusiness: bool)
    requires NameOk(f)
    ensures NameOk(MaskField(f, maskBusiness)) && MaskField(f, maskBusiness).Pair? == f.Pair?
    ensures TagOf(MaskField(f, maskBusiness)) == TagOf(f)
  {
    hide MaskValue, ParseTag;
  }

  lemma MaskItemsTwice(items: seq<Item>, maskBusiness: bool)
    ensures MaskItems(MaskItems(items, maskBusiness), maskBusiness) == MaskItems(items, maskBusiness)
  {
    hide MaskValue, ParseTag;
    var ms := MaskItems(items, maskBusiness);
    forall i | 0 <= i < |items|
      ensures MaskField(ms[i].field, maskBusiness) == ms[i].field
    {
      if items[i].field.Pair? {
        MaskValueTwice(ParseTag(items[i].field.name), items[i].field.value, maskBusiness);
      }
    }
  }

  function Separators(s: string): nat {
    if s == "" then 0 else (if IsSeparator(s[0]) then 1 else 0) + Separators(s[1..])
  }

  lemma {:induction false} SeparatorsAdd(a: string, b: string)
    ensures Separators(a + b) == Separators(a) + Separators(b)
  {
    if a == "" {
      assert a + b == b;
    } else {
      SeparatorsAdd(a[1..], b);
      assert (a + b)[1..] == a[1..] + b;
    }
  }

  lemma {:induction false} NoSeparatorCount(s: string)
    ensures NoSeparator(s) <==> Separators(s) == 0
  {
    if s != "" {
      NoSeparatorCount(s[1..]);
      assert NoSeparator(s) <==> !IsSeparator(s[0]) && NoSeparator(s[1..]) by {
        assert forall i :: 1 <= i < |s| ==> s[i] == s[1..][i - 1];
      }
    }
  }

  lemma HeadValueSeparators(s: string, e: Expect, maskBusiness: bool)
    requires DataTags(e) && HeadTag(s) > 0 && HeadEnd(s, e) > LabelEnd(s) + 1
    ensures var value := s[LabelEnd(s) + 1..HeadEnd(s, e)];
            Separators(MaskValue(HeadTag(s), value, maskBusiness)) <= Separators(value)
  {
    hide FreeText.Redacted, Separators;
    var value := s[LabelEnd(s) + 1..HeadEnd(s, e)];
    MarkersHaveNoSeparator();
    NoSeparatorCount(REDACTED);
    NoSeparatorCount(MASKED);
    if IsFreeTextTag(HeadTag(s)) {
      assert NoSeparator(value);
      RedactedNoSeparator(value);
      NoSeparatorCount(FreeText.Redacted(value));
    }
  }

  lemma HeadSeparators(s: string, e: Expect, maskBusiness: bool)
    requires DataTags(e)
    ensures Separators(ShownHead(s, HeadEnd(s, e), maskBusiness)) <= Separators(s[..HeadEnd(s, e)])
  {
    hide MaskValue, Separators, HeadTag, HeadEnd;
    var p, n := LabelEnd(s), HeadEnd(s, e);
    if HeadTag(s) > 0 && n > p + 1 {
      var value := s[p + 1..n];
      HeadValueSeparators(s, e, maskBusiness);
      SeparatorsAdd(s[..p + 1], value);
      SeparatorsAdd(s[..p + 1], MaskValue(HeadTag(s), value, maskBusiness));
      assert s[..n] == s[..p + 1] + value;
    }
  }

  lemma AnnouncesDataTags(tag: int, value: string)
    ensures DataTags(Announces(tag, value))
  {
    hide ParseTag;
  }

  lemma NextExpectDataTags(s: string, n: nat)
    requires n <= |s|
    ensures DataTags(NextExpect(s, n))
  {
    hide ParseTag;
  }

  /** The scanner may swallow separators, never make them. */
  lemma {:induction false} MaskSeparators(s: string, e: Expect, maskBusiness: bool)
    requires DataTags(e)
    ensures Separators(Mask(s, e, maskBusiness)) <= Separators(s)
    decreases |s|
  {
    if s != "" {
      hide Mask, Separators, HeadEnd, ShownHead, NextExpect, DataTags;
      var n := HeadEnd(s, e);
      MaskStep(s, e, maskBusiness);
      HeadSeparators(s, e, maskBusiness);
      var shown := ShownHead(s, n, maskBusiness);
      if n < |s| {
        NextExpectDataTags(s, n);
        var rest := Mask(s[n + 1..], NextExpect(s, n), maskBusiness);
        MaskSeparators(s[n + 1..], NextExpect(s, n), maskBusiness);
        SeparatorsAdd(shown, [s[n]] + rest);
        SeparatorsAdd([s[n]], rest);
        SeparatorsAdd(s[..n], s[n..]);
        SeparatorsAdd([s[n]], s[n + 1..]);
        assert s == s[..n] + s[n..] && s[n..] == [s[n]] + s[n + 1..];
      } else {
        assert s[..n] == s && shown + "" == shown;
      }
    } else {
      assert Mask(s, e, maskBusiness) == "";
    }
  }

  // A data field cut at a stale length comes out different.

  function Marker(tag: int): string {
    if tag == 355 then MASKED else REDACTED
  }

  lemma DataValueMasked(tag: int, value: string, maskBusiness: bool)
    requires tag in {91, 96, 355} && value != ""
    ensures MaskValue(tag, value, maskBusiness) == Marker(tag)
  {
  }

  /** The body s begins with field f, and vt is its value and all that follows. */
  ghost predicate Laid(f: Field, tail: string, s: string, vt: string) {
    f.Pair? && s == Text(f) + tail && vt == f.value + tail
  }

  lemma MisCutHead(f: Field, tail: string, s: string, vt: string, e: Expect)
    requires Laid(f, tail, s, vt) && NameOk(f) && TailOk(tail) && DataTags(e) && Due(e, f) && e.len <= |vt|
    ensures LabelEnd(s) == |f.name| && HeadTag(s) == e.tag > 0 && HeadEnd(s, e) == |f.name| + 1 + e.len <= |s|
  {
    hide LabelEnd, HeadTag, ParseTag;
    HeadLabel(f, tail);
  }

  /** The name, the value cut at a length, and the rest. */
  lemma LaidParts(f: Field, tail: string, s: string, vt: string, len: nat)
    requires Laid(f, tail, s, vt) && len <= |vt|
    ensures var p, n := |f.name|, |f.name| + 1 + len;
            && n <= |s| && s[..p + 1] == f.name + "=" && s[p + 1..n] == vt[..len] && s[n..] == vt[len..]
  {
    assert s == f.name + "=" + vt;
  }

  /** What such a cut shows of the data field, and what it lets the next field announce. */
  lemma MisCutShown(f: Field, tail: string, s: string, vt: string, e: Expect, maskBusiness: bool)
    requires Laid(f, tail, s, vt) && NameOk(f) && TailOk(tail) && DataTags(e) && Due(e, f) && e.len <= |vt|
    ensures s != "" && s[HeadEnd(s, e)..] == vt[e.len..]
    ensures ShownHead(s, HeadEnd(s, e), maskBusiness) == f.name + "=" + MaskValue(e.tag, vt[..e.len], maskBusiness)
    ensures NextExpect(s, HeadEnd(s, e)) == Announces(e.tag, vt[..e.len])
  {
    assert f.Pair? && e.Data? && e.len > 0;
    hide *;
    MisCutHead(f, tail, s, vt, e);
    var n := HeadEnd(s, e);
    assert s[..|f.name| + 1] == f.name + "=" && s[|f.name| + 1..n] == vt[..e.len] && s[n..] == vt[e.len..] by {
      LaidParts(f, tail, s, vt, e.len);
    }
    ShownValue(s, n, e.tag, f.name, vt[..e.len], maskBusiness);
  }

  lemma ShownValue(s: string, n: nat, tag: int, name: string, value: string, maskBusiness: bool)
    requires |name| + 1 < n <= |s| && LabelEnd(s) == |name| && HeadTag(s) == tag > 0
    requires s[..|name| + 1] == name + "=" && s[|name| + 1..n] == value
    ensures ShownHead(s, n, maskBusiness) == name + "=" + MaskValue(tag, value, maskBusiness)
    ensures NextExpect(s, n) == Announces(tag, value)
  {
    hide LabelEnd, HeadTag, MaskValue, Announces;
  }

  lemma MisCutMask(f: Field, tail: string, s: string, vt: string, e: Expect, maskBusiness: bool)
    requires Laid(f, tail, s, vt) && NameOk(f) && TailOk(tail) && DataTags(e) && Due(e, f) && e.len <= |vt|
    ensures Mask(s, e, maskBusiness) ==
            f.name + "=" + Marker(e.tag) +
            (if e.len < |vt|
             then [vt[e.len]] + Mask(vt[e.len + 1..], Announces(e.tag, vt[..e.len]), maskBusiness) else "")
  {
    assert e.Data? && f.Pair?;
    hide *;
    MisCutShown(f, tail, s, vt, e, maskBusiness);
    MisCutGoesOn(s, vt, f.name, e, maskBusiness);
  }

  lemma MisCutGoesOn(s: string, vt: string, name: string, e: Expect, maskBusiness: bool)
    requires DataTags(e) && e.Data? && e.len <= |vt| && s != "" && s[HeadEnd(s, e)..] == vt[e.len..]
    requires ShownHead(s, HeadEnd(s, e), maskBusiness) == name + "=" + MaskValue(e.tag, vt[..e.len], maskBusiness)
    requires NextExpect(s, HeadEnd(s, e)) == Announces(e.tag, vt[..e.len])
    ensures Mask(s, e, maskBusiness) ==
            name + "=" + Marker(e.tag) +
            (if e.len < |vt|
             then [vt[e.len]] + Mask(vt[e.len + 1..], Announces(e.tag, vt[..e.len]), maskBusiness) else "")
  {
    DataValueMasked(e.tag, vt[..e.len], maskBusiness);
    hide *;
    MaskStepFrom(s, e, vt, e.len, maskBusiness);
  }

  /** One step of the mask, told of any string that goes on like the body from where the field ends. */
  lemma MaskStepFrom(s: string, e: Expect, t: string, m: nat, maskBusiness: bool)
    requires s != "" && m <= |t| && s[HeadEnd(s, e)..] == t[m..]
    ensures var n := HeadEnd(s, e);
            Mask(s, e, maskBusiness) == ShownHead(s, n, maskBusiness) +
              (if m < |t| then [t[m]] + Mask(t[m + 1..], NextExpect(s, n), maskBusiness) else "")
  {
    hide *;
    SameNext(s, HeadEnd(s, e), t, m);
    MaskStep(s, e, maskBusiness);
  }

  lemma SameNext(s: string, n: nat, t: string, m: nat)
    requires n <= |s| && m <= |t| && s[n..] == t[m..]
    ensures n < |s| <==> m < |t|
    ensures n < |s| ==> s[n] == t[m] && s[n + 1..] == t[m + 1..]
  {
    if n < |s| {
      assert s[n..][0] == t[m..][0];
      assert s[n..][1..] == t[m..][1..];
    }
  }

  lemma AfterSameName(name: string, marker: string, r: string, vt: string)
    requires marker + r != vt
    ensures name + "=" + marker + r != name + "=" + vt
  {
    assert (name + "=" + marker + r)[|name| + 1..] == marker + r;
    assert (name + "=" + vt)[|name| + 1..] == vt;
  }

  /** A cut short of the marker leaves a piece of the marker behind; a cut past it swallows
      a separator. Either way the body changes. */
  lemma MisCutChanges(f: Field, tail: string, e: Expect, maskBusiness: bool)
    requires f.Pair? && NameOk(f) && TailOk(tail) && DataTags(e) && Due(e, f)
    requires e.len <= |f.value| + |tail| && |f.value| != e.len
    requires f.value == "" || f.value == Marker(e.tag)
    ensures Mask(Text(f) + tail, e, maskBusiness) != Text(f) + tail
  {
    hide Mask, MaskValue, NameOk, Separators, Announces;
    var vt, k := f.value + tail, e.len;
    var r := if k < |vt| then [vt[k]] + Mask(vt[k + 1..], Announces(e.tag, vt[..k]), maskBusiness) else "";
    MisCutMask(f, tail, Text(f) + tail, vt, e, maskBusiness);
    AnnouncesDataTags(e.tag, vt[..k]);
    MisCutImpossible(Marker(e.tag), f.value, tail, k, r, maskBusiness, Announces(e.tag, vt[..k]));
    assert Text(f) + tail == f.name + "=" + vt;
    AfterSameName(f.name, Marker(e.tag), r, vt);
  }

  lemma MisCutImpossible(marker: string, value: string, tail: string, k: nat, r: string, maskBusiness: bool, e': Expect)
    requires marker == REDACTED || marker == MASKED
    requires value == "" || value == marker
    requires TailOk(tail) && 0 < k <= |value| + |tail| && k != |value| && DataTags(e')
    requires var vt := value + tail;
             r == if k < |vt| then [vt[k]] + Mask(vt[k + 1..], e', maskBusiness) else ""
    ensures marker + r != value + tail
  {
    hide Mask, Separators;
    MarkersHaveNoSeparator();
    var vt := value + tail;
    if value == "" {
      assert (marker + r)[0] == marker[0];
      assert vt == tail;
    } else if k < |value| {
      assert (marker + r)[|value|] == r[0] == marker[k];
      assert |tail| > 0 ==> vt[|value|] == tail[0];
    } else {
      var j := k - |value|;
      assert vt[k..] == tail[j..];
      TailLosesSeparator(tail, j, r, maskBusiness, e');
      assert (marker + r)[|value|..] == r && vt[|value|..] == tail;
    }
  }

  lemma TailLosesSeparator(tail: string, j: nat, r: string, maskBusiness: bool, e': Expect)
    requires TailOk(tail) && 0 < j <= |tail| && DataTags(e')
    requires r == if j < |tail| then [tail[j]] + Mask(tail[j + 1..], e', maskBusiness) else ""
    ensures Separators(r) < Separators(tail)
  {
    hide Mask;
    SeparatorsAdd([tail[0]], tail[1..j]);
    SeparatorsAdd(tail[..j], tail[j..]);
    assert tail[..j] == [tail[0]] + tail[1..j] && tail == tail[..j] + tail[j..];
    if j < |tail| {
      SeparatorsAdd([tail[j]], tail[j + 1..]);
      assert tail[j..] == [tail[j]] + tail[j + 1..];
      MaskSeparators(tail[j + 1..], e', maskBusiness);
      SeparatorsAdd([tail[j]], Mask(tail[j + 1..], e', maskBusiness));
    }
  }

  /** Field j declares a length for the encoded text after it that no longer fits what the
      mask left there, yet is short enough for the scanner to believe. */
  ghost predicate StaleLength(items: seq<Item>, j: nat) {
    && j + 1 < |items| && TagOf(items[j].field) == 354 && TagOf(items[j + 1].field) == 355
    && var len, v := ParseTag(items[j].field.value), items[j + 1].field.value;
       0 < len != |v| && len <= |v| + |items[j + 1].sep + Render(items[j + 2..])|
  }

  /** The lists a first pass leaves: flat, and every field as the mask wants it. */
  ghost predicate Settled(items: seq<Item>, maskBusiness: bool) {
    Flat(items) && forall i :: 0 <= i < |items| ==> MaskField(items[i].field, maskBusiness) == items[i].field
  }

  lemma SettledRest(items: seq<Item>, maskBusiness: bool)
    requires Settled(items, maskBusiness) && items != []
    ensures Settled(items[1..], maskBusiness)
    ensures TailOk(items[0].sep + Render(items[1..]))
  {
    hide MaskField, NameOk, NoSeparator;
  }

  lemma MarkerIsNoNumber()
    ensures ParseTag(REDACTED) == -1 && ParseTag(MASKED) == -1
  {
  }

  /** After a first pass only tag 354 still announces a length. */
  lemma SettledAnnounces(f: Field, maskBusiness: bool)
    requires MaskField(f, maskBusiness) == f
    ensures After(f).Data? ==>
              f.Pair? && TagOf(f) == 354 && After(f) == Data(355, ParseTag(f.value)) && 0 < ParseTag(f.value)
    ensures f.Pair? && TagOf(f) == 354 && ParseTag(f.value) > 0 ==> After(f) == Data(355, ParseTag(f.value))
    ensures f.Pair? && TagOf(f) == 355 ==> f.value == "" || f.value == Marker(355)
  {
    hide FreeText.Redacted;
    MarkerIsNoNumber();
  }

  lemma {:induction false} SecondPass(items: seq<Item>, e: Expect, maskBusiness: bool)
    requires Settled(items, maskBusiness) && (e == Nothing || (e.Data? && e.tag == 355 && 0 < e.len))
    ensures WellFormedAfter(items, e) <==>
            (items != [] ==> ValueOk(items[0].field, e, items[0].sep + Render(items[1..]))) &&
            forall j :: 0 <= j < |items| ==> !StaleLength(items, j)
    ensures Mask(Render(items), e, maskBusiness) == Render(items) <==> WellFormedAfter(items, e)
  {
    if items == [] {
      assert Render(items) == "";
    } else {
      var f, sep, rest := items[0].field, items[0].sep, items[1..];
      SettledRest(items, maskBusiness);
      SettledAnnounces(f, maskBusiness);
      SecondPass(rest, After(f), maskBusiness);
      StaleSplit(items, maskBusiness);
      SecondPassHead(items, e, maskBusiness);
    }
  }

  lemma StaleShift(items: seq<Item>, j: nat)
    requires items != [] && j + 1 < |items|
    ensures StaleLength(items, j + 1) <==> StaleLength(items[1..], j)
  {
    hide Render, ParseTag;
    var rest := items[1..];
    assert j + 1 < |rest| ==> items[j + 3..] == rest[j + 2..];
  }

  lemma StaleNeedsTwo(items: seq<Item>)
    ensures |items| < 2 ==> !StaleLength(items, 0)
  {
  }

  lemma StaleFirst(items: seq<Item>, maskBusiness: bool)
    requires Settled(items, maskBusiness) && 2 <= |items|
    ensures StaleLength(items, 0) <==>
            !ValueOk(items[1].field, After(items[0].field), items[1].sep + Render(items[2..]))
  {
    hide MaskField, NameOk, Render, ParseTag, Announces;
    SettledAnnounces(items[0].field, maskBusiness);
  }

  lemma StaleSplit(items: seq<Item>, maskBusiness: bool)
    requires Settled(items, maskBusiness) && items != []
    ensures var f, rest := items[0].field, items[1..];
            (forall j :: 0 <= j < |items| ==> !StaleLength(items, j)) <==>
            (rest != [] ==> ValueOk(rest[0].field, After(f), rest[0].sep + Render(rest[1..]))) &&
            (forall j :: 0 <= j < |rest| ==> !StaleLength(rest, j))
  {
    hide StaleLength, ValueOk, Render, After, Settled;
    var f, rest := items[0].field, items[1..];
    forall j: nat | j < |items|
      ensures 0 < j ==> (StaleLength(items, j) <==> StaleLength(rest, j - 1))
    {
      if 0 < j {
        StaleShift(items, j - 1);
      }
    }
    if forall j :: 0 <= j < |items| ==> !StaleLength(items, j) {
      forall j | 0 <= j < |rest|
        ensures !StaleLength(rest, j)
      {
        StaleShift(items, j);
      }
    }
    if rest != [] {
      assert items[2..] == rest[1..];
      StaleFirst(items, maskBusiness);
    } else {
      StaleNeedsTwo(items);
    }
  }

  lemma SecondPassHead(items: seq<Item>, e: Expect, maskBusiness: bool)
    requires Settled(items, maskBusiness) && (e == Nothing || (e.Data? && e.tag == 355 && 0 < e.len)) && items != []
    requires Mask(Render(items[1..]), After(items[0].field), maskBusiness) == Render(items[1..]) <==>
             WellFormedAfter(items[1..], After(items[0].field))
    ensures Mask(Render(items), e, maskBusiness) == Render(items) <==> WellFormedAfter(items, e)
  {
    hide Mask, MaskField, NameOk, NoSeparator, After;
    var f, sep, rest := items[0].field, items[0].sep, Render(items[1..]);
    SettledRest(items, maskBusiness);
    SettledAnnounces(f, maskBusiness);
    assert Render(items) == Text(f) + sep + rest == Text(f) + (sep + rest);
    if ValueOk(f, e, sep + rest) {
      HeadMasked(f, sep, rest, e, maskBusiness);
      var masked := Mask(rest, After(f), maskBusiness);
      if sep != "" {
        assert (Text(f) + sep + masked)[|Text(f)| + 1..] == masked;
        assert (Text(f) + sep + rest)[|Text(f)| + 1..] == rest;
      }
    } else {
      MisCutChanges(f, sep + rest, e, maskBusiness);
    }
  }

  // ---------------------------------------------------------------------------
  // The theorem

  lemma MaskedIsSettled(items: seq<Item>, maskBusiness: bool)
    requires WellFormed(items)
    ensures Settled(MaskItems(items, maskBusiness), maskBusiness)
  {
    hide MaskField, Flat, WellFormedAfter;
    MaskedIsFlat(items, Nothing, maskBusiness);
    MaskItemsTwice(items, maskBusiness);
    var ms := MaskItems(items, maskBusiness);
    assert forall i :: 0 <= i < |ms| ==> MaskItems(ms, maskBusiness)[i] == ms[i];
  }

  /** Masking a masked body again changes nothing exactly when no EncodedTextLen left in it
      has gone stale against the EncodedText it announces. */
  lemma {:induction false} MaskTwiceExactlyWhen(items: seq<Item>, maskBusiness: bool)
    requires WellFormed(items)
    ensures var once := Mask(Render(items), Nothing, maskBusiness);
            Mask(once, Nothing, maskBusiness) == once <==>
            forall j :: 0 <= j < |items| ==> !StaleLength(MaskItems(items, maskBusiness), j)
  {
    hide Mask, MaskItems, WellFormedAfter, Settled, StaleLength;
    var ms := MaskItems(items, maskBusiness);
    MaskingIsFieldwise(items, maskBusiness);
    MaskedIsSettled(items, maskBusiness);
    SecondPass(ms, Nothing, maskBusiness);
    SettledFirstValue(ms, maskBusiness);
  }

  lemma SettledFirstValue(ms: seq<Item>, maskBusiness: bool)
    requires Settled(ms, maskBusiness)
    ensures ms != [] ==> ValueOk(ms[0].field, Nothing, ms[0].sep + Render(ms[1..]))
  {
  }

  /** In particular a body without tag 354 may be masked any number of times. */
  lemma {:induction false} MaskTwiceWithoutEncodedText(items: seq<Item>, maskBusiness: bool)
    requires WellFormed(items) && forall i :: 0 <= i < |items| ==> TagOf(items[i].field) != 354
    ensures var once := Mask(Render(items), Nothing, maskBusiness);
            Mask(once, Nothing, maskBusiness) == once
  {
    hide Mask, MaskField, WellFormedAfter;
    MaskTwiceExactlyWhen(items, maskBusiness);
    forall i | 0 <= i < |items|
      ensures TagOf(MaskItems(items, maskBusiness)[i].field) != 354
    {
      MaskedTag(items[i].field, maskBusiness);
    }
  }

  lemma MaskedTag(f: Field, maskBusiness: bool)
    ensures TagOf(MaskField(f, maskBusiness)) == TagOf(f)
  {
    hide MaskValue, ParseTag;
  }

  lemma EncodedTextNumbers()
    ensures ParseTag("354") == 354 && ParseTag("355") == 355 && ParseTag("3") == 3
  {
    assert DigitsFrom("354", 0) == DigitsFrom("54", 3) == DigitsFrom("4", 35) == DigitsFrom("", 354);
    assert DigitsFrom("355", 0) == DigitsFrom("55", 3) == DigitsFrom("5", 35) == DigitsFrom("", 355);
  }

  /** "354=3|355=abc|": a proper length before the mask, too short for the marker after it. */
  function StaleBody(): seq<Item> {
    [Item(Pair("354", "3"), "|"), Item(Pair("355", "abc"), "|")]
  }

  lemma StaleBodyWellFormed()
    ensures WellFormed(StaleBody())
  {
    EncodedTextNumbers();
    hide ParseTag, DigitsFrom;
    var items := StaleBody();
    assert items[1..] == [Item(Pair("355", "abc"), "|")];
    assert items[1..][1..] == [];
    assert WellFormedAfter(items[1..], Data(355, 3));
  }

  lemma StaleBodyStale()
    ensures StaleLength(MaskItems(StaleBody(), true), 0)
  {
    EncodedTextNumbers();
    hide ParseTag, DigitsFrom;
    var ms := MaskItems(StaleBody(), true);
    assert ms[1].field == Pair("355", MASKED) && ms[0].field == Pair("354", "3");
  }

  /** Masking is not idempotent on every body. */
  lemma MaskTwiceCanDiffer()
    ensures var once := Mask(Render(StaleBody()), Nothing, true); Mask(once, Nothing, true) != once
  {
    hide Mask, StaleLength, Render, MaskItems, WellFormed;
    StaleBodyWellFormed();
    StaleBodyStale();
    MaskTwiceExactlyWhen(StaleBody(), true);
  }
}
