/**
  parse_fix_fields of fix_parser.cpp: the tag map of a body, and how it agrees with the
  masker about what a field is.
 */
module FixFields {
  import opened Wrappers
  import opened FixTags
  import opened FixBody
  import opened FixBodyMeaning

  type TagMap = map<int, string>

  function Leading(s: string, v: nat): nat {
    if s == "" || !IsDigit(s[0]) then v else Leading(s[1..], v * 10 + (s[0] as int - '0' as int))
  }

  /** The number the leading digits make, whatever follows them; -1 without any. */
  function ToInt(s: string): int {
    if s == "" || !IsDigit(s[0]) then -1 else Leading(s, 0)
  }

  function FindEquals(s: string): (p: nat)
    ensures p <= |s| && (p < |s| ==> s[p] == '=') && forall i :: 0 <= i < p ==> s[i] != '='
  {
    if s == "" || s[0] == '=' then 0 else 1 + FindEquals(s[1..])
  }

  function Lookup(m: TagMap, tag: int): Option<string> {
    if tag in m then Some(m[tag]) else None
  }

  /** std::unordered_map::emplace: the first value of a tag stays. */
  function Emplace(m: TagMap, tag: int, value: string): TagMap {
    if tag in m then m else m[tag := value]
  }

  /** What the parser's cursor loop collects from what is left of a body. */
  function Collect(s: string, acc: TagMap): TagMap
    decreases |s|
  {
    var eq := FindEquals(s);
    if eq == |s| then acc
    else if ToInt(s[..eq]) < 0 then
      var sep := NextSeparator(s, 0);
      if sep == |s| then acc else Collect(s[sep + 1..], acc)
    else
      var end := NextSeparator(s, eq + 1);
      var acc' := Emplace(acc, ToInt(s[..eq]), s[eq + 1..end]);
      if end == |s| then acc' else Collect(s[end + 1..], acc')
  }

  lemma CollectStep(s: string, acc: TagMap)
    requires FindEquals(s) < |s|
    ensures var eq := FindEquals(s);
            var tag := ToInt(s[..eq]);
            var end := NextSeparator(s, if tag < 0 then 0 else eq + 1);
            var acc' := if tag < 0 then acc else Emplace(acc, tag, s[eq + 1..end]);
            Collect(s, acc) == if end == |s| then acc' else Collect(s[end + 1..], acc')
  {
    hide ToInt, FindEquals, NextSeparator, Emplace;
  }

  lemma CollectEnd(s: string, acc: TagMap)
    requires FindEquals(s) == |s|
    ensures Collect(s, acc) == acc
  {
  }

  method ParseFixFields(body: string) returns (found: bool, tags: TagMap)
    ensures tags == Collect(body, map[])
    ensures found <==> tags != map[]
  {
    hide Collect, ToInt, FindEquals, NextSeparator;
    tags, found := map[], false;
    var i := 0;
    assert body[0..] == body;
    while i < |body|
      invariant i <= |body| && Collect(body[i..], tags) == Collect(body, map[])
      invariant found <==> tags != map[]
    {
      var rest := body[i..];
      var eq := FindEquals(rest);
      if eq == |rest| { break; }
      CollectStep(rest, tags);
      var tag := ToInt(rest[..eq]);
      var end := NextSeparator(rest, if tag < 0 then 0 else eq + 1);
      if tag >= 0 {
        tags, found := Emplace(tags, tag, rest[eq + 1..end]), true;
        assert tag in tags;
      }
      if end == |rest| { return; }
      assert rest[end + 1..] == body[i + end + 1..];
      i := i + end + 1;
    }
    CollectEnd(body[i..], tags);
  }

  // ---------------------------------------------------------------------------
  // The declarative reading: the first field with a tag gives the tag's value

  function FirstValue(items: seq<Item>, tag: int): Option<string> {
    if items == [] then None
    else if items[0].field.Pair? && TagOf(items[0].field) == tag then Some(items[0].field.value)
    else FirstValue(items[1..], tag)
  }

  /** No junk fields, and no separators inside values. */
  ghost predicate Plain(items: seq<Item>) {
    forall i :: 0 <= i < |items| ==>
      && items[i].field.Pair? && TagOf(items[i].field) >= 0
      && NameOk(items[i].field) && NoSeparator(items[i].field.value)
      && SepOk(items[i].sep, i == |items| - 1)
  }

  lemma {:induction false} LeadingIsDigits(s: string, v: nat)
    requires DigitsFrom(s, v) >= 0
    ensures Leading(s, v) == DigitsFrom(s, v)
  {
    if s != "" {
      LeadingIsDigits(s[1..], v * 10 + (s[0] as int - '0' as int));
    }
  }

  /** On a proper tag the two readers of numbers agree. */
  lemma TagReadersAgree(s: string)
    requires ParseTag(s) >= 0
    ensures ToInt(s) == ParseTag(s)
  {
    LeadingIsDigits(s, 0);
  }

  lemma CollectHead(f: Field, sep: string, rest: string, acc: TagMap)
    requires f.Pair? && TagOf(f) >= 0 && NameOk(f) && NoSeparator(f.value) && SepOk(sep, rest == "")
    ensures Collect(Text(f) + sep + rest, acc) ==
            var acc' := Emplace(acc, TagOf(f), f.value);
            if sep == "" then acc' else Collect(rest, acc')
  {
    hide ToInt, ParseTag, Collect, Emplace, NextSeparator;
    var s := Text(f) + sep + rest;
    var p, n := |f.name|, |f.name| + 1 + |f.value|;
    HeadPlaces(f, sep, rest);
    TagReadersAgree(f.name);
    CollectStep(s, acc);
  }

  lemma HeadPlaces(f: Field, sep: string, rest: string)
    requires f.Pair? && NameOk(f) && NoSeparator(f.value) && SepOk(sep, rest == "")
    ensures var s, p, n := Text(f) + sep + rest, |f.name|, |f.name| + 1 + |f.value|;
            && p < n <= |s| && FindEquals(s) == p && s[..p] == f.name
            && NextSeparator(s, p + 1) == n && s[p + 1..n] == f.value
            && (n == |s| <==> sep == "") && (sep != "" ==> s[n + 1..] == rest)
  {
    hide NextSeparator;
    var s, p, n := Text(f) + sep + rest, |f.name|, |f.name| + 1 + |f.value|;
    assert s[..p] == f.name && s[p] == '=' && s[p + 1..n] == f.value;
    assert FindEquals(s) == p by {
      assert forall i :: 0 <= i < p ==> s[i] == f.name[i];
    }
    assert forall i | p + 1 <= i < n :: s[i] == f.value[i - p - 1];
    assert n < |s| ==> s[n] == sep[0] && s[n + 1..] == rest;
    NextSeparatorIs(s, p + 1, n);
  }

  lemma {:induction false} ParseIsFirstValueFrom(items: seq<Item>, acc: TagMap, tag: int)
    requires Plain(items)
    ensures Lookup(Collect(Render(items), acc), tag) ==
            if tag in acc then Some(acc[tag]) else FirstValue(items, tag)
  {
    if items == [] {
      assert FindEquals("") == 0;
    } else {
      hide Collect, NameOk, NoSeparator, ParseTag;
      var f, sep, rest := items[0].field, items[0].sep, items[1..];
      assert Plain(rest) by {
        assert forall i :: 0 <= i < |rest| ==> rest[i] == items[i + 1];
      }
      CollectHead(f, sep, Render(rest), acc);
      ParseIsFirstValueFrom(rest, Emplace(acc, TagOf(f), f.value), tag);
    }
  }

  lemma ParseIsFirstValue(items: seq<Item>, tag: int)
    requires Plain(items)
    ensures Lookup(Collect(Render(items), map[]), tag) == FirstValue(items, tag)
  {
    ParseIsFirstValueFrom(items, map[], tag);
  }

  // ---------------------------------------------------------------------------
  // Reading a masked body

  lemma {:induction false} FirstValueMasked(items: seq<Item>, tag: int, maskBusiness: bool)
    ensures FirstValue(MaskItems(items, maskBusiness), tag) ==
            match FirstValue(items, tag) {
              case None => None
              case Some(v) => Some(MaskValue(tag, v, maskBusiness))
            }
  {
    if items != [] {
      hide MaskValue, ParseTag;
      MaskItemsFront(items, maskBusiness);
      FirstValueMasked(items[1..], tag, maskBusiness);
    }
  }

  lemma MaskedIsPlain(items: seq<Item>, maskBusiness: bool)
    requires Plain(items)
    ensures Plain(MaskItems(items, maskBusiness))
  {
    hide NameOk, MaskField, ParseTag;
    var ms := MaskItems(items, maskBusiness);
    forall i | 0 <= i < |ms|
      ensures ms[i].field.Pair? && TagOf(ms[i].field) >= 0 && NameOk(ms[i].field) && NoSeparator(ms[i].field.value)
    {
      MaskedNameOk(items[i].field, maskBusiness);
      MaskedNoSeparator(items[i].field, Nothing, "", maskBusiness);
    }
  }

  predicate Untouched(tag: int, maskBusiness: bool) {
    && !IsCredentialTag(tag) && !IsOpaqueTextTag(tag) && !IsFreeTextTag(tag)
    && !(maskBusiness && IsBusinessTag(tag))
  }

  /** Parsing after masking reads, for every tag, the masked form of what parsing before
      reads; tags outside the masked classes read the same. */
  lemma {:induction false} ParseAfterMask(items: seq<Item>, tag: int, maskBusiness: bool)
    requires WellFormed(items) && Plain(items)
    ensures Lookup(Collect(Mask(Render(items), Nothing, maskBusiness), map[]), tag) ==
            match Lookup(Collect(Render(items), map[]), tag) {
              case None => None
              case Some(v) => Some(MaskValue(tag, v, maskBusiness))
            }
    ensures Untouched(tag, maskBusiness) ==>
              Lookup(Collect(Mask(Render(items), Nothing, maskBusiness), map[]), tag) ==
              Lookup(Collect(Render(items), map[]), tag)
  {
    hide Collect, Mask, Render, Plain, WellFormed, MaskItems;
    MaskingIsFieldwise(items, maskBusiness);
    MaskedIsPlain(items, maskBusiness);
    ParseIsFirstValue(MaskItems(items, maskBusiness), tag);
    ParseIsFirstValue(items, tag);
    FirstValueMasked(items, tag, maskBusiness);
  }
}
