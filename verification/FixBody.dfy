/**
  mask_fix_body of redact.cpp: a one-pass scanner with length-prefixed data fields,
  against the plain meaning "mask each field of the message".
 */
module FixBody {
  import opened Secrets
  import opened FixTags
  import FreeText

  // ---------------------------------------------------------------------------
  // Field by field

  /** A piece of a body between separators: tag=value, or a run of text without '='. */
  datatype Field = Pair(name: string, value: string) | Bare(text: string)

  /** A field and the separator after it, which only the last field may lack. */
  datatype Item = Item(field: Field, sep: string)

  function Text(f: Field): string {
    match f
    case Pair(name, value) => name + "=" + value
    case Bare(text) => text
  }

  function Render(items: seq<Item>): string {
    if items == [] then "" else Text(items[0].field) + items[0].sep + Render(items[1..])
  }

  function TagOf(f: Field): int {
    if f.Pair? then ParseTag(f.name) else -1
  }

  /** What stays of a field's value under the masking policy. */
  function MaskValue(tag: int, value: string, maskBusiness: bool): string {
    if tag <= 0 || value == "" then value
    else if IsCredentialTag(tag) then REDACTED
    else if IsOpaqueTextTag(tag) then MASKED
    else if IsFreeTextTag(tag) then FreeText.Redacted(value)
    else if maskBusiness && IsBusinessTag(tag) then MASKED
    else value
  }

  function MaskField(f: Field, maskBusiness: bool): Field {
    match f
    case Pair(name, value) => Pair(name, MaskValue(ParseTag(name), value, maskBusiness))
    case Bare(text) => f
  }

  function MaskItems(items: seq<Item>, maskBusiness: bool): (r: seq<Item>)
    ensures |r| == |items|
    ensures forall i :: 0 <= i < |items| ==> r[i] == Item(MaskField(items[i].field, maskBusiness), items[i].sep)
  {
    seq(|items|, i requires 0 <= i < |items| => Item(MaskField(items[i].field, maskBusiness), items[i].sep))
  }

  // ---------------------------------------------------------------------------
  // The scanner, on what is left of the body

  /** Set by a length field for the data field that must follow it. */
  datatype Expect = Nothing | Data(tag: int, len: nat)

  function LabelEnd(s: string): (p: nat)
    ensures p <= |s| && (p < |s| ==> s[p] == '=' || IsSeparator(s[p]))
    ensures forall i :: 0 <= i < p ==> s[i] != '=' && !IsSeparator(s[i])
  {
    if s == "" || s[0] == '=' || IsSeparator(s[0]) then 0 else 1 + LabelEnd(s[1..])
  }

  function NextSeparator(s: string, from: nat): (p: nat)
    requires from <= |s|
    ensures from <= p <= |s| && (p < |s| ==> IsSeparator(s[p]))
    ensures forall i :: from <= i < p ==> !IsSeparator(s[i])
    decreases |s| - from
  {
    if from == |s| || IsSeparator(s[from]) then from else NextSeparator(s, from + 1)
  }

  function HeadTag(s: string): int {
    var p := LabelEnd(s);
    if p < |s| && s[p] == '=' then ParseTag(s[..p]) else -1
  }

  /** Where the field at the front ends: at its declared length if the field before declared
      one that fits, else at the next separator. */
  function HeadEnd(s: string, e: Expect): (n: nat)
    ensures n <= |s|
  {
    var p := LabelEnd(s);
    if HeadTag(s) > 0 && e.Data? && HeadTag(s) == e.tag && p + 1 + e.len <= |s| then p + 1 + e.len
    else NextSeparator(s, p)
  }

  function ShownHead(s: string, n: nat, maskBusiness: bool): string
    requires n <= |s|
  {
    var p := LabelEnd(s);
    if HeadTag(s) > 0 && n > p + 1 then s[..p + 1] + MaskValue(HeadTag(s), s[p + 1..n], maskBusiness)
    else s[..n]
  }

  function Announces(tag: int, value: string): Expect {
    if value != "" && DataTagForLengthTag(tag) > 0 && ParseTag(value) > 0
    then Data(DataTagForLengthTag(tag), ParseTag(value)) else Nothing
  }

  function NextExpect(s: string, n: nat): Expect
    requires n <= |s|
  {
    var p := LabelEnd(s);
    if n > p + 1 then Announces(HeadTag(s), s[p + 1..n]) else Nothing
  }

  function Mask(s: string, e: Expect, maskBusiness: bool): string {
    if s == "" then ""
    else
      var n := HeadEnd(s, e);
      ShownHead(s, n, maskBusiness) +
      (if n < |s| then [s[n]] + Mask(s[n + 1..], NextExpect(s, n), maskBusiness) else "")
  }

  lemma LabelEndIs(s: string, p: nat)
    requires p <= |s| && (p < |s| ==> s[p] == '=' || IsSeparator(s[p]))
    requires forall i :: 0 <= i < p ==> s[i] != '=' && !IsSeparator(s[i])
    ensures LabelEnd(s) == p
  {
  }

  lemma NextSeparatorIs(s: string, from: nat, p: nat)
    requires from <= p <= |s| && (p < |s| ==> IsSeparator(s[p]))
    requires forall i :: from <= i < p ==> !IsSeparator(s[i])
    ensures NextSeparator(s, from) == p
  {
  }

  /** The scanner's first inner loop: the '=' or separator that ends the label. */
  method FindLabelEnd(body: string, i: nat) returns (eq: nat)
    requires i <= |body|
    ensures i <= eq <= |body| && eq - i == LabelEnd(body[i..])
  {
    eq := i;
    while eq < |body| && body[eq] != '=' && !IsSeparator(body[eq])
      invariant i <= eq <= |body|
      invariant forall j :: i <= j < eq ==> body[j] != '=' && !IsSeparator(body[j])
    {
      eq := eq + 1;
    }
    LabelEndIs(body[i..], eq - i);
  }

  /** Where the field at i ends, by declared length or by separator scan. */
  method FindEnd(body: string, i: nat, eq: nat, tag: int, due: Expect) returns (end: nat)
    requires i < |body| && i <= eq <= |body| && eq - i == LabelEnd(body[i..]) && tag == HeadTag(body[i..])
    ensures i <= end <= |body| && end - i == HeadEnd(body[i..], due)
  {
    if tag > 0 && due.Data? && tag == due.tag && eq + 1 + due.len <= |body| {
      end := eq + 1 + due.len;
    } else {
      end := if eq < |body| && body[eq] == '=' then eq else i;
      while end < |body| && !IsSeparator(body[end])
        invariant i <= end <= |body|
        invariant forall j :: i <= j < end ==> !IsSeparator(body[j])
      {
        end := end + 1;
      }
      NextSeparatorIs(body[i..], eq - i, end - i);
    }
  }

  /** What is appended for the field that makes up the first n characters, and whether
      that counts as a change. */
  method ShowField(s: string, n: nat, maskBusiness: bool) returns (shown: string, changed: bool)
    requires n <= |s|
    ensures shown == ShownHead(s, n, maskBusiness)
    ensures !changed ==> shown == s[..n]
  {
    var p, tag := LabelEnd(s), HeadTag(s);
    shown, changed := s[..n], false;
    if tag > 0 && n > p + 1 {
      var name, value := s[..p + 1], s[p + 1..n];
      assert name + value == s[..n];
      if IsCredentialTag(tag) {
        shown, changed := name + REDACTED, true;
      } else if IsOpaqueTextTag(tag) {
        shown, changed := name + MASKED, true;
      } else if IsFreeTextTag(tag) {
        var scrubbed := FreeText.RedactFreeText(value);
        shown, changed := name + scrubbed, scrubbed != value;
      } else if maskBusiness && IsBusinessTag(tag) {
        shown, changed := name + MASKED, true;
      }
    }
  }

  /** The scanner stands at index i, or one past the end of a body that ends in a field. */
  ghost predicate Scanned(body: string, i: nat, due: Expect, maskBusiness: bool, out: string) {
    && i <= |body| + 1
    && (i <= |body| ==> out + Mask(body[i..], due, maskBusiness) == Mask(body, Nothing, maskBusiness))
    && (i == |body| + 1 ==> out == Mask(body, Nothing, maskBusiness))
  }

  lemma ScanField(body: string, i: nat, due: Expect, maskBusiness: bool, out: string)
    requires i < |body| && Scanned(body, i, due, maskBusiness, out)
    ensures var s := body[i..];
            var n := HeadEnd(s, due);
            Scanned(body, i + n + 1, NextExpect(s, n), maskBusiness,
                    if n < |s| then out + ShownHead(s, n, maskBusiness) + [s[n]]
                    else out + ShownHead(s, n, maskBusiness))
  {
    hide ShownHead, NextExpect, HeadEnd;
    var s := body[i..];
    var n := HeadEnd(s, due);
    if n < |s| {
      assert s[n + 1..] == body[i + n + 1..];
    }
  }

  lemma ScanStart(body: string, maskBusiness: bool)
    ensures Scanned(body, 0, Nothing, maskBusiness, "")
    ensures forall i, due, out :: |body| <= i && Scanned(body, i, due, maskBusiness, out) ==>
              out == Mask(body, Nothing, maskBusiness)
  {
    assert body[0..] == body;
  }

  lemma CopiedSoFar(body: string, i: nat, n: nat)
    requires i + n <= |body|
    ensures body[..i] + body[i..][..n] == body[..i + n]
    ensures i + n < |body| ==> body[..i + n] + [body[i..][n]] == body[..i + n + 1]
    ensures body[..|body|] == body
  {
  }

  /** The masker: one pass, copying what it does not mask, length fields read before masking. */
  method MaskFixBody(body: string, maskBusiness: bool) returns (masked: string)
    ensures masked == Mask(body, Nothing, maskBusiness)
  {
    hide *;
    var out, changed, i, due := "", false, 0, Nothing;
    ScanStart(body, maskBusiness);
    while i < |body|
      invariant Scanned(body, i, due, maskBusiness, out)
      invariant !changed ==> out == body[..if i <= |body| then i else |body|]
    {
      var rest := body[i..];
      var eq := FindLabelEnd(body, i);
      var end := FindEnd(body, i, eq, HeadTag(rest), due);
      var n := end - i;
      ScanField(body, i, due, maskBusiness, out);
      CopiedSoFar(body, i, n);
      var shown, rewritten := ShowField(rest, n, maskBusiness);
      out, changed := out + shown, changed || rewritten;
      due := NextExpect(rest, n);
      if n < |rest| {
        out := out + [rest[n]];
      }
      i := end + 1;
    }
    CopiedSoFar(body, 0, 0);
    masked := if changed then out else body;
  }
}
