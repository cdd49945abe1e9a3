/**
  metrics.cpp: a label list is printed in the Prometheus text form, and the print is the key a
  series is filed under. Decode reads a print back, so lists it can read never share a series.
 */
module Labels {
  import opened Wrappers

  type Label = (string, string)

  // ---------------------------------------------------------------------------
  // The print

  function Escaped(v: string): string {
    if v == "" then ""
    else (if v[0] == '"' || v[0] == '\\' then ['\\', v[0]]
          else if v[0] == '\n' then "\\n"
          else [v[0]]) + Escaped(v[1..])
  }

  function Pair(l: Label): string {
    l.0 + "=\"" + Escaped(l.1) + "\""
  }

  function Pairs(labels: seq<Label>): string {
    if labels == [] then "}"
    else Pair(labels[0]) + (if |labels| == 1 then "}" else "," + Pairs(labels[1..]))
  }

  function Encoded(labels: seq<Label>): string {
    if labels == [] then "" else "{" + Pairs(labels)
  }

  // ---------------------------------------------------------------------------
  // Reading it back

  function Name(s: string): (r: Option<(string, string)>)
    ensures r.Some? ==> s == r.value.0 + "=" + r.value.1 && '=' !in r.value.0
  {
    if s == "" then None
    else if s[0] == '=' then Some(("", s[1..]))
    else
      match Name(s[1..])
      case None => None
      case Some(p) => Some(([s[0]] + p.0, p.1))
  }

  /** The value up to its closing quote, and what follows the quote. */
  function Value(s: string): (r: Option<(string, string)>)
    ensures r.Some? ==> |r.value.1| < |s|
  {
    if s == "" then None
    else if s[0] == '"' then Some(("", s[1..]))
    else if s[0] != '\\' then
      match Value(s[1..])
      case None => None
      case Some(p) => Some(([s[0]] + p.0, p.1))
    else if |s| == 1 || s[1] !in "n\"\\" then None
    else
      match Value(s[2..])
      case None => None
      case Some(p) => Some(([if s[1] == 'n' then '\n' else s[1]] + p.0, p.1))
  }

  function List(s: string): Option<seq<Label>>
    decreases |s|
  {
    match Name(s)
    case None => None
    case Some(n) =>
      if n.1 == "" || n.1[0] != '"' then None
      else
        match Value(n.1[1..])
        case None => None
        case Some(v) =>
          if v.1 == "}" then Some([(n.0, v.0)])
          else if v.1 == "" || v.1[0] != ',' then None
          else
            match List(v.1[1..])
            case None => None
            case Some(more) => Some([(n.0, v.0)] + more)
  }

  function Decode(s: string): Option<seq<Label>> {
    if s == "" then Some([])
    else if s[0] != '{' then None
    else List(s[1..])
  }

  // ---------------------------------------------------------------------------
  // Which lists are read back

  predicate Plain(labels: seq<Label>) {
    forall i | 0 <= i < |labels| :: '=' !in labels[i].0
  }

  predicate IsLetter(c: char) {
    'a' <= c <= 'z' || 'A' <= c <= 'Z' || c == '_'
  }

  /** The label names of the Prometheus data model: a letter, then letters and digits. */
  predicate LegalName(n: string) {
    n != "" && IsLetter(n[0]) && forall i | 0 <= i < |n| :: IsLetter(n[i]) || '0' <= n[i] <= '9'
  }

  lemma {:induction false} NameReads(n: string, rest: string)
    requires '=' !in n
    ensures Name(n + "=" + rest) == Some((n, rest))
  {
    var s := n + "=" + rest;
    if n == "" {
      assert s[1..] == rest;
    } else {
      NameReads(n[1..], rest);
      assert s[1..] == n[1..] + "=" + rest;
      assert n == [n[0]] + n[1..];
    }
  }

  lemma {:induction false} ValueReads(v: string, rest: string)
    ensures Value(Escaped(v) + "\"" + rest) == Some((v, rest))
  {
    var s := Escaped(v) + "\"" + rest;
    if v == "" {
      assert s[1..] == rest;
    } else {
      ValueReads(v[1..], rest);
      var tail := Escaped(v[1..]) + "\"" + rest;
      assert v == [v[0]] + v[1..];
      if v[0] == '"' || v[0] == '\\' || v[0] == '\n' {
        assert s[2..] == tail;
      } else {
        assert s[1..] == tail;
      }
    }
  }

  lemma PairReads(l: Label, rest: string)
    requires '=' !in l.0
    ensures Name(Pair(l) + rest) == Some((l.0, "\"" + Escaped(l.1) + "\"" + rest))
    ensures Value(("\"" + Escaped(l.1) + "\"" + rest)[1..]) == Some((l.1, rest))
  {
    hide Name, Value, Escaped;
    NameReads(l.0, "\"" + Escaped(l.1) + "\"" + rest);
    ValueReads(l.1, rest);
    assert Pair(l) + rest == l.0 + "=" + ("\"" + Escaped(l.1) + "\"" + rest);
    assert ("\"" + Escaped(l.1) + "\"" + rest)[1..] == Escaped(l.1) + "\"" + rest;
  }

  lemma {:induction false} PairsRead(labels: seq<Label>)
    requires Plain(labels) && labels != []
    ensures List(Pairs(labels)) == Some(labels)
  {
    hide Name, Value, Escaped, Pair;
    if |labels| == 1 {
      PairReads(labels[0], "}");
      assert labels == [labels[0]];
    } else {
      var more := "," + Pairs(labels[1..]);
      PairReads(labels[0], more);
      PairsRead(labels[1..]);
      assert more[1..] == Pairs(labels[1..]);
      assert labels == [labels[0]] + labels[1..];
    }
  }

  lemma {:induction false} ListIsPlain(s: string)
    ensures List(s).Some? ==> Plain(List(s).value)
    decreases |s|
  {
    hide Value;
    if Name(s).Some? {
      var n := Name(s).value;
      if n.1 != "" && Value(n.1[1..]).Some? {
        var v := Value(n.1[1..]).value;
        if v.1 != "" {
          ListIsPlain(v.1[1..]);
        }
      }
    }
  }

  /** A print is read back exactly when no name carries the '=' that ends a name. */
  lemma ReadsBackExactlyWhen(labels: seq<Label>)
    ensures Decode(Encoded(labels)) == Some(labels) <==> Plain(labels)
  {
    hide List, Pairs;
    var s := Encoded(labels);
    if labels != [] {
      assert s[1..] == Pairs(labels);
      ListIsPlain(s[1..]);
      if Plain(labels) {
        PairsRead(labels);
      }
    }
  }

  /** Lists with legal names that print alike are alike, so distinct lists never share a series. */
  lemma DistinctListsDistinctKeys(a: seq<Label>, b: seq<Label>)
    requires forall i | 0 <= i < |a| :: LegalName(a[i].0)
    requires forall i | 0 <= i < |b| :: LegalName(b[i].0)
    requires Encoded(a) == Encoded(b)
    ensures a == b
  {
    ReadsBackExactlyWhen(a);
    ReadsBackExactlyWhen(b);
  }

  /** Without legal names they may: one label can print as two. */
  lemma OddNamesCollide()
    ensures Encoded([("a=\"x\",b", "y")]) == Encoded([("a", "x"), ("b", "y")])
  {
    var one: seq<Label> := [("a=\"x\",b", "y")];
    var two: seq<Label> := [("a", "x"), ("b", "y")];
    assert Escaped("y") == "y" && Escaped("x") == "x";
    assert two[1..] == [("b", "y")];
    assert Pairs(two) == "a=\"x\",b=\"y\"}" == Pairs(one);
  }

  // ---------------------------------------------------------------------------
  // The loop

  lemma {:induction false} EscapedSnoc(v: string, c: char)
    ensures Escaped(v + [c])
         == Escaped(v) + (if c == '"' || c == '\\' then "\\" + [c] else if c == '\n' then "\\n" else [c])
  {
    if v == "" {
      assert v + [c] == [c];
    } else {
      assert (v + [c])[1..] == v[1..] + [c];
      EscapedSnoc(v[1..], c);
    }
  }

  /** The print so far, without the closing brace. */
  function Open(labels: seq<Label>): string {
    if labels == [] then "{"
    else if |labels| == 1 then "{" + Pair(labels[0])
    else Open(labels[..|labels| - 1]) + "," + Pair(labels[|labels| - 1])
  }

  lemma {:induction false} OpenIsPairs(done: seq<Label>, rest: seq<Label>)
    requires done != []
    ensures Open(done + rest) + "}" == Open(done) + (if rest == [] then "}" else "," + Pairs(rest))
    decreases |rest|
  {
    hide Pair;
    if rest == [] {
      assert done + rest == done;
    } else {
      var next := done + [rest[0]];
      assert next[..|next| - 1] == done;
      assert next + rest[1..] == done + rest;
      OpenIsPairs(next, rest[1..]);
    }
  }

  lemma OpenIsEncoded(labels: seq<Label>)
    requires labels != []
    ensures Open(labels) + "}" == Encoded(labels)
  {
    assert [labels[0]] + labels[1..] == labels;
    OpenIsPairs([labels[0]], labels[1..]);
    OpenOne(labels[0]);
    PairsSplit(labels);
    hide Open, Pair, Pairs;
    var rest := if labels[1..] == [] then "}" else "," + Pairs(labels[1..]);
    AddAssoc("{", Pair(labels[0]), rest);
  }

  lemma AddAssoc(a: string, b: string, c: string)
    ensures a + b + c == a + (b + c)
  {
  }

  lemma OpenOne(l: Label)
    ensures Open([l]) == "{" + Pair(l)
  {
  }

  lemma PairsSplit(labels: seq<Label>)
    requires labels != []
    ensures Pairs(labels) == Pair(labels[0]) + (if labels[1..] == [] then "}" else "," + Pairs(labels[1..]))
  {
    hide Pair;
  }

  lemma EscapedNothing(v: string)
    ensures Escaped(v[..0]) == ""
  {
  }

  lemma OpenSnoc(done: seq<Label>, l: Label)
    ensures Open([]) == "{"
    ensures Open(done + [l]) == Open(done) + (if done == [] then "" else ",") + l.0 + "=\"" + Escaped(l.1) + "\""
  {
    hide Escaped;
    assert (done + [l])[..|done|] == done;
  }

  /** The inner loop: one value, escaped, appended to the print. */
  method AppendEscaped(head: string, v: string) returns (out: string)
    ensures out == head + Escaped(v)
  {
    hide Escaped;
    out := head;
    EscapedNothing(v);
    for j := 0 to |v|
      invariant out == head + Escaped(v[..j])
    {
      EscapedSnoc(v[..j], v[j]);
      assert v[..j + 1] == v[..j] + [v[j]];
      if v[j] == '"' || v[j] == '\\' {
        out := out + "\\";
        out := out + [v[j]];
      } else if v[j] == '\n' {
        out := out + "\\n";
      } else {
        out := out + [v[j]];
      }
    }
    assert v[..|v|] == v;
  }

  method EncodeLabels(labels: seq<Label>) returns (out: string)
    ensures out == Encoded(labels)
  {
    if labels == [] {
      return "";
    }
    hide Open, Escaped, Pair, Pairs;
    OpenSnoc([], labels[0]);
    out := "{";
    var first := true;
    for i := 0 to |labels|
      invariant first <==> i == 0
      invariant out == Open(labels[..i])
    {
      OpenSnoc(labels[..i], labels[i]);
      assert labels[..i + 1] == labels[..i] + [labels[i]];
      if !first { out := out + ","; }
      first := false;
      out := out + labels[i].0;
      out := out + "=\"";
      out := AppendEscaped(out, labels[i].1);
      out := out + "\"";
    }
    assert labels[..|labels|] == labels;
    OpenIsEncoded(labels);
    out := out + "}";
  }
}
