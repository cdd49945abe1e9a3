/**
  quickfix_config.cpp: what one line of an engine settings file is, how setting names compare, and
  what the value of a credential can and cannot influence.
 */
module QuickFixLines {
  import opened Wrappers
  import Secrets

  predicate IsSpace(c: char) {
    c == ' ' || c == '\t' || c == '\r' || c == '\n'
  }

  function LTrim(s: string): string {
    if s == "" || !IsSpace(s[0]) then s else LTrim(s[1..])
  }

  function RTrim(s: string): string {
    if s == "" || !IsSpace(s[|s| - 1]) then s else RTrim(s[..|s| - 1])
  }

  function Trim(s: string): string {
    RTrim(LTrim(s))
  }

  function Lower(s: string): string {
    if s == "" then "" else [Secrets.ToLower(s[0])] + Lower(s[1..])
  }

  /** The two sides of the first '='. */
  function Cut(s: string): (r: Option<(string, string)>)
    ensures r.Some? ==> s == r.value.0 + "=" + r.value.1 && '=' !in r.value.0
    ensures r.None? ==> '=' !in s
  {
    if s == "" then None
    else if s[0] == '=' then Some(("", s[1..]))
    else
      match Cut(s[1..])
      case None => None
      case Some(p) => Some(([s[0]] + p.0, p.1))
  }

  /** Credential keeps the name of the setting only. */
  datatype Line =
    | Skipped | Header(name: string) | NoEquals | Credential(key: string) | Setting(key: string, val: string)

  function Classify(line: string): Line {
    var t := Trim(line);
    if t == "" || t[0] == '#' then Skipped
    else if t[0] == '[' && t[|t| - 1] == ']' then Header(Trim(t[1..|t| - 1]))
    else
      match Cut(t)
      case None => NoEquals
      case Some(p) =>
        var key := Trim(p.0);
        if key == "" then Skipped
        else if Secrets.IsSensitiveKey(key) then Credential(key)
        else Setting(key, Trim(p.1))
  }

  // ---------------------------------------------------------------------------
  // Names differing in case only are one name

  function CharLess(a: char, b: char): bool {
    Secrets.ToLower(a) < Secrets.ToLower(b)
  }

  /** The map order: lexicographic on lower-cased letters. */
  predicate Less(a: string, b: string) {
    if b == "" then false
    else if a == "" then true
    else CharLess(a[0], b[0]) || (!CharLess(b[0], a[0]) && Less(a[1..], b[1..]))
  }

  /** Neither of two names comes first exactly when they differ at most in case. */
  lemma {:induction false} EquivalentIsSameName(a: string, b: string)
    ensures !Less(a, b) && !Less(b, a) <==> Lower(a) == Lower(b)
  {
    if a != "" && b != "" {
      EquivalentIsSameName(a[1..], b[1..]);
      assert Lower(a)[0] == Secrets.ToLower(a[0]) && Lower(b)[0] == Secrets.ToLower(b[0]);
      assert Lower(a)[1..] == Lower(a[1..]) && Lower(b)[1..] == Lower(b[1..]);
    }
  }

  lemma {:induction false} LessIsOrder(a: string, b: string, c: string)
    ensures Less(a, b) && Less(b, c) ==> Less(a, c)
    ensures !Less(a, a)
    decreases |a| + |b| + |c|
  {
    if a != "" && b != "" && c != "" {
      LessIsOrder(a[1..], b[1..], c[1..]);
    } else if a != "" {
      LessIsOrder(a[1..], "", "");
    }
  }

  lemma {:induction false} FoldLower(s: string)
    ensures Secrets.Fold(Lower(s)) == Secrets.Fold(s)
  {
    if s != "" {
      FoldLower(s[1..]);
      assert Lower(s)[1..] == Lower(s[1..]);
      assert s[0] in "_-. " <==> Secrets.ToLower(s[0]) in "_-. ";
    }
  }

  /** Whether a setting is a secret does not depend on how it is cased. */
  lemma SecretInAnyCase(s: string)
    ensures Secrets.IsSensitiveKey(Lower(s)) == Secrets.IsSensitiveKey(s)
  {
    FoldLower(s);
    Secrets.EqualFolds(Lower(s), s);
  }

  // ---------------------------------------------------------------------------
  // The value of a credential

  lemma {:induction false} LTrimBefore(k: string, v: string)
    ensures LTrim(k + "=" + v) == LTrim(k) + "=" + v
  {
    var s := k + "=" + v;
    if k != "" {
      LTrimBefore(k[1..], v);
      assert s[1..] == k[1..] + "=" + v;
    }
  }

  lemma {:induction false} RTrimAfter(k: string, v: string)
    ensures RTrim(k + "=" + v) == k + "=" + RTrim(v)
  {
    var s := k + "=" + v;
    if v != "" {
      RTrimAfter(k, v[..|v| - 1]);
      assert s[..|s| - 1] == k + "=" + v[..|v| - 1];
    }
  }

  lemma {:induction false} CutAt(k: string, v: string)
    requires '=' !in k
    ensures Cut(k + "=" + v) == Some((k, v))
  {
    var s := k + "=" + v;
    if k == "" {
      assert s[1..] == v;
    } else {
      CutAt(k[1..], v);
      assert s[1..] == k[1..] + "=" + v;
      assert k == [k[0]] + k[1..];
    }
  }

  lemma {:induction false} LTrimShape(k: string)
    ensures LTrim(LTrim(k)) == LTrim(k)
    ensures forall c | c in LTrim(k) :: c in k
  {
    if k != "" && IsSpace(k[0]) {
      LTrimShape(k[1..]);
    }
  }

  lemma {:induction false} TrimStart(k: string)
    ensures RTrim(k) != "" ==> k != "" && RTrim(k)[0] == k[0]
  {
    if k != "" && IsSpace(k[|k| - 1]) {
      TrimStart(k[..|k| - 1]);
    }
  }

  /** A key=value line after trimming, with its key as it will be cut. */
  lemma AssignmentParts(k: string, v: string)
    requires '=' !in k
    ensures var t := Trim(k + "=" + v);
            && t == LTrim(k) + "=" + RTrim(v)
            && Cut(t) == Some((LTrim(k), RTrim(v)))
            && Trim(LTrim(k)) == Trim(k)
            && (Trim(k) != "" ==> t[0] == Trim(k)[0])
  {
    LTrimBefore(k, v);
    RTrimAfter(LTrim(k), v);
    LTrimShape(k);
    CutAt(LTrim(k), RTrim(v));
    TrimStart(LTrim(k));
    hide LTrim, RTrim, Cut;
  }

  function Assigned(k: string, v: string): Line {
    Classify(k + "=" + v)
  }

  /** How a credential's line reads: only a '[' in front lets the value, by its last letter, matter. */
  lemma CredentialLine(k: string, v: string)
    requires '=' !in k && Secrets.IsSensitiveKey(Trim(k)) && Trim(k) != ""
    ensures var last := if RTrim(v) == "" then '=' else RTrim(v)[|RTrim(v)| - 1];
            && (Trim(k)[0] == '[' && last == ']' ==> Assigned(k, v).Header?)
            && (!(Trim(k)[0] == '[' && last == ']') ==>
                  Assigned(k, v) == if Trim(k)[0] == '#' then Skipped else Credential(Trim(k)))
  {
    hide LTrim, RTrim, Cut, Trim, Secrets.IsSensitiveKey;
    AssignmentParts(k, v);
    var t := LTrim(k) + "=" + RTrim(v);
    assert t[|t| - 1] == if RTrim(v) == "" then '=' else RTrim(v)[|RTrim(v)| - 1];
  }

  ghost predicate ValueIrrelevant(k: string) {
    forall v, w :: Assigned(k, v) == Assigned(k, w)
  }

  /** The value of a credential is irrelevant exactly when the name does not open with '['. */
  lemma ValueIrrelevantExactlyWhen(k: string)
    requires '=' !in k && Secrets.IsSensitiveKey(Trim(k)) && Trim(k) != ""
    ensures ValueIrrelevant(k) <==> Trim(k)[0] != '['
  {
    assert RTrim("]") == "]" && RTrim("") == "";
    hide Assigned, Trim, RTrim, Secrets.IsSensitiveKey;
    forall v
      ensures Trim(k)[0] != '[' ==> Assigned(k, v) == if Trim(k)[0] == '#' then Skipped else Credential(Trim(k))
    {
      CredentialLine(k, v);
    }
    CredentialLine(k, "");
    CredentialLine(k, "]");
    assert Trim(k)[0] == '[' ==> Assigned(k, "") != Assigned(k, "]");
  }
}
