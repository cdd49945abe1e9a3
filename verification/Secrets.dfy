/** The one predicate of redact.cpp that decides whether a name denotes a secret. */
module Secrets {

  const REDACTED: string := "<redacted>"
  const MASKED: string := "<masked>"

  function ToLower(c: char): char {
    if 'A' <= c <= 'Z' then (c as int + 32) as char else c
  }

  predicate IsAlnum(c: char) {
    '0' <= c <= '9' || 'A' <= c <= 'Z' || 'a' <= c <= 'z'
  }

  /** Lower case, with the separators people put into names dropped. */
  function Fold(s: string): string {
    if s == "" then ""
    else if s[0] in "_-. " then Fold(s[1..])
    else [ToLower(s[0])] + Fold(s[1..])
  }

  predicate OccursAt(s: string, part: string, i: int) {
    0 <= i <= |s| - |part| && s[i..i + |part|] == part
  }

  predicate Contains(s: string, part: string) {
    exists i | 0 <= i <= |s| :: OccursAt(s, part, i)
  }

  /** Names that are secrets only as a whole. */
  predicate IsSecretName(k: string) {
    || k == "username" || k == "user" || k == "userid" || k == "login"
    || k == "logonname" || k == "account" || k == "accountid" || k == "authenticator"
  }

  /** Fragments that make any name containing them a secret. */
  predicate HasPassFragment(k: string) {
    || Contains(k, "password") || Contains(k, "passwd") || Contains(k, "passphrase")
    || Contains(k, "secret") || Contains(k, "token") || Contains(k, "apikey") || Contains(k, "credential")
  }

  predicate HasKeyFragment(k: string) {
    || Contains(k, "privatekey") || Contains(k, "keystore") || Contains(k, "truststore")
    || Contains(k, "certificatekey") || Contains(k, "sharedkey") || Contains(k, "hmac") || Contains(k, "salt")
  }

  predicate IsSensitiveKey(key: string) {
    var k := Fold(key);
    k != "" && (IsSecretName(k) || HasPassFragment(k) || HasKeyFragment(k))
  }

  lemma {:induction false} FoldIdempotent(s: string)
    ensures Fold(Fold(s)) == Fold(s)
  {
    if s != "" {
      FoldIdempotent(s[1..]);
      if s[0] !in "_-. " {
        assert Fold(s)[1..] == Fold(s[1..]);
        assert ToLower(s[0]) !in "_-. ";
      }
    }
  }

  function FoldOf(c: char): string {
    if c in "_-. " then "" else [ToLower(c)]
  }

  lemma FoldCons(c: char, s: string)
    ensures Fold([c] + s) == FoldOf(c) + Fold(s)
    ensures Fold([c]) == FoldOf(c) && Fold("") == ""
  {
    hide ToLower;
    assert ([c] + s)[1..] == s && [c][1..] == "";
  }

  /** Folding looks at each letter by itself. */
  lemma {:induction false} FoldParts(a: string, b: string)
    ensures Fold(a + b) == Fold(a) + Fold(b)
  {
    hide Fold, FoldOf;
    if a == "" {
      FoldCons('a', b);
      assert a + b == b && "" + Fold(b) == Fold(b);
    } else {
      FoldParts(a[1..], b);
      FoldCons(a[0], a[1..]);
      FoldCons(a[0], a[1..] + b);
      assert a == [a[0]] + a[1..] && a + b == [a[0]] + (a[1..] + b);
    }
  }

  lemma EqualFolds(a: string, b: string)
    requires Fold(a) == Fold(b)
    ensures IsSensitiveKey(a) == IsSensitiveKey(b)
  {
  }

  lemma CaseKeepsSeparators(c: char, d: char)
    requires ToLower(c) == ToLower(d)
    ensures c in "_-. " <==> d in "_-. "
  {
  }

  lemma FoldWith(a: string, c: char, b: string)
    ensures Fold(a + [c] + b) == Fold(a) + FoldOf(c) + Fold(b)
    ensures Fold(a + b) == Fold(a) + Fold(b)
  {
    FoldParts(a, b);
    FoldParts(a + [c], b);
    FoldParts(a, [c]);
    FoldCons(c, "");
    hide Fold, FoldOf;
  }

  lemma SeparatorAside(a: string, c: char, b: string)
    requires c in "_-. "
    ensures Fold(a + [c] + b) == Fold(a + b)
  {
    FoldWith(a, c, b);
    assert FoldOf(c) == "";
    hide *;
    assert Fold(a) + "" + Fold(b) == Fold(a) + Fold(b);
  }

  lemma CaseAside(a: string, c: char, d: char, b: string)
    requires ToLower(c) == ToLower(d)
    ensures Fold(a + [c] + b) == Fold(a + [d] + b)
  {
    CaseKeepsSeparators(c, d);
    assert FoldOf(c) == FoldOf(d);
    FoldWith(a, c, b);
    FoldWith(a, d, b);
    hide *;
  }

  /** Whether a name is a secret does not change with a separator put in or left out, or with
      the case of a letter; so a name is a secret iff its folded form is. */
  lemma SameShapeSameSecret(a: string, c: char, d: char, b: string)
    ensures c in "_-. " ==> IsSensitiveKey(a + [c] + b) == IsSensitiveKey(a + b)
    ensures ToLower(c) == ToLower(d) ==> IsSensitiveKey(a + [c] + b) == IsSensitiveKey(a + [d] + b)
    ensures IsSensitiveKey(Fold(a)) == IsSensitiveKey(a)
  {
    hide *;
    FoldIdempotent(a);
    EqualFolds(Fold(a), a);
    if c in "_-. " {
      SeparatorAside(a, c, b);
      EqualFolds(a + [c] + b, a + b);
    }
    if ToLower(c) == ToLower(d) {
      CaseAside(a, c, d, b);
      EqualFolds(a + [c] + b, a + [d] + b);
    }
  }

  lemma LettersOf(s: string, part: string, p: nat)
    requires p < |part|
    ensures Contains(s, part) ==> part[p] in s
  {
    if Contains(s, part) {
      var i :| 0 <= i <= |s| && OccursAt(s, part, i);
      assert part[p] == s[i..i + |part|][p] == s[i + p];
    }
  }

  lemma FoldMarker()
    ensures Fold("redacted") == "redacted"
  {
    var s := "redacted";
    assert forall i :: 0 <= i < 8 ==> 'a' <= s[i] <= 'z';
    FoldLetters(s);
  }

  lemma {:induction false} FoldLetters(s: string)
    requires forall i :: 0 <= i < |s| ==> 'a' <= s[i] <= 'z'
    ensures Fold(s) == s
  {
    if s != "" {
      FoldLetters(s[1..]);
    }
  }

  /** The letters of everyday names: none of these makes a secret name but, perhaps, "secret". */
  predicate IsCommon(c: char) {
    c == '_' || c == '<' || c == '>'
    || ('a' <= c <= 'z' && c != 'w' && c != 'h' && c != 'k' && c != 'l' && c != 'v' && c != 'u')
  }

  /** A name of common letters is no secret unless it can spell "secret". */
  lemma HarmlessName(s: string)
    requires forall i | 0 <= i < |s| :: IsCommon(s[i])
    requires |s| < 6 || (forall i | 0 <= i < |s| :: s[i] != 'c') || (forall i | 0 <= i < |s| :: s[i] != 's')
    ensures !IsSensitiveKey(s)
  {
    FoldShrinks(s);
    var k := Fold(s);
    hide Fold, Contains;
    FewLettersNoPass(k);
    FewLettersNoKey(k);
    NamesUseRareLetters(k);
  }

  lemma {:induction false} FoldShrinks(s: string)
    requires forall i | 0 <= i < |s| :: IsCommon(s[i])
    ensures |Fold(s)| <= |s|
    ensures forall c | c in Fold(s) :: c in s
  {
    if s != "" {
      assert forall c | c in s[1..] :: c in s;
      FoldShrinks(s[1..]);
      assert s[0] in s;
    }
  }

  lemma NamesUseRareLetters(k: string)
    requires 'l' !in k && 'u' !in k
    ensures !IsSecretName(k)
  {
    assert "username"[0] == 'u' && "user"[0] == 'u' && "userid"[0] == 'u' && "login"[0] == 'l';
    assert "logonname"[0] == 'l' && "account"[4] == 'u' && "accountid"[4] == 'u' && "authenticator"[1] == 'u';
  }

  lemma FewLettersNoPass(k: string)
    requires 'w' !in k && 'h' !in k && 'k' !in k && 'l' !in k
    requires 'c' !in k || 's' !in k || |k| < 6
    ensures !HasPassFragment(k)
  {
    LettersOf(k, "password", 4);
    LettersOf(k, "passwd", 4);
    LettersOf(k, "passphrase", 5);
    LettersOf(k, "secret", 0);
    LettersOf(k, "secret", 2);
    FragmentFits(k, "secret");
    LettersOf(k, "token", 2);
    LettersOf(k, "apikey", 3);
    LettersOf(k, "credential", 9);
  }

  lemma FewLettersNoKey(k: string)
    requires 'h' !in k && 'k' !in k && 'l' !in k && 'v' !in k && 'u' !in k
    ensures !HasKeyFragment(k)
  {
    LettersOf(k, "privatekey", 3);
    LettersOf(k, "keystore", 0);
    LettersOf(k, "truststore", 2);
    LettersOf(k, "certificatekey", 11);
    LettersOf(k, "sharedkey", 1);
    LettersOf(k, "hmac", 0);
    LettersOf(k, "salt", 2);
  }

  lemma FragmentFits(s: string, part: string)
    ensures Contains(s, part) ==> |part| <= |s|
  {
  }

  /** The marker put in a secret's place is no secret name, with its brackets or stripped of them. */
  lemma MarkerIsNoSecret()
    ensures !IsSensitiveKey(REDACTED) && !IsSensitiveKey("redacted")
  {
    hide IsSensitiveKey;
    HarmlessName(REDACTED);
    HarmlessName("redacted");
  }
}
