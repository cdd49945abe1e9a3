/**
  redact_free_text of redact.cpp: prose loses the words that may be a credential's
  value, and nothing else.
 */
module FreeText {
  import opened Secrets

  /** How many words after a credential noun may still be its value. */
  const WINDOW: nat := 4

  predicate IsSpace(c: char) {
    c == ' ' || c == '\t' || c == '\r' || c == '\n'
  }

  /** Words that follow a credential noun without being its value. */
  predicate IsStopWord(w: string) {
    || w == "or" || w == "and" || w == "for" || w == "the" || w == "a" || w == "an" || w == "is"
    || w == "was" || w == "not" || w == "no" || w == "in" || w == "of" || w == "to" || w == "with"
    || w == "from" || w == "invalid" || w == "incorrect" || w == "bad" || w == "missing"
    || w == "required" || w == "expired" || w == "mismatch" || w == "error" || w == "failed"
    || w == "failure" || w == "does" || w == "did" || w == "must" || w == "cannot" || w == "empty"
    || w == "null" || w == "unknown" || w == "rejected" || w == "wrong"
  }

  function StripPunct(s: string): string {
    if s == "" then s
    else if !IsAlnum(s[0]) then StripPunct(s[1..])
    else if !IsAlnum(s[|s| - 1]) then StripPunct(s[..|s| - 1])
    else s
  }

  /** The first '=' or ':' of a word, or its length. */
  function Separator(tok: string): (p: nat)
    ensures p <= |tok|
    ensures p < |tok| ==> tok[p] == '=' || tok[p] == ':'
    ensures forall i :: 0 <= i < p ==> tok[i] != '=' && tok[i] != ':'
  {
    if tok == "" || tok[0] == '=' || tok[0] == ':' then 0 else 1 + Separator(tok[1..])
  }

  /** What a word is to the scrubber. Keyed is "password=hunter2"; keep is what stays of it. */
  datatype Kind = Keyed(keep: nat) | Punctuation | Noun | StopWord | Plain

  function KindOf(tok: string): (k: Kind)
    ensures k.Keyed? ==> k.keep < |tok|
  {
    var sep := Separator(tok);
    if 0 < sep && sep + 1 < |tok| && IsSensitiveKey(StripPunct(tok[..sep])) then Keyed(sep + 1)
    else
      var bare := StripPunct(tok);
      if bare == "" then Punctuation
      else if IsSensitiveKey(bare) then Noun
      else if IsStopWord(Fold(bare)) then StopWord
      else Plain
  }

  /** The window left after a word of some kind. */
  function After(k: Kind, pending: nat): nat {
    match k
    case Noun => WINDOW
    case StopWord => if pending > 0 then pending - 1 else 0
    case Punctuation => pending
    case _ => 0
  }

  function Rewrite(tok: string, pending: nat): string {
    match KindOf(tok)
    case Keyed(keep) => tok[..keep] + REDACTED
    case Plain => if pending > 0 then REDACTED else tok
    case _ => tok
  }

  // ---------------------------------------------------------------------------
  // A text is words with the white space before each, and white space at the end

  datatype Piece = Piece(gap: string, tok: string)

  function Gap(s: string): (n: nat)
    ensures n <= |s| && (forall i :: 0 <= i < n ==> IsSpace(s[i])) && (n < |s| ==> !IsSpace(s[n]))
  {
    if s == "" || !IsSpace(s[0]) then 0 else 1 + Gap(s[1..])
  }

  function Word(s: string): (n: nat)
    ensures n <= |s| && (forall i :: 0 <= i < n ==> !IsSpace(s[i])) && (n < |s| ==> IsSpace(s[n]))
  {
    if s == "" || IsSpace(s[0]) then 0 else 1 + Word(s[1..])
  }

  function WordEnd(s: string): (e: nat)
    requires Gap(s) < |s|
    ensures Gap(s) < e <= |s|
  {
    Gap(s) + Word(s[Gap(s)..])
  }

  function First(s: string): Piece
    requires Gap(s) < |s|
  {
    Piece(s[..Gap(s)], s[Gap(s)..WordEnd(s)])
  }

  function Split(s: string): (r: (seq<Piece>, string)) {
    if Gap(s) == |s| then ([], s)
    else
      var rest := Split(s[WordEnd(s)..]);
      ([First(s)] + rest.0, rest.1)
  }

  function Join(ps: seq<Piece>): string {
    if ps == [] then "" else Join(ps[..|ps| - 1]) + ps[|ps| - 1].gap + ps[|ps| - 1].tok
  }

  function Kinds(ps: seq<Piece>): (ks: seq<Kind>)
    ensures |ks| == |ps| && forall i :: 0 <= i < |ps| ==> ks[i] == KindOf(ps[i].tok)
  {
    seq(|ps|, i requires 0 <= i < |ps| => KindOf(ps[i].tok))
  }

  /** The window in force when word j is reached. */
  function Pending(ks: seq<Kind>, j: nat): nat
    requires j <= |ks|
  {
    if j == 0 then 0 else After(ks[j - 1], Pending(ks, j - 1))
  }

  function RedactPieces(ps: seq<Piece>): (r: seq<Piece>)
    ensures |r| == |ps|
    ensures forall j :: 0 <= j < |ps| ==>
              r[j] == Piece(ps[j].gap, Rewrite(ps[j].tok, Pending(Kinds(ps), j)))
  {
    seq(|ps|, j requires 0 <= j < |ps| => Piece(ps[j].gap, Rewrite(ps[j].tok, Pending(Kinds(ps), j))))
  }

  /** The specification: split, rewrite each word under its window, put together again. */
  function Redacted(text: string): string {
    Join(RedactPieces(Split(text).0)) + Split(text).1
  }

  lemma RedactedStep(ps: seq<Piece>, m: nat)
    requires m < |ps|
    ensures Join(RedactPieces(ps)[..m + 1]) ==
            Join(RedactPieces(ps)[..m]) + ps[m].gap + Rewrite(ps[m].tok, Pending(Kinds(ps), m))
    ensures Pending(Kinds(ps), m + 1) == After(KindOf(ps[m].tok), Pending(Kinds(ps), m))
  {
    assert RedactPieces(ps)[..m + 1][..m] == RedactPieces(ps)[..m];
  }

  /** The pass has dealt with m words, up to index i. */
  ghost predicate Reached(text: string, i: nat, m: nat, out: string, pending: nat) {
    var ps := Split(text).0;
    && i <= |text| && m <= |ps|
    && Split(text[i..]) == (ps[m..], Split(text).1)
    && out == Join(RedactPieces(ps)[..m]) && pending == Pending(Kinds(ps), m)
  }

  lemma NextWord(text: string, i: nat, m: nat, out: string, pending: nat, tok: string)
    requires Reached(text, i, m, out, pending) && i + Gap(text[i..]) < |text|
    requires tok == First(text[i..]).tok
    ensures Reached(text, i + WordEnd(text[i..]), m + 1,
                    out + First(text[i..]).gap + Rewrite(tok, pending), After(KindOf(tok), pending))
  {
    var ps := Split(text).0;
    assert text[i..][WordEnd(text[i..])..] == text[i + WordEnd(text[i..])..];
    assert ps[m..][0] == First(text[i..]);
    assert ps[m..][1..] == ps[m + 1..];
    RedactedStep(ps, m);
  }

  lemma Begin(text: string)
    ensures Reached(text, 0, 0, "", 0)
  {
    assert text[0..] == text;
  }

  lemma LastGap(text: string, i: nat, m: nat, out: string, pending: nat)
    requires Reached(text, i, m, out, pending) && i + Gap(text[i..]) == |text|
    ensures out + text[i..] == Redacted(text)
  {
    var ps := Split(text).0;
    assert m == |ps|;
    assert RedactPieces(ps)[..m] == RedactPieces(ps);
  }

  lemma Adjacent(text: string, i: nat)
    requires i <= |text|
    ensures text[..i] + text[i..] == text
    ensures Gap(text[i..]) < |text| - i ==>
              text[..i] + First(text[i..]).gap + First(text[i..]).tok == text[..i + WordEnd(text[i..])]
  {
  }

  /** One word of the pass: what is shown of it, and the window it leaves. */
  method ScrubWord(tok: string, window: nat) returns (shown: string, pending: nat, changed: bool)
    ensures shown == Rewrite(tok, window) && pending == After(KindOf(tok), window)
    ensures !changed ==> shown == tok
  {
    shown, pending, changed := tok, window, false;
    match KindOf(tok) {
      case Keyed(keep) => shown, changed, pending := tok[..keep] + REDACTED, true, 0;
      case Punctuation =>
      case Noun => pending := WINDOW;
      case StopWord => if pending > 0 { pending := pending - 1; }
      case Plain =>
        if pending > 0 {
          shown, changed, pending := REDACTED, true, 0;
        }
    }
  }

  /** The scrubber itself: one pass with a countdown. */
  method RedactFreeText(text: string) returns (r: string)
    ensures r == Redacted(text)
  {
    hide *;
    ghost var m := 0;
    var out, changed, pending, i := "", false, 0, 0;
    Begin(text);
    while i < |text|
      invariant i <= |text| && Reached(text, i, m, out, pending)
      invariant !changed ==> out == text[..i]
    {
      Adjacent(text, i);
      if i + Gap(text[i..]) == |text| {
        break;
      }
      var word := First(text[i..]);
      NextWord(text, i, m, out, pending, word.tok);
      var shown, left, rewritten := ScrubWord(word.tok, pending);
      out, pending, changed := out + word.gap + shown, left, changed || rewritten;
      i, m := i + WordEnd(text[i..]), m + 1;
    }
    LastGap(text, i, m, out, pending);
    Adjacent(text, i);
    out := out + text[i..];
    r := if changed then out else text;
  }

  // ---------------------------------------------------------------------------
  // The countdown in plain words

  /** Only punctuation and stop words stand between words i and j. */
  ghost predicate Connected(ks: seq<Kind>, i: nat, j: nat)
    requires j <= |ks|
  {
    forall m :: i < m < j ==> ks[m].Punctuation? || ks[m].StopWord?
  }

  function StopWordsBetween(ks: seq<Kind>, i: nat, j: nat): nat
    requires j <= |ks|
  {
    if j <= i + 1 then 0
    else StopWordsBetween(ks, i, j - 1) + (if ks[j - 1].StopWord? then 1 else 0)
  }

  /** Word j may be a credential's value: an earlier credential noun is separated from it
      by punctuation and at most three stop words. */
  ghost predicate Exposed(ks: seq<Kind>, j: nat)
    requires j <= |ks|
  {
    exists i :: 0 <= i < j && ks[i].Noun? && Connected(ks, i, j) && StopWordsBetween(ks, i, j) < WINDOW
  }

  lemma {:induction false} PendingSinceNoun(ks: seq<Kind>, i: nat, j: nat)
    requires i < j <= |ks| && ks[i].Noun? && Connected(ks, i, j)
    ensures var n := StopWordsBetween(ks, i, j);
            Pending(ks, j) == if n < WINDOW then WINDOW - n else 0
  {
    if i + 1 < j {
      assert Connected(ks, i, j - 1);
      PendingSinceNoun(ks, i, j - 1);
    }
  }

  lemma {:induction false} NounBehindPending(ks: seq<Kind>, j: nat) returns (i: nat)
    requires j <= |ks| && Pending(ks, j) > 0
    ensures i < j && ks[i].Noun? && Connected(ks, i, j) && StopWordsBetween(ks, i, j) + Pending(ks, j) == WINDOW
  {
    if ks[j - 1].Noun? {
      i := j - 1;
    } else {
      i := NounBehindPending(ks, j - 1);
    }
  }

  lemma PendingIsExposed(ks: seq<Kind>, j: nat)
    requires j <= |ks|
    ensures Pending(ks, j) > 0 <==> Exposed(ks, j)
  {
    if Pending(ks, j) > 0 {
      var i := NounBehindPending(ks, j);
    }
    if Exposed(ks, j) {
      var i :| 0 <= i < j && ks[i].Noun? && Connected(ks, i, j) && StopWordsBetween(ks, i, j) < WINDOW;
      PendingSinceNoun(ks, i, j);
    }
  }

  /** What becomes of word j: a keyed word keeps its key, a plain word is replaced exactly
      when it is exposed, and every other word is kept. */
  ghost function Fate(ps: seq<Piece>, j: nat): string
    requires j < |ps|
  {
    var tok := ps[j].tok;
    match KindOf(tok)
    case Keyed(keep) => tok[..keep] + REDACTED
    case Plain => if Exposed(Kinds(ps), j) then REDACTED else tok
    case _ => tok
  }

  lemma {:induction false} WordFate(ps: seq<Piece>, j: nat)
    requires j < |ps|
    ensures RedactPieces(ps)[j] == Piece(ps[j].gap, Fate(ps, j))
  {
    hide KindOf;
    PendingIsExposed(Kinds(ps), j);
  }

  // ---------------------------------------------------------------------------
  // Scrubbing twice is scrubbing once

  ghost predicate IsWord(s: string) {
    s != "" && forall i :: 0 <= i < |s| ==> !IsSpace(s[i])
  }

  ghost predicate IsGap(s: string) {
    forall i :: 0 <= i < |s| ==> IsSpace(s[i])
  }

  /** Pieces as Split makes them: only the first word may stand without a gap before it. */
  ghost predicate Separated(ps: seq<Piece>) {
    forall i :: 0 <= i < |ps| ==> IsWord(ps[i].tok) && IsGap(ps[i].gap) && (0 < i ==> ps[i].gap != "")
  }

  lemma {:induction false} JoinFront(p: Piece, ps: seq<Piece>)
    ensures Join([p] + ps) == p.gap + p.tok + Join(ps)
  {
    if ps != [] {
      var n := |ps| - 1;
      JoinFront(p, ps[..n]);
      assert ([p] + ps)[..n + 1] == [p] + ps[..n];
    } else {
      assert ([p] + ps)[..0] == [];
    }
  }

  lemma Cut(s: string, g: nat, e: nat)
    requires g <= e <= |s|
    ensures s == s[..g] + s[g..e] + s[e..]
  {
  }

  lemma FirstIsPiece(s: string)
    requires Gap(s) < |s|
    ensures IsGap(First(s).gap) && IsWord(First(s).tok)
    ensures s == First(s).gap + First(s).tok + s[WordEnd(s)..]
    ensures s[WordEnd(s)..] != "" ==> IsSpace(s[WordEnd(s)])
    ensures IsSpace(s[0]) ==> First(s).gap != ""
  {
    GapIsGap(s);
    FirstWord(s);
    Cut(s, Gap(s), WordEnd(s));
    hide IsSpace, Gap, Word, WordEnd, IsGap, IsWord;
  }

  lemma GapIsGap(s: string)
    ensures IsGap(s[..Gap(s)])
    ensures Gap(s) < |s| ==> !IsSpace(s[Gap(s)])
    ensures s != "" && IsSpace(s[0]) ==> Gap(s) > 0
  {
    hide IsSpace;
  }

  lemma FirstWord(s: string)
    requires Gap(s) < |s|
    ensures IsWord(s[Gap(s)..WordEnd(s)])
    ensures WordEnd(s) < |s| ==> IsSpace(s[WordEnd(s)])
  {
    hide *;
    WordEndIs(s);
    GapIsGap(s);
    var g, rest := Gap(s), s[Gap(s)..];
    assert rest[0] == s[g];
    WordIsWord(rest);
    SliceParts(s, g, Word(rest));
  }

  lemma WordEndIs(s: string)
    requires Gap(s) < |s|
    ensures WordEnd(s) == Gap(s) + Word(s[Gap(s)..])
  {
    hide Gap, Word;
  }

  lemma SliceParts(s: string, g: nat, n: nat)
    requires g < |s| && g + n <= |s|
    ensures s[g..][0] == s[g] && s[g..][..n] == s[g..g + n]
    ensures g + n < |s| ==> s[g..][n] == s[g + n]
  {
  }

  lemma WordIsWord(s: string)
    requires s != "" && !IsSpace(s[0])
    ensures IsWord(s[..Word(s)])
    ensures Word(s) < |s| ==> IsSpace(s[Word(s)])
  {
    hide IsSpace;
  }

  lemma SeparatedFront(p: Piece, ps: seq<Piece>)
    requires IsWord(p.tok) && IsGap(p.gap) && Separated(ps) && (ps != [] ==> ps[0].gap != "")
    ensures Separated([p] + ps)
  {
    hide IsWord, IsGap;
  }

  lemma {:induction false} JoinOfSplit(s: string)
    ensures Join(Split(s).0) + Split(s).1 == s
    decreases |s|
  {
    if Gap(s) < |s| {
      hide Join, IsSpace;
      var rest := s[WordEnd(s)..];
      FirstIsPiece(s);
      JoinOfSplit(rest);
      JoinFront(First(s), Split(rest).0);
    }
  }

  lemma {:induction false} SplitSeparates(s: string)
    ensures Separated(Split(s).0) && IsGap(Split(s).1)
    ensures s != "" && IsSpace(s[0]) && Split(s).0 != [] ==> Split(s).0[0].gap != ""
    decreases |s|
  {
    if Gap(s) < |s| {
      hide IsGap, IsWord, IsSpace, Separated;
      var rest := s[WordEnd(s)..];
      FirstIsPiece(s);
      SplitSeparates(rest);
      assert rest == "" ==> Split(rest).0 == [];
      SeparatedFront(First(s), Split(rest).0);
    }
  }

  lemma SplitOfGap(tail: string)
    requires IsGap(tail)
    ensures Split(tail) == ([], tail)
  {
    assert Gap(tail) == |tail|;
  }

  lemma {:induction false} SplitOfJoin(ps: seq<Piece>, tail: string)
    requires Separated(ps) && IsGap(tail)
    ensures Split(Join(ps) + tail) == (ps, tail)
  {
    if ps == [] {
      SplitOfGap(tail);
      assert Join(ps) + tail == tail;
    } else {
      SplitOfJoin(ps[1..], tail);
      StartsWithGap(ps[1..], tail);
      SplitFront(ps, tail);
    }
  }

  lemma SplitFront(ps: seq<Piece>, tail: string)
    requires ps != [] && IsGap(ps[0].gap) && IsWord(ps[0].tok)
    requires var rest := Join(ps[1..]) + tail;
             Split(rest) == (ps[1..], tail) && (rest != "" ==> IsSpace(rest[0]))
    ensures Split(Join(ps) + tail) == (ps, tail)
  {
    hide Split, Join, IsGap, IsWord;
    var rest := Join(ps[1..]) + tail;
    SplitLeadingWord(ps[0], rest);
    JoinFront(ps[0], ps[1..]);
    assert [ps[0]] + ps[1..] == ps;
    assert Join(ps) + tail == ps[0].gap + ps[0].tok + rest;
  }

  lemma StartsWithGap(ps: seq<Piece>, tail: string)
    requires Separated(ps) && IsGap(tail) && (ps != [] ==> ps[0].gap != "")
    ensures var rest := Join(ps) + tail; rest != "" ==> IsSpace(rest[0])
  {
    if ps != [] {
      JoinFront(ps[0], ps[1..]);
      assert [ps[0]] + ps[1..] == ps;
      assert (Join(ps) + tail)[0] == ps[0].gap[0];
    }
  }

  lemma SplitLeadingWord(p: Piece, rest: string)
    requires IsGap(p.gap) && IsWord(p.tok) && (rest != "" ==> IsSpace(rest[0]))
    ensures Split(p.gap + p.tok + rest) == ([p] + Split(rest).0, Split(rest).1)
  {
    LeadingWord(p.gap, p.tok, rest);
  }

  lemma LeadingWord(gap: string, tok: string, rest: string)
    requires IsGap(gap) && IsWord(tok) && (rest != "" ==> IsSpace(rest[0]))
    ensures var s := gap + tok + rest;
            Gap(s) < |s| && First(s) == Piece(gap, tok) && s[WordEnd(s)..] == rest
  {
    hide IsSpace;
    GapAlone(gap, tok + rest);
    WordAlone(tok, rest);
    hide Gap, Word, IsGap, IsWord;
    ThreeParts(gap, tok, rest);
  }

  lemma GapAlone(gap: string, more: string)
    requires IsGap(gap) && more != "" && !IsSpace(more[0])
    ensures Gap(gap + more) == |gap|
  {
    hide IsSpace;
    var s := gap + more;
    assert forall i :: 0 <= i < |gap| ==> s[i] == gap[i];
    assert s[|gap|] == more[0];
  }

  lemma WordAlone(tok: string, rest: string)
    requires IsWord(tok) && (rest != "" ==> IsSpace(rest[0]))
    ensures Word(tok + rest) == |tok| && tok != "" && !IsSpace((tok + rest)[0])
  {
    hide IsSpace;
    var s := tok + rest;
    assert forall i :: 0 <= i < |tok| ==> s[i] == tok[i];
    assert rest != "" ==> s[|tok|] == rest[0];
  }

  lemma ThreeParts(a: string, b: string, c: string)
    ensures var s := a + b + c;
            && s == a + (b + c) && s[..|a|] == a && s[|a|..] == b + c
            && s[|a|..|a| + |b|] == b && s[|a| + |b|..] == c
  {
  }

  lemma StripMarker()
    ensures StripPunct("<redacted>") == "redacted"
  {
    var s := "<redacted>";
    var left := s[1..];
    assert StripPunct(s) == StripPunct(left);
    assert left[0] == 'r' && left[|left| - 1] == '>';
    assert StripPunct(left) == StripPunct(left[..|left| - 1]);
    assert left[..|left| - 1] == "redacted";
    var bare := "redacted";
    assert IsAlnum(bare[0]) && IsAlnum(bare[|bare| - 1]);
  }

  lemma MarkerHasNoSeparator()
    ensures Separator("<redacted>") == |"<redacted>"|
  {
    var s := "<redacted>";
    assert forall i :: 0 <= i < |s| ==> s[i] != '=' && s[i] != ':';
  }

  lemma MarkerIsPlain()
    ensures KindOf(REDACTED) == Plain
  {
    hide KindOf, StripPunct, IsSensitiveKey, IsStopWord, Fold, Separator;
    StripMarker();
    MarkerHasNoSeparator();
    MarkerIsNoSecret();
    FoldMarker();
    MarkerIsNoStopWord();
    PlainWord(REDACTED, "redacted");
  }

  lemma PlainWord(tok: string, bare: string)
    requires Separator(tok) == |tok| && StripPunct(tok) == bare && bare != ""
    requires !IsSensitiveKey(bare) && !IsStopWord(Fold(bare))
    ensures KindOf(tok) == Plain
  {
    hide StripPunct, IsSensitiveKey, IsStopWord, Fold, Separator;
  }

  lemma MarkerIsNoStopWord()
    ensures !IsStopWord("redacted")
  {
    assert "redacted"[2] == 'd';
  }

  /** A word keeps its kind when it is rewritten, so the second pass sees the same windows. */
  lemma RewriteKeepsKind(tok: string, pending: nat)
    ensures KindOf(Rewrite(tok, pending)) == KindOf(tok)
    ensures Rewrite(Rewrite(tok, pending), pending) == Rewrite(tok, pending)
  {
    MarkerIsPlain();
    if KindOf(tok).Keyed? {
      KeyedStaysKeyed(tok);
    }
  }

  lemma KeyedStaysKeyed(tok: string)
    requires KindOf(tok).Keyed?
    ensures var keep := KindOf(tok).keep;
            KindOf(tok[..keep] + REDACTED) == Keyed(keep)
  {
    hide IsSensitiveKey, StripPunct;
    var keep := KindOf(tok).keep;
    var again := tok[..keep] + REDACTED;
    assert again[keep - 1] == tok[keep - 1];
    assert forall i :: 0 <= i < keep ==> again[i] == tok[i];
    assert Separator(again) == keep - 1;
    assert again[..keep - 1] == tok[..keep - 1];
  }

  lemma KeyedKeepsWord(tok: string, keep: nat)
    requires IsWord(tok) && 0 < keep < |tok|
    ensures IsWord(tok[..keep] + REDACTED)
  {
    MarkerIsWord();
    var r := tok[..keep] + REDACTED;
    assert forall i :: 0 <= i < |r| ==> r[i] == if i < keep then tok[i] else REDACTED[i - keep];
  }

  lemma MarkerIsWord()
    ensures IsWord(REDACTED)
  {
  }

  lemma RewriteKeepsWord(tok: string, pending: nat)
    requires IsWord(tok)
    ensures IsWord(Rewrite(tok, pending))
  {
    hide IsWord, Separator;
    MarkerIsWord();
    if KindOf(tok).Keyed? {
      KeyedKeepsWord(tok, KindOf(tok).keep);
    }
  }

  lemma RedactPiecesStable(ps: seq<Piece>)
    requires Separated(ps)
    ensures Separated(RedactPieces(ps)) && Kinds(RedactPieces(ps)) == Kinds(ps)
    ensures RedactPieces(RedactPieces(ps)) == RedactPieces(ps)
  {
    hide KindOf, Rewrite, IsWord, IsGap;
    var rs := RedactPieces(ps);
    forall j | 0 <= j < |ps|
      ensures Kinds(rs)[j] == Kinds(ps)[j] && IsWord(rs[j].tok)
      ensures Rewrite(rs[j].tok, Pending(Kinds(ps), j)) == rs[j].tok
    {
      RewriteKeepsKind(ps[j].tok, Pending(Kinds(ps), j));
      RewriteKeepsWord(ps[j].tok, Pending(Kinds(ps), j));
    }
    assert Kinds(rs) == Kinds(ps);
  }

  /** The scrubbed text splits into the rewritten words with the same white space. */
  lemma SplitRedacted(text: string)
    ensures Split(Redacted(text)) == (RedactPieces(Split(text).0), Split(text).1)
  {
    hide RedactPieces, Split, Separated, IsGap;
    SplitSeparates(text);
    RedactPiecesStable(Split(text).0);
    SplitOfJoin(RedactPieces(Split(text).0), Split(text).1);
  }

  lemma {:induction false} RedactedTwice(text: string)
    ensures Redacted(Redacted(text)) == Redacted(text)
  {
    hide RedactPieces, Split, Separated, IsGap;
    SplitSeparates(text);
    SplitRedacted(text);
    RedactPiecesStable(Split(text).0);
  }

  /** The scrubber's meaning: the same number of words, the same white space, and each
      word met by its fate. */
  lemma {:induction false} ScrubMeaning(text: string, j: nat)
    requires j < |Split(text).0|
    ensures |Split(Redacted(text)).0| == |Split(text).0| && Split(Redacted(text)).1 == Split(text).1
    ensures Split(Redacted(text)).0[j] == Piece(Split(text).0[j].gap, Fate(Split(text).0, j))
  {
    hide Split, KindOf, Redacted, Exposed;
    SplitRedacted(text);
    WordFate(Split(text).0, j);
  }

  /** Characters the scrubber never introduces: its marker is made of letters and brackets. */
  lemma RewriteAddsNothing(tok: string, pending: nat, i: nat)
    requires i < |Rewrite(tok, pending)|
    ensures Rewrite(tok, pending)[i] in tok || Rewrite(tok, pending)[i] in REDACTED
  {
    hide Separator;
  }

  lemma {:induction false} JoinLetters(ps: seq<Piece>, c: char)
    ensures c in Join(ps) <==> exists i :: 0 <= i < |ps| && (c in ps[i].gap || c in ps[i].tok)
  {
    if ps != [] {
      var n := |ps| - 1;
      JoinLetters(ps[..n], c);
      if c in Join(ps) {
        if c in Join(ps[..n]) {
          var i :| 0 <= i < n && (c in ps[..n][i].gap || c in ps[..n][i].tok);
          assert c in ps[i].gap || c in ps[i].tok;
        } else {
          assert c in ps[n].gap || c in ps[n].tok;
        }
      }
      if exists i :: 0 <= i < |ps| && (c in ps[i].gap || c in ps[i].tok) {
        var i :| 0 <= i < |ps| && (c in ps[i].gap || c in ps[i].tok);
        assert i < n ==> c in ps[..n][i].gap || c in ps[..n][i].tok;
      }
    }
  }

  lemma RedactedAddsNothing(text: string, c: char)
    requires c in Redacted(text)
    ensures c in text || c in REDACTED
  {
    hide KindOf, Rewrite, Split;
    var ps := Split(text).0;
    JoinOfSplit(text);
    if c !in Split(text).1 {
      JoinLetters(RedactPieces(ps), c);
      var i :| 0 <= i < |ps| && (c in RedactPieces(ps)[i].gap || c in RedactPieces(ps)[i].tok);
      var tok, pending := ps[i].tok, Pending(Kinds(ps), i);
      if c in RedactPieces(ps)[i].tok {
        var j :| 0 <= j < |Rewrite(tok, pending)| && Rewrite(tok, pending)[j] == c;
        RewriteAddsNothing(tok, pending, j);
      }
      JoinLetters(ps, c);
    }
  }

  /** Nothing is made of nothing: an empty text stays empty, any other stays non-empty. */
  lemma {:induction false} RedactedKeepsEmptiness(text: string)
    ensures Redacted(text) == "" <==> text == ""
  {
    hide KindOf, Rewrite, Split;
    JoinOfSplit(text);
    JoinOfSplit(Redacted(text));
    SplitRedacted(text);
    SplitSeparates(text);
    var ps := Split(text).0;
    if ps != [] {
      JoinFront(ps[0], ps[1..]);
      assert [ps[0]] + ps[1..] == ps;
      var rs := RedactPieces(ps);
      RedactPiecesStable(ps);
      JoinFront(rs[0], rs[1..]);
      assert [rs[0]] + rs[1..] == rs;
    }
  }
}
