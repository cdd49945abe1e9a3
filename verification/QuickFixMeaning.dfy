/**
  What a settings file means, told without the reader's state: one block per [SESSION] header, the
  last assignment wins, a block's own before those of earlier [DEFAULT] sections, and no secret.
 */
module QuickFixMeaning {
  import opened QuickFixLines
  import opened QuickFixSettings
  import opened Wrappers
  import Secrets

  function Find(d: Dictionary, k: string): Option<string> {
    if k in d then Some(d[k]) else None
  }

  /** The section line `n` stands in. */
  function SecAt(lines: seq<Line>, n: nat): Section
    requires n <= |lines|
  {
    if n == 0 then Outside
    else if lines[n - 1].Header? then SectionNamed(lines[n - 1].name)
    else SecAt(lines, n - 1)
  }

  predicate Sets(lines: seq<Line>, i: nat, sec: Section, k: string)
    requires i < |lines|
  {
    lines[i].Setting? && Lower(lines[i].key) == k && SecAt(lines, i) == sec
  }

  /** The last assignment to a name in a stretch of the file, sections of one kind only. */
  function LastSet(lines: seq<Line>, lo: nat, hi: nat, sec: Section, k: string): Option<string>
    requires lo <= hi <= |lines|
    decreases hi
  {
    if lo == hi then None
    else if Sets(lines, hi - 1, sec, k) then Some(lines[hi - 1].val)
    else LastSet(lines, lo, hi - 1, sec, k)
  }

  predicate NamesAt(lines: seq<Line>, i: nat, inDefault: bool, k: string)
    requires i < |lines|
  {
    lines[i].Credential? && Lower(lines[i].key) == k && (SecAt(lines, i) == Default) == inDefault
  }

  /** Whether a stretch of the file, in or outside [DEFAULT], holds a credential of that name. */
  predicate Named(lines: seq<Line>, lo: nat, hi: nat, inDefault: bool, k: string)
    requires lo <= hi <= |lines|
  {
    exists i | lo <= i < hi :: NamesAt(lines, i, inDefault, k)
  }

  predicate Opens(line: Line) {
    line.Header? && SectionNamed(line.name) == Session
  }

  /** The [SESSION] headers among the first n lines. */
  function Heads(lines: seq<Line>, n: nat): (heads: seq<nat>)
    requires n <= |lines|
    ensures forall j | 0 <= j < |heads| :: heads[j] < n
  {
    if n == 0 then []
    else if Opens(lines[n - 1]) then Heads(lines, n - 1) + [n - 1]
    else Heads(lines, n - 1)
  }

  /** Where the section opened at h ends. */
  function EndOf(lines: seq<Line>, h: nat): (e: nat)
    requires h < |lines|
    ensures h < e <= |lines|
    decreases |lines| - h
  {
    if h + 1 == |lines| || lines[h + 1].Header? then h + 1 else EndOf(lines, h + 1)
  }

  /** Where the latest session that ended within the first n lines ended; 0 if none did. */
  function LastClose(lines: seq<Line>, n: nat): (c: nat)
    requires n <= |lines|
    ensures c <= n
  {
    if n == 0 then 0
    else if lines[n - 1].Header? && SecAt(lines, n - 1) == Session then n - 1
    else LastClose(lines, n - 1)
  }

  /** The value a block gives a name. */
  function ValueIn(lines: seq<Line>, h: nat, k: string): Option<string>
    requires h < |lines|
  {
    var own := LastSet(lines, h + 1, EndOf(lines, h), Session, k);
    if own.Some? then own else LastSet(lines, 0, h, Default, k)
  }

  /**
    The credential names a block reports: those of earlier [DEFAULT] sections, and those written
    since the previous session ended, in the block or outside both kinds of section.
   */
  predicate ReportedIn(lines: seq<Line>, h: nat, k: string)
    requires h < |lines|
  {
    || Named(lines, 0, h, true, k)
    || Named(lines, LastClose(lines, h + 1), EndOf(lines, h), false, k)
  }

  ghost predicate BlockMeans(lines: seq<Line>, h: nat, b: Block)
    requires h < |lines|
  {
    && (forall k :: Find(b.values, k) == ValueIn(lines, h, k))
    && (forall k :: Listed(b.redacted, k) <==> ReportedIn(lines, h, k))
  }

  // ---------------------------------------------------------------------------
  // The reader's state after n lines

  function At(lines: seq<Line>, n: nat): State
    requires n <= |lines|
  {
    Scanned(lines[..n])
  }

  lemma AtNext(lines: seq<Line>, n: nat)
    requires n < |lines|
    ensures At(lines, n + 1) == Stepped(At(lines, n), n + 1, lines[n])
    ensures At(lines, 0) == START
  {
    hide Stepped;
    assert lines[..n + 1][..n] == lines[..n];
  }

  lemma {:induction false} SectionRight(lines: seq<Line>, n: nat)
    requires n <= |lines|
    ensures At(lines, n).sec == SecAt(lines, n)
  {
    hide At, Remember, RememberAll, SectionNamed;
    if n > 0 {
      SectionRight(lines, n - 1);
      AtNext(lines, n - 1);
    } else if lines != [] {
      AtNext(lines, 0);
    } else {
      AtNone();
    }
  }

  lemma AtNone()
    ensures At([], 0) == START
  {
  }

  lemma AtStart(lines: seq<Line>)
    ensures At(lines, 0) == START
  {
    assert lines[..0] == [];
  }

  lemma {:induction false} DefaultsRight(lines: seq<Line>, n: nat, k: string)
    requires n <= |lines|
    ensures Find(At(lines, n).defaults, k) == LastSet(lines, 0, n, Default, k)
  {
    hide At, Remember, RememberAll, SectionNamed, SecAt;
    AtStart(lines);
    if n > 0 {
      DefaultsRight(lines, n - 1, k);
      AtNext(lines, n - 1);
      SectionRight(lines, n - 1);
    }
  }

  lemma RememberLists(names: seq<string>, key: string, k: string)
    ensures Listed(Remember(names, key), k) <==> Listed(names, k) || Lower(key) == k
  {
    var r := Remember(names, key);
    if r != names {
      assert r[|names|] == key;
      assert forall i | 0 <= i < |names| :: r[i] == names[i];
    }
  }

  lemma {:induction false} RememberAllLists(names: seq<string>, more: seq<string>, k: string)
    ensures Listed(RememberAll(names, more), k) <==> Listed(names, k) || Listed(more, k)
  {
    if more != [] {
      var before, last := more[..|more| - 1], more[|more| - 1];
      RememberAllLists(names, before, k);
      RememberLists(RememberAll(names, before), last, k);
      hide Remember, RememberAll;
      assert Listed(more, k) <==> Listed(before, k) || Lower(last) == k by {
        assert forall i | 0 <= i < |before| :: before[i] == more[i];
      }
    }
  }

  lemma NamedNext(lines: seq<Line>, lo: nat, n: nat, inDefault: bool, k: string)
    requires lo <= n < |lines|
    ensures Named(lines, lo, n + 1, inDefault, k)
       <==> (Named(lines, lo, n, inDefault, k) || NamesAt(lines, n, inDefault, k))
    ensures !Named(lines, lo, lo, inDefault, k)
  {
    hide NamesAt;
  }

  lemma {:induction false} DefaultNamesRight(lines: seq<Line>, n: nat, k: string)
    requires n <= |lines|
    ensures Listed(At(lines, n).defaultRedacted, k) <==> Named(lines, 0, n, true, k)
  {
    hide At, Remember, RememberAll, SectionNamed, SecAt, Named, Listed;
    AtStart(lines);
    if n > 0 {
      DefaultNamesRight(lines, n - 1, k);
      AtNext(lines, n - 1);
      SectionRight(lines, n - 1);
      NamedNext(lines, 0, n - 1, true, k);
      if lines[n - 1].Credential? {
        RememberLists(At(lines, n - 1).defaultRedacted, lines[n - 1].key, k);
      }
    } else {
      NothingListed(k);
      NothingNamed(lines, 0, true, k);
    }
  }

  lemma NothingListed(k: string)
    ensures !Listed([], k)
  {
  }

  lemma NothingNamed(lines: seq<Line>, lo: nat, inDefault: bool, k: string)
    requires lo <= |lines|
    ensures !Named(lines, lo, lo, inDefault, k)
  {
  }

  lemma {:induction false} CurrentNamesRight(lines: seq<Line>, n: nat, k: string)
    requires n <= |lines|
    ensures Listed(At(lines, n).currentRedacted, k) <==> Named(lines, LastClose(lines, n), n, false, k)
  {
    hide At, Remember, RememberAll, SectionNamed, SecAt, Named, Listed;
    AtStart(lines);
    NothingListed(k);
    if n > 0 {
      var c := LastClose(lines, n);
      CurrentNamesRight(lines, n - 1, k);
      AtNext(lines, n - 1);
      SectionRight(lines, n - 1);
      NamedNext(lines, c, n - 1, false, k);
      NothingNamed(lines, n - 1, false, k);
      if lines[n - 1].Credential? {
        RememberLists(At(lines, n - 1).currentRedacted, lines[n - 1].key, k);
      }
    } else {
      NothingNamed(lines, 0, false, k);
    }
  }

  /** The header of the section line n stands in. */
  function OpenHead(lines: seq<Line>, n: nat): (h: nat)
    requires n <= |lines| && SecAt(lines, n) == Session
    ensures h < n && Opens(lines[h]) && forall i | h < i < n :: !lines[i].Header?
  {
    hide SectionNamed;
    if lines[n - 1].Header? then n - 1 else OpenHead(lines, n - 1)
  }

  lemma {:induction false} CurrentRight(lines: seq<Line>, n: nat, k: string)
    requires n <= |lines|
    ensures SecAt(lines, n) != Session ==> At(lines, n).current == map[]
    ensures SecAt(lines, n) == Session ==>
              Find(At(lines, n).current, k) == LastSet(lines, OpenHead(lines, n) + 1, n, Session, k)
  {
    hide At, Remember, RememberAll, SectionNamed;
    AtStart(lines);
    if n > 0 {
      CurrentRight(lines, n - 1, k);
      AtNext(lines, n - 1);
      SectionRight(lines, n - 1);
      SectionRight(lines, n);
    }
  }

  // ---------------------------------------------------------------------------
  // Closing a block

  predicate Unbroken(lines: seq<Line>, h: nat, e: nat) {
    h < e <= |lines| && Opens(lines[h]) && forall i | h < i < e :: !lines[i].Header?
  }

  predicate Closes(lines: seq<Line>, n: nat) {
    n == |lines| || (n < |lines| && lines[n].Header?)
  }

  lemma {:induction false} EndIs(lines: seq<Line>, h: nat, e: nat)
    requires h < e <= |lines| && Closes(lines, e)
    requires forall i | h < i < e :: !lines[i].Header?
    ensures EndOf(lines, h) == e
    decreases e - h
  {
    if h + 1 < e {
      EndIs(lines, h + 1, e);
    }
  }

  lemma {:induction false} InsideIsSession(lines: seq<Line>, h: nat, n: nat)
    requires Unbroken(lines, h, n)
    ensures SecAt(lines, n) == Session && OpenHead(lines, n) == h
    ensures LastClose(lines, n) == LastClose(lines, h + 1)
  {
    hide SectionNamed;
    if h + 1 < n {
      InsideIsSession(lines, h, n - 1);
    }
  }

  lemma {:induction false} DefaultsUntouched(lines: seq<Line>, h: nat, n: nat, k: string)
    requires Unbroken(lines, h, n)
    ensures LastSet(lines, 0, n, Default, k) == LastSet(lines, 0, h, Default, k)
    ensures Named(lines, 0, n, true, k) <==> Named(lines, 0, h, true, k)
  {
    hide Named, SecAt, SectionNamed;
    NamedNext(lines, 0, n - 1, true, k);
    if h + 1 < n {
      InsideIsSession(lines, h, n - 1);
      DefaultsUntouched(lines, h, n - 1, k);
    }
  }

  lemma CommitValues(lines: seq<Line>, n: nat, h: nat, k: string)
    requires Unbroken(lines, h, n) && Closes(lines, n)
    ensures Find(At(lines, n).defaults + At(lines, n).current, k) == ValueIn(lines, h, k)
  {
    EndIs(lines, h, n);
    InsideIsSession(lines, h, n);
    DefaultsRight(lines, n, k);
    CurrentRight(lines, n, k);
    DefaultsUntouched(lines, h, n, k);
    hide At, LastSet, SecAt, Unbroken, Closes;
  }

  lemma CommitNames(lines: seq<Line>, n: nat, h: nat, k: string)
    requires Unbroken(lines, h, n) && Closes(lines, n)
    ensures Listed(RememberAll(At(lines, n).defaultRedacted, At(lines, n).currentRedacted), k)
       <==> ReportedIn(lines, h, k)
  {
    EndIs(lines, h, n);
    InsideIsSession(lines, h, n);
    DefaultNamesRight(lines, n, k);
    CurrentNamesRight(lines, n, k);
    DefaultsUntouched(lines, h, n, k);
    RememberAllLists(At(lines, n).defaultRedacted, At(lines, n).currentRedacted, k);
    hide At, Named, Listed, RememberAll, SecAt, Unbroken, Closes;
  }

  lemma CommitMeans(lines: seq<Line>, n: nat, h: nat)
    requires Unbroken(lines, h, n) && Closes(lines, n)
    ensures BlockMeans(lines, h, Merged(At(lines, n)))
  {
    hide At, RememberAll, Find, Listed, ValueIn, ReportedIn, Unbroken, Closes, SecAt;
    forall k {
      CommitValues(lines, n, h, k);
    }
    forall k {
      CommitNames(lines, n, h, k);
    }
  }

  lemma {:induction false} OpenHeadIsLast(lines: seq<Line>, n: nat)
    requires n <= |lines| && SecAt(lines, n) == Session
    ensures var heads := Heads(lines, n);
            heads != [] && heads[|heads| - 1] == OpenHead(lines, n) && Unbroken(lines, OpenHead(lines, n), n)
  {
    hide SectionNamed;
    if !lines[n - 1].Header? {
      OpenHeadIsLast(lines, n - 1);
    }
  }

  ghost predicate BlocksSoFar(lines: seq<Line>, n: nat, sessions: seq<Block>)
    requires n <= |lines|
  {
    var heads := Heads(lines, n);
    && |sessions| + (if SecAt(lines, n) == Session then 1 else 0) == |heads|
    && forall j | 0 <= j < |sessions| :: BlockMeans(lines, heads[j], sessions[j])
  }

  lemma CommittedMeans(lines: seq<Line>, n: nat)
    requires n <= |lines| && Closes(lines, n) && BlocksSoFar(lines, n, At(lines, n).sessions)
    ensures var all := Committed(At(lines, n)).sessions;
            && |all| == |Heads(lines, n)|
            && forall j | 0 <= j < |all| :: BlockMeans(lines, Heads(lines, n)[j], all[j])
  {
    SectionRight(lines, n);
    if SecAt(lines, n) == Session {
      OpenHeadIsLast(lines, n);
      CommitMeans(lines, n, OpenHead(lines, n));
    }
    var st, heads := At(lines, n), Heads(lines, n);
    hide At, BlockMeans, Merged, Heads, SecAt, OpenHead, Unbroken, Closes, Find, ValueIn, ReportedIn, Listed;
    MoreBlocks(lines, st, heads);
  }

  /** Committing adds the block under way, if any, behind those committed before. */
  lemma MoreBlocks(lines: seq<Line>, st: State, heads: seq<nat>)
    requires forall j | 0 <= j < |heads| :: heads[j] < |lines|
    requires |st.sessions| + (if st.sec == Session then 1 else 0) == |heads|
    requires forall j | 0 <= j < |st.sessions| :: BlockMeans(lines, heads[j], st.sessions[j])
    requires st.sec == Session ==> BlockMeans(lines, heads[|heads| - 1], Merged(st))
    ensures |Committed(st).sessions| == |heads|
    ensures forall j | 0 <= j < |heads| :: BlockMeans(lines, heads[j], Committed(st).sessions[j])
  {
    hide BlockMeans, Merged;
  }

  lemma {:induction false} BlocksRight(lines: seq<Line>, n: nat)
    requires n <= |lines|
    ensures BlocksSoFar(lines, n, At(lines, n).sessions)
  {
    hide At, BlockMeans, Remember, RememberAll, Committed;
    AtStart(lines);
    if n > 0 {
      BlocksRight(lines, n - 1);
      AtNext(lines, n - 1);
      CommittedKeeps(At(lines, n - 1));
      if lines[n - 1].Header? {
        CommittedMeans(lines, n - 1);
      }
    }
  }

  lemma CommittedKeeps(st: State)
    ensures Committed(st).sec == st.sec && Committed(st).warnings == st.warnings
    ensures Committed(st).defaults == st.defaults
  {
  }

  /**
    The reader means what the file says: one block per [SESSION] header, in order, each name at its
    last value in the block or else in the [DEFAULT] sections above it; and the defaults returned
    are the last values of all [DEFAULT] sections.
   */
  lemma SettingsMean(lines: seq<Line>)
    ensures var r, heads := Parsed(lines), Heads(lines, |lines|);
            && |r.sessions| == |heads|
            && (forall j | 0 <= j < |heads| :: BlockMeans(lines, heads[j], r.sessions[j]))
            && (forall k :: Find(r.defaults, k) == LastSet(lines, 0, |lines|, Default, k))
  {
    BlocksRight(lines, |lines|);
    CommittedMeans(lines, |lines|);
    CommittedKeeps(At(lines, |lines|));
    assert lines[..|lines|] == lines;
    forall k
      ensures Find(Parsed(lines).defaults, k) == LastSet(lines, 0, |lines|, Default, k)
    {
      DefaultsRight(lines, |lines|, k);
    }
    hide BlockMeans, Find, Heads, Committed;
  }

  // ---------------------------------------------------------------------------
  // Warnings

  /** What the reader says about line i, numbered from 1. */
  function WarningsAt(lines: seq<Line>, i: nat): seq<Warning>
    requires i < |lines|
  {
    match lines[i]
    case Header(name) => if SectionNamed(name) == Outside then [UnknownSection(i + 1, name)] else []
    case NoEquals => [NoEqualsSign(i + 1)]
    case Setting(key, _) => if SecAt(lines, i) == Outside then [IgnoredSetting(i + 1, key)] else []
    case _ => []
  }

  function WarningsUpTo(lines: seq<Line>, n: nat): seq<Warning>
    requires n <= |lines|
  {
    if n == 0 then [] else WarningsUpTo(lines, n - 1) + WarningsAt(lines, n - 1)
  }

  lemma {:induction false} WarningsRight(lines: seq<Line>, n: nat)
    requires n <= |lines|
    ensures At(lines, n).warnings == WarningsUpTo(lines, n)
  {
    hide At, Remember, RememberAll, SectionNamed, SecAt, Committed;
    AtStart(lines);
    if n > 0 {
      WarningsRight(lines, n - 1);
      AtNext(lines, n - 1);
      SectionRight(lines, n - 1);
      CommittedKeeps(At(lines, n - 1));
      assert At(lines, n - 1).warnings + [] == At(lines, n - 1).warnings;
    }
  }

  /** Every line that is passed over for no stated reason is reported, in order, and nothing else. */
  lemma WarningsMean(lines: seq<Line>)
    ensures Parsed(lines).warnings
         == WarningsUpTo(lines, |lines|) + if Heads(lines, |lines|) == [] then [NoSessions] else []
  {
    SettingsMean(lines);
    WarningsRight(lines, |lines|);
    CommittedKeeps(At(lines, |lines|));
    assert lines[..|lines|] == lines;
    hide Committed, WarningsUpTo, Heads, Find, BlockMeans, LastSet;
  }

  // ---------------------------------------------------------------------------
  // Secrets

  lemma {:induction false} LastSetIsSet(lines: seq<Line>, lo: nat, hi: nat, sec: Section, k: string)
    requires lo <= hi <= |lines|
    ensures LastSet(lines, lo, hi, sec, k).Some? ==> exists i | lo <= i < hi :: Sets(lines, i, sec, k)
    decreases hi
  {
    hide Sets;
    if lo < hi && !Sets(lines, hi - 1, sec, k) {
      LastSetIsSet(lines, lo, hi - 1, sec, k);
    }
  }

  lemma SettingIsNoSecret(line: string)
    ensures Classify(line).Setting? ==> !Secrets.IsSensitiveKey(Lower(Classify(line).key))
  {
    hide Trim, Cut, Secrets.IsSensitiveKey;
    if Classify(line).Setting? {
      SecretInAnyCase(Classify(line).key);
    }
  }

  lemma SetIsNoSecret(text: seq<string>, lo: nat, hi: nat, sec: Section, k: string)
    requires lo <= hi <= |text|
    requires LastSet(Read(text), lo, hi, sec, k).Some?
    ensures !Secrets.IsSensitiveKey(k)
  {
    LastSetIsSet(Read(text), lo, hi, sec, k);
    hide Classify, LastSet, Secrets.IsSensitiveKey, Lower;
    var i :| lo <= i < hi && Sets(Read(text), i, sec, k);
    SettingIsNoSecret(text[i]);
  }

  /** No dictionary the reader returns holds a setting whose name is a secret. */
  lemma NoSecretIsStored(text: seq<string>, k: string)
    requires Secrets.IsSensitiveKey(k)
    ensures k !in Parsed(Read(text)).defaults
    ensures forall j | 0 <= j < |Parsed(Read(text)).sessions| :: k !in Parsed(Read(text)).sessions[j].values
  {
    var lines := Read(text);
    var r := Parsed(lines);
    SettingsMean(lines);
    hide Parsed, Read, LastSet, Secrets.IsSensitiveKey, Listed, ReportedIn, Heads, EndOf;
    if k in r.defaults {
      assert Find(r.defaults, k).Some?;
      SetIsNoSecret(text, 0, |text|, Default, k);
    }
    forall j | 0 <= j < |r.sessions|
      ensures k !in r.sessions[j].values
    {
      BlockHasNoSecret(text, Heads(lines, |lines|)[j], r.sessions[j], k);
    }
  }

  lemma BlockHasNoSecret(text: seq<string>, h: nat, b: Block, k: string)
    requires h < |text| && BlockMeans(Read(text), h, b)
    requires Secrets.IsSensitiveKey(k)
    ensures k !in b.values
  {
    hide Secrets.IsSensitiveKey, LastSet, Read, Listed, ReportedIn, EndOf;
    if k in b.values {
      assert Find(b.values, k) == ValueIn(Read(text), h, k);
      if LastSet(Read(text), h + 1, EndOf(Read(text), h), Session, k).Some? {
        SetIsNoSecret(text, h + 1, EndOf(Read(text), h), Session, k);
      } else {
        SetIsNoSecret(text, 0, h, Default, k);
      }
    }
  }

  /** Two lines giving one credential, not opened by '[', some value each. */
  predicate SecretPair(x: string, y: string, k: string, v: string, w: string) {
    && x == k + "=" + v && y == k + "=" + w
    && '=' !in k && Secrets.IsSensitiveKey(Trim(k)) && Trim(k) != "" && Trim(k)[0] != '['
  }

  ghost predicate SameButSecret(x: string, y: string) {
    x == y || exists k, v, w :: SecretPair(x, y, k, v, w)
  }

  lemma SecretPairReadsAlike(x: string, y: string, k: string, v: string, w: string)
    requires SecretPair(x, y, k, v, w)
    ensures Classify(x) == Classify(y)
  {
    ValueIrrelevantExactlyWhen(k);
    hide Classify, Trim, Secrets.IsSensitiveKey;
    assert Assigned(k, v) == Assigned(k, w);
  }

  /** Files that differ only in such values give the same result, warnings included. */
  lemma SecretsDoNotInterfere(a: seq<string>, b: seq<string>)
    requires |a| == |b| && forall i | 0 <= i < |a| :: SameButSecret(a[i], b[i])
    ensures Parsed(Read(a)) == Parsed(Read(b))
  {
    forall i | 0 <= i < |a|
      ensures Classify(a[i]) == Classify(b[i])
    {
      hide Classify, SecretPair;
      if a[i] != b[i] {
        var k, v, w :| SecretPair(a[i], b[i], k, v, w);
        SecretPairReadsAlike(a[i], b[i], k, v, w);
      }
    }
    hide Classify, Parsed;
    assert Read(a) == Read(b);
  }
}
