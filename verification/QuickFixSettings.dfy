/**
  quickfix_config.cpp: the one-pass reader of engine settings, against what the file means. Values
  are kept under lower-cased names, which is how the case-insensitive map identifies them.
 */
module QuickFixSettings {
  import opened QuickFixLines

  datatype Section = Outside | Default | Session
  datatype Warning = UnknownSection(lineno: nat, name: string) | NoEqualsSign(lineno: nat)
                   | IgnoredSetting(lineno: nat, key: string) | NoSessions

  type Dictionary = map<string, string>

  datatype Block = Block(values: Dictionary, redacted: seq<string>)
  datatype Settings = Settings(defaults: Dictionary, sessions: seq<Block>, warnings: seq<Warning>)

  datatype State = State(
    sec: Section, defaults: Dictionary, defaultRedacted: seq<string>,
    current: Dictionary, currentRedacted: seq<string>, sessions: seq<Block>, warnings: seq<Warning>)

  const START := State(Outside, map[], [], map[], [], [], [])

  predicate Listed(names: seq<string>, k: string) {
    exists i | 0 <= i < |names| :: Lower(names[i]) == k
  }

  function Remember(names: seq<string>, key: string): seq<string> {
    if Listed(names, Lower(key)) then names else names + [key]
  }

  function RememberAll(names: seq<string>, more: seq<string>): seq<string> {
    if more == [] then names else Remember(RememberAll(names, more[..|more| - 1]), more[|more| - 1])
  }

  /** The block under way, with the defaults so far underneath it. */
  function Merged(st: State): Block {
    Block(st.defaults + st.current, RememberAll(st.defaultRedacted, st.currentRedacted))
  }

  function Committed(st: State): State {
    if st.sec != Session then st
    else st.(sessions := st.sessions + [Merged(st)], current := map[], currentRedacted := [])
  }

  function SectionNamed(name: string): Section {
    if Lower(name) == Lower("DEFAULT") then Default
    else if Lower(name) == Lower("SESSION") then Session
    else Outside
  }

  /** One line, the `lineno`-th. */
  function Stepped(st: State, lineno: nat, line: Line): State {
    match line
    case Skipped => st
    case Header(name) =>
      var done := Committed(st);
      done.(sec := SectionNamed(name),
            warnings := done.warnings
                        + if SectionNamed(name) == Outside then [UnknownSection(lineno, name)] else [])
    case NoEquals => st.(warnings := st.warnings + [NoEqualsSign(lineno)])
    case Credential(key) =>
      if st.sec == Default then st.(defaultRedacted := Remember(st.defaultRedacted, key))
      else st.(currentRedacted := Remember(st.currentRedacted, key))
    case Setting(key, val) =>
      if st.sec == Default then st.(defaults := st.defaults[Lower(key) := val])
      else if st.sec == Session then st.(current := st.current[Lower(key) := val])
      else st.(warnings := st.warnings + [IgnoredSetting(lineno, key)])
  }

  function Scanned(lines: seq<Line>): State {
    if lines == [] then START
    else Stepped(Scanned(lines[..|lines| - 1]), |lines|, lines[|lines| - 1])
  }

  function Closed(st: State): Settings {
    var done := Committed(st);
    Settings(done.defaults, done.sessions,
             done.warnings + if done.sessions == [] then [NoSessions] else [])
  }

  function Parsed(lines: seq<Line>): Settings {
    Closed(Scanned(lines))
  }

  function Read(text: seq<string>): (lines: seq<Line>)
    ensures |lines| == |text|
  {
    seq(|text|, i requires 0 <= i < |text| => Classify(text[i]))
  }

  // ---------------------------------------------------------------------------
  // The loop

  method RememberRedacted(names: seq<string>, key: string) returns (r: seq<string>)
    ensures r == Remember(names, key)
  {
    for i := 0 to |names|
      invariant forall j | 0 <= j < i :: Lower(names[j]) != Lower(key)
    {
      if Lower(names[i]) == Lower(key) {
        return names;
      }
    }
    return names + [key];
  }

  method Commit(st: State) returns (r: State)
    ensures r == Committed(st)
  {
    hide Remember;
    if st.sec != Session {
      return st;
    }
    var values := st.defaults + st.current;
    var redacted := st.defaultRedacted;
    for i := 0 to |st.currentRedacted|
      invariant redacted == RememberAll(st.defaultRedacted, st.currentRedacted[..i])
    {
      assert st.currentRedacted[..i + 1][..i] == st.currentRedacted[..i];
      redacted := RememberRedacted(redacted, st.currentRedacted[i]);
    }
    assert st.currentRedacted[..|st.currentRedacted|] == st.currentRedacted;
    return st.(sessions := st.sessions + [Block(values, redacted)], current := map[], currentRedacted := []);
  }

  lemma ScannedNext(lines: seq<Line>, n: nat)
    requires n <= |lines|
    ensures Scanned(lines[..0]) == START
    ensures n < |lines| ==> Scanned(lines[..n + 1]) == Stepped(Scanned(lines[..n]), n + 1, lines[n])
  {
    hide Stepped;
    if n < |lines| {
      assert lines[..n + 1][..n] == lines[..n];
    }
  }

  lemma SectionsByName(name: string)
    ensures Lower(name) == Lower("DEFAULT") ==> SectionNamed(name) == Default
    ensures Lower(name) != Lower("DEFAULT") && Lower(name) == Lower("SESSION") ==> SectionNamed(name) == Session
    ensures Lower(name) != Lower("DEFAULT") && Lower(name) != Lower("SESSION") ==> SectionNamed(name) == Outside
  {
    hide Lower;
  }

  method ParseSettings(text: seq<string>) returns (out: Settings)
    ensures out == Parsed(Read(text))
  {
    hide Committed, Remember, Classify, Scanned, SectionNamed;
    var st := START;
    var lineno := 0;
    ghost var lines := Read(text);
    ScannedNext(lines, 0);
    while lineno < |text|
      invariant 0 <= lineno <= |text|
      invariant st == Scanned(lines[..lineno])
    {
      var line := Classify(text[lineno]);
      ScannedNext(lines, lineno);
      lineno := lineno + 1;
      match line {
        case Skipped =>
        case Header(name) =>
          st := Commit(st);
          SectionsByName(name);
          if Lower(name) == Lower("DEFAULT") {
            st := st.(sec := Default);
          } else if Lower(name) == Lower("SESSION") {
            st := st.(sec := Session);
          } else {
            st := st.(sec := Outside);
            st := st.(warnings := st.warnings + [UnknownSection(lineno, name)]);
          }
        case NoEquals => st := st.(warnings := st.warnings + [NoEqualsSign(lineno)]);
        case Credential(key) =>
          if st.sec == Default {
            var names := RememberRedacted(st.defaultRedacted, key);
            st := st.(defaultRedacted := names);
          } else {
            var names := RememberRedacted(st.currentRedacted, key);
            st := st.(currentRedacted := names);
          }
        case Setting(key, val) =>
          if st.sec == Default {
            st := st.(defaults := st.defaults[Lower(key) := val]);
          } else if st.sec == Session {
            st := st.(current := st.current[Lower(key) := val]);
          } else {
            st := st.(warnings := st.warnings + [IgnoredSetting(lineno, key)]);
          }
      }
    }
    assert lines[..|text|] == lines;
    st := Commit(st);
    out := Settings(st.defaults, st.sessions, st.warnings);
    if out.sessions == [] {
      out := out.(warnings := out.warnings + [NoSessions]);
    }
  }
}
