/**
  tail_reader.cpp: lines out of a growing file, read in chunks, over rotations.

  The disk is a parameter. Between polls it may do anything a poll can notice; see
  `Noticed`. Within a poll it stands still, and a read returns up to CHUNK bytes.
 */
module TailReader {
  import opened Wrappers

  // ---------------------------------------------------------------------------
  // Lines, declaratively

  function FindNewline(s: string): (p: nat)
    ensures p <= |s| && (p < |s| ==> s[p] == '\n') && forall i :: 0 <= i < p ==> s[i] != '\n'
  {
    if s == "" || s[0] == '\n' then 0 else 1 + FindNewline(s[1..])
  }

  function StripCr(s: string): string {
    if s != "" && s[|s| - 1] == '\r' then s[..|s| - 1] else s
  }

  /** A line is worth delivering unless nothing is left of it. */
  function Deliverable(line: string): seq<string> {
    if StripCr(line) == "" then [] else [StripCr(line)]
  }

  /** The non-empty newline-terminated lines of a text, one carriage return stripped. */
  function Lines(s: string): seq<string> {
    var p := FindNewline(s);
    if p == |s| then [] else Deliverable(s[..p]) + Lines(s[p + 1..])
  }

  /** What follows the last newline. */
  function Unfinished(s: string): (r: string)
    ensures forall i :: 0 <= i < |r| ==> r[i] != '\n'
  {
    var p := FindNewline(s);
    if p == |s| then s else Unfinished(s[p + 1..])
  }

  lemma FirstLine(s: string)
    requires FindNewline(s) < |s|
    ensures var p := FindNewline(s);
            Lines(s) == Deliverable(s[..p]) + Lines(s[p + 1..]) && Unfinished(s) == Unfinished(s[p + 1..])
  {
  }

  lemma NoLine(s: string)
    requires FindNewline(s) == |s|
    ensures Lines(s) == [] && Unfinished(s) == s
  {
  }

  /** Reading more bytes continues the unfinished line and nothing else. */
  lemma {:induction false} MoreBytes(a: string, b: string)
    ensures Lines(a + b) == Lines(a) + Lines(Unfinished(a) + b)
    ensures Unfinished(a + b) == Unfinished(Unfinished(a) + b)
    decreases |a|
  {
    hide Lines, Unfinished, Deliverable;
    var p := FindNewline(a);
    if p < |a| {
      FirstLineStays(a, b);
      FirstLine(a);
      FirstLine(a + b);
      MoreBytes(a[p + 1..], b);
    } else {
      NoLine(a);
    }
  }

  lemma FirstLineStays(a: string, b: string)
    requires FindNewline(a) < |a|
    ensures var p := FindNewline(a);
            FindNewline(a + b) == p && (a + b)[..p] == a[..p] && (a + b)[p + 1..] == a[p + 1..] + b
  {
    var p := FindNewline(a);
    assert (a + b)[p] == '\n' && forall i :: 0 <= i < p ==> (a + b)[i] == a[i];
  }

  // ---------------------------------------------------------------------------
  // The disk and the reader's state

  /** What the path names, if anything, and the bytes of every file, also of those still
      open but no longer named. */
  datatype Disk = Disk(path: Option<nat>, bytes: map<nat, string>)

  /** A named file exists, and no file has the identity 0, which means "unknown". */
  predicate Sound(d: Disk) {
    d.path.Some? ==> d.path.value in d.bytes && d.path.value != 0
  }

  function FileId(d: Disk): nat {
    if d.path.Some? then d.path.value else 0
  }

  function FileSize(d: Disk): nat
    requires Sound(d)
  {
    if d.path.Some? then |d.bytes[d.path.value]| else 0
  }

  datatype Stream = Stream(id: nat, pos: nat)

  datatype Reader = Reader(
    fromBeginning: bool, stream: Option<Stream>, carry: string, inode: nat, lastSize: nat, rotations: nat)

  /** open_stream: a failed open leaves everything but the stream as it was. */
  function OpenStream(r: Reader, d: Disk, seekToEnd: bool): Reader
    requires Sound(d)
  {
    if d.path.None? then r.(stream := None)
    else
      r.(stream := Some(Stream(FileId(d), if seekToEnd then FileSize(d) else 0)),
         inode := FileId(d), lastSize := FileSize(d), carry := "")
  }

  /** detect_rotation: a new file under the name, or the old one shorter than last seen. */
  function DetectRotation(r: Reader, d: Disk): Reader
    requires Sound(d)
  {
    if d.path.None? then r
    else if (r.inode != 0 && FileId(d) != 0 && FileId(d) != r.inode) || FileSize(d) < r.lastSize then
      OpenStream(r.(rotations := r.rotations + 1), d, false)
    else r.(lastSize := FileSize(d))
  }

  /** The bytes a reader standing on an open stream has not read yet. */
  function Unread(r: Reader, d: Disk): string {
    if r.stream.Some? && r.stream.value.id in d.bytes && r.stream.value.pos <= |d.bytes[r.stream.value.id]|
    then d.bytes[r.stream.value.id][r.stream.value.pos..] else ""
  }

  function Prepare(r: Reader, d: Disk): Reader
    requires Sound(d)
  {
    var open := if r.stream.None? then OpenStream(r, d, !r.fromBeginning) else r;
    if open.stream.None? then open else DetectRotation(open, d)
  }

  /** A whole poll: open or reopen as needed, then deliver every line completed by the
      bytes waiting, and keep the rest. */
  function AfterPoll(r: Reader, d: Disk): (Reader, seq<string>)
    requires Sound(d)
  {
    var ready := Prepare(r, d);
    var got := Unread(ready, d);
    if ready.stream.None? || got == "" then (ready, [])
    else
      (ready.(stream := Some(ready.stream.value.(pos := ready.stream.value.pos + |got|)),
              carry := Unfinished(ready.carry + got)),
       Lines(ready.carry + got))
  }

  /** The reader object, reading in chunks of at most CHUNK bytes. */
  class TailReader {
    const CHUNK: nat
    const fromBeginning: bool
    var stream: Option<Stream>
    var carry: string
    var inode: nat
    var lastSize: nat
    var rotations: nat

    ghost function State(): Reader
      reads this
    {
      Reader(fromBeginning, stream, carry, inode, lastSize, rotations)
    }

    ghost predicate Valid()
      reads this
    {
      0 < CHUNK && forall i :: 0 <= i < |carry| ==> carry[i] != '\n'
    }

    constructor (d: Disk, start: bool, chunk: nat)
      requires Sound(d) && 0 < chunk
      ensures Valid() && CHUNK == chunk && fromBeginning == start
      ensures State() == OpenStream(Reader(start, None, "", 0, 0, 0), d, !start)
    {
      CHUNK, fromBeginning := chunk, start;
      stream, carry, inode, lastSize, rotations := None, "", 0, 0, 0;
      new;
      Open(d, !start);
    }

    /** A failed open leaves everything but the stream as it was. */
    method Open(d: Disk, seekToEnd: bool)
      requires Sound(d)
      modifies this
      ensures State() == OpenStream(old(State()), d, seekToEnd)
    {
      stream := None;
      if d.path.None? {
        return;
      }
      inode := FileId(d);
      stream := Some(Stream(inode, if seekToEnd then FileSize(d) else 0));
      lastSize := FileSize(d);
      carry := "";
    }

    method Rotate(d: Disk)
      requires Sound(d)
      modifies this
      ensures State() == DetectRotation(old(State()), d)
    {
      if d.path.None? {
        return;
      }
      var id, size := FileId(d), FileSize(d);
      if (inode != 0 && id != 0 && id != inode) || size < lastSize {
        rotations := rotations + 1;
        Open(d, false);
        return;
      }
      lastSize := size;
    }

    /** Reads chunk by chunk, handing complete lines on as it goes. */
    method Poll(d: Disk) returns (lines: seq<string>)
      requires Valid() && Sound(d)
      modifies this
      ensures Valid()
      ensures (State(), lines) == AfterPoll(old(State()), d)
    {
      hide Lines, Unfinished, OpenStream, DetectRotation, Unread;
      lines := [];
      CarryStaysClean(State(), d);
      if stream.None? {
        Open(d, !fromBeginning);
      }
      if stream.None? {
        return;
      }
      Rotate(d);
      if stream.None? {
        return;
      }
      ghost var ready := State();
      assert ready == Prepare(old(State()), d);
      var data := Unread(Reader(fromBeginning, stream, carry, inode, lastSize, rotations), d);
      lines := ReadAll(ready, data);
      assert data[..|data|] == data;
    }

    /** The outer loop, over the bytes waiting. */
    method ReadAll(ghost ready: Reader, data: string) returns (lines: seq<string>)
      requires Valid() && State() == ready && stream.Some?
      modifies this
      ensures Valid()
      ensures ReadSoFar(ready, data, |data|, State(), lines)
      ensures data == "" ==> lines == [] && State() == ready
    {
      hide Lines, Unfinished;
      lines := [];
      var read := 0;
      NothingReadYet(carry, data);
      while read < |data|
        invariant read <= |data| && ReadSoFar(ready, data, read, State(), lines)
      {
        var got := if |data| - read < CHUNK then |data| - read else CHUNK;
        var chunk := data[read..read + got];
        ReadChunk(ready, data, read, got, State(), lines);
        var delivered, rest := DeliverLines(carry + chunk);
        lines := lines + delivered;
        carry := rest;
        stream := Some(stream.value.(pos := stream.value.pos + got));
        read := read + got;
      }
    }
  }

  lemma CarryStaysClean(r: Reader, d: Disk)
    requires Sound(d)
    ensures Prepare(r, d).carry == r.carry || Prepare(r, d).carry == ""
  {
  }

  /** The first n waiting bytes have been read; the rest of the state is as the poll found it. */
  ghost predicate ReadSoFar(ready: Reader, data: string, n: nat, now: Reader, lines: seq<string>)
    requires n <= |data|
  {
    && ready.stream.Some?
    && lines == Lines(ready.carry + data[..n])
    && now == ready.(carry := if n == 0 then ready.carry else Unfinished(ready.carry + data[..n]),
                     stream := Some(ready.stream.value.(pos := ready.stream.value.pos + n)))
    && now.carry == Unfinished(ready.carry + data[..n])
  }

  lemma {:induction false} NoNewlineNoLines(s: string)
    requires forall i :: 0 <= i < |s| ==> s[i] != '\n'
    ensures Lines(s) == [] && Unfinished(s) == s
  {
    assert FindNewline(s) == |s|;
  }

  lemma NothingReadYet(carry: string, data: string)
    requires forall i :: 0 <= i < |carry| ==> carry[i] != '\n'
    ensures Lines(carry + data[..0]) == [] && Unfinished(carry + data[..0]) == carry
  {
    assert carry + data[..0] == carry;
    NoNewlineNoLines(carry);
  }

  lemma ReadChunk(ready: Reader, data: string, n: nat, got: nat, now: Reader, lines: seq<string>)
    requires 0 < got && n + got <= |data| && ReadSoFar(ready, data, n, now, lines)
    ensures var buffer := now.carry + data[n..n + got];
            ReadSoFar(ready, data, n + got,
                      now.(carry := Unfinished(buffer),
                           stream := Some(now.stream.value.(pos := now.stream.value.pos + got))),
                      lines + Lines(buffer))
  {
    hide Lines, Unfinished;
    MoreBytes(ready.carry + data[..n], data[n..n + got]);
    assert ready.carry + data[..n] + data[n..n + got] == ready.carry + data[..n + got];
  }

  /** The lines up to index start have been handed on. */
  ghost predicate DeliveredTo(carry: string, start: nat, lines: seq<string>) {
    && start <= |carry| && lines + Lines(carry[start..]) == Lines(carry)
    && Unfinished(carry[start..]) == Unfinished(carry)
  }

  lemma DeliverStart(carry: string)
    ensures DeliveredTo(carry, 0, [])
  {
    assert carry[0..] == carry;
  }

  lemma DeliverNext(carry: string, start: nat, lines: seq<string>)
    requires DeliveredTo(carry, start, lines) && start + FindNewline(carry[start..]) < |carry|
    ensures var nl := start + FindNewline(carry[start..]);
            DeliveredTo(carry, nl + 1, lines + Deliverable(carry[start..nl]))
  {
    hide Lines, Unfinished, Deliverable;
    var p := FindNewline(carry[start..]);
    FirstLine(carry[start..]);
    assert carry[start..][..p] == carry[start..start + p];
    assert carry[start..][p + 1..] == carry[start + p + 1..];
  }

  lemma DeliverEnd(carry: string, start: nat, lines: seq<string>)
    requires DeliveredTo(carry, start, lines) && start + FindNewline(carry[start..]) == |carry|
    ensures lines == Lines(carry) && carry[start..] == Unfinished(carry)
  {
  }

  lemma WithoutCr(carry: string, start: nat, nl: nat)
    requires start <= nl <= |carry|
    ensures var end := if nl > start && carry[nl - 1] == '\r' then nl - 1 else nl;
            Deliverable(carry[start..nl]) == if end > start then [carry[start..end]] else []
  {
    var line := carry[start..nl];
    assert nl > start ==> line[|line| - 1] == carry[nl - 1] && line[..|line| - 1] == carry[start..nl - 1];
  }

  /** The inner loop: every complete line of the buffer, then what is left of it. */
  method DeliverLines(carry: string) returns (lines: seq<string>, rest: string)
    ensures lines == Lines(carry) && rest == Unfinished(carry)
  {
    hide Lines, Unfinished, DeliveredTo, Deliverable;
    var start := 0;
    lines := [];
    DeliverStart(carry);
    while start + FindNewline(carry[start..]) < |carry|
      invariant start <= |carry| && DeliveredTo(carry, start, lines)
      decreases |carry| - start
    {
      var nl := start + FindNewline(carry[start..]);
      DeliverNext(carry, start, lines);
      WithoutCr(carry, start, nl);
      var end := nl;
      if end > start && carry[end - 1] == '\r' {
        end := end - 1;
      }
      lines := lines + (if end > start then [carry[start..end]] else []);
      start := nl + 1;
    }
    DeliverEnd(carry, start, lines);
    rest := carry[start..];
  }

  /** However the bytes are cut into chunks, the lines and the carry come out the same. */
  function Feed(carry: string, chunks: seq<string>): (seq<string>, string)
    decreases |chunks|
  {
    if chunks == [] then ([], carry)
    else
      var rest := Feed(Unfinished(carry + chunks[0]), chunks[1..]);
      (Lines(carry + chunks[0]) + rest.0, rest.1)
  }

  function Concat(chunks: seq<string>): string {
    if chunks == [] then "" else chunks[0] + Concat(chunks[1..])
  }

  lemma {:induction false} ChunkingDoesNotMatter(carry: string, chunks: seq<string>)
    requires forall i :: 0 <= i < |carry| ==> carry[i] != '\n'
    ensures Feed(carry, chunks) == (Lines(carry + Concat(chunks)), Unfinished(carry + Concat(chunks)))
    decreases |chunks|
  {
    hide Lines, Unfinished;
    if chunks == [] {
      assert carry + "" == carry;
      NoNewlineNoLines(carry);
    } else {
      ChunkingDoesNotMatter(Unfinished(carry + chunks[0]), chunks[1..]);
      MoreBytes(carry + chunks[0], Concat(chunks[1..]));
      assert carry + Concat(chunks) == carry + chunks[0] + Concat(chunks[1..]);
    }
  }

  // ---------------------------------------------------------------------------
  // Runs: polls over a changing disk

  /** All that was read from one opening of one file, and all that was delivered of it. */
  datatype Generation = Generation(id: nat, start: nat, read: string, lines: seq<string>)

  /** The disk as the last poll saw it, the reader, and its generations, oldest first. */
  datatype World = World(disk: Disk, reader: Reader, gens: seq<Generation>)

  function Opened(r: Reader): seq<Generation> {
    if r.stream.None? then [] else [Generation(r.stream.value.id, r.stream.value.pos, "", [])]
  }

  function Begin(d: Disk, fromBeginning: bool): World
    requires Sound(d)
  {
    var r := OpenStream(Reader(fromBeginning, None, "", 0, 0, 0), d, !fromBeginning);
    World(d, r, Opened(r))
  }

  function PollWorld(w: World, d: Disk): World
    requires Sound(d)
  {
    var ready := Prepare(w.reader, d);
    var gens := if w.reader.stream.None? || ready.rotations != w.reader.rotations
                then w.gens + Opened(ready) else w.gens;
    var after := AfterPoll(w.reader, d);
    if gens == [] then World(d, after.0, gens)
    else
      var g := gens[|gens| - 1];
      World(d, after.0, gens[|gens| - 1 := g.(read := g.read + Unread(ready, d), lines := g.lines + after.1)])
  }

  /** The next poll will find another file under the name, or a visibly shorter one. */
  predicate WillRotate(r: Reader, d: Disk)
    requires Sound(d)
  {
    d.path.Some? && ((r.inode != 0 && FileId(d) != r.inode) || FileSize(d) < r.lastSize)
  }

  /** What the disk may do between polls: anything that makes the reader rotate, else the
      open file has only been appended to. Missed rotations are what this leaves out. */
  predicate Noticed(w: World, d: Disk) {
    && Sound(d)
    && (w.reader.stream.Some? ==>
          WillRotate(w.reader, d) ||
          (w.reader.stream.value.id in w.disk.bytes && w.reader.stream.value.id in d.bytes
           && w.disk.bytes[w.reader.stream.value.id] <= d.bytes[w.reader.stream.value.id]))
  }

  /** A generation's bytes are one stretch of one file, and its lines are their lines. */
  ghost predicate Faithful(g: Generation, d: Disk) {
    && g.id in d.bytes && g.start + |g.read| <= |d.bytes[g.id]|
    && d.bytes[g.id][g.start..g.start + |g.read|] == g.read
  }

  ghost predicate TailInv(w: World) {
    && Sound(w.disk)
    && (w.reader.stream.None? <==> w.gens == [])
    && (forall i :: 0 <= i < |w.gens| ==> w.gens[i].lines == Lines(w.gens[i].read))
    && (w.gens != [] ==>
          var g := w.gens[|w.gens| - 1];
          && w.reader.stream == Some(Stream(g.id, g.start + |g.read|)) && w.reader.inode == g.id && g.id != 0
          && w.reader.carry == Unfinished(g.read) && Faithful(g, w.disk))
  }

  lemma BeginInv(d: Disk, fromBeginning: bool)
    requires Sound(d)
    ensures TailInv(Begin(d, fromBeginning))
  {
  }

  /** After opening or rotating, the last generation is the one being read. */
  lemma PrepareKeeps(w: World, d: Disk)
    requires TailInv(w) && Noticed(w, d)
    ensures TailInv(Prepared(w, d))
  {
    hide Lines, Unfinished;
    if w.reader.stream.Some? && !WillRotate(w.reader, d) {
      var g := w.gens[|w.gens| - 1];
      var before, after := w.disk.bytes[g.id], d.bytes[g.id];
      assert after[g.start..g.start + |g.read|] == before[g.start..g.start + |g.read|];
    }
    NoNewlineNoLines("");
  }

  lemma ReadOn(g: Generation, d: Disk, got: string)
    requires Faithful(g, d) && g.lines == Lines(g.read)
    requires got == d.bytes[g.id][g.start + |g.read|..]
    ensures Faithful(g.(read := g.read + got, lines := g.lines + Lines(Unfinished(g.read) + got)), d)
    ensures Lines(g.read + got) == g.lines + Lines(Unfinished(g.read) + got)
    ensures Unfinished(g.read + got) == Unfinished(Unfinished(g.read) + got)
    ensures g.start + |g.read + got| == |d.bytes[g.id]|
  {
    hide Lines, Unfinished;
    MoreBytes(g.read, got);
  }

  /** A poll keeps generations apart: earlier ones are left as they are, the current one is
      read to the end of its file, and its lines and carry are those of all its bytes. */
  lemma PollKeeps(w: World, d: Disk)
    requires TailInv(w) && Noticed(w, d)
    ensures TailInv(PollWorld(w, d))
    ensures var w' := PollWorld(w, d);
            && |w.gens| <= |w'.gens| <= |w.gens| + 1
            && (forall i :: 0 <= i < |w.gens| && i < |w'.gens| - 1 ==> w'.gens[i] == w.gens[i])
            && (|w'.gens| == |w.gens| + 1 <==>
                  w'.reader.stream.Some? && (w.reader.stream.None? || WillRotate(w.reader, d)))
            && (w'.gens != [] ==>
                  var g := w'.gens[|w'.gens| - 1];
                  g.id in d.bytes && g.start + |g.read| == |d.bytes[g.id]|)
  {
    hide Lines, Unfinished, Faithful;
    var mid := Prepared(w, d);
    PrepareKeeps(w, d);
    PreparedGenerations(w, d);
    ReadKeeps(mid);
    hide TailInv, Noticed, Prepared, WillRotate;
    assert PollWorld(w, d) == ReadRest(mid) by {
      PollIsRead(w, d);
    }
  }

  /** The world after opening or rotating, before anything is read. */
  function Prepared(w: World, d: Disk): World
    requires Sound(d)
  {
    var ready := Prepare(w.reader, d);
    World(d, ready, if w.reader.stream.None? || ready.rotations != w.reader.rotations
                    then w.gens + Opened(ready) else w.gens)
  }

  /** And after the current file has been read to its end. */
  function ReadRest(w: World): World {
    var got := Unread(w.reader, w.disk);
    if w.gens == [] || w.reader.stream.None? then w
    else
      var g, r := w.gens[|w.gens| - 1], w.reader;
      World(w.disk,
            if got == "" then r
            else r.(stream := Some(r.stream.value.(pos := r.stream.value.pos + |got|)),
                    carry := Unfinished(r.carry + got)),
            w.gens[|w.gens| - 1 := g.(read := g.read + got,
                                      lines := g.lines + if got == "" then [] else Lines(r.carry + got))])
  }

  lemma PollIsRead(w: World, d: Disk)
    requires Sound(d) && (Prepared(w, d).reader.stream.None? <==> Prepared(w, d).gens == [])
    ensures PollWorld(w, d) == ReadRest(Prepared(w, d))
  {
    hide Prepare, Lines, Unfinished;
  }

  /** A rotation or a first opening starts one generation; nothing else does. */
  lemma PreparedGenerations(w: World, d: Disk)
    requires TailInv(w) && Noticed(w, d)
    ensures var mid := Prepared(w, d);
            && w.gens <= mid.gens && |mid.gens| <= |w.gens| + 1
            && (|mid.gens| == |w.gens| + 1 <==>
                  mid.reader.stream.Some? && (w.reader.stream.None? || WillRotate(w.reader, d)))
            && (mid.reader.stream.None? <==> mid.gens == [])
  {
    hide Lines, Unfinished, Faithful;
  }

  lemma ReadKeeps(w: World)
    requires TailInv(w)
    ensures TailInv(ReadRest(w))
    ensures var w' := ReadRest(w);
            && |w'.gens| == |w.gens| && (forall i :: 0 <= i < |w.gens| - 1 ==> w'.gens[i] == w.gens[i])
            && (w'.reader.stream.None? <==> w.reader.stream.None?)
            && (w'.gens != [] ==>
                  var g := w'.gens[|w'.gens| - 1];
                  g.id in w.disk.bytes && g.start + |g.read| == |w.disk.bytes[g.id]|)
  {
    hide Lines, Unfinished, Faithful;
    if w.gens != [] {
      var g := w.gens[|w.gens| - 1];
      var got := Unread(w.reader, w.disk);
      UnreadIsRest(w);
      ReadOn(g, w.disk, got);
      hide Unread;
      if got == "" {
        assert g.read + got == g.read && g.lines + [] == g.lines;
        assert ReadRest(w).gens == w.gens;
      }
    }
  }

  lemma UnreadIsRest(w: World)
    requires TailInv(w) && w.gens != []
    ensures var g := w.gens[|w.gens| - 1];
            && g.id in w.disk.bytes && g.start + |g.read| <= |w.disk.bytes[g.id]| && g.lines == Lines(g.read)
            && Unread(w.reader, w.disk) == w.disk.bytes[g.id][g.start + |g.read|..]
  {
    hide Lines, Unfinished;
  }

  function Polls(w: World, disks: seq<Disk>): World
    requires forall d :: d in disks ==> Sound(d)
  {
    if disks == [] then w else PollWorld(Polls(w, disks[..|disks| - 1]), disks[|disks| - 1])
  }

  ghost predicate AllNoticed(w: World, disks: seq<Disk>) {
    && (forall d :: d in disks ==> Sound(d))
    && forall i :: 0 <= i < |disks| ==> Noticed(Polls(w, disks[..i]), disks[i])
  }

  lemma NoticedBefore(w: World, disks: seq<Disk>, n: nat)
    requires AllNoticed(w, disks) && n <= |disks|
    ensures AllNoticed(w, disks[..n])
  {
    hide Polls, Noticed;
    assert forall i :: 0 <= i < n ==> disks[..n][..i] == disks[..i];
  }

  lemma {:induction false} PollsKeep(w: World, disks: seq<Disk>)
    requires TailInv(w) && AllNoticed(w, disks)
    ensures TailInv(Polls(w, disks))
  {
    hide PollWorld, TailInv, Noticed;
    if disks != [] {
      var n := |disks| - 1;
      NoticedBefore(w, disks, n);
      PollsKeep(w, disks[..n]);
      assert Noticed(Polls(w, disks[..n]), disks[n]);
      PollKeeps(Polls(w, disks[..n]), disks[n]);
    }
  }

  /** Some poll so far left the disk with the generation's bytes in one stretch of one file. */
  ghost predicate FaithfulOnce(w: World, disks: seq<Disk>, g: Generation)
    requires forall d :: d in disks ==> Sound(d)
  {
    exists k :: 0 <= k <= |disks| && FaithfulAt(w, disks, g, k)
  }

  ghost predicate FaithfulAt(w: World, disks: seq<Disk>, g: Generation, k: nat)
    requires k <= |disks| && forall d :: d in disks ==> Sound(d)
  {
    Faithful(g, Polls(w, disks[..k]).disk)
  }

  lemma FaithfulEarlier(w: World, disks: seq<Disk>, g: Generation)
    requires disks != [] && forall d :: d in disks ==> Sound(d)
    requires FaithfulOnce(w, disks[..|disks| - 1], g)
    ensures FaithfulOnce(w, disks, g)
  {
    hide Polls, Faithful;
    var before := disks[..|disks| - 1];
    var k :| 0 <= k <= |before| && FaithfulAt(w, before, g, k);
    assert before[..k] == disks[..k];
    assert FaithfulAt(w, disks, g, k);
  }

  lemma FaithfulNow(w: World, disks: seq<Disk>)
    requires TailInv(w) && AllNoticed(w, disks)
    ensures var now := Polls(w, disks);
            now.gens != [] ==> FaithfulOnce(w, disks, now.gens[|now.gens| - 1])
  {
    PollsKeep(w, disks);
    var now := Polls(w, disks);
    assert TailInv(now);
    assert disks[..|disks|] == disks;
    hide Polls, AllNoticed, Faithful;
    if now.gens != [] {
      assert FaithfulAt(w, disks, now.gens[|now.gens| - 1], |disks|);
    }
  }

  /** No generation mixes the bytes of two files, or two stretches of one. */
  lemma {:induction false} GenerationsStayApart(w: World, disks: seq<Disk>, i: nat)
    requires TailInv(w) && |w.gens| <= 1 && AllNoticed(w, disks)
    requires i < |Polls(w, disks).gens|
    ensures FaithfulOnce(w, disks, Polls(w, disks).gens[i])
  {
    hide TailInv, Noticed, PollWorld, FaithfulOnce;
    FaithfulNow(w, disks);
    if i < |Polls(w, disks).gens| - 1 {
      var n := |disks| - 1;
      NoticedBefore(w, disks, n);
      PollsKeep(w, disks[..n]);
      assert Noticed(Polls(w, disks[..n]), disks[n]);
      PollKeeps(Polls(w, disks[..n]), disks[n]);
      GenerationsStayApart(w, disks[..n], i);
      FaithfulEarlier(w, disks, Polls(w, disks).gens[i]);
    }
  }

  /** Over any number of polls and rotations, every generation's lines are exactly the lines
      of the bytes read from its opening on, those bytes stood in one stretch of one file at
      some poll, and the carry is exactly the unfinished end of the current generation. */
  lemma {:induction false} EveryGenerationExact(d: Disk, fromBeginning: bool, disks: seq<Disk>)
    requires Sound(d) && AllNoticed(Begin(d, fromBeginning), disks)
    ensures var start := Begin(d, fromBeginning);
            var w := Polls(start, disks);
            && (forall i :: 0 <= i < |w.gens| ==>
                  w.gens[i].lines == Lines(w.gens[i].read) && FaithfulOnce(start, disks, w.gens[i]))
            && (w.gens != [] ==> w.reader.carry == Unfinished(w.gens[|w.gens| - 1].read))
  {
    var start := Begin(d, fromBeginning);
    BeginInv(d, fromBeginning);
    assert |start.gens| <= 1;
    hide Begin, Polls, Lines, Unfinished, AllNoticed, FaithfulOnce;
    PollsKeep(start, disks);
    forall i | 0 <= i < |Polls(start, disks).gens|
      ensures FaithfulOnce(start, disks, Polls(start, disks).gens[i])
    {
      GenerationsStayApart(start, disks, i);
    }
  }

  // Appending, replacing the file under a new identity, and shrinking it below what was
  // last seen are all noticed.

  lemma AppendIsNoticed(w: World, more: string)
    requires TailInv(w) && w.disk.path.Some?
    ensures var id := w.disk.path.value;
            Noticed(w, w.disk.(bytes := w.disk.bytes[id := w.disk.bytes[id] + more]))
  {
  }

  lemma ReplaceIsNoticed(w: World, id: nat, content: string)
    requires TailInv(w) && id != 0 && id !in w.disk.bytes
    ensures var d := Disk(Some(id), w.disk.bytes[id := content]);
            Noticed(w, d) && (w.reader.stream.Some? ==> WillRotate(w.reader, d))
  {
  }

  lemma ShrinkIsNoticed(w: World, content: string)
    requires TailInv(w) && w.disk.path.Some? && |content| < w.reader.lastSize
    ensures var d := w.disk.(bytes := w.disk.bytes[w.disk.path.value := content]);
            Noticed(w, d) && WillRotate(w.reader, d)
  {
    var id := w.disk.path.value;
    var d := w.disk.(bytes := w.disk.bytes[id := content]);
    assert d.path == w.disk.path && d.bytes[id] == content;
    assert FileSize(d) == |content|;
  }
}
