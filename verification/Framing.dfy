/**
 * Newline framing (runtime/internal/mcp/transport.go:202-222, 416-430): concurrent writers that put a
 * message and a newline on the wire under one lock, and the line scanner with its limit on the other side.
 * A character stands for a byte.
 */
module Framing {
  import opened Strings

  /** The scanner's buffer limit: a line and its newline must fit. */
  const MAX_TOKEN: nat := 1024 * 1024

  // ---------------------------------------------------------------- the scanner

  function NewlineAt(s: string, i: nat): (k: nat)
    requires i <= |s|
    ensures i <= k <= |s|
    ensures k < |s| ==> s[k] == '\n'
    ensures forall j :: i <= j < k ==> s[j] != '\n'
    decreases |s| - i
  {
    if i == |s| || s[i] == '\n' then i else NewlineAt(s, i + 1)
  }

  function StripReturn(line: string): string {
    if line != "" && line[|line| - 1] == '\r' then line[..|line| - 1] else line
  }

  /** The lines the scanner yields, and whether it gave up on one that does not fit. */
  datatype Scanned = Scanned(lines: seq<string>, tooLong: bool)

  function Scan(s: string): Scanned
    decreases |s|
  {
    if s == "" then Scanned([], false)
    else
      var k := NewlineAt(s, 0);
      if k >= MAX_TOKEN then Scanned([], true)
      else if k == |s| then Scanned([StripReturn(s)], false)
      else
        var after := Scan(s[k + 1..]);
        Scanned([StripReturn(s[..k])] + after.lines, after.tooLong)
  }

  function NonEmpty(lines: seq<string>): seq<string> {
    if lines == [] then []
    else if lines[0] == "" then NonEmpty(lines[1..])
    else [lines[0]] + NonEmpty(lines[1..])
  }

  /** The lines before the first at which the stop channel is found closed. */
  function Heard(lines: seq<string>, stopped: nat -> bool, k: nat): seq<string> {
    if lines == [] || stopped(k) then [] else [lines[0]] + Heard(lines[1..], stopped, k + 1)
  }

  /** One call of the scanner: the next line, if there is one that fits, and the text after it. */
  method ScanLine(rest: string) returns (more: bool, line: string, next: string)
    ensures more <==> Scan(rest).lines != []
    ensures more ==> Scan(rest).lines == [line] + Scan(next).lines && |next| < |rest|
  {
    hide Scan, StripReturn;
    LineRead(rest);
    var end := NewlineAt(rest, 0);
    if rest == "" || end >= MAX_TOKEN {
      return false, "", "";
    }
    more, line, next := true, StripReturn(rest[..end]), if end == |rest| then "" else rest[end + 1..];
    assert Scan(rest).lines == [Scan(rest).lines[0]] + Scan(rest).lines[1..];
  }

  /**
   * The read loop looks at the stop channel at every line it scans, and hands over the non-empty lines before
   * it finds the channel closed, in order.
   */
  method ReadLoop(stream: string, stopped: nat -> bool) returns (handed: seq<string>)
    ensures handed == NonEmpty(Heard(Scan(stream).lines, stopped, 0))
  {
    hide Scan, NonEmpty, Heard;
    var rest, k := stream, 0;
    handed := [];
    var more, line, next := ScanLine(rest);
    while more && !stopped(k)
      invariant more <==> Scan(rest).lines != []
      invariant more ==> Scan(rest).lines == [line] + Scan(next).lines && |next| < |rest|
      invariant NonEmpty(Heard(Scan(stream).lines, stopped, 0)) == handed + NonEmpty(Heard(Scan(rest).lines, stopped, k))
      decreases |rest|
    {
      HeardRound(line, Scan(next).lines, stopped, k);
      if line != "" {
        handed := handed + [line];
      }
      rest, k := next, k + 1;
      more, line, next := ScanLine(rest);
    }
    HeardNone(Scan(rest).lines, stopped, k);
  }

  lemma HeardRound(line: string, rest: seq<string>, stopped: nat -> bool, k: nat)
    requires !stopped(k)
    ensures NonEmpty(Heard([line] + rest, stopped, k)) ==
            (if line == "" then [] else [line]) + NonEmpty(Heard(rest, stopped, k + 1))
  {
    hide NonEmpty;
    assert ([line] + rest)[1..] == rest;
    FilterOne(line, Heard(rest, stopped, k + 1));
  }

  lemma HeardNone(lines: seq<string>, stopped: nat -> bool, k: nat)
    requires lines == [] || stopped(k)
    ensures NonEmpty(Heard(lines, stopped, k)) == []
  {
  }

  lemma LineRead(s: string)
    ensures var k := NewlineAt(s, 0);
            if s == "" || k >= MAX_TOKEN then Scan(s).lines == []
            else
              && Scan(s).lines != [] && Scan(s).lines[0] == StripReturn(s[..k])
              && Scan(s).lines[1..] == Scan(if k == |s| then "" else s[k + 1..]).lines
  {
    hide StripReturn, NewlineAt, Scan;
    ScanUnfolds(s);
  }

  lemma ScanUnfolds(s: string)
    ensures s == "" ==> Scan(s) == Scanned([], false)
    ensures s != "" ==>
              var k := NewlineAt(s, 0);
              var after := Scan(if k == |s| then "" else s[k + 1..]);
              Scan(s) == if k >= MAX_TOKEN then Scanned([], true)
                         else Scanned([StripReturn(s[..k])] + after.lines, after.tooLong)
  {
    hide StripReturn, NewlineAt;
    if s != "" {
      assert s[..|s|] == s;
      ScanNothing();
    }
  }

  lemma FilterOne(line: string, rest: seq<string>)
    ensures NonEmpty([line] + rest) == (if line == "" then [] else [line]) + NonEmpty(rest)
  {
    assert ([line] + rest)[1..] == rest;
  }

  // ---------------------------------------------------------------- what was framed

  function Frames(messages: seq<string>): string {
    if messages == [] then "" else messages[0] + ("\n" + Frames(messages[1..]))
  }

  /** Text that fills one line: no newline in it, and no carriage return the scanner would strip. */
  predicate OneLine(m: string) {
    m != "" && '\n' !in m && m[|m| - 1] != '\r'
  }

  /** How many of the messages come before the first that does not fit. */
  function Fitting(messages: seq<string>): (n: nat)
    ensures n <= |messages|
    ensures n == |messages| <==> forall m :: m in messages ==> |m| < MAX_TOKEN
  {
    if messages == [] || |messages[0]| >= MAX_TOKEN then 0
    else
      assert messages == [messages[0]] + messages[1..];
      1 + Fitting(messages[1..])
  }

  lemma {:induction false} NewlineFound(m: string, rest: string, i: nat)
    requires '\n' !in m && i <= |m|
    ensures NewlineAt(m + ("\n" + rest), i) == |m|
    decreases |m| - i
  {
    if i < |m| {
      assert m[i] in m;
      NewlineFound(m, rest, i + 1);
    }
  }

  lemma ScanOne(m: string, rest: string)
    requires OneLine(m)
    ensures Scan(m + ("\n" + rest)) ==
            if |m| >= MAX_TOKEN then Scanned([], true)
            else Scanned([m] + Scan(rest).lines, Scan(rest).tooLong)
  {
    NewlineFound(m, rest, 0);
    hide NewlineAt;
    var s := m + ("\n" + rest);
    assert s[..|m|] == m && s[|m| + 1..] == rest;
  }

  /** What the scanner yields for framed lines followed by text without a newline. */
  function ScanOf(lines: seq<string>, rest: string): Scanned {
    if Fitting(lines) < |lines| then Scanned(lines[..Fitting(lines)], true)
    else if rest == "" then Scanned(lines, false)
    else if |rest| >= MAX_TOKEN then Scanned(lines, true)
    else Scanned(lines + [StripReturn(rest)], false)
  }

  lemma ScanRest(rest: string)
    requires '\n' !in rest
    ensures Scan(rest) == ScanOf([], rest)
  {
    NewlineNone(rest, 0);
    hide NewlineAt;
    assert rest[..|rest|] == rest;
    ScanNothing();
  }

  lemma {:induction false} NewlineNone(s: string, i: nat)
    requires '\n' !in s && i <= |s|
    ensures NewlineAt(s, i) == |s|
    decreases |s| - i
  {
    if i < |s| {
      NewlineNone(s, i + 1);
    }
  }

  /**
   * The scanner yields exactly the framed lines, up to the first that with its newline exceeds the limit,
   * and at the end whatever follows the last newline.
   */
  lemma {:induction false} FramesScan(messages: seq<string>, rest: string)
    requires (forall m :: m in messages ==> OneLine(m)) && '\n' !in rest
    ensures Scan(Frames(messages) + rest) == ScanOf(messages, rest)
  {
    hide Scan, OneLine, StripReturn;
    if messages == [] {
      assert "" + rest == rest;
      ScanRest(rest);
    } else {
      var m, more := messages[0], messages[1..];
      assert messages == [m] + more;
      FramesScan(more, rest);
      assert Frames(messages) + rest == m + ("\n" + (Frames(more) + rest));
      ScanOne(m, Frames(more) + rest);
      hide Frames;
      if |m| < MAX_TOKEN {
        assert messages[..Fitting(messages)] == [m] + more[..Fitting(more)];
        assert [m] + (more + [StripReturn(rest)]) == messages + [StripReturn(rest)];
      }
    }
  }

  lemma ScanNothing()
    ensures Scan("") == Scanned([], false)
  {
  }

  // ---------------------------------------------------------------- concurrent writers

  /** Who holds the write lock, and how far its write has come. */
  datatype Holder = Free | Held(writer: nat, message: string) | DataOut(writer: nat, message: string) | LineOut(writer: nat)

  /** A write that has ended: whole, cut short in its data after n bytes, or without its newline. */
  datatype Write = Whole(message: string) | Cut(message: string, n: nat) | Unended(message: string)

  /** The stream, the write lock, the messages in the order their writers took it, and the writes that ended. */
  datatype Wire = Wire(stream: string, holder: Holder, locked: seq<string>, writes: seq<Write>)

  const QUIET: Wire := Wire("", Free, [], [])

  datatype Step =
    | Acquire(writer: nat, message: string)
    | PutData
    | PutNewline
    | Release
    | TearData(n: nat)
    | TearNewline

  predicate Enabled(s: Wire, step: Step) {
    match step
    case Acquire(w, m) => s.holder.Free?
    case PutData => s.holder.Held?
    case PutNewline => s.holder.DataOut?
    case Release => s.holder.LineOut?
    case TearData(n) => s.holder.Held? && n <= |s.holder.message|
    case TearNewline => s.holder.DataOut?
  }

  function Apply(s: Wire, step: Step): Wire
    requires Enabled(s, step)
  {
    match step
    case Acquire(w, m) => s.(holder := Held(w, m), locked := s.locked + [m])
    case PutData => s.(stream := s.stream + s.holder.message, holder := DataOut(s.holder.writer, s.holder.message))
    case PutNewline =>
      s.(stream := s.stream + "\n", holder := LineOut(s.holder.writer), writes := s.writes + [Whole(s.holder.message)])
    case Release => s.(holder := Free)
    case TearData(n) =>
      s.(stream := s.stream + s.holder.message[..n], holder := Free, writes := s.writes + [Cut(s.holder.message, n)])
    case TearNewline => s.(holder := Free, writes := s.writes + [Unended(s.holder.message)])
  }

  predicate Runs(s: Wire, steps: seq<Step>, t: Wire)
    decreases |steps|
  {
    if steps == [] then s == t
    else Enabled(s, steps[0]) && Runs(Apply(s, steps[0]), steps[1..], t)
  }

  // ---------------------------------------------------------------- what is on the wire

  /** What an ended write has put on the wire. */
  function Put(w: Write): string {
    match w
    case Whole(m) => m + "\n"
    case Cut(m, n) => if n <= |m| then m[..n] else m
    case Unended(m) => m
  }

  function Bytes(writes: seq<Write>): string {
    if writes == [] then "" else Put(writes[0]) + Bytes(writes[1..])
  }

  function Messages(writes: seq<Write>): seq<string> {
    if writes == [] then [] else [writes[0].message] + Messages(writes[1..])
  }

  lemma {:induction false} BytesAppend(writes: seq<Write>, w: Write)
    ensures Bytes(writes + [w]) == Bytes(writes) + Put(w)
    ensures Messages(writes + [w]) == Messages(writes) + [w.message]
  {
    hide Put;
    if writes == [] {
      assert [w][1..] == [] && Put(w) + "" == "" + Put(w);
    } else {
      assert (writes + [w])[1..] == writes[1..] + [w];
      BytesAppend(writes[1..], w);
      assert Put(writes[0]) + (Bytes(writes[1..]) + Put(w)) == (Put(writes[0]) + Bytes(writes[1..])) + Put(w);
    }
  }

  /** The stream is what the ended writes put there, in lock order, and as much of the holder's data as is out. */
  predicate InOrder(s: Wire) {
    match s.holder
    case Free => s.stream == Bytes(s.writes) && s.locked == Messages(s.writes)
    case LineOut(_) => s.stream == Bytes(s.writes) && s.locked == Messages(s.writes)
    case Held(_, m) => s.stream == Bytes(s.writes) && s.locked == Messages(s.writes) + [m]
    case DataOut(_, m) => s.stream == Bytes(s.writes) + m && s.locked == Messages(s.writes) + [m]
  }

  lemma StepKeepsOrder(s: Wire, step: Step)
    requires InOrder(s) && Enabled(s, step)
    ensures InOrder(Apply(s, step))
  {
    var t := Apply(s, step);
    if step.PutNewline? || step.TearData? || step.TearNewline? {
      BytesAppend(s.writes, t.writes[|s.writes|]);
      assert t.writes == s.writes + [t.writes[|s.writes|]];
      if step.PutNewline? {
        assert (Bytes(s.writes) + s.holder.message) + "\n" == Bytes(s.writes) + (s.holder.message + "\n");
      }
    }
    hide Bytes, Messages;
  }

  /** In every interleaving, with writes failing anywhere, the stream is made of the writes in lock order. */
  lemma {:induction false} RunKeepsOrder(s: Wire, steps: seq<Step>, t: Wire)
    requires InOrder(s) && Runs(s, steps, t)
    ensures InOrder(t)
    decreases |steps|
  {
    hide InOrder, Enabled, Apply;
    if steps != [] {
      StepKeepsOrder(s, steps[0]);
      RunKeepsOrder(Apply(s, steps[0]), steps[1..], t);
    }
  }

  lemma QuietInOrder()
    ensures InOrder(QUIET)
  {
  }

  /** The messages of the writers that took the lock, in order. */
  function Acquired(steps: seq<Step>): seq<string> {
    if steps == [] then []
    else (if steps[0].Acquire? then [steps[0].message] else []) + Acquired(steps[1..])
  }

  lemma {:induction false} LockedAre(s: Wire, steps: seq<Step>, t: Wire)
    requires Runs(s, steps, t)
    ensures t.locked == s.locked + Acquired(steps)
    decreases |steps|
  {
    if steps != [] {
      var u := Apply(s, steps[0]);
      assert u.locked == s.locked + (if steps[0].Acquire? then [steps[0].message] else []);
      hide Apply, Enabled;
      LockedAre(u, steps[1..], t);
    }
  }

  /** A write that nothing disturbs puts the message and a newline on the wire and gives the lock back. */
  lemma WriteWrites(s: Wire, w: nat, m: string) returns (t: Wire)
    requires s.holder.Free?
    ensures Runs(s, [Acquire(w, m), PutData, PutNewline, Release], t)
    ensures t.stream == s.stream + (m + "\n") && t.holder == Free && t.locked == s.locked + [m] && t.writes == s.writes + [Whole(m)]
  {
    var a := Apply(s, Acquire(w, m));
    var b := Apply(a, PutData);
    var c := Apply(b, PutNewline);
    t := Apply(c, Release);
    Assoc(s.stream, m, "\n");
    hide Apply, Enabled;
    var steps := [Acquire(w, m), PutData, PutNewline, Release];
    assert steps[1..] == [PutData, PutNewline, Release] && steps[1..][1..] == [PutNewline, Release];
    assert [PutNewline, Release][1..] == [Release] && [Release][1..] == [];
    assert Runs(c, [Release], t);
    assert Runs(b, [PutNewline, Release], t);
    assert Runs(a, [PutData, PutNewline, Release], t);
  }

  /** One line as the scanner yields it: without its newline and one carriage return before that, unless it does not fit. */
  lemma LineScans(line: string, rest: string)
    requires '\n' !in line
    ensures |line| >= 1048576 ==> Scan(line + ("\n" + rest)) == Scanned([], true)
    ensures |line| < 1048576 ==>
              var shown := if line != "" && line[|line| - 1] == '\r' then line[..|line| - 1] else line;
              Scan(line + ("\n" + rest)) == Scanned([shown] + Scan(rest).lines, Scan(rest).tooLong)
  {
    NewlineFound(line, rest, 0);
    hide NewlineAt;
    var s := line + ("\n" + rest);
    assert s[..|line|] == line && s[|line| + 1..] == rest;
  }

  // ---------------------------------------------------------------- what is read back

  /** The lines the writes make: each whole write ends one, which starts with whatever was torn before it. */
  function Lines(writes: seq<Write>, torn: string): seq<string>
    decreases |writes|
  {
    if writes == [] then []
    else if writes[0].Whole? then [torn + writes[0].message] + Lines(writes[1..], "")
    else Lines(writes[1..], torn + Put(writes[0]))
  }

  /** What follows the last newline. */
  function Remainder(writes: seq<Write>, torn: string): string
    decreases |writes|
  {
    if writes == [] then torn
    else if writes[0].Whole? then Remainder(writes[1..], "")
    else Remainder(writes[1..], torn + Put(writes[0]))
  }

  /** The messages whose writes succeeded. */
  function Completed(writes: seq<Write>): seq<string> {
    if writes == [] then []
    else (if writes[0].Whole? then [writes[0].message] else []) + Completed(writes[1..])
  }

  lemma WholeJoins(torn: string, m: string, frames: string, rest: string)
    ensures torn + ((m + "\n") + (frames + rest)) == ((torn + m) + ("\n" + frames)) + rest
  {
    Assoc(torn, m + "\n", frames + rest);
    Assoc(torn, m, "\n");
    Assoc(torn + m, "\n", frames + rest);
    Assoc("\n", frames, rest);
    Assoc(torn + m, "\n" + frames, rest);
  }

  /** One whole write's bytes, and the line it ends. */
  lemma WholeUnfolds(writes: seq<Write>, torn: string)
    requires writes != [] && writes[0].Whole?
    ensures Bytes(writes) == (writes[0].message + "\n") + Bytes(writes[1..])
    ensures Frames(Lines(writes, torn)) == (torn + writes[0].message) + ("\n" + Frames(Lines(writes[1..], "")))
    ensures Remainder(writes, torn) == Remainder(writes[1..], "")
  {
    var lines := Lines(writes, torn);
    assert lines[0] == torn + writes[0].message && lines[1..] == Lines(writes[1..], "");
    hide Lines, Remainder, Bytes;
  }

  lemma TornUnfolds(writes: seq<Write>, torn: string)
    requires writes != [] && !writes[0].Whole?
    ensures Bytes(writes) == Put(writes[0]) + Bytes(writes[1..])
    ensures Lines(writes, torn) == Lines(writes[1..], torn + Put(writes[0]))
    ensures Remainder(writes, torn) == Remainder(writes[1..], torn + Put(writes[0]))
  {
    hide Put;
  }

  lemma {:induction false} BytesAreLines(writes: seq<Write>, torn: string)
    ensures torn + Bytes(writes) == Frames(Lines(writes, torn)) + Remainder(writes, torn)
    decreases |writes|
  {
    if writes == [] {
      assert torn + "" == "" + torn;
    } else {
      hide Bytes, Lines, Remainder, Frames, Put;
      var rest := writes[1..];
      if writes[0].Whole? {
        WholeUnfolds(writes, torn);
        BytesAreLines(rest, "");
        assert "" + Bytes(rest) == Bytes(rest);
        WholeJoins(torn, writes[0].message, Frames(Lines(rest, "")), Remainder(rest, ""));
      } else {
        TornUnfolds(writes, torn);
        BytesAreLines(rest, torn + Put(writes[0]));
        Assoc(torn, Put(writes[0]), Bytes(rest));
      }
    }
  }

  predicate AllOneLine(writes: seq<Write>) {
    forall w :: w in writes ==> OneLine(w.message)
  }

  lemma PutNoNewline(w: Write)
    requires !w.Whole? && OneLine(w.message)
    ensures '\n' !in Put(w)
  {
  }

  lemma {:induction false} LinesAreLines(writes: seq<Write>, torn: string)
    requires AllOneLine(writes) && '\n' !in torn
    ensures (forall m :: m in Lines(writes, torn) ==> OneLine(m)) && '\n' !in Remainder(writes, torn)
    decreases |writes|
  {
    if writes != [] {
      var w := writes[0];
      assert w in writes && forall x :: x in writes[1..] ==> x in writes;
      if w.Whole? {
        LinesAreLines(writes[1..], "");
        assert OneLine(torn + w.message);
      } else {
        PutNoNewline(w);
        hide Put;
        LinesAreLines(writes[1..], torn + Put(w));
      }
    }
  }

  /**
   * Whatever writes failed, and wherever, the scanner reads the lines that the writes made, up to the first
   * too long for it, and then what was torn at the end.
   */
  lemma ScannerReadsLines(steps: seq<Step>, t: Wire)
    requires Runs(QUIET, steps, t) && t.holder.Free? && AllOneLine(t.writes)
    ensures Scan(t.stream) == ScanOf(Lines(t.writes, ""), Remainder(t.writes, ""))
  {
    hide Scan, Runs, OneLine, Lines, Remainder, Bytes, Frames, ScanOf;
    QuietInOrder();
    RunKeepsOrder(QUIET, steps, t);
    BytesAreLines(t.writes, "");
    assert "" + Bytes(t.writes) == Bytes(t.writes);
    LinesAreLines(t.writes, "");
    FramesScan(Lines(t.writes, ""), Remainder(t.writes, ""));
  }

  /** Every write that left something behind without its newline comes after every whole one. */
  predicate TornOnlyAtEnd(writes: seq<Write>) {
    forall i, j :: 0 <= i < j < |writes| && !writes[i].Whole? && Put(writes[i]) != "" ==> !writes[j].Whole?
  }

  predicate NothingTorn(writes: seq<Write>) {
    forall w :: w in writes && !w.Whole? ==> Put(w) == ""
  }

  /** The lines are the completed messages, given what was torn before, exactly if nothing torn meets a whole write. */
  lemma {:induction false} LinesComplete(writes: seq<Write>, torn: string)
    ensures Lines(writes, torn) == Completed(writes) <==>
            TornOnlyAtEnd(writes) && (torn != "" ==> Completed(writes) == [])
    ensures |Lines(writes, torn)| == |Completed(writes)|
    ensures Completed(writes) == [] <==> forall w :: w in writes ==> !w.Whole?
    decreases |writes|
  {
    hide Put;
    if writes != [] {
      var w, rest := writes[0], writes[1..];
      assert writes == [w] + rest;
      var next := if w.Whole? then "" else torn + Put(w);
      LinesComplete(rest, next);
      TornTail(writes);
      if w.Whole? {
        assert Lines(writes, torn)[0] == torn + w.message && Lines(writes, torn)[1..] == Lines(rest, "");
        assert Completed(writes)[0] == w.message && Completed(writes)[1..] == Completed(rest);
        assert torn != "" ==> |torn + w.message| > |w.message|;
        assert torn == "" ==> torn + w.message == w.message;
      } else {
        assert Completed(writes) == Completed(rest);
        assert next == "" <==> torn == "" && Put(w) == "";
      }
    }
  }

  lemma TornTail(writes: seq<Write>)
    requires writes != []
    ensures TornOnlyAtEnd(writes) <==>
            TornOnlyAtEnd(writes[1..])
            && (!writes[0].Whole? && Put(writes[0]) != "" ==> forall w :: w in writes[1..] ==> !w.Whole?)
  {
    hide Put;
    var rest := writes[1..];
    if TornOnlyAtEnd(writes) {
      forall i, j | 0 <= i < j < |rest| && !rest[i].Whole? && Put(rest[i]) != "" ensures !rest[j].Whole? {
        assert writes[i + 1] == rest[i] && writes[j + 1] == rest[j];
      }
    } else {
      var i, j :| 0 <= i < j < |writes| && !writes[i].Whole? && Put(writes[i]) != "" && writes[j].Whole?;
      assert writes[j] == rest[j - 1];
      assert i > 0 ==> writes[i] == rest[i - 1];
    }
  }

  lemma {:induction false} RemainderIsTorn(writes: seq<Write>, torn: string)
    requires TornOnlyAtEnd(writes) && (torn != "" ==> Completed(writes) == [])
    ensures Remainder(writes, torn) == "" <==> torn == "" && NothingTorn(writes)
    decreases |writes|
  {
    hide Put;
    if writes != [] {
      var w, rest := writes[0], writes[1..];
      assert writes == [w] + rest;
      TornTail(writes);
      LinesComplete(rest, "");
      RemainderIsTorn(rest, if w.Whole? then "" else torn + Put(w));
    }
  }

  /**
   * Framing survives failing writes exactly so far: as long as the lines fit, the terminated lines are the
   * completed messages in lock order if and only if no write that left bytes without a newline comes before a
   * completed one, and the scanner yields nothing but them if and only if no failed write left any bytes.
   */
  lemma FramingSurvives(steps: seq<Step>, t: Wire)
    requires Runs(QUIET, steps, t) && t.holder.Free? && AllOneLine(t.writes)
    requires (forall m :: m in Lines(t.writes, "") ==> |m| < MAX_TOKEN) && |Remainder(t.writes, "")| < MAX_TOKEN
    ensures var rest := Remainder(t.writes, "");
            && Scan(t.stream) == Scanned(Lines(t.writes, "") + (if rest == "" then [] else [StripReturn(rest)]), false)
            && (Lines(t.writes, "") == Completed(t.writes) <==> TornOnlyAtEnd(t.writes))
            && (Scan(t.stream) == Scanned(Completed(t.writes), false) <==> NothingTorn(t.writes))
  {
    hide Scan, Runs, OneLine, Lines, Remainder, Completed, TornOnlyAtEnd, NothingTorn, StripReturn;
    var lines, rest := Lines(t.writes, ""), Remainder(t.writes, "");
    ScannerReadsLines(steps, t);
    LinesComplete(t.writes, "");
    assert lines + [] == lines;
    NothingTornIsAtEnd(t.writes);
    if TornOnlyAtEnd(t.writes) {
      RemainderIsTorn(t.writes, "");
    }
    if rest != "" {
      assert |Scan(t.stream).lines| == |Completed(t.writes)| + 1;
    }
  }

  lemma NothingTornIsAtEnd(writes: seq<Write>)
    ensures NothingTorn(writes) ==> TornOnlyAtEnd(writes)
  {
    hide Put;
  }

  /** The data of a write torn after n bytes runs into the message written next: one line, the two joined. */
  lemma TornWriteMerges(s: Wire, w: nat, m: string, n: nat, w': nat, m': string)
    requires s.holder.Free? && n <= |m|
    ensures var steps := [Acquire(w, m), TearData(n), Acquire(w', m'), PutData, PutNewline, Release];
            exists t :: Runs(s, steps, t) && t.stream == s.stream + (m[..n] + m' + "\n")
                        && t.writes == s.writes + [Cut(m, n), Whole(m')]
  {
    var s2 := Apply(Apply(s, Acquire(w, m)), TearData(n));
    var s4 := Apply(Apply(s2, Acquire(w', m')), PutData);
    var t := Apply(Apply(s4, PutNewline), Release);
    assert t.stream == s.stream + (m[..n] + m' + "\n");
    assert t.writes == s.writes + [Cut(m, n), Whole(m')];
    hide Apply, Enabled, Runs;
    RunsTwo(s4, PutNewline, Release, [], t);
    assert [PutNewline, Release] + [] == [PutNewline, Release];
    RunsTwo(s2, Acquire(w', m'), PutData, [PutNewline, Release], t);
    assert [Acquire(w', m'), PutData] + [PutNewline, Release] == [Acquire(w', m'), PutData, PutNewline, Release];
    RunsTwo(s, Acquire(w, m), TearData(n), [Acquire(w', m'), PutData, PutNewline, Release], t);
    assert [Acquire(w, m), TearData(n)] + [Acquire(w', m'), PutData, PutNewline, Release]
        == [Acquire(w, m), TearData(n), Acquire(w', m'), PutData, PutNewline, Release];
  }

  lemma RunsTwo(s: Wire, a: Step, b: Step, rest: seq<Step>, t: Wire)
    requires Enabled(s, a) && Enabled(Apply(s, a), b)
    requires if rest == [] then t == Apply(Apply(s, a), b) else Runs(Apply(Apply(s, a), b), rest, t)
    ensures Runs(s, [a, b] + rest, t)
  {
    hide Apply, Enabled;
    var steps := [a, b] + rest;
    assert steps[1..] == [b] + rest && steps[1..][1..] == rest;
  }

  // ---------------------------------------------------------------- runs without failures

  predicate Succeeds(step: Step) {
    !step.TearData? && !step.TearNewline?
  }

  lemma {:induction false} NoFailureNoTear(s: Wire, steps: seq<Step>, t: Wire)
    requires Runs(s, steps, t) && (forall step :: step in steps ==> Succeeds(step)) && forall w :: w in s.writes ==> w.Whole?
    ensures forall w :: w in t.writes ==> w.Whole?
    decreases |steps|
  {
    if steps != [] {
      assert Succeeds(steps[0]);
      var u := Apply(s, steps[0]);
      assert forall w :: w in u.writes ==> w.Whole?;
      hide Apply, Enabled;
      NoFailureNoTear(u, steps[1..], t);
    }
  }

  lemma {:induction false} WholeLines(writes: seq<Write>)
    requires forall w :: w in writes ==> w.Whole?
    ensures Lines(writes, "") == Messages(writes) && Remainder(writes, "") == ""
  {
    if writes != [] {
      WholeLines(writes[1..]);
      assert "" + writes[0].message == writes[0].message;
    }
  }

  lemma {:induction false} MessageInWrites(writes: seq<Write>, w: Write)
    requires w in writes
    ensures w.message in Messages(writes)
  {
    if writes[0] != w {
      MessageInWrites(writes[1..], w);
    }
  }

  /**
   * However the writers interleave, if no write fails, once nobody is writing the scanner reads back exactly
   * the messages, in the order in which their writers took the lock, if and only if each fits the limit.
   */
  lemma WritersFrame(steps: seq<Step>, t: Wire)
    requires Runs(QUIET, steps, t) && (forall step :: step in steps ==> Succeeds(step)) && t.holder.Free?
    requires forall m :: m in t.locked ==> OneLine(m)
    ensures Scan(t.stream) == Scanned(t.locked[..Fitting(t.locked)], Fitting(t.locked) < |t.locked|)
    ensures Scan(t.stream) == Scanned(t.locked, false) <==> forall m :: m in t.locked ==> |m| < MAX_TOKEN
  {
    hide Scan, Runs, OneLine, Lines, Remainder, Messages;
    QuietInOrder();
    RunKeepsOrder(QUIET, steps, t);
    NoFailureNoTear(QUIET, steps, t);
    WholeLines(t.writes);
    forall w | w in t.writes ensures OneLine(w.message) {
      MessageInWrites(t.writes, w);
    }
    ScannerReadsLines(steps, t);
    assert t.locked[..|t.locked|] == t.locked;
  }
}
