/** The event descriptor: a bounded line splitter fed with chunks of any size, the decoder that
    keeps only rising native events, and the writer of coordinator events. How a line is parsed
    and validated is a parameter. */
module Events {
  import opened Options
  import opened Bytes
  import opened Sequences

  const NEWLINE: Byte := 0x0a
  const EVENT_LINE_MAX: nat := 4096

  type Line = seq<Byte>

  // --- Framing, from the whole stream.

  /** What the splitter hands on: a line, or the start of one that is too long. */
  datatype Frame = Whole(line: Line) | Overflow(start: Line)

  /** What it keeps of the unfinished line. */
  datatype Kept = Holding(held: Line) | Dropping

  datatype Framed = Framed(frames: seq<Frame>, kept: Kept)

  function Then(frames: seq<Frame>, f: Framed): Framed {
    f.(frames := frames + f.frames)
  }

  /** The place of the first newline, or the length when there is none. */
  function LineEnd(b: seq<Byte>): (i: nat)
    ensures i <= |b| && NEWLINE !in b[..i] && (i < |b| ==> b[i] == NEWLINE)
  {
    FirstAt(b, NEWLINE)
  }

  function FrameOf(line: Line, max: nat): Frame {
    if |line| <= max then Whole(line) else Overflow(line[..max])
  }

  /** The frames of a whole stream: one for each line of at most `max` bytes, and one for each
      longer line, unfinished or not. */
  function Frames(b: seq<Byte>, max: nat): Framed
    decreases |b|
  {
    var i := LineEnd(b);
    if i == |b| then
      if |b| <= max then Framed([], Holding(b)) else Framed([Overflow(b[..max])], Dropping)
    else Then([FrameOf(b[..i], max)], Frames(b[i+1..], max))
  }

  /** The frames that `chunk` adds to what was kept. */
  function Resume(k: Kept, chunk: seq<Byte>, max: nat): Framed {
    if k.Holding? then Frames(k.held + chunk, max)
    else
      var i := LineEnd(chunk);
      if i == |chunk| then Framed([], Dropping) else Frames(chunk[i+1..], max)
  }

  lemma LineEndOf(line: Line, rest: seq<Byte>)
    requires NEWLINE !in line
    ensures LineEnd(line + [NEWLINE] + rest) == |line|
  {
    var b := line + [NEWLINE] + rest;
    assert b[..|line|] == line;
    FirstAtIs(b, NEWLINE, |line|);
  }

  lemma NoLineEnd(b: seq<Byte>)
    ensures LineEnd(b) == |b| <==> NEWLINE !in b
  {
    var i := LineEnd(b);
    if i == |b| {
      assert b[..i] == b;
    }
  }

  lemma LineEndAfter(a: seq<Byte>, c: seq<Byte>)
    requires NEWLINE !in a
    ensures LineEnd(a + c) == |a| + LineEnd(c)
  {
    var i := LineEnd(c);
    assert (a + c)[..|a|+i] == a + c[..i];
    FirstAtIs(a + c, NEWLINE, |a| + i);
  }

  /** Framing in two parts is framing the whole. */
  lemma {:induction false} FramesInTwo(a: seq<Byte>, c: seq<Byte>, max: nat)
    ensures Frames(a + c, max) == Then(Frames(a, max).frames, Resume(Frames(a, max).kept, c, max))
    decreases |a|
  {
    hide LineEnd, Frames, Resume;
    var i := LineEnd(a);
    NoLineEnd(a);
    if i == |a| {
      Unfinished(a, max);
      HeldLine(a, c, max);
      if |a| > max {
        LongLine(a, c, max);
      }
    } else {
      var tail := a[i+1..];
      FramesStep(a, max);
      FirstLine(a, c);
      FramesStep(a + c, max);
      FramesInTwo(tail, c, max);
      ThenThen([FrameOf(a[..i], max)], Frames(tail, max).frames, Resume(Frames(tail, max).kept, c, max));
    }
  }

  lemma ThenThen(xs: seq<Frame>, ys: seq<Frame>, f: Framed)
    ensures Then(xs, Then(ys, f)) == Then(xs + ys, f)
  {
    assert xs + (ys + f.frames) == xs + ys + f.frames;
  }

  lemma Unfinished(a: seq<Byte>, max: nat)
    requires LineEnd(a) == |a|
    ensures Frames(a, max) == if |a| <= max then Framed([], Holding(a)) else Framed([Overflow(a[..max])], Dropping)
  {
  }

  lemma HeldLine(a: seq<Byte>, c: seq<Byte>, max: nat)
    ensures Resume(Holding(a), c, max) == Frames(a + c, max) == Then([], Frames(a + c, max))
  {
    hide Frames;
    assert [] + Frames(a + c, max).frames == Frames(a + c, max).frames;
  }

  lemma FirstLine(a: seq<Byte>, c: seq<Byte>)
    requires LineEnd(a) < |a|
    ensures LineEnd(a + c) == LineEnd(a) < |a + c|
    ensures (a + c)[..LineEnd(a)] == a[..LineEnd(a)] && (a + c)[LineEnd(a)+1..] == a[LineEnd(a)+1..] + c
  {
    hide LineEnd;
    var i := LineEnd(a);
    assert (a + c)[..i] == a[..i];
    FirstAtIs(a + c, NEWLINE, i);
  }

  /** A line already too long stays so. */
  lemma LongLine(a: seq<Byte>, c: seq<Byte>, max: nat)
    requires NEWLINE !in a && |a| > max
    ensures Frames(a + c, max) == Then([Overflow(a[..max])], Resume(Dropping, c, max))
  {
    hide LineEnd, Frames, Resume;
    HeldLine(a, c, max);
    var n := LineEnd(c);
    if n < |c| {
      TakesLine(Holding(a), c, max);
      TakesLine(Dropping, c, max);
      assert (a + c[..n])[..max] == a[..max];
      ThenThen([Overflow(a[..max])], [], Resume(Holding([]), c[n+1..], max));
      assert [Overflow(a[..max])] + [] == [Overflow(a[..max])];
    } else {
      TakesRest(Holding(a), c, max);
      TakesRest(Dropping, c, max);
      assert (a + c)[..max] == a[..max];
      assert [Overflow(a[..max])] + [] == [Overflow(a[..max])];
    }
  }

  /** The frames are those of the lines between the newlines, a longer one cut to `max` bytes; what
      follows the last newline is held, or framed at once when it is already too long. */
  lemma {:induction false} FramesAreTheLines(b: seq<Byte>, max: nat)
    ensures var lines, f := Pieces(b, NEWLINE), Frames(b, max);
      var n, rest := |lines| - 1, lines[|lines|-1];
      && |f.frames| == n + (if |rest| > max then 1 else 0)
      && (forall i :: 0 <= i < |f.frames| ==>
            f.frames[i] == if |lines[i]| <= max then Whole(lines[i]) else Overflow(lines[i][..max]))
      && f.kept == if |rest| > max then Dropping else Holding(rest)
    decreases |b|
  {
    hide LineEnd, Frames, Pieces;
    var i := LineEnd(b);
    NoLineEnd(b);
    if i == |b| {
      Unfinished(b, max);
      PiecesOfPlain(b, NEWLINE);
    } else {
      var line, tail := b[..i], b[i+1..];
      FramesStep(b, max);
      FramesAreTheLines(tail, max);
      assert b == line + [NEWLINE] + tail;
      PiecesOfFirst(line, tail, NEWLINE);
    }
  }

  /** Between chunks at most `max` bytes of a line are held, and none that ended. */
  lemma {:induction false} HoldsLittle(b: seq<Byte>, max: nat)
    ensures var k := Frames(b, max).kept; k.Holding? ==> |k.held| <= max && NEWLINE !in k.held
    decreases |b|
  {
    hide LineEnd;
    NoLineEnd(b);
    if LineEnd(b) < |b| {
      HoldsLittle(b[LineEnd(b)+1..], max);
    }
  }

  lemma ResumeNothing(k: Kept, max: nat)
    requires k.Holding? ==> |k.held| <= max && NEWLINE !in k.held
    ensures Resume(k, [], max) == Framed([], k)
  {
    assert LineEnd([]) == 0;
    if k.Holding? {
      assert k.held + [] == k.held;
      NoLineEnd(k.held);
    }
  }

  lemma FramesStep(b: seq<Byte>, max: nat)
    requires LineEnd(b) < |b|
    ensures Frames(b, max) == Then([FrameOf(b[..LineEnd(b)], max)], Frames(b[LineEnd(b)+1..], max))
  {
    hide LineEnd, FrameOf;
  }

  /** One turn of the splitter: up to the next newline, */
  lemma TakesLine(k: Kept, rest: seq<Byte>, max: nat)
    requires k.Holding? ==> NEWLINE !in k.held
    requires LineEnd(rest) < |rest|
    ensures var n := LineEnd(rest);
      Resume(k, rest, max) == Then(if k.Holding? then [FrameOf(k.held + rest[..n], max)] else [], Resume(Holding([]), rest[n+1..], max))
  {
    hide LineEnd, FrameOf, Frames;
    var more := rest[LineEnd(rest)+1..];
    assert [] + more == more;
    if k.Holding? {
      LineOf(k.held, rest);
      FramesStep(k.held + rest, max);
    } else {
      assert [] + Frames(more, max).frames == Frames(more, max).frames;
    }
  }

  lemma LineOf(held: Line, rest: seq<Byte>)
    requires NEWLINE !in held && LineEnd(rest) < |rest|
    ensures var n, m := LineEnd(rest), LineEnd(held + rest);
      m < |held + rest| && (held + rest)[..m] == held + rest[..n] && (held + rest)[m+1..] == rest[n+1..]
  {
    hide LineEnd;
    LineEndAfter(held, rest);
  }

  /** or to the end of the chunk. */
  lemma TakesRest(k: Kept, rest: seq<Byte>, max: nat)
    requires k.Holding? ==> NEWLINE !in k.held
    requires LineEnd(rest) == |rest|
    ensures NEWLINE !in rest
    ensures Resume(k, rest, max) ==
      if k.Dropping? then Framed([], Dropping)
      else if |k.held + rest| <= max then Framed([], Holding(k.held + rest))
      else Framed([Overflow((k.held + rest)[..max])], Dropping)
  {
    hide LineEnd;
    NoLineEnd(rest);
    if k.Holding? {
      LineEndAfter(k.held, rest);
    }
  }

  // --- The splitter.

  class LineSplitter {
    const max: nat
    var parts: seq<Line>
    var size: nat
    var dropping: bool

    /** Everything pushed so far. */
    ghost var stream: seq<Byte>

    constructor (max: nat)
      ensures Valid() && stream == [] && this.max == max
    {
      this.max := max;
      parts, size, dropping, stream := [], 0, false, [];
      assert LineEnd([]) == 0;
    }

    ghost function Kept(): Kept
      reads this
    {
      if dropping then Dropping else Holding(Flatten(parts))
    }

    ghost predicate Valid()
      reads this
    {
      Kept() == Frames(stream, max).kept && (!dropping ==> size == |Flatten(parts)|)
    }

    method Reset()
      modifies `parts, `size, `dropping
      ensures parts == [] && size == 0 && !dropping
    {
      parts, size, dropping := [], 0, false;
    }

    /** What is held is part of one line. */
    ghost predicate OneLine()
      reads this
    {
      !dropping ==> size == |Flatten(parts)| && NEWLINE !in Flatten(parts)
    }

    /** Adds to the line, unless it is already too long. */
    method Add(bytes: Line) returns (out: seq<Frame>)
      requires OneLine() && NEWLINE !in bytes
      modifies `parts, `size, `dropping
      ensures OneLine() && (dropping || |Flatten(parts)| <= max)
      ensures old(dropping) ==> dropping && out == []
      ensures !old(dropping) ==> var line := old(Flatten(parts)) + bytes;
        if |line| <= max then out == [] && !dropping && Flatten(parts) == line
        else out == [Overflow(line[..max])] && dropping
    {
      out := [];
      if !dropping {
        FlattenSnoc(parts, bytes);
        parts := parts + [bytes];
        size := size + |bytes|;
        if size > max {
          out := [Overflow(Flatten(parts)[..max])];
          parts := [];
          dropping := true;
        }
      }
    }

    /** One turn: up to the next newline or the end of the chunk. */
    method Turn(rest: seq<Byte>) returns (out: seq<Frame>, taken: nat)
      requires OneLine() && rest != []
      modifies `parts, `size, `dropping
      ensures OneLine() && 0 < taken <= |rest| && (taken == |rest| && !dropping ==> |Flatten(parts)| <= max)
      ensures Resume(old(Kept()), rest, max) == Then(out, Resume(Kept(), rest[taken..], max))
    {
      hide LineEnd, Frames, Resume, Flatten;
      var n := LineEnd(rest);
      ghost var kept := Kept();
      if n == |rest| {
        TakesRest(kept, rest, max);
        assert rest[..n] == rest;
        out := Add(rest);
        ResumeNothing(Kept(), max);
        taken := n;
        assert rest[taken..] == [];
        assert out + [] == out;
      } else {
        TakesLine(kept, rest, max);
        out := Add(rest[..n]);
        if !dropping {
          out := out + [Whole(Flatten(parts))];
        }
        Reset();
        assert Flatten(parts) == [] by { NothingFlat(); }
        taken := n + 1;
      }
    }

    /** Hands on the frames that the chunk completes; over all chunks they are those of the stream. */
    method Push(chunk: seq<Byte>) returns (out: seq<Frame>)
      requires Valid()
      modifies this
      ensures Valid() && stream == old(stream) + chunk
      ensures Frames(stream, max).frames == Frames(old(stream), max).frames + out
    {
      hide LineEnd, Frames, Resume, Flatten;
      out := [];
      FramesInTwo(stream, chunk, max);
      HoldsLittle(stream, max);
      ghost var before := Kept();
      var start := 0;
      assert chunk[0..] == chunk;
      assert [] + Resume(before, chunk, max).frames == Resume(before, chunk, max).frames;
      while start < |chunk|
        invariant 0 <= start <= |chunk| && stream == old(stream) && OneLine()
        invariant start == |chunk| && !dropping ==> |Flatten(parts)| <= max
        invariant Resume(before, chunk, max) == Then(out, Resume(Kept(), chunk[start..], max))
      {
        var more, taken := Turn(chunk[start..]);
        assert chunk[start..][taken..] == chunk[start+taken..];
        ThenThen(out, more, Resume(Kept(), chunk[start+taken..], max));
        out := out + more;
        start := start + taken;
      }
      ResumeNothing(Kept(), max);
      assert chunk[start..] == [];
      assert out + [] == out;
      stream := stream + chunk;
    }

    /** What is left once the stream ends. */
    method Rest() returns (bytes: Line, dropped: bool)
      requires Valid()
      modifies this
      ensures dropped == Frames(old(stream), max).kept.Dropping?
      ensures !dropped ==> bytes == Frames(old(stream), max).kept.held
      ensures Valid() && stream == []
    {
      bytes, dropped := Flatten(parts), dropping;
      Reset();
      stream := [];
      assert LineEnd([]) == 0;
    }
  }

  lemma NothingFlat()
    ensures Flatten([]) == []
  {
  }

  // --- The decoder.

  /** A line that parses and satisfies the contract: who claims it, for which operation. */
  datatype Event = Event(native: bool, op: Option<string>, sequence: int)

  type Parser = Line -> Option<Event>

  datatype Why = TooLong | Invalid | Foreign | OutOfOrder | CutShort

  datatype Report = Accepted(event: Event) | Rejected(why: Why)

  type LastMap = map<Option<string>, int>

  function LastOf(last: LastMap, op: Option<string>): int {
    if op in last then last[op] else 0
  }

  function Judge(parse: Parser, last: LastMap, frame: Frame): Report {
    if frame.Overflow? then Rejected(TooLong)
    else
      match parse(frame.line)
      case None => Rejected(Invalid)
      case Some(event) =>
        if !event.native then Rejected(Foreign)
        else if event.sequence <= LastOf(last, event.op) then Rejected(OutOfOrder)
        else Accepted(event)
  }

  function Noted(last: LastMap, report: Report): LastMap {
    if report.Accepted? then last[report.event.op := report.event.sequence] else last
  }

  /** The last sequences after all the reports. */
  function LastAfter(reports: seq<Report>): LastMap {
    if reports == [] then map[] else Noted(LastAfter(reports[..|reports|-1]), reports[|reports|-1])
  }

  function Reports(parse: Parser, frames: seq<Frame>): (rs: seq<Report>)
    ensures |rs| == |frames|
  {
    if frames == [] then []
    else
      var before := Reports(parse, frames[..|frames|-1]);
      before + [Judge(parse, LastAfter(before), frames[|frames|-1])]
  }

  /** What the whole stream reports, the end of it included. */
  function StreamReports(parse: Parser, b: seq<Byte>): seq<Report> {
    var f := Frames(b, EVENT_LINE_MAX);
    Reports(parse, f.frames) + if f.kept.Holding? && f.kept.held != [] then [Rejected(CutShort)] else []
  }

  lemma ReportsSnoc(parse: Parser, frames: seq<Frame>, frame: Frame)
    ensures Reports(parse, frames + [frame]) == Reports(parse, frames) + [Judge(parse, LastAfter(Reports(parse, frames)), frame)]
  {
    assert (frames + [frame])[..|frames|] == frames;
  }

  lemma LastAfterSnoc(reports: seq<Report>, report: Report)
    ensures LastAfter(reports + [report]) == Noted(LastAfter(reports), report)
  {
    assert (reports + [report])[..|reports|] == reports;
  }

  class EventDecoder {
    const parse: Parser
    const lines: LineSplitter
    var last: LastMap

    /** Everything reported so far, in order. */
    var reports: seq<Report>

    ghost predicate Valid()
      reads this, lines
    {
      && lines.max == EVENT_LINE_MAX && lines.Valid()
      && reports == Reports(parse, Frames(lines.stream, EVENT_LINE_MAX).frames)
      && last == LastAfter(reports)
    }

    constructor (parse: Parser)
      ensures Valid() && lines.stream == [] && fresh(lines) && this.parse == parse
    {
      this.parse := parse;
      lines := new LineSplitter(EVENT_LINE_MAX);
      last, reports := map[], [];
      new;
      assert LineEnd([]) == 0;
    }

    method Report(report: Report)
      modifies `reports
      ensures reports == old(reports) + [report]
    {
      reports := reports + [report];
    }

    method Accept(line: Line)
      requires last == LastAfter(reports)
      modifies `last, `reports
      ensures reports == old(reports) + [Judge(parse, LastAfter(old(reports)), Whole(line))]
      ensures last == LastAfter(reports)
    {
      LastAfterSnoc(reports, Judge(parse, last, Whole(line)));
      var event := parse(line);
      if event.None? {
        Report(Rejected(Invalid));
        return;
      }
      if !event.value.native {
        Report(Rejected(Foreign));
        return;
      }
      if event.value.sequence <= LastOf(last, event.value.op) {
        Report(Rejected(OutOfOrder));
        return;
      }
      last := last[event.value.op := event.value.sequence];
      Report(Accepted(event.value));
    }

    method Push(chunk: seq<Byte>)
      requires Valid()
      modifies this, lines
      ensures Valid() && lines.stream == old(lines.stream) + chunk
    {
      hide Frames, Judge, LastAfter;
      ghost var before := Frames(lines.stream, EVENT_LINE_MAX).frames;
      var out := lines.Push(chunk);
      assert before + out[..0] == before;
      for i := 0 to |out|
        invariant lines.Valid() && lines.stream == old(lines.stream) + chunk
        invariant reports == Reports(parse, before + out[..i])
        invariant last == LastAfter(reports)
      {
        ReportsSnoc(parse, before + out[..i], out[i]);
        LastAfterSnoc(reports, Judge(parse, last, out[i]));
        assert before + out[..i+1] == before + out[..i] + [out[i]];
        match out[i]
        case Overflow(_) =>
          assert Judge(parse, last, out[i]) == Rejected(TooLong) by { OverflowIsTooLong(parse, last, out[i]); }
          assert Noted(last, Rejected(TooLong)) == last;
          Report(Rejected(TooLong));
        case Whole(line) => Accept(line);
      }
      assert out[..|out|] == out;
    }

    /** Closes the descriptor. */
    method End()
      requires Valid()
      modifies this, lines
      ensures reports == StreamReports(parse, old(lines.stream))
    {
      var bytes, dropped := lines.Rest();
      if |bytes| > 0 && !dropped {
        Report(Rejected(CutShort));
      }
    }
  }

  lemma OverflowIsTooLong(parse: Parser, last: LastMap, frame: Frame)
    requires frame.Overflow?
    ensures Judge(parse, last, frame) == Rejected(TooLong)
  {
  }

  /** However the descriptor's bytes were cut into chunks, the reports are those of the stream. */
  method Decode(parse: Parser, chunks: seq<seq<Byte>>) returns (reports: seq<Report>)
    ensures reports == StreamReports(parse, Flatten(chunks))
  {
    hide StreamReports, Flatten, Frames, Reports, LastAfter;
    var decoder := new EventDecoder(parse);
    NothingFlat();
    assert chunks[..0] == [];
    for i := 0 to |chunks|
      invariant decoder.Valid() && fresh(decoder) && fresh(decoder.lines) && decoder.parse == parse
      invariant decoder.lines.stream == Flatten(chunks[..i])
    {
      FlattenSnoc(chunks[..i], chunks[i]);
      assert chunks[..i] + [chunks[i]] == chunks[..i+1];
      decoder.Push(chunks[i]);
    }
    assert chunks[..|chunks|] == chunks;
    decoder.End();
    reports := decoder.reports;
  }

  // --- Accepted events rise, and only events out of order are refused for it.

  predicate AcceptedFor(report: Report, op: Option<string>) {
    report.Accepted? && report.event.op == op
  }

  /** The last sequence of an operation is that of its last accepted event, and none before was higher. */
  lemma {:induction false} LastIsHighest(parse: Parser, frames: seq<Frame>, op: Option<string>, i: nat)
    requires i < |frames| && AcceptedFor(Reports(parse, frames)[i], op)
    ensures Reports(parse, frames)[i].event.sequence <= LastOf(LastAfter(Reports(parse, frames)), op)
    decreases |frames|
  {
    var before, rs := frames[..|frames|-1], Reports(parse, frames);
    assert rs[..|rs|-1] == Reports(parse, before);
    if i < |before| {
      LastIsHighest(parse, before, op, i);
    }
  }

  /** Of two accepted events of one operation, the later has the higher sequence. */
  lemma {:induction false} AcceptedEventsRise(parse: Parser, frames: seq<Frame>, i: nat, k: nat)
    requires i < k < |frames|
    requires var rs := Reports(parse, frames); rs[i].Accepted? && rs[k].Accepted? && rs[i].event.op == rs[k].event.op
    ensures Reports(parse, frames)[i].event.sequence < Reports(parse, frames)[k].event.sequence
    decreases |frames|
  {
    var before, rs := frames[..|frames|-1], Reports(parse, frames);
    assert rs[..|rs|-1] == Reports(parse, before);
    if k < |before| {
      AcceptedEventsRise(parse, before, i, k);
    } else {
      LastIsHighest(parse, before, rs[k].event.op, i);
    }
  }

  predicate AcceptedAt(reports: seq<Report>, i: int, op: Option<string>) {
    0 <= i < |reports| && AcceptedFor(reports[i], op)
  }

  /** An operation is remembered under one of the events accepted for it. */
  lemma {:induction false} LastWasAccepted(reports: seq<Report>, op: Option<string>)
    ensures op in LastAfter(reports) ==>
      exists i :: AcceptedAt(reports, i, op) && reports[i].event.sequence == LastAfter(reports)[op]
  {
    if reports != [] {
      var n := |reports| - 1;
      var before := reports[..n];
      LastWasAccepted(before, op);
      if AcceptedFor(reports[n], op) {
        assert AcceptedAt(reports, n, op);
      } else if op in LastAfter(before) {
        var i :| AcceptedAt(before, i, op) && before[i].event.sequence == LastAfter(before)[op];
        assert AcceptedAt(reports, i, op);
      }
    }
  }

  lemma {:induction false} LastIsNotNegative(parse: Parser, frames: seq<Frame>, op: Option<string>)
    ensures LastOf(LastAfter(Reports(parse, frames)), op) >= 0
    decreases |frames|
  {
    if frames != [] {
      var rs, before := Reports(parse, frames), frames[..|frames|-1];
      assert rs[..|rs|-1] == Reports(parse, before);
      LastIsNotNegative(parse, before, op);
    }
  }

  lemma {:induction false} ReportAt(parse: Parser, frames: seq<Frame>, k: nat)
    requires k < |frames|
    ensures Reports(parse, frames)[..k] == Reports(parse, frames[..k])
    ensures Reports(parse, frames)[k] == Judge(parse, LastAfter(Reports(parse, frames[..k])), frames[k])
    decreases |frames|
  {
    var n, rs := |frames| - 1, Reports(parse, frames);
    assert rs[..n] == Reports(parse, frames[..n]);
    if k < n {
      ReportAt(parse, frames[..n], k);
      assert frames[..n][..k] == frames[..k];
      assert rs[..k] == rs[..n][..k];
    }
  }

  /** Nothing is accepted but the event a whole line of the stream parses to, claimed by the native
      side; everything else is rejected under its own reason. */
  lemma AcceptedIsTheLine(parse: Parser, frames: seq<Frame>, k: nat)
    requires k < |frames|
    ensures var r := Reports(parse, frames)[k];
      && (r.Accepted? ==> frames[k].Whole? && parse(frames[k].line) == Some(r.event) && r.event.native)
      && (r == Rejected(TooLong) <==> frames[k].Overflow?)
      && (r == Rejected(Invalid) <==> frames[k].Whole? && parse(frames[k].line).None?)
      && (r == Rejected(Foreign) <==> frames[k].Whole? && parse(frames[k].line).Some? && !parse(frames[k].line).value.native)
  {
    hide Reports, LastAfter;
    ReportAt(parse, frames, k);
  }

  /** A valid native event is dropped exactly when an event already accepted for its operation has
      a sequence as high (or its own is not positive); nothing else is held against it. */
  lemma DroppedExactly(parse: Parser, frames: seq<Frame>, k: nat, event: Event)
    requires k < |frames| && frames[k].Whole? && parse(frames[k].line) == Some(event) && event.native
    ensures var rs := Reports(parse, frames);
      && (rs[k] == Accepted(event) || rs[k] == Rejected(OutOfOrder))
      && (rs[k] == Rejected(OutOfOrder) <==>
            event.sequence <= 0 || exists i :: i < k && AcceptedAt(rs, i, event.op) && rs[i].event.sequence >= event.sequence)
  {
    hide Reports, LastAfter;
    var rs, before := Reports(parse, frames), Reports(parse, frames[..k]);
    ReportAt(parse, frames, k);
    LastWasAccepted(before, event.op);
    LastIsNotNegative(parse, frames[..k], event.op);
    if rs[k] == Rejected(OutOfOrder) && event.sequence > 0 {
      var i :| AcceptedAt(before, i, event.op) && before[i].event.sequence == LastAfter(before)[event.op];
      assert rs[..k][i] == before[i];
      assert i < k && AcceptedAt(rs, i, event.op) && rs[i].event.sequence >= event.sequence;
    }
    forall i | 0 <= i < k && AcceptedAt(rs, i, event.op) ensures rs[i].event.sequence <= LastOf(LastAfter(before), event.op) {
      assert rs[..k][i] == before[i];
      LastIsHighest(parse, frames[..k], event.op, i);
    }
  }

  // --- The coordinator's own events.

  /** One line on the coordinator's stream. */
  datatype Sent = Own(op: Option<string>, sequence: nat) | Relayed(event: Event)

  /** How many own events of the operation are on the stream. */
  function CountOf(sent: seq<Sent>, op: Option<string>): nat {
    if sent == [] then 0
    else CountOf(sent[..|sent|-1], op) + if sent[|sent|-1].Own? && sent[|sent|-1].op == op then 1 else 0
  }

  /** Own events of each operation are numbered one, two, three: none twice and none left out. */
  predicate Numbered(sent: seq<Sent>) {
    forall i :: 0 <= i < |sent| && sent[i].Own? ==> sent[i].sequence == CountOf(sent[..i], sent[i].op) + 1
  }

  class EventWriter {
    var sequences: map<Option<string>, nat>
    var sent: seq<Sent>

    ghost predicate Valid()
      reads this
    {
      && Numbered(sent)
      && forall op :: (if op in sequences then sequences[op] else 0) == CountOf(sent, op)
    }

    constructor ()
      ensures Valid() && sent == []
    {
      sequences, sent := map[], [];
    }

    /** An event the contract refuses is not sent, and its number stays free. */
    method Emit(op: Option<string>, valid: bool)
      requires Valid()
      modifies this
      ensures Valid() && sent == if valid then old(sent) + [Own(op, CountOf(old(sent), op) + 1)] else old(sent)
    {
      hide CountOf, Numbered;
      var sequence := (if op in sequences then sequences[op] else 0) + 1;
      if !valid {
        return;
      }
      sequences := sequences[op := sequence];
      sent := sent + [Own(op, sequence)];
      SentSnoc(old(sent), Own(op, sequence));
    }

    method Relay(event: Event)
      requires Valid()
      modifies `sent
      ensures Valid() && sent == old(sent) + [Relayed(event)]
    {
      sent := sent + [Relayed(event)];
      SentSnoc(old(sent), Relayed(event));
    }
  }

  lemma SentSnoc(sent: seq<Sent>, line: Sent)
    requires Numbered(sent) && (line.Own? ==> line.sequence == CountOf(sent, line.op) + 1)
    ensures Numbered(sent + [line])
    ensures forall op :: CountOf(sent + [line], op) == CountOf(sent, op) + if line.Own? && line.op == op then 1 else 0
  {
    var more := sent + [line];
    assert more[..|sent|] == sent;
    forall i | 0 <= i < |more| && more[i].Own? ensures more[i].sequence == CountOf(more[..i], more[i].op) + 1 {
      assert i < |sent| ==> more[..i] == sent[..i];
    }
  }

  lemma {:induction false} CountGrows(sent: seq<Sent>, i: nat, k: nat, op: Option<string>)
    requires i <= k <= |sent|
    ensures CountOf(sent[..i], op) <= CountOf(sent[..k], op)
    decreases k
  {
    if i < k {
      CountGrows(sent, i, k - 1, op);
      assert sent[..k][..k-1] == sent[..k-1];
    }
  }

  /** So an operation's own events strictly rise along the stream, whatever is relayed between. */
  lemma OwnEventsRise(sent: seq<Sent>, i: nat, k: nat)
    requires Numbered(sent) && i < k < |sent| && sent[i].Own? && sent[k].Own? && sent[i].op == sent[k].op
    ensures sent[i].sequence < sent[k].sequence
  {
    CountGrows(sent, i + 1, k, sent[i].op);
    assert sent[..i+1][..i] == sent[..i];
  }
}

/** The native utility's event lines, read back by the decoder. */
module EventRelay {
  import opened Options
  import opened Bytes
  import opened Events
  import Protocol
  import ProtocolRuns

  /** How the utility writes one of its events, and that the decoder can read it. */
  predicate Readable(parse: Parser, e: Event, line: Line) {
    |line| <= EVENT_LINE_MAX && NEWLINE !in line && parse(line) == Some(e)
  }

  function Written(lines: seq<Line>): seq<Byte> {
    if lines == [] then [] else lines[0] + [NEWLINE] + Written(lines[1..])
  }

  /** One frame for each line: the line, or the start of one that is too long. */
  function OneEach(lines: seq<Line>, max: nat): seq<Frame> {
    seq(|lines|, i requires 0 <= i < |lines| => if |lines[i]| <= max then Whole(lines[i]) else Overflow(lines[i][..max]))
  }

  /** Lines of any length, and an unfinished one after them, are framed as they were written. */
  lemma {:induction false} FramesOfWritten(lines: seq<Line>, tail: Line, max: nat)
    requires (forall i :: 0 <= i < |lines| ==> NEWLINE !in lines[i]) && NEWLINE !in tail
    ensures Frames(Written(lines) + tail, max) ==
      if |tail| <= max then Framed(OneEach(lines, max), Holding(tail))
      else Framed(OneEach(lines, max) + [Overflow(tail[..max])], Dropping)
    decreases |lines|
  {
    hide LineEnd;
    var b := Written(lines) + tail;
    if lines == [] {
      assert b == tail;
      NoLineEnd(tail);
      assert OneEach(lines, max) == [];
    } else {
      var rest := Written(lines[1..]) + tail;
      assert b == lines[0] + [NEWLINE] + rest;
      LineEndOf(lines[0], rest);
      assert b[..|lines[0]|] == lines[0] && b[|lines[0]|+1..] == rest;
      FramesOfWritten(lines[1..], tail, max);
      assert OneEach(lines, max) == [FrameOf(lines[0], max)] + OneEach(lines[1..], max);
      var more := if |tail| <= max then [] else [Overflow(tail[..max])];
      assert [FrameOf(lines[0], max)] + (OneEach(lines[1..], max) + more) == OneEach(lines, max) + more;
    }
  }

  predicate Rising(events: seq<Event>) {
    && (forall i :: 0 <= i < |events| ==> events[i].native && events[i].sequence >= 1)
    && (forall i, k :: 0 <= i < k < |events| && events[i].op == events[k].op ==> events[i].sequence < events[k].sequence)
  }

  /** One line of the descriptor: what writers that stopped in the middle of a line left directly
      before it, and the whole line that follows on it. */
  datatype Piece = Piece(stub: Line, line: Line)

  function Physical(pieces: seq<Piece>): seq<Line> {
    seq(|pieces|, i requires 0 <= i < |pieces| => pieces[i].stub + pieces[i].line)
  }

  /** A line glued to an unfinished one is too long or no document. */
  predicate Spoilt(parse: Parser, line: Line) {
    |line| > EVENT_LINE_MAX || parse(line).None?
  }

  predicate AllReadable(parse: Parser, events: seq<Event>, pieces: seq<Piece>) {
    |events| == |pieces| && forall i :: 0 <= i < |pieces| ==>
      && Readable(parse, events[i], pieces[i].line) && NEWLINE !in pieces[i].stub
      && (pieces[i].stub != [] ==> Spoilt(parse, pieces[i].stub + pieces[i].line))
  }

  /** Every whole line that does not directly follow an unfinished one is accepted. */
  function Relayed(events: seq<Event>, pieces: seq<Piece>): seq<Report>
    requires |events| == |pieces|
  {
    seq(|events|, i requires 0 <= i < |events| =>
      if pieces[i].stub == [] then Accepted(events[i])
      else Rejected(if |pieces[i].stub + pieces[i].line| > EVENT_LINE_MAX then TooLong else Invalid))
  }

  function AtEnd(tail: Line): seq<Report> {
    if tail == [] then [] else [Rejected(if |tail| <= EVENT_LINE_MAX then CutShort else TooLong)]
  }

  lemma PieceIsReported(parse: Parser, events: seq<Event>, pieces: seq<Piece>, frames: seq<Frame>, k: nat)
    requires Rising(events) && AllReadable(parse, events, pieces) && k < |pieces|
    requires OneEach(Physical(pieces), EVENT_LINE_MAX) <= frames
    ensures Reports(parse, frames)[k] == Relayed(events, pieces)[k]
  {
    hide Reports;
    var rs := Reports(parse, frames);
    assert frames[k] == OneEach(Physical(pieces), EVENT_LINE_MAX)[k];
    AcceptedIsTheLine(parse, frames, k);
    if pieces[k].stub == [] {
      assert [] + pieces[k].line == pieces[k].line;
      DroppedExactly(parse, frames, k, events[k]);
      forall i | 0 <= i < k && AcceptedAt(rs, i, events[k].op) ensures rs[i].event.sequence < events[k].sequence {
        AcceptedIsTheLine(parse, frames, i);
        assert frames[i] == OneEach(Physical(pieces), EVENT_LINE_MAX)[i];
        assert [] + pieces[i].line == pieces[i].line;
        assert rs[i].event == events[i];
      }
    }
  }

  /** Of rising native events every whole line that does not directly follow an unfinished one is
      relayed, in the order it was written, however the bytes were cut into chunks and however
      often a writer stopped in the middle of a line; a line glued to an unfinished one is lost. */
  lemma RisingStreamIsRelayed(parse: Parser, events: seq<Event>, pieces: seq<Piece>, tail: Line)
    requires Rising(events) && AllReadable(parse, events, pieces) && NEWLINE !in tail
    ensures StreamReports(parse, Written(Physical(pieces)) + tail) == Relayed(events, pieces) + AtEnd(tail)
  {
    hide Frames, Reports, Judge;
    var lines := Physical(pieces);
    forall i | 0 <= i < |lines| ensures NEWLINE !in lines[i] {
      assert Readable(parse, events[i], pieces[i].line);
    }
    FramesOfWritten(lines, tail, EVENT_LINE_MAX);
    var frames := Frames(Written(lines) + tail, EVENT_LINE_MAX).frames;
    forall k | 0 <= k < |pieces| ensures Reports(parse, frames)[k] == Relayed(events, pieces)[k] {
      PieceIsReported(parse, events, pieces, frames, k);
    }
    if |tail| > EVENT_LINE_MAX {
      AcceptedIsTheLine(parse, frames, |pieces|);
    }
  }

  // --- The native side.

  function FromNative(e: Protocol.Event): Event {
    Event(true, Some(e.op), e.sequence)
  }

  /** The events one native step put on its descriptor: some of those of the whole run, in order. */
  predicate Picks(at: seq<nat>, n: nat) {
    && (forall i :: 0 <= i < |at| ==> at[i] < n)
    && (forall i, k :: 0 <= i < k < |at| ==> at[i] < at[k])
  }

  function Picked(events: seq<Protocol.Event>, at: seq<nat>): seq<Event>
    requires forall i :: 0 <= i < |at| ==> at[i] < |events|
  {
    seq(|at|, i requires 0 <= i < |at| => FromNative(events[at[i]]))
  }

  /** In every run of the native utility in which no counter file was lost, whatever was killed, the
      events of any of its processes reach the coordinator in order, all but those whose line
      another process's unfinished one stands directly before. */
  lemma NativeEventsAreRelayed(steps: seq<Protocol.Step>, at: seq<nat>, parse: Parser, pieces: seq<Piece>, tail: Line)
    requires Protocol.Runs(Protocol.Init(), steps) && Picks(at, |Protocol.StateAfter(Protocol.Init(), steps).events|)
    requires forall i :: 0 <= i < |at| ==> var s := Protocol.StateAfter(Protocol.Init(), steps); s.events[at[i]].op !in s.lost
    requires AllReadable(parse, Picked(Protocol.StateAfter(Protocol.Init(), steps).events, at), pieces)
    requires NEWLINE !in tail
    ensures StreamReports(parse, Written(Physical(pieces)) + tail)
         == Relayed(Picked(Protocol.StateAfter(Protocol.Init(), steps).events, at), pieces) + AtEnd(tail)
  {
    var s := Protocol.StateAfter(Protocol.Init(), steps);
    var events := Picked(s.events, at);
    forall i | 0 <= i < |events| ensures events[i].native && events[i].sequence >= 1 {
      ProtocolRuns.EventSequencesArePositive(steps, at[i]);
    }
    forall i, k | 0 <= i < k < |events| && events[i].op == events[k].op ensures events[i].sequence < events[k].sequence {
      ProtocolRuns.EventSequencesRise(steps, at[i], at[k]);
    }
    RisingStreamIsRelayed(parse, events, pieces, tail);
  }
}
