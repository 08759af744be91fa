/** What a reader of standard output can tell: the handler's texts run together into one stream, where
    only newlines mark the ends of lines, and a path may hold newlines too. */
module OutputStream {
  import opened CTypes
  import opened SyscallEvents
  import opened Numerals
  import opened Producer
  import opened MetricLine
  import opened Consumer
  import opened SyscallLine
  import opened LineBreaks
  import opened MountLine
  import opened RingProtocol
  import opened SyscallTracing

  // ----- cutting a stream at its newlines

  function Stream(texts: seq<string>): string {
    if texts == [] then "" else texts[0] + Stream(texts[1..])
  }

  /** The position behind the first newline, or behind the last character. */
  function LineEnd(s: string): (k: nat)
    ensures k <= |s| && (s != [] ==> 0 < k)
  {
    if s == [] then 0 else if s[0] == '\n' then 1 else 1 + LineEnd(s[1..])
  }

  /** The lines of a stream, each with its newline. */
  function CutLines(s: string): seq<string> {
    if s == [] then [] else [s[..LineEnd(s)]] + CutLines(s[LineEnd(s)..])
  }

  predicate IsLine(l: string) {
    l != [] && l[|l| - 1] == '\n' && '\n' !in l[..|l| - 1]
  }

  lemma {:induction false} LineEndsAtNewline(l: string, rest: string)
    requires IsLine(l)
    ensures LineEnd(l + rest) == |l|
  {
    var s := l + rest;
    if |l| > 1 {
      assert l[0] == l[..|l| - 1][0];
      assert s[1..] == l[1..] + rest;
      assert l[1..][..|l| - 2] == l[..|l| - 1][1..];
      LineEndsAtNewline(l[1..], rest);
    }
  }

  lemma {:induction false} LineEndIsFirst(s: string)
    ensures s != [] ==> '\n' !in s[..LineEnd(s) - 1]
  {
    if s != [] && s[0] != '\n' {
      LineEndIsFirst(s[1..]);
      assert s[1..] != [] ==> s[..LineEnd(s) - 1] == [s[0]] + s[1..][..LineEnd(s[1..]) - 1];
    }
  }

  lemma {:induction false} CutPiecesHoldOneNewline(s: string)
    ensures forall i | 0 <= i < |CutLines(s)| :: CutLines(s)[i] != [] && '\n' !in CutLines(s)[i][..|CutLines(s)[i]| - 1]
  {
    if s != [] {
      var k := LineEnd(s);
      LineEndIsFirst(s);
      assert s[..k][..k - 1] == s[..k - 1];
      CutPiecesHoldOneNewline(s[k..]);
    }
  }

  /** Cutting loses nothing. */
  lemma {:induction false} StreamOfCutLines(s: string)
    ensures Stream(CutLines(s)) == s
  {
    if s != [] {
      var k := LineEnd(s);
      StreamOfCutLines(s[k..]);
      assert CutLines(s)[1..] == CutLines(s[k..]) && s == s[..k] + s[k..];
    }
  }

  lemma {:induction false} CutLinesOfStream(lines: seq<string>)
    requires forall i | 0 <= i < |lines| :: IsLine(lines[i])
    ensures CutLines(Stream(lines)) == lines
  {
    if lines != [] {
      var l, rest := lines[0], Stream(lines[1..]);
      LineEndsAtNewline(l, rest);
      assert (l + rest)[..|l|] == l && (l + rest)[|l|..] == rest;
      CutLinesOfStream(lines[1..]);
    }
  }

  /** Texts that end in a newline come back from their stream exactly when none has another one. */
  lemma CutLinesIffSingle(texts: seq<string>)
    requires forall i | 0 <= i < |texts| :: texts[i] != [] && texts[i][|texts[i]| - 1] == '\n'
    ensures CutLines(Stream(texts)) == texts <==> forall i | 0 <= i < |texts| :: IsLine(texts[i])
  {
    if forall i | 0 <= i < |texts| :: IsLine(texts[i]) {
      CutLinesOfStream(texts);
    }
    if CutLines(Stream(texts)) == texts {
      CutPiecesHoldOneNewline(Stream(texts));
    }
  }

  // ----- the stream of a run

  /** Everything a run has written to standard output. */
  ghost function Stdout(cfg: Config, n: nat, trace: seq<Label>): string
    requires ValidRun(cfg, n, trace)
  {
    PrintedLines(cfg, n, trace);
    Stream(Output(Run(cfg, n, trace).ring.handled))
  }

  /** The calls a run has shown, in order. */
  ghost function ShownCalls(cfg: Config, n: nat, trace: seq<Label>): (shown: seq<Shown>)
    requires ValidRun(cfg, n, trace)
    ensures forall i | 0 <= i < |shown| :: Records(cfg, shown[i].call)
  {
    PrintedLines(cfg, n, trace);
    Delivery(cfg, ReservedCalls(cfg, trace), Clocks(trace))
  }

  predicate AllSingle(cfg: Config, shown: seq<Shown>) {
    forall i | 0 <= i < |shown| :: Records(cfg, shown[i].call) && SingleLine(Case(cfg, shown[i].call), shown[i].call)
  }

  lemma LineOfIsLine(cfg: Config, call: Call, t: I64)
    requires Records(cfg, call)
    ensures var l := LineOf(cfg, call, t);
            l != [] && l[|l| - 1] == '\n' && (IsLine(l) <==> SingleLine(Case(cfg, call), call))
  {
    LineIsSingle(Case(cfg, call), Pid(cfg, call), call, t);
    var x := CallLine(Case(cfg, call), Pid(cfg, call), call, t);
    assert (x + "\n")[..|x|] == x;
  }

  lemma PrintedLinesAreLines(cfg: Config, lines: seq<string>, shown: seq<Shown>)
    requires Prints(cfg, lines, shown)
    ensures forall i | 0 <= i < |lines| :: lines[i] != [] && lines[i][|lines[i]| - 1] == '\n'
    ensures (forall i | 0 <= i < |lines| :: IsLine(lines[i])) <==> AllSingle(cfg, shown)
  {
    forall i | 0 <= i < |shown|
      ensures lines[i] != [] && lines[i][|lines[i]| - 1] == '\n'
      ensures IsLine(lines[i]) <==> SingleLine(Case(cfg, shown[i].call), shown[i].call)
    {
      LineOfIsLine(cfg, shown[i].call, shown[i].microseconds);
    }
  }

  /** Cut at its newlines, the stream of a run gives the handler's lines back, one for each call it
      shows, exactly when no text that a shown call passes holds a newline. */
  lemma LinesComeBackIffSingle(cfg: Config, n: nat, trace: seq<Label>)
    requires ValidRun(cfg, n, trace)
    ensures Printable(Run(cfg, n, trace).ring.handled)
    ensures CutLines(Stdout(cfg, n, trace)) == Output(Run(cfg, n, trace).ring.handled)
       <==> AllSingle(cfg, ShownCalls(cfg, n, trace))
  {
    PrintedLines(cfg, n, trace);
    var lines, shown := Output(Run(cfg, n, trace).ring.handled), ShownCalls(cfg, n, trace);
    PrintedLinesAreLines(cfg, lines, shown);
    CutLinesIffSingle(lines);
  }

  // ----- what the stream tells about the calls

  /** The line of the call can be told apart from those of all others. */
  ghost predicate Readable(cfg: Config, call: Call)
    requires Records(cfg, call)
  {
    Case(cfg, call).Mount? ==> OneCutIn(TextOf(call, 0), TextOf(call, 1), TextOf(call, 2))
  }

  predicate SameShown(cfg: Config, x: Shown, cfg': Config, y: Shown)
    requires Records(cfg, x.call) && Records(cfg', y.call)
  {
    && x.microseconds == y.microseconds
    && LooksAlike(Case(cfg, x.call), Pid(cfg, x.call), x.call, Case(cfg', y.call), Pid(cfg', y.call), y.call)
  }

  lemma LineTellsCall(cfg: Config, x: Shown, cfg': Config, y: Shown)
    requires Records(cfg, x.call) && Records(cfg', y.call) && Readable(cfg, x.call)
    requires LineOf(cfg, x.call, x.microseconds) == LineOf(cfg', y.call, y.microseconds)
    ensures SameShown(cfg, x, cfg', y)
  {
    var s, pid, s', pid' := Case(cfg, x.call), Pid(cfg, x.call), Case(cfg', y.call), Pid(cfg', y.call);
    SameSuffix("\n", CallLine(s, pid, x.call, x.microseconds), CallLine(s', pid', y.call, y.microseconds));
    if s.Mount? {
      MountCallIsReadableIffOneCut(pid, x.call);
    } else {
      LineDeterminesCall(s, pid, x.call, x.microseconds, s', pid', y.call, y.microseconds);
    }
  }

  /** Two runs, under any two configurations, whose shown calls pass no newlines and, in the first, no
      mount with a second cut: if they write the same stream, they have shown the same calls, one by one,
      at the same times, with the same PIDs and arguments. */
  lemma StreamTellsCalls(cfg: Config, n: nat, trace: seq<Label>, cfg': Config, n': nat, trace': seq<Label>)
    requires ValidRun(cfg, n, trace) && ValidRun(cfg', n', trace') && Stdout(cfg, n, trace) == Stdout(cfg', n', trace')
    requires AllSingle(cfg, ShownCalls(cfg, n, trace)) && AllSingle(cfg', ShownCalls(cfg', n', trace'))
    requires forall i | 0 <= i < |ShownCalls(cfg, n, trace)| :: Readable(cfg, ShownCalls(cfg, n, trace)[i].call)
    ensures |ShownCalls(cfg, n, trace)| == |ShownCalls(cfg', n', trace')|
    ensures forall i | 0 <= i < |ShownCalls(cfg, n, trace)| ::
              SameShown(cfg, ShownCalls(cfg, n, trace)[i], cfg', ShownCalls(cfg', n', trace')[i])
  {
    LinesComeBackIffSingle(cfg, n, trace);
    LinesComeBackIffSingle(cfg', n', trace');
    PrintedLines(cfg, n, trace);
    PrintedLines(cfg', n', trace');
    var shown, shown' := ShownCalls(cfg, n, trace), ShownCalls(cfg', n', trace');
    forall i | 0 <= i < |shown|
      ensures SameShown(cfg, shown[i], cfg', shown'[i])
    {
      assert Output(Run(cfg, n, trace).ring.handled)[i] == Output(Run(cfg', n', trace').ring.handled)[i];
      LineTellsCall(cfg, shown[i], cfg', shown'[i]);
    }
  }

  // ----- texts with newlines

  lemma ReadableText(s: Syscall, call: Call, j: nat, text: string)
    requires CallOk(call) && s != Open && s != Mount && IsText(s, j) && NUL !in text && |text| <= MAX_BUF_SIZE
    ensures PathReadable(s, WithText(call, j, text))
  {
  }

  lemma WithTextIsRecorded(cfg: Config, call: Call, j: nat, text: string)
    requires Records(cfg, call) && Case(cfg, call) != Mount && IsText(Case(cfg, call), j)
    requires NUL !in text && |text| <= MAX_BUF_SIZE
    ensures var c := WithText(call, j, text);
            && Records(cfg, c) && Case(cfg, c) == Case(cfg, call) && Pid(cfg, c) == Pid(cfg, call)
            && c.granted == call.granted && Delivered(cfg, c)
  {
    ReadableText(Case(cfg, call), call, j, text);
  }

  lemma {:induction false} DeliveryOfAll(cfg: Config, calls: seq<Call>, clocks: seq<I64>)
    requires |clocks| <= |calls| && AllRecord(cfg, calls)
    requires forall i | 0 <= i < |clocks| :: Delivered(cfg, calls[i])
    ensures |Delivery(cfg, calls, clocks)| == |clocks|
    ensures forall i | 0 <= i < |clocks| :: Delivery(cfg, calls, clocks)[i] == Shown(calls[i], clocks[i])
    decreases |clocks|
  {
    if clocks != [] { DeliveryOfAll(cfg, calls, clocks[..|clocks| - 1]); }
  }

  /** The lines of these calls, all at one time. */
  function LinesOf(cfg: Config, calls: seq<Call>, t: I64): (lines: seq<string>)
    requires AllRecord(cfg, calls)
    ensures |lines| == |calls| && forall i | 0 <= i < |lines| :: lines[i] == LineOf(cfg, calls[i], t)
  {
    seq(|calls|, i requires 0 <= i < |calls| => LineOf(cfg, calls[i], t))
  }

  lemma RunOf(cfg: Config, n: nat, calls: seq<Call>, t: I64) returns (trace: seq<Label>)
    requires 0 < n && AllGranted(cfg, calls) && forall i | 0 <= i < |calls| :: Delivered(cfg, calls[i])
    ensures ValidRun(cfg, n, trace) && ReservedCalls(cfg, trace) == calls
    ensures |ShownCalls(cfg, n, trace)| == |calls|
    ensures forall i | 0 <= i < |calls| :: ShownCalls(cfg, n, trace)[i] == Shown(calls[i], t)
    ensures Stdout(cfg, n, trace) == Stream(LinesOf(cfg, calls, t))
  {
    trace := CallsCanBeTaken(cfg, n, calls, t);
    DeliveryOfAll(cfg, calls, Clocks(trace));
    PrintedLines(cfg, n, trace);
    assert Output(Run(cfg, n, trace).ring.handled) == LinesOf(cfg, calls, t);
  }

  lemma StreamOfOne(cfg: Config, c: Call, t: I64)
    requires Records(cfg, c)
    ensures Stream(LinesOf(cfg, [c], t)) == LineOf(cfg, c, t)
  {
    var lines := LinesOf(cfg, [c], t);
    assert lines[1..] == [] && lines[0] + [] == lines[0];
  }

  lemma StreamOfTwo(cfg: Config, c: Call, d: Call, t: I64)
    requires Records(cfg, c) && Records(cfg, d)
    ensures Stream(LinesOf(cfg, [c, d], t)) == LineOf(cfg, c, t) + LineOf(cfg, d, t)
  {
    assert LinesOf(cfg, [c, d], t)[1..] == LinesOf(cfg, [d], t);
    StreamOfOne(cfg, d, t);
  }

  lemma RunOfOne(cfg: Config, n: nat, c: Call, t: I64) returns (trace: seq<Label>)
    requires 0 < n && Records(cfg, c) && c.granted && Delivered(cfg, c)
    ensures ValidRun(cfg, n, trace) && ReservedCalls(cfg, trace) == [c]
    ensures |ShownCalls(cfg, n, trace)| == 1 && Stdout(cfg, n, trace) == LineOf(cfg, c, t)
  {
    trace := RunOf(cfg, n, [c], t);
    StreamOfOne(cfg, c, t);
  }

  lemma RunOfTwo(cfg: Config, n: nat, c: Call, d: Call, t: I64) returns (trace: seq<Label>)
    requires 0 < n && Records(cfg, c) && c.granted && Delivered(cfg, c)
    requires Records(cfg, d) && d.granted && Delivered(cfg, d)
    ensures ValidRun(cfg, n, trace) && ReservedCalls(cfg, trace) == [c, d]
    ensures |ShownCalls(cfg, n, trace)| == 2 && Stdout(cfg, n, trace) == LineOf(cfg, c, t) + LineOf(cfg, d, t)
  {
    trace := RunOf(cfg, n, [c, d], t);
    StreamOfTwo(cfg, c, d, t);
  }

  /** So the stream need not tell how many calls were made: for any call with one text there are two
      runs that write the same, one with a single call that passes the combined text, the other with two. */
  lemma AmbiguousRuns(cfg: Config, n: nat, call: Call, t: I64, j: nat, x: string, y: string)
    returns (one: seq<Label>, two: seq<Label>)
    requires 0 < n && Records(cfg, call) && call.granted && Case(cfg, call) != Mount && IsText(Case(cfg, call), j)
    requires var f := BreakingText(Case(cfg, call), Pid(cfg, call), call, t, j, x, y); NUL !in f && |f| <= MAX_BUF_SIZE
    ensures NUL !in x && |x| <= MAX_BUF_SIZE && NUL !in y && |y| <= MAX_BUF_SIZE
    ensures ValidRun(cfg, n, one) && ValidRun(cfg, n, two)
    ensures ReservedCalls(cfg, one) == [WithText(call, j, BreakingText(Case(cfg, call), Pid(cfg, call), call, t, j, x, y))]
    ensures ReservedCalls(cfg, two) == [WithText(call, j, x), WithText(call, j, y)]
    ensures Stdout(cfg, n, one) == Stdout(cfg, n, two)
    ensures |ShownCalls(cfg, n, one)| == 1 && |ShownCalls(cfg, n, two)| == 2
  {
    var s, pid := Case(cfg, call), Pid(cfg, call);
    var f := BreakingText(s, pid, call, t, j, x, y);
    OneCallPrintsTwoLines(s, pid, call, t, j, x, y);
    WithTextIsRecorded(cfg, call, j, f);
    WithTextIsRecorded(cfg, call, j, x);
    WithTextIsRecorded(cfg, call, j, y);
    one := RunOfOne(cfg, n, WithText(call, j, f), t);
    two := RunOfTwo(cfg, n, WithText(call, j, x), WithText(call, j, y), t);
  }
}
