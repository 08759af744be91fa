/** `create_execvp_args` of src/eptracer.c: cutting the program line into an argument vector. */
module Tokenizer {
  import opened CTypes

  const MAX_ARGS := 100
  const MAX_STR_LEN := 100
  const ARGV_BYTES := 8 * MAX_ARGS + 1
  const NULL := -1

  // ----- the maximal runs of non-space bytes

  datatype Run = Run(start: nat, end: nat)

  function SkipSpaces(s: string, i: nat): (j: nat)
    requires i <= |s|
    ensures i <= j <= |s|
    decreases |s| - i
  {
    if i < |s| && s[i] == ' ' then SkipSpaces(s, i + 1) else i
  }

  lemma {:induction false} SkipSpacesFinds(s: string, i: nat)
    requires i <= |s|
    ensures var j := SkipSpaces(s, i); (j < |s| ==> s[j] != ' ') && forall k | i <= k < j :: s[k] == ' '
    decreases |s| - i
  {
    if i < |s| && s[i] == ' ' { SkipSpacesFinds(s, i + 1); }
  }

  function SkipWord(s: string, i: nat): (j: nat)
    requires i <= |s|
    ensures i <= j <= |s|
    ensures i < |s| && s[i] != ' ' ==> i < j
    decreases |s| - i
  {
    if i < |s| && s[i] != ' ' then SkipWord(s, i + 1) else i
  }

  lemma {:induction false} SkipWordFinds(s: string, i: nat)
    requires i <= |s|
    ensures var j := SkipWord(s, i); (j < |s| ==> s[j] == ' ') && forall k | i <= k < j :: s[k] != ' '
    decreases |s| - i
  {
    if i < |s| && s[i] != ' ' { SkipWordFinds(s, i + 1); }
  }

  /** Where strtok resumes: after the space it overwrote, or on the terminator. */
  function Resume(s: string, end: nat): nat {
    if end < |s| then end + 1 else end
  }

  function Runs(s: string, i: nat): seq<Run>
    requires i <= |s|
    decreases |s| - i
  {
    var b := SkipSpaces(s, i);
    if b == |s| then []
    else
      var e := SkipWord(s, b);
      [Run(b, e)] + Runs(s, Resume(s, e))
  }

  function Text(s: string, r: Run): string
    requires r.start <= r.end <= |s|
  {
    s[r.start..r.end]
  }

  predicate IsMaximalRun(s: string, r: Run) {
    && r.start < r.end <= |s|
    && (forall k | r.start <= k < r.end :: s[k] != ' ')
    && (0 < r.start ==> s[r.start - 1] == ' ')
    && (r.end < |s| ==> s[r.end] == ' ')
  }

  /** Runs lists maximal runs of non-spaces, in order. */
  lemma {:induction false} RunsAreMaximal(s: string, i: nat)
    requires i <= |s| && (0 < i < |s| ==> s[i - 1] == ' ')
    ensures forall k | 0 <= k < |Runs(s, i)| :: IsMaximalRun(s, Runs(s, i)[k]) && i <= Runs(s, i)[k].start
    ensures forall k, l | 0 <= k < l < |Runs(s, i)| :: Runs(s, i)[k].end < Runs(s, i)[l].start
    decreases |s| - i
  {
    var b := SkipSpaces(s, i);
    SkipSpacesFinds(s, i);
    if b < |s| {
      SkipWordFinds(s, b);
      assert 0 < b ==> s[b - 1] == ' ';
      RunsAreMaximal(s, Resume(s, SkipWord(s, b)));
    }
  }

  /** Runs misses none: every maximal run from i on is listed. */
  lemma {:induction false} RunsAreAll(s: string, i: nat, r: Run)
    requires i <= |s| && IsMaximalRun(s, r) && i <= r.start
    ensures r in Runs(s, i)
    decreases |s| - i
  {
    var b := SkipSpaces(s, i);
    SkipSpacesFinds(s, i);
    assert s[r.start] != ' ';
    assert b <= r.start;
    var e := SkipWord(s, b);
    SkipWordFinds(s, b);
    if r.start == b {
      assert r.end == e;
    } else {
      assert e < r.start;
      RunsAreAll(s, Resume(s, e), r);
    }
  }

  /** Two runs and the space between them cost at least three bytes: n bytes hold at most (n + 1) / 2 runs. */
  lemma {:induction false} RunCount(s: string, i: nat)
    requires i <= |s|
    ensures 2 * |Runs(s, i)| <= |s| - i + 1
    decreases |s| - i
  {
    var b := SkipSpaces(s, i);
    if b < |s| {
      RunCount(s, Resume(s, SkipWord(s, b)));
    }
  }

  // ----- the list of words

  function Words(s: string, i: nat): (ws: seq<string>)
    requires i <= |s|
    decreases |s| - i
  {
    var b := SkipSpaces(s, i);
    if b == |s| then []
    else
      var e := SkipWord(s, b);
      [s[b..e]] + Words(s, Resume(s, e))
  }

  lemma {:induction false} WordsAreRunTexts(s: string, i: nat)
    requires i <= |s|
    ensures |Words(s, i)| == |Runs(s, i)|
    ensures forall k | 0 <= k < |Runs(s, i)| ::
              var r := Runs(s, i)[k]; r.start < r.end <= |s| && Words(s, i)[k] == Text(s, r)
    decreases |s| - i
  {
    var b := SkipSpaces(s, i);
    SkipSpacesFinds(s, i);
    if b < |s| {
      SkipWordFinds(s, b);
      WordsAreRunTexts(s, Resume(s, SkipWord(s, b)));
    }
  }

  predicate IsWord(w: string) {
    w != [] && ' ' !in w
  }

  lemma {:induction false} WordsAreWords(s: string, i: nat)
    requires i <= |s|
    ensures forall k | 0 <= k < |Words(s, i)| :: IsWord(Words(s, i)[k])
    decreases |s| - i
  {
    var b := SkipSpaces(s, i);
    SkipSpacesFinds(s, i);
    if b < |s| {
      SkipWordFinds(s, b);
      WordsAreWords(s, Resume(s, SkipWord(s, b)));
    }
  }

  function Concat(ws: seq<string>): string {
    if ws == [] then [] else ws[0] + Concat(ws[1..])
  }

  function WithoutSpaces(s: string): string {
    if s == [] then [] else (if s[0] == ' ' then [] else [s[0]]) + WithoutSpaces(s[1..])
  }

  lemma {:induction false} WithoutSpacesSplit(s: string, t: string)
    ensures WithoutSpaces(s + t) == WithoutSpaces(s) + WithoutSpaces(t)
  {
    if s == [] {
      assert s + t == t;
    } else {
      assert (s + t)[1..] == s[1..] + t;
      WithoutSpacesSplit(s[1..], t);
    }
  }

  lemma {:induction false} WithoutSpacesOf(s: string)
    ensures ' ' !in s ==> WithoutSpaces(s) == s
    ensures (forall k | 0 <= k < |s| :: s[k] == ' ') ==> WithoutSpaces(s) == []
  {
    if s != [] {
      WithoutSpacesOf(s[1..]);
      assert s == [s[0]] + s[1..];
    }
  }

  lemma WithoutSpacesFrom(s: string, i: nat, j: nat)
    requires i <= j <= |s|
    ensures WithoutSpaces(s[i..]) == WithoutSpaces(s[i..j]) + WithoutSpaces(s[j..])
  {
    assert s[i..] == s[i..j] + s[j..];
    WithoutSpacesSplit(s[i..j], s[j..]);
  }

  /** One round of cutting: spaces up to b, a word up to e, one more space up to n. */
  lemma WithoutSpacesRound(s: string, i: nat, b: nat, e: nat, n: nat)
    requires i <= b <= e <= n <= |s|
    requires forall k | i <= k < b || e <= k < n :: s[k] == ' '
    requires forall k | b <= k < e :: s[k] != ' '
    ensures WithoutSpaces(s[i..]) == s[b..e] + WithoutSpaces(s[n..])
  {
    WithoutSpacesFrom(s, i, b);
    WithoutSpacesOf(s[i..b]);
    WithoutSpacesFrom(s, b, e);
    WithoutSpacesOf(s[b..e]);
    WithoutSpacesFrom(s, e, n);
    WithoutSpacesOf(s[e..n]);
  }

  /** Nothing but spaces is lost: the words joined together are the line without its spaces. */
  lemma {:induction false} WordsKeepEverything(s: string, i: nat)
    requires i <= |s|
    ensures Concat(Words(s, i)) == WithoutSpaces(s[i..])
    decreases |s| - i
  {
    var b := SkipSpaces(s, i);
    SkipSpacesFinds(s, i);
    if b == |s| {
      WithoutSpacesOf(s[i..]);
    } else {
      var e := SkipWord(s, b);
      SkipWordFinds(s, b);
      var n := Resume(s, e);
      WithoutSpacesRound(s, i, b, e, n);
      WordsKeepEverything(s, n);
      assert Words(s, i)[1..] == Words(s, n);
    }
  }

  /** A line written from words, one space between two. */
  function Join(ws: seq<string>): string {
    if ws == [] then [] else if |ws| == 1 then ws[0] else ws[0] + " " + Join(ws[1..])
  }

  lemma FirstWord(s: string, i: nat, w: string)
    requires IsWord(w) && i + |w| <= |s| && s[i..i + |w|] == w
    requires i + |w| < |s| ==> s[i + |w|] == ' '
    ensures i + |w| == |s| ==> Words(s, i) == [w]
    ensures i + |w| < |s| ==> Words(s, i) == [w] + Words(s, i + |w| + 1)
  {
    assert forall k | i <= k < i + |w| :: s[k] == w[k - i] && w[k - i] in w;
    assert SkipSpaces(s, i) == i;
    SkipWordIs(s, i, i + |w|);
  }

  lemma SplitAt(s: string, i: nat, w: string, r: string)
    requires i <= |s| && s[i..] == w + r
    ensures i + |w| <= |s| && s[i..i + |w|] == w && s[i + |w|..] == r
  {
    assert s[i..][..|w|] == w && s[i..][|w|..] == r;
  }

  lemma JoinStep(s: string, i: nat, ws: seq<string>)
    requires i <= |s| && s[i..] == Join(ws) && 1 < |ws|
    ensures var e := i + |ws[0]|; e < |s| && s[i..e] == ws[0] && s[e] == ' ' && s[e + 1..] == Join(ws[1..])
  {
    var w, r := ws[0], Join(ws[1..]);
    assert w + " " + r == w + (" " + r);
    SplitAt(s, i, w, " " + r);
    SplitAt(s, i + |w|, " ", r);
    assert s[i + |w|] == s[i + |w|..][0];
  }

  /** From position i on, s is exactly these words with one space between two. */
  predicate CutsInto(s: string, i: nat, ws: seq<string>)
    requires i <= |s|
    decreases |ws|
  {
    if ws == [] then i == |s|
    else
      var e := i + |ws[0]|;
      && IsWord(ws[0]) && e <= |s| && s[i..e] == ws[0]
      && if |ws| == 1 then e == |s| else e < |s| && s[e] == ' ' && CutsInto(s, e + 1, ws[1..])
  }

  lemma {:induction false} JoinCutsInto(s: string, i: nat, ws: seq<string>)
    requires i <= |s| && s[i..] == Join(ws)
    requires forall k | 0 <= k < |ws| :: IsWord(ws[k])
    ensures CutsInto(s, i, ws)
    decreases |ws|
  {
    if ws == [] {
      assert |s[i..]| == 0;
    } else if |ws| == 1 {
      JoinEnd(s, i, ws[0]);
    } else {
      JoinStep(s, i, ws);
      JoinCutsInto(s, i + |ws[0]| + 1, ws[1..]);
    }
  }

  lemma JoinEnd(s: string, i: nat, w: string)
    requires i <= |s| && s[i..] == Join([w])
    ensures i + |w| == |s| && s[i..i + |w|] == w
  {
    assert w + [] == w;
    SplitAt(s, i, w, []);
  }

  lemma {:induction false} WordsOfCut(s: string, i: nat, ws: seq<string>)
    requires i <= |s| && CutsInto(s, i, ws)
    ensures Words(s, i) == ws
    decreases |ws|
  {
    if ws != [] {
      FirstWord(s, i, ws[0]);
      if |ws| > 1 { WordsOfCut(s, i + |ws[0]| + 1, ws[1..]); }
      assert ws == [ws[0]] + ws[1..];
    }
  }

  /** Cutting words joined by single spaces gives those words back. */
  lemma WordsOfJoin(ws: seq<string>)
    requires forall k | 0 <= k < |ws| :: IsWord(ws[k])
    ensures Words(Join(ws), 0) == ws
  {
    assert Join(ws)[0..] == Join(ws);
    JoinCutsInto(Join(ws), 0, ws);
    WordsOfCut(Join(ws), 0, ws);
  }

  lemma {:induction false} SkipWordIs(s: string, i: nat, e: nat)
    requires i <= e <= |s| && (forall k | i <= k < e :: s[k] != ' ') && (e < |s| ==> s[e] == ' ')
    ensures SkipWord(s, i) == e
    decreases e - i
  {
    if i < e { SkipWordIs(s, i + 1, e); }
  }

  /** The argument vector, up to its NULL, that `create_execvp_args` builds for a program line. */
  function ExecvpArgs(line: string): seq<string> {
    if ' ' !in line then [] else Words(line, 0)
  }

  lemma LineWithoutSpaces(line: string)
    requires ' ' !in line
    ensures Words(line, 0) == if line == "" then [] else [line]
  {
    if line != "" {
      assert forall k | 0 <= k < |line| :: line[k] in line;
      FirstWord(line, 0, line);
    }
  }

  /** The vector holds the words of the line exactly when the line has a space, or nothing in it. */
  lemma VectorHoldsTheWords(line: string)
    ensures ExecvpArgs(line) == Words(line, 0) <==> ' ' in line || line == ""
  {
    if ' ' !in line { LineWithoutSpaces(line); }
  }

  /** Writing the arguments back with single spaces gives the same vector, except for a line with a
      space and a single word: a lone word has no space left, and such a line gets an empty vector. */
  lemma RewritingTheLine(line: string)
    ensures ExecvpArgs(Join(ExecvpArgs(line))) == ExecvpArgs(line) <==> !(' ' in line && |Words(line, 0)| == 1)
  {
    var ws := ExecvpArgs(line);
    if ' ' in line {
      WordsAreWords(line, 0);
      WordsOfJoin(ws);
    }
    if |ws| == 1 {
      assert IsWord(ws[0]);
    } else if |ws| > 1 {
      assert Join(ws)[|ws[0]|] == ' ';
    }
  }

  /** The same command with and without a space behind it: `ls ` gets its name as argument, `ls` an
      empty vector, so neither the words nor the rewritten line survive. */
  lemma LoneCommandLosesItsName()
    ensures ExecvpArgs("ls ") == ["ls"] && ExecvpArgs("ls") == [] && Words("ls", 0) == ["ls"]
    ensures ExecvpArgs(Join(ExecvpArgs("ls "))) != ExecvpArgs("ls ")
  {
    LineWithoutSpaces("ls");
    FirstWord("ls ", 0, "ls");
    assert "ls "[2] == ' ';
    assert Words("ls ", 3) == [];
    RewritingTheLine("ls ");
  }

  // ----- the code

  /** The line is still there, terminator included, from position i on. */
  ghost predicate Intact(buf: seq<char>, line: string, i: nat) {
    |line| < |buf| && buf[|line|] == NUL && forall k | i <= k < |line| :: buf[k] == line[k]
  }

  /** The bytes of run r are still there and a NUL follows them. */
  ghost predicate Ended(buf: seq<char>, line: string, r: Run) {
    && r.start <= r.end <= |line| < |buf|
    && buf[r.end] == NUL
    && forall k | r.start <= k < r.end :: buf[k] == line[k]
  }

  lemma EndedIsCString(buf: seq<char>, line: string, r: Run)
    requires Ended(buf, line, r) && NUL !in line
    ensures CString(buf[r.start..]) == Text(line, r)
  {
    var n := r.end - r.start;
    assert buf[r.start..][..n] == Text(line, r);
    assert forall k | r.start <= k < r.end :: line[k] in line;
    CStringIs(buf[r.start..], n);
  }

  /** The first `count` runs are cut out and recorded in argv. */
  ghost predicate Stored(argv: seq<int>, buf: seq<char>, line: string, runs: seq<Run>, count: nat, save: nat) {
    && count <= |runs| && count <= |argv|
    && forall k | 0 <= k < count ::
         && argv[k] == runs[k].start
         && Ended(buf, line, runs[k])
         && runs[k].end <= save
         && (runs[k].end < save || runs[k].end == |line|)
  }

  /** What is stored survives a change from the saved position on that keeps the terminator. */
  lemma StoredFrame(argv: seq<int>, buf: seq<char>, buf': seq<char>, line: string, runs: seq<Run>, count: nat, save: nat)
    requires Stored(argv, buf, line, runs, count, save) && save <= |line| < |buf| == |buf'|
    requires buf'[|line|] == NUL && forall k | 0 <= k < save :: buf'[k] == buf[k]
    ensures Stored(argv, buf', line, runs, count, save)
  {
    forall k | 0 <= k < count
      ensures Ended(buf', line, runs[k])
    {
      assert Ended(buf, line, runs[k]);
    }
  }

  /** strtok searched from `from`, returned `token` and saved `save`. */
  ghost predicate Found(buf: seq<char>, line: string, from: nat, token: int, save: nat)
    requires from <= |line|
  {
    var b := SkipSpaces(line, from);
    && token == b < |line|
    && save == Resume(line, SkipWord(line, b))
    && Ended(buf, line, Run(b, SkipWord(line, b)))
  }

  /** What `create_execvp_args` leaves behind: the k-th entry is the position of the k-th maximal
      run, the string found there in the overwritten line is that run, and NULL follows the last. */
  ghost predicate IsArgv(argv: seq<int>, program: seq<char>, line: string, runs: seq<Run>) {
    && |runs| < |argv| && argv[|runs|] == NULL
    && forall k | 0 <= k < |runs| ::
         && 0 <= argv[k] == runs[k].start <= runs[k].end <= |line| < |program|
         && CString(program[argv[k]..]) == Text(line, runs[k])
  }

  lemma StoredPush(argv: seq<int>, buf: seq<char>, line: string, runs: seq<Run>, count: nat, from: nat, token: int, save: nat)
    requires from <= |line| && count <= |runs| && runs[count..] == Runs(line, from) && count < |argv|
    requires Stored(argv, buf, line, runs, count, from) && Found(buf, line, from, token, save)
    ensures Stored(argv[count := token], buf, line, runs, count + 1, save)
    ensures runs[count + 1..] == Runs(line, save)
  {
    assert Runs(line, from)[1..] == Runs(line, save);
    assert runs[count..][1..] == runs[count + 1..];
    assert runs[count] == runs[count..][0];
  }

  /** The state of the loop: `count` runs stored, the search from `from` returned `token`. */
  ghost predicate Cutting(argv: seq<int>, buf: seq<char>, line: string, runs: seq<Run>, count: nat, from: nat, token: int, save: nat) {
    && count <= |runs| && from <= save <= |line|
    && runs[count..] == Runs(line, from)
    && Stored(argv, buf, line, runs, count, from)
    && Intact(buf, line, save)
    && (token == NULL <==> SkipSpaces(line, from) == |line|)
    && (token != NULL ==> Found(buf, line, from, token, save))
  }

  lemma LineIsIntact(buf: seq<char>)
    requires |CString(buf)| < |buf|
    ensures Intact(buf, CString(buf), 0)
  {
    assert forall k | 0 <= k < |CString(buf)| :: CString(buf)[k] == buf[..|CString(buf)|][k];
  }

  lemma CuttingStep(argv: seq<int>, buf: seq<char>, buf': seq<char>, line: string, runs: seq<Run>, count: nat,
                    from: nat, token: int, save: nat, token': int, save': nat)
    requires count < |argv| && token != NULL && NUL !in line && |buf| == |buf'|
    requires Cutting(argv, buf, line, runs, count, from, token, save)
    requires save <= save' <= |line| && Intact(buf', line, save')
    requires forall k | 0 <= k < save :: buf'[k] == buf[k]
    requires token' == NULL <==> SkipSpaces(line, save) == |line|
    requires token' != NULL ==> Found(buf', line, save, token', save')
    ensures Cutting(argv[count := token], buf', line, runs, count + 1, save, token', save')
  {
    StoredPush(argv, buf, line, runs, count, from, token, save);
    StoredFrame(argv[count := token], buf, buf', line, runs, count + 1, save);
  }

  lemma StoredIsArgv(argv: seq<int>, buf: seq<char>, line: string, runs: seq<Run>)
    requires Stored(argv, buf, line, runs, |runs|, |line|) && NUL !in line
    requires |runs| < |argv| && argv[|runs|] == NULL && |line| < |buf|
    ensures IsArgv(argv, buf, line, runs)
  {
    forall k | 0 <= k < |runs|
      ensures CString(buf[argv[k]..]) == Text(line, runs[k])
    {
      EndedIsCString(buf, line, runs[k]);
    }
  }

  /** strtok(..., " ") of the C library: finds the next word from the saved position on, ends it
      in place with a NUL, and saves the position after it. */
  method Strtok(program: array<char>, ghost line: string, save: nat) returns (token: int, next: nat)
    requires save <= |line| && NUL !in line && Intact(program[..], line, save)
    modifies program
    ensures save <= next <= |line| && Intact(program[..], line, next)
    ensures forall k | 0 <= k < save :: program[k] == old(program[k])
    ensures token == NULL <==> SkipSpaces(line, save) == |line|
    ensures token != NULL ==> Found(program[..], line, save, token, next)
  {
    ghost var n := |line|;
    assert forall k | 0 <= k < n :: line[k] in line;
    var b := save;
    while program[b] == ' '
      invariant save <= b <= n
      invariant SkipSpaces(line, save) == SkipSpaces(line, b)
      decreases n - b
    {
      b := b + 1;
    }
    if program[b] == NUL {
      return NULL, b;
    }
    var e := b;
    while program[e] != NUL && program[e] != ' '
      invariant b <= e <= n
      invariant SkipWord(line, b) == SkipWord(line, e)
      decreases n - e
    {
      e := e + 1;
    }
    if program[e] == NUL {
      return b, e;
    }
    program[e] := NUL;
    return b, e + 1;
  }

  /** strstr(program, " ") != NULL */
  method ContainsSpace(program: array<char>, ghost line: string) returns (found: bool)
    requires NUL !in line && Intact(program[..], line, 0)
    ensures found <==> ' ' in line
  {
    assert forall k | 0 <= k < |line| :: line[k] in line;
    var i := 0;
    while program[i] != NUL
      invariant i <= |line| && forall k | 0 <= k < i :: line[k] != ' '
      decreases |line| - i
    {
      if program[i] == ' ' { return true; }
      i := i + 1;
    }
    return false;
  }

  /** The strings execvp finds through such a vector are the words of the line. */
  lemma ArgvReadsAsWords(argv: seq<int>, program: seq<char>, line: string, k: nat)
    requires IsArgv(argv, program, line, Runs(line, 0)) && k < |Words(line, 0)|
    ensures k < |argv| && 0 <= argv[k] <= |program| && CString(program[argv[k]..]) == Words(line, 0)[k]
  {
    WordsAreRunTexts(line, 0);
  }

  /** `argv` models the malloc'ed vector: as many pointer slots as fit its ARGV_BYTES bytes. An
      entry is the position in `program` where its string starts, or NULL. */
  method CreateExecvpArgs(program: array<char>, argv: array<int>) returns (file: int)
    requires |CString(program[..])| < program.Length
    requires |CString(program[..])| <= MAX_STR_LEN
    requires argv.Length == ARGV_BYTES / 8
    modifies program, argv
    ensures var line := old(CString(program[..]));
            if ' ' !in line then
              program[..] == old(program[..]) && file == 0 && IsArgv(argv[..], program[..], line, [])
            else
              && |Runs(line, 0)| <= 50
              && IsArgv(argv[..], program[..], line, Runs(line, 0))
              && file == argv[0]
  {
    ghost var line := CString(program[..]);
    LineIsIntact(program[..]);
    var found := ContainsSpace(program, line);
    if !found {
      argv[0] := NULL;
      return 0;
    }
    RunCount(line, 0);
    ghost var runs := Runs(line, 0);
    var argCount := 0;
    var token, save := Strtok(program, line, 0);
    ghost var from := 0;  // where the search for the current token began
    while token != NULL && argCount < MAX_ARGS
      invariant argCount <= |runs| && save <= |line|
      invariant Cutting(argv[..], program[..], line, runs, argCount, from, token, save)
      decreases |runs| - argCount
    {
      ghost var argv0, buf, token0, save0 := argv[..], program[..], token, save;
      argv[argCount] := token;
      argCount := argCount + 1;
      token, save := Strtok(program, line, save);
      CuttingStep(argv0, buf, program[..], line, runs, argCount - 1, from, token0, save0, token, save);
      from := save0;
    }
    argv[argCount] := NULL;
    StoredIsArgv(argv[..], program[..], line, runs);
    file := argv[0];
  }
}
