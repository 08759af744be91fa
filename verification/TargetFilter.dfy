/** Which process is traced: `str_equals` and `is_target_program` of src/eptracer.bpf.c. */
module TargetFilter {
  import opened CTypes
  import opened Numerals

  const MAX_PROGRAM_STRING_LEN := 100

  // ----- comparison of bounded C strings

  /** Lexicographic order on byte strings, a proper prefix being smaller. */
  predicate LexLess(a: string, b: string) {
    b != [] && (a == [] || a[0] < b[0] || (a[0] == b[0] && LexLess(a[1..], b[1..])))
  }

  function Bounded(s: string, size: nat): string
    requires size <= |s|
  {
    CString(s[..size])
  }

  /** What the three-way result of `str_equals` means; -1 is stored in an unsigned int. */
  function Comparison(s1: string, s2: string, size: nat): U32
    requires size <= |s1| && size <= |s2|
  {
    var a, b := Bounded(s1, size), Bounded(s2, size);
    if a == b then 0 else if LexLess(a, b) then 0xFFFF_FFFF else 1
  }

  /** The strings agree on k bytes, none of them NUL, and differ in the next. */
  predicate FirstDiffers(s1: string, s2: string, size: nat, k: nat)
    requires size <= |s1| && size <= |s2|
  {
    k < size && s1[..k] == s2[..k] && NUL !in s1[..k] && s1[k] != s2[k]
  }

  lemma DifferencesDecide(s1: string, s2: string, size: nat)
    requires size <= |s1| && size <= |s2|
    ensures forall k: nat | FirstDiffers(s1, s2, size, k) ::
              Comparison(s1, s2, size) == if s1[k] < s2[k] then 0xFFFF_FFFF else 1
  {
    forall k: nat | FirstDiffers(s1, s2, size, k)
      ensures Comparison(s1, s2, size) == if s1[k] < s2[k] then 0xFFFF_FFFF else 1
    {
      assert s1[..size][..k] == s1[..k] && s2[..size][..k] == s2[..k];
      FirstDifference(s1[..size], s2[..size], k);
    }
  }

  method StrEquals(s1: string, s2: string, size: nat) returns (r: U32)
    requires size <= |s1| && size <= |s2|
    ensures r == Comparison(s1, s2, size)
    ensures r == 0xFFFF_FFFF <==> exists k: nat :: FirstDiffers(s1, s2, size, k) && s1[k] < s2[k]
    ensures r == 1 <==> exists k: nat :: FirstDiffers(s1, s2, size, k) && s1[k] > s2[k]
    ensures r == 0 || r == 1 || r == 0xFFFF_FFFF
  {
    DifferencesDecide(s1, s2, size);
    var len := 0;
    while len < size
      invariant len <= size
      invariant s1[..len] == s2[..len] && NUL !in s1[..len]
    {
      var c1, c2 := s1[len], s2[len];
      if c1 != c2 {
        assert FirstDiffers(s1, s2, size, len);
        return if c1 < c2 then 0xFFFF_FFFF else 1;
      }
      if c1 == NUL {
        CStringIs(s1[..size], len);
        CStringIs(s2[..size], len);
        assert s1[..size][..len] == s1[..len] && s2[..size][..len] == s2[..len];
        break;
      }
      assert s1[..len + 1] == s1[..len] + [c1] && s2[..len + 1] == s2[..len] + [c2];
      len := len + 1;
    }
    assert len == size ==> s1[..size] == s2[..size];
    return 0;
  }

  /** The first differing byte decides the order of two C strings. */
  lemma {:induction false} FirstDifference(a: string, b: string, k: nat)
    requires k < |a| && k < |b| && a[..k] == b[..k] && NUL !in a[..k] && a[k] != b[k]
    ensures CString(a) != CString(b)
    ensures LexLess(CString(a), CString(b)) <==> a[k] < b[k]
    decreases k
  {
    if k > 0 {
      assert a[0] == a[..k][0] && b[0] == b[..k][0];
      assert a[1..][..k - 1] == a[..k][1..] && b[1..][..k - 1] == b[..k][1..];
      FirstDifference(a[1..], b[1..], k - 1);
      assert CString(a) == [a[0]] + CString(a[1..]) && CString(b) == [b[0]] + CString(b[1..]);
      assert CString(a)[1..] == CString(a[1..]) && CString(b)[1..] == CString(b[1..]);
    }
  }

  lemma {:induction false} LexTransitive(a: string, b: string, c: string)
    requires LexLess(a, b) && LexLess(b, c)
    ensures LexLess(a, c)
  {
    if a != [] && a[0] == b[0] == c[0] {
      LexTransitive(a[1..], b[1..], c[1..]);
    }
  }

  /** Exactly one of less, equal, greater. */
  lemma {:induction false} LexTrichotomy(a: string, b: string)
    ensures LexLess(a, b) ==> !LexLess(b, a) && a != b
    ensures a != b && !LexLess(a, b) ==> LexLess(b, a)
  {
    if a != [] && b != [] && a[0] == b[0] {
      LexTrichotomy(a[1..], b[1..]);
      assert a == [a[0]] + a[1..] && b == [b[0]] + b[1..];
    }
  }

  /** `str_equals` induces a total order whose equivalence is equality of bounded C strings:
      zero exactly on equal strings, swapped arguments swap the non-zero results, transitivity. */
  lemma StrEqualsIsTotalOrder(s: string, t: string, u: string, size: nat)
    requires size <= |s| && size <= |t| && size <= |u|
    ensures Comparison(s, t, size) == 0 <==> Bounded(s, size) == Bounded(t, size)
    ensures Comparison(s, t, size) == 1 <==> Comparison(t, s, size) == 0xFFFF_FFFF
    ensures Comparison(s, t, size) != 1 && Comparison(t, u, size) != 1 ==> Comparison(s, u, size) != 1
  {
    var a, b, c := Bounded(s, size), Bounded(t, size), Bounded(u, size);
    LexTrichotomy(a, b);
    if LexLess(a, b) && LexLess(b, c) {
      LexTransitive(a, b, c);
    }
  }

  // ----- the process filter

  /** The digits at the start of an identifier, read up to the size of its map entry. */
  function DigitRun(s: string): (r: string)
    ensures |r| <= |s| && r == s[..|r|]
    ensures AllDigits(r, 10)
    ensures |r| < |s| ==> !('0' <= s[|r|] <= '9')
  {
    if s == [] || !('0' <= s[0] <= '9') then []
    else
      var rest := DigitRun(s[1..]);
      assert s[..|rest| + 1] == [s[0]] + rest;
      [s[0]] + rest
  }

  /** The PID an identifier denotes to the filter, in unsigned 64-bit arithmetic. */
  function PidOf(entry: string): U64 {
    Value(DigitRun(entry), 10) % TWO64
  }

  /** `comm` is the result of bpf_get_current_comm and `entry` that of the lookup in program_map;
      both are buffers of MAX_PROGRAM_STRING_LEN bytes, or absent when the helper fails. */
  predicate Buffers(comm: Option<string>, entry: Option<string>) {
    && (comm.Some? ==> |comm.value| == MAX_PROGRAM_STRING_LEN)
    && (entry.Some? ==> |entry.value| == MAX_PROGRAM_STRING_LEN)
  }

  /** A process is selected by its name or by its number; no process has number 0. */
  predicate Selects(comm: Option<string>, entry: Option<string>, tgid: U32) {
    && comm.Some? && entry.Some? && tgid != 0
    && (CString(comm.value) == CString(entry.value) || Value(DigitRun(entry.value), 10) % TWO64 == tgid)
  }

  /** The tgid when the process is selected by name or by number, and 0 otherwise. */
  function Target(comm: Option<string>, entry: Option<string>, tgid: U32): U32 {
    if comm.None? || entry.None? then 0
    else if CString(comm.value) == CString(entry.value) then tgid
    else if PidOf(entry.value) == tgid then tgid
    else 0
  }

  lemma TargetIsSelected(comm: Option<string>, entry: Option<string>, tgid: U32)
    ensures Target(comm, entry, tgid) == if Selects(comm, entry, tgid) then tgid else 0
  {
  }

  /** The decimal fallback of `is_target_program`, used where the kernel has no strtoul. */
  method ParseIdentifier(programToTrace: string) returns (pidToTrace: U64)
    requires |programToTrace| == MAX_PROGRAM_STRING_LEN
    ensures pidToTrace == Value(DigitRun(programToTrace), 10) % TWO64
  {
    pidToTrace := 0;
    var i := 0;
    while i < MAX_PROGRAM_STRING_LEN
      invariant i <= MAX_PROGRAM_STRING_LEN
      invariant AllDigits(programToTrace[..i], 10)
      invariant pidToTrace == Value(programToTrace[..i], 10) % TWO64
    {
      var c := programToTrace[i];
      if '0' <= c <= '9' {
        ParseStep(programToTrace, i);
        pidToTrace := (pidToTrace * 10 + (c as int - '0' as int)) % TWO64;
      } else {
        break;
      }
      i := i + 1;
    }
    DigitRunIs(programToTrace, i);
  }

  method IsTargetProgram(comm: Option<string>, entry: Option<string>, pidTgid: U64) returns (r: U32)
    requires Buffers(comm, entry)
    ensures r == Target(comm, entry, pidTgid / TWO32)
    ensures r != 0 <==>
              && comm.Some? && entry.Some? && 0 < pidTgid / TWO32
              && (CString(comm.value) == CString(entry.value) || Value(DigitRun(entry.value), 10) % TWO64 == pidTgid / TWO32)
    ensures r != 0 ==> r == pidTgid / TWO32
  {
    if comm.None? { return 0; }
    var programName := comm.value;
    if entry.None? { return 0; }
    var programToTrace := entry.value;
    var pid := pidTgid / TWO32;
    var cmp := StrEquals(programName, programToTrace, MAX_PROGRAM_STRING_LEN);
    assert programName[..MAX_PROGRAM_STRING_LEN] == programName;
    assert programToTrace[..MAX_PROGRAM_STRING_LEN] == programToTrace;
    if cmp != 0 {
      var pidToTrace := ParseIdentifier(programToTrace);
      if pidToTrace == 0 || pidToTrace != pid {
        return 0;
      } else {
        return pid;
      }
    }
    return pid;
  }

  lemma ParseStep(s: string, i: nat)
    requires i < |s| && AllDigits(s[..i], 10) && '0' <= s[i] <= '9'
    ensures AllDigits(s[..i + 1], 10)
    ensures Value(s[..i + 1], 10) % TWO64 == (Value(s[..i], 10) % TWO64 * 10 + DigitValue(s[i])) % TWO64
  {
    assert s[..i + 1] == s[..i] + [s[i]];
    ValueSnoc(s[..i], s[i], 10);
    WrapStep(Value(s[..i], 10), DigitValue(s[i]));
  }

  lemma WrapStep(v: nat, d: nat)
    ensures (v % TWO64 * 10 + d) % TWO64 == (v * 10 + d) % TWO64
  {
    var q := v / TWO64;
    assert v == q * TWO64 + v % TWO64;
    assert v * 10 + d == (v % TWO64 * 10 + d) + (q * 10) * TWO64;
    ModAdd(v % TWO64 * 10 + d, q * 10);
  }

  lemma {:induction false} ModAdd(x: nat, k: nat)
    ensures (x + k * TWO64) % TWO64 == x % TWO64
    decreases k
  {
    if k > 0 {
      ModAdd(x, k - 1);
      assert x + k * TWO64 == (x + (k - 1) * TWO64) + TWO64;
    }
  }

  lemma {:induction false} DigitRunIs(s: string, n: nat)
    requires n <= |s| && AllDigits(s[..n], 10)
    requires n < |s| ==> !('0' <= s[n] <= '9')
    ensures DigitRun(s) == s[..n]
    decreases n
  {
    if n > 0 {
      assert s[0] == s[..n][0];
      assert s[1..][..n - 1] == s[..n][1..];
      DigitRunIs(s[1..], n - 1);
    }
  }

  lemma NineteenDigitsFit(entry: string)
    requires |DigitRun(entry)| <= 19
    ensures PidOf(entry) == Value(DigitRun(entry), 10)
  {
    ValueBound(DigitRun(entry), 10);
    PowMonotone(|DigitRun(entry)|, 19);
    Powers();
    NoWrap(Value(DigitRun(entry), 10));
  }

  /** Up to 19 leading digits the filter's arithmetic does not wrap, so a process not selected
      by name is selected exactly when its tgid is the number written, and no second PID is. */
  lemma NumericSelectionIsExact(comm: string, entry: string, tgid: U32)
    requires Buffers(Some(comm), Some(entry))
    requires |DigitRun(entry)| <= 19 && CString(comm) != CString(entry)
    ensures Target(Some(comm), Some(entry), tgid) != 0
       <==> tgid != 0 && tgid == Value(DigitRun(entry), 10)
  {
    NineteenDigitsFit(entry);
  }

  lemma {:induction false} PowMonotone(j: nat, k: nat)
    requires j <= k
    ensures 0 < Pow(10, j) <= Pow(10, k)
    decreases k
  {
    PowPositive(10, j);
    if j < k { PowMonotone(j, k - 1); }
  }

  /** Padded to any size, the decimal numeral of n is read back modulo 2^64. */
  lemma PidOfNumeral(n: nat, pad: nat)
    ensures PidOf(Numeral(n, 10) + Zeros(pad)) == n % TWO64
    ensures DigitRun(Numeral(n, 10) + Zeros(pad)) == Numeral(n, 10)
  {
    var s := Numeral(n, 10);
    NumeralRoundTrip(n, 10);
    NumeralDigits(n, 10);
    assert (s + Zeros(pad))[..|s|] == s;
    DigitRunIs(s + Zeros(pad), |s|);
  }

  lemma LongEntry(s: string)
    requires |s| == 20 && NUL !in s
    ensures |CString(s + Zeros(80))| == 20
  {
    assert (s + Zeros(80))[..20] == s;
    CStringIs(s + Zeros(80), 20);
  }

  /** With 20 digits the arithmetic does wrap: written as 2^64 + pid, an identifier that names no
      possible process selects pid. */
  lemma TwentyDigitsCanWrap(pid: U32, comm: string)
    requires pid != 0 && |comm| == MAX_PROGRAM_STRING_LEN && |CString(comm)| <= 15
    ensures |Numeral(TWO64 + pid, 10)| == 20
    ensures Target(Some(comm), Some(Numeral(TWO64 + pid, 10) + Zeros(80)), pid) == pid
  {
    Powers();
    NumeralLength(TWO64 + pid, 10, 19);
    NumeralLength(TWO64 + pid, 10, 20);
    PidOfNumeral(TWO64 + pid, 80);
    NumeralPlain(TWO64 + pid, 10);
    NoWrap(pid);
    ModAdd(pid, 1);
    LongEntry(Numeral(TWO64 + pid, 10));
  }

  /** The kernel keeps 15 bytes of a command name, so a longer identifier never selects by name. */
  lemma LongNamesNeverMatch(comm: string, entry: string, tgid: U32)
    requires Buffers(Some(comm), Some(entry))
    requires |CString(comm)| <= 15 < |CString(entry)|
    ensures Target(Some(comm), Some(entry), tgid) != 0 <==> tgid != 0 && PidOf(entry) == tgid
  {
  }
}
