/** The user side of stack tracing: `print_frame`, `show_stack_trace` and `stack_event_handler` of
    src/tracers/stacktrace.c. */
module StackPrinter {
  import opened CTypes
  import opened Numerals
  import opened TargetFilter
  import opened StackSampler

  /** Source position of a symbol, as far as the symbolizer knows it. */
  datatype CodeInfo = CodeInfo(dir: Option<string>, file: Option<string>, line: U32)

  /** One symbolized address; inlined functions share its name. */
  datatype Sym = Sym(name: Option<string>, addr: U64, offset: U64, code: CodeInfo, inlined: seq<CodeInfo>)

  /** What the symbolizer returns for a stack: nothing, or a list that may be shorter. */
  type Symbols = Option<seq<Sym>>

  /** One thing printed: a bare address, a frame, or an inlined call. */
  datatype Entry =
    | NoSymbol(addr: U64)
    | Frame(name: string, input: U64, addr: U64, offset: U64, code: CodeInfo)
    | Inlined(name: string, code: CodeInfo)

  predicate Symbolized(syms: Symbols, i: nat) {
    syms.Some? && i < |syms.value| && syms.value[i].name.Some?
  }

  /** print_frame takes address 0 to mean an inlined call. */
  function FrameEntry(name: string, input: U64, addr: U64, offset: U64, code: CodeInfo): Entry {
    if input != 0 then Frame(name, input, addr, offset, code) else Inlined(name, code)
  }

  function InlinedEntries(sym: Sym, j: nat): (es: seq<Entry>)
    requires sym.name.Some? && j <= |sym.inlined|
  {
    seq(j, k requires 0 <= k < j => FrameEntry(sym.name.value, 0, 0, 0, sym.inlined[k]))
  }

  function EntriesAt(address: U64, syms: Symbols, i: nat): seq<Entry> {
    if !Symbolized(syms, i) then [NoSymbol(address)]
    else
      var sym := syms.value[i];
      [FrameEntry(sym.name.value, address, sym.addr, sym.offset, sym.code)] + InlinedEntries(sym, |sym.inlined|)
  }

  /** Everything printed for a stack. */
  function Entries(stack: seq<U64>, syms: Symbols): seq<Entry> {
    if stack == [] then []
    else
      var n := |stack| - 1;
      Entries(stack[..n], syms) + EntriesAt(stack[n], syms, n)
  }

  // ----- the text

  function ZeroDigits(k: nat): (r: string)
    ensures |r| == k && forall i | 0 <= i < k :: r[i] == '0'
  {
    seq(k, _ => '0')
  }

  function Hex016(a: U64): string {
    var h := Numeral(a, 16);
    (if |h| < 16 then ZeroDigits(16 - |h|) else []) + h
  }

  function Position(code: CodeInfo): string
    requires code.file.Some?
  {
    (if code.dir.Some? then code.dir.value + "/" else "") + code.file.value + ":" + Numeral(code.line, 10)
  }

  function EntryText(e: Entry): string {
    match e
    case NoSymbol(a) => "0x" + Hex016(a) + ": <no-symbol>\n"
    case Frame(name, input, addr, offset, code) =>
      "0x" + Hex016(input) + ": " + name + " @ 0x" + Numeral(addr, 16) + "+0x" + Numeral(offset, 16) +
      if code.file.Some? then " " + Position(code) else "\n"
    case Inlined(name, code) =>
      seq(18, _ => ' ') + name + "\n" +
      if code.file.Some? then "@ " + Position(code) + " [inlined]\n" else "[inlined]\n"
  }

  function TextOf(es: seq<Entry>): string {
    if es == [] then [] else TextOf(es[..|es| - 1]) + EntryText(es[|es| - 1])
  }

  lemma {:induction false} TextOfConcat(a: seq<Entry>, b: seq<Entry>)
    ensures TextOf(a + b) == TextOf(a) + TextOf(b)
    decreases |b|
  {
    if b == [] {
      assert a + b == a;
    } else {
      var init, last := b[..|b| - 1], b[|b| - 1];
      assert (a + b)[..|a + b| - 1] == a + init;
      TextOfConcat(a, init);
      Associate(TextOf(a), TextOf(init), EntryText(last));
    }
  }

  lemma TextOfOne(e: Entry)
    ensures TextOf([e]) == EntryText(e)
  {
    assert [e][..0] == [];
  }

  // ----- reading an entry back from its text

  /** The text starts with an address, written in sixteen hexadecimal digits. */
  predicate StartsWithAddress(text: string, a: U64) {
    |text| >= 18 && text[..2] == "0x" && AllDigits(text[2..18], 16) && Value(text[2..18], 16) == a
  }

  /** What the text of an entry must be: for an address without symbol the address from the stack, for a
      frame that address, then name, address and offset of the symbol, for an inlined call the name; and
      the position, if the file is known. */
  predicate ReadsAs(text: string, e: Entry) {
    match e
    case NoSymbol(a) => StartsWithAddress(text, a) && text[18..] == ": <no-symbol>\n"
    case Frame(name, input, addr, offset, code) =>
      && StartsWithAddress(text, input)
      && text[18..] == ": " + name + " @ 0x" + Numeral(addr, 16) + "+0x" + Numeral(offset, 16) +
           if code.file.None? then "\n"
           else if code.dir.Some? then " " + (code.dir.value + "/" + code.file.value + ":" + Numeral(code.line, 10))
           else " " + (code.file.value + ":" + Numeral(code.line, 10))
    case Inlined(name, code) =>
      text == "                  " + name + "\n" +
        if code.file.None? then "[inlined]\n"
        else if code.dir.Some? then "@ " + (code.dir.value + "/" + code.file.value + ":" + Numeral(code.line, 10)) + " [inlined]\n"
        else "@ " + (code.file.value + ":" + Numeral(code.line, 10)) + " [inlined]\n"
  }

  lemma {:induction false} LeadingZeros(k: nat, h: string)
    requires AllDigits(h, 16)
    ensures AllDigits(ZeroDigits(k) + h, 16) && Value(ZeroDigits(k) + h, 16) == Value(h, 16)
    decreases |h|
  {
    if h == [] {
      assert ZeroDigits(k) + h == ZeroDigits(k);
      ZerosAreZero(k);
    } else {
      var n := |h| - 1;
      LeadingZeros(k, h[..n]);
      assert ZeroDigits(k) + h == (ZeroDigits(k) + h[..n]) + [h[n]];
      ValueSnoc(ZeroDigits(k) + h[..n], h[n], 16);
    }
  }

  lemma {:induction false} ZerosAreZero(k: nat)
    ensures Value(ZeroDigits(k), 16) == 0
  {
    if k > 0 {
      ZerosAreZero(k - 1);
      assert ZeroDigits(k)[..k - 1] == ZeroDigits(k - 1);
    }
  }

  lemma SixteenDigits(a: U64)
    ensures |Hex016(a)| == 16 && AllDigits(Hex016(a), 16) && Value(Hex016(a), 16) == a
  {
    Powers();
    NumeralLength(a, 16, 16);
    NumeralWrites(a, 16);
    LeadingZeros(16 - |Numeral(a, 16)|, Numeral(a, 16));
  }

  lemma AddressIsRead(a: U64, rest: string)
    ensures StartsWithAddress("0x" + Hex016(a) + rest, a) && ("0x" + Hex016(a) + rest)[18..] == rest
  {
    SixteenDigits(a);
    assert ("0x" + Hex016(a) + rest)[2..18] == Hex016(a);
  }

  lemma FrameText(name: string, input: U64, addr: U64, offset: U64, code: CodeInfo)
    ensures EntryText(Frame(name, input, addr, offset, code)) ==
            "0x" + Hex016(input) + (": " + name + " @ 0x" + Numeral(addr, 16) + "+0x" + Numeral(offset, 16) +
              if code.file.Some? then " " + Position(code) else "\n")
  {
  }

  lemma PositionText(code: CodeInfo)
    requires code.file.Some?
    ensures Position(code) == if code.dir.Some? then code.dir.value + "/" + code.file.value + ":" + Numeral(code.line, 10)
                              else code.file.value + ":" + Numeral(code.line, 10)
  {
    assert code.dir.None? ==> [] + code.file.value == code.file.value;
  }

  lemma FrameIsRead(name: string, input: U64, addr: U64, offset: U64, code: CodeInfo)
    ensures ReadsAs(EntryText(Frame(name, input, addr, offset, code)), Frame(name, input, addr, offset, code))
  {
    FrameText(name, input, addr, offset, code);
    AddressIsRead(input, ": " + name + " @ 0x" + Numeral(addr, 16) + "+0x" + Numeral(offset, 16) +
                    if code.file.Some? then " " + Position(code) else "\n");
    if code.file.Some? { PositionText(code); }
  }

  lemma InlinedIsRead(name: string, code: CodeInfo)
    ensures ReadsAs(EntryText(Inlined(name, code)), Inlined(name, code))
  {
    assert seq(18, _ => ' ') == "                  ";
    if code.file.Some? { PositionText(code); }
  }

  lemma EntryIsRead(e: Entry)
    ensures ReadsAs(EntryText(e), e)
  {
    match e
    case NoSymbol(a) => AddressIsRead(a, ": <no-symbol>\n");
    case Frame(name, input, addr, offset, code) => FrameIsRead(name, input, addr, offset, code);
    case Inlined(name, code) => InlinedIsRead(name, code);
  }

  /** Piece k of the text reads as entry k. */
  predicate PieceReads(text: string, cuts: seq<nat>, es: seq<Entry>, k: nat) {
    k < |es| && k + 1 < |cuts| && cuts[k] <= cuts[k + 1] <= |text| && ReadsAs(text[cuts[k]..cuts[k + 1]], es[k])
  }

  /** The text falls into pieces that read as these entries, one after the other. */
  predicate FallsInto(text: string, cuts: seq<nat>, es: seq<Entry>) {
    && |cuts| == |es| + 1 && cuts[0] == 0 && cuts[|es|] == |text|
    && forall k | 0 <= k < |es| :: PieceReads(text, cuts, es, k)
  }

  lemma PieceOfPrefix(text: string, before: string, cuts: seq<nat>, end: nat, es: seq<Entry>, n: nat, k: nat)
    requires k < n <= |es| && before <= text && |cuts| == n + 1 && PieceReads(before, cuts, es[..n], k)
    ensures PieceReads(text, cuts + [end], es, k)
  {
    assert text[cuts[k]..cuts[k + 1]] == before[cuts[k]..cuts[k + 1]];
  }

  lemma LastPiece(text: string, before: string, cuts: seq<nat>, es: seq<Entry>, n: nat)
    requires |es| == n + 1 && text == before + EntryText(es[n]) && |cuts| == n + 1 && cuts[n] == |before|
    ensures PieceReads(text, cuts + [|text|], es, n)
  {
    EntryIsRead(es[n]);
    assert text[|before|..|text|] == EntryText(es[n]);
  }

  lemma {:induction false} TextFallsInto(es: seq<Entry>) returns (cuts: seq<nat>)
    ensures FallsInto(TextOf(es), cuts, es)
  {
    if es == [] {
      cuts := [0];
    } else {
      var n := |es| - 1;
      var text, before := TextOf(es), TextOf(es[..n]);
      var init := TextFallsInto(es[..n]);
      cuts := init + [|text|];
      LastPiece(text, before, init, es, n);
      forall k | 0 <= k < n
        ensures PieceReads(text, cuts, es, k)
      {
        PieceOfPrefix(text, before, init, |text|, es, n, k);
      }
    }
  }

  // ----- what is printed for a stack

  /** The addresses printed, in order. */
  function Addresses(es: seq<Entry>): seq<U64> {
    if es == [] then []
    else
      var e := es[|es| - 1];
      Addresses(es[..|es| - 1]) + match e case NoSymbol(a) => [a] case Frame(_, a, _, _, _) => [a] case Inlined(_, _) => []
  }

  lemma {:induction false} AddressesConcat(a: seq<Entry>, b: seq<Entry>)
    ensures Addresses(a + b) == Addresses(a) + Addresses(b)
    decreases |b|
  {
    if b == [] {
      assert a + b == a;
    } else {
      assert (a + b)[..|a + b| - 1] == a + b[..|b| - 1];
      AddressesConcat(a, b[..|b| - 1]);
    }
  }

  lemma {:induction false} InlinedPrintNoAddress(es: seq<Entry>)
    requires forall k | 0 <= k < |es| :: es[k].Inlined?
    ensures Addresses(es) == []
  {
    if es != [] { InlinedPrintNoAddress(es[..|es| - 1]); }
  }

  /** A symbolized frame at address 0 is printed as if it were inlined. */
  predicate Hidden(address: U64, syms: Symbols, i: nat) {
    address == 0 && Symbolized(syms, i)
  }

  lemma AddressesAt(address: U64, syms: Symbols, i: nat)
    ensures Addresses(EntriesAt(address, syms, i)) == if Hidden(address, syms, i) then [] else [address]
  {
    if Symbolized(syms, i) {
      var sym := syms.value[i];
      var first := FrameEntry(sym.name.value, address, sym.addr, sym.offset, sym.code);
      var rest := InlinedEntries(sym, |sym.inlined|);
      AddressesConcat([first], rest);
      InlinedPrintNoAddress(rest);
      assert [first][..0] == [];
    } else {
      assert [NoSymbol(address)][..0] == [];
    }
  }

  function Visible(stack: seq<U64>, syms: Symbols): seq<U64> {
    if stack == [] then []
    else
      var n := |stack| - 1;
      Visible(stack[..n], syms) + if Hidden(stack[n], syms, n) then [] else [stack[n]]
  }

  /** The addresses printed are the stack's, in order, without the hidden ones. */
  lemma {:induction false} PrintedAddresses(stack: seq<U64>, syms: Symbols)
    ensures Addresses(Entries(stack, syms)) == Visible(stack, syms)
  {
    if stack != [] {
      var n := |stack| - 1;
      PrintedAddresses(stack[..n], syms);
      AddressesConcat(Entries(stack[..n], syms), EntriesAt(stack[n], syms, n));
      AddressesAt(stack[n], syms, n);
    }
  }

  /** So the whole stack is shown exactly when no symbolized frame is at address 0. */
  lemma {:induction false} WholeStackIsVisible(stack: seq<U64>, syms: Symbols)
    ensures |Visible(stack, syms)| <= |stack|
    ensures Visible(stack, syms) == stack <==> forall i | 0 <= i < |stack| :: !Hidden(stack[i], syms, i)
  {
    if stack != [] {
      var n := |stack| - 1;
      WholeStackIsVisible(stack[..n], syms);
      assert stack == stack[..n] + [stack[n]];
      if Visible(stack, syms) == stack {
        assert !Hidden(stack[n], syms, n);
        assert Visible(stack, syms)[..n] == Visible(stack[..n], syms);
      }
      assert forall i | 0 <= i < n :: stack[..n][i] == stack[i];
    }
  }

  function InlinedTotal(stack: seq<U64>, syms: Symbols): nat {
    if stack == [] then 0
    else
      var n := |stack| - 1;
      InlinedTotal(stack[..n], syms) + if Symbolized(syms, n) then |syms.value[n].inlined| else 0
  }

  /** One entry for each address and one for each inlined call of a symbolized frame. */
  lemma {:induction false} EntryCount(stack: seq<U64>, syms: Symbols)
    ensures |Entries(stack, syms)| == |stack| + InlinedTotal(stack, syms)
  {
    if stack != [] { EntryCount(stack[..|stack| - 1], syms); }
  }

  /** What the entries of an address are: one with all that the symbolizer said about it, and one for each
      call inlined there. */
  lemma EntriesOfAddress(a: U64, syms: Symbols, i: nat)
    ensures var es := EntriesAt(a, syms, i);
            if syms.None? || |syms.value| <= i || syms.value[i].name.None? then es == [NoSymbol(a)]
            else
              var sym := syms.value[i];
              && |es| == 1 + |sym.inlined|
              && es[0] == (if a == 0 then Inlined(sym.name.value, sym.code)
                           else Frame(sym.name.value, a, sym.addr, sym.offset, sym.code))
              && forall j | 0 <= j < |sym.inlined| :: es[1 + j] == Inlined(sym.name.value, sym.inlined[j])
  {
  }

  lemma {:induction false} EntriesGrow(stack: seq<U64>, syms: Symbols, i: nat)
    requires i <= |stack|
    ensures Entries(stack[..i], syms) <= Entries(stack, syms)
    decreases |stack|
  {
    if i < |stack| {
      var n := |stack| - 1;
      EntriesGrow(stack[..n], syms, i);
      assert stack[..n][..i] == stack[..i];
    } else {
      assert stack[..i] == stack;
    }
  }

  /** Where the entries of each address stand: behind one for each earlier address and one for each call
      inlined there. */
  lemma EntriesInOrder(stack: seq<U64>, syms: Symbols, i: nat)
    requires i < |stack|
    ensures var es, at, own := Entries(stack, syms), i + InlinedTotal(stack[..i], syms), EntriesAt(stack[i], syms, i);
            at + |own| <= |es| && es[at..at + |own|] == own
  {
    EntriesGrow(stack, syms, i + 1);
    EntryCount(stack[..i], syms);
    assert stack[..i + 1][..i] == stack[..i];
    Infix(Entries(stack[..i], syms), EntriesAt(stack[i], syms, i), Entries(stack, syms));
  }

  lemma Infix(before: seq<Entry>, own: seq<Entry>, all: seq<Entry>)
    requires before + own <= all
    ensures all[|before|..|before| + |own|] == own
  {
    assert (before + own)[|before|..] == own && all[..|before| + |own|] == before + own;
  }

  /** The addresses in the first k pieces of a text: each piece that starts with one is read. */
  function AddressesIn(text: string, cuts: seq<nat>, k: int): seq<nat>
    decreases k
  {
    if k <= 0 || k >= |cuts| || !(cuts[k - 1] + 18 <= |text|) then []
    else
      var p := cuts[k - 1];
      AddressesIn(text, cuts, k - 1) + if text[p..p + 2] == "0x" then [Value(text[p + 2..p + 18], 16)] else []
  }

  lemma SliceOfSlice(s: string, p: nat, q: nat, i: nat, j: nat)
    requires p <= q <= |s| && i <= j <= q - p
    ensures s[p..q][i..j] == s[p + i..p + j]
  {
    var a, b := s[p..q][i..j], s[p + i..p + j];
    assert |a| == |b| && forall x | 0 <= x < |a| :: a[x] == s[p + i + x] == b[x];
  }

  lemma AddressIsInPiece(text: string, cuts: seq<nat>, es: seq<Entry>, k: nat)
    requires PieceReads(text, cuts, es, k)
    ensures var p := cuts[k];
            && p + 18 <= |text|
            && (if es[k].Inlined? then text[p..p + 2] != "0x"
                else text[p..p + 2] == "0x" && Value(text[p + 2..p + 18], 16) == if es[k].Frame? then es[k].input else es[k].addr)
  {
    var p, piece := cuts[k], text[cuts[k]..cuts[k + 1]];
    assert |piece| >= 18;
    SliceOfSlice(text, p, cuts[k + 1], 0, 2);
    SliceOfSlice(text, p, cuts[k + 1], 2, 18);
    if es[k].Inlined? { assert piece[0] == ' '; }
  }

  /** What is read from the text of some entries are the addresses they hold. */
  lemma {:induction false} AddressesAreRead(text: string, cuts: seq<nat>, es: seq<Entry>, k: nat)
    requires FallsInto(text, cuts, es) && k <= |es|
    ensures AddressesIn(text, cuts, k) == Addresses(es[..k])
    decreases k
  {
    if k > 0 {
      AddressesAreRead(text, cuts, es, k - 1);
      assert PieceReads(text, cuts, es, k - 1);
      AddressIsInPiece(text, cuts, es, k - 1);
      assert es[..k][..k - 1] == es[..k - 1];
    }
  }

  // ----- the code

  method PrintFrame(name: string, input: U64, addr: U64, offset: U64, code: CodeInfo) returns (printed: string)
    ensures printed == EntryText(if input == 0 then Inlined(name, code) else Frame(name, input, addr, offset, code))
  {
    if input != 0 {
      printed := "0x" + Hex016(input) + ": " + name + " @ 0x" + Numeral(addr, 16) + "+0x" + Numeral(offset, 16);
      if code.file.Some? {
        printed := printed + (" " + Position(code));
      } else {
        printed := printed + "\n";
      }
    } else {
      printed := seq(18, _ => ' ') + name + "\n";
      if code.file.Some? {
        printed := printed + ("@ " + Position(code) + " [inlined]\n");
      } else {
        printed := printed + "[inlined]\n";
      }
    }
  }

  /** The text printed falls into pieces at `cuts` that read as the entries of the stack, and the
      addresses read from them are the stack's. */
  method ShowStackTrace(stack: seq<U64>, size: nat, syms: Symbols) returns (printed: string, ghost cuts: seq<nat>)
    requires size <= |stack|
    ensures printed == TextOf(Entries(stack[..size], syms))
    ensures FallsInto(printed, cuts, Entries(stack[..size], syms))
    ensures AddressesIn(printed, cuts, |cuts| - 1) == Visible(stack[..size], syms)
  {
    printed := "";
    var i := 0;
    while i < size
      invariant i <= size && printed == TextOf(Entries(stack[..i], syms))
    {
      EntriesStep(stack, syms, i);
      if syms.None? || |syms.value| <= i || syms.value[i].name.None? {
        TextOfOne(NoSymbol(stack[i]));
        assert EntriesAt(stack[i], syms, i) == [NoSymbol(stack[i])];
        printed := printed + EntryText(NoSymbol(stack[i]));
        i := i + 1;
        continue;
      }
      var sym := syms.value[i];
      ghost var before := printed;
      ghost var first := FrameEntry(sym.name.value, stack[i], sym.addr, sym.offset, sym.code);
      var text := PrintFrame(sym.name.value, stack[i], sym.addr, sym.offset, sym.code);
      printed := printed + text;
      InlinedStart(first, sym);
      var j := 0;
      while j < |sym.inlined|
        invariant j <= |sym.inlined| && printed == before + TextOf([first] + InlinedEntries(sym, j))
      {
        text := PrintFrame(sym.name.value, 0, 0, 0, sym.inlined[j]);
        InlinedStep(first, sym, j);
        Associate(before, TextOf([first] + InlinedEntries(sym, j)), text);
        printed := printed + text;
        j := j + 1;
      }
      assert printed == before + TextOf(EntriesAt(stack[i], syms, i));
      i := i + 1;
    }
    cuts := ReadPrinted(stack[..size], syms);
  }

  lemma ReadPrinted(stack: seq<U64>, syms: Symbols) returns (cuts: seq<nat>)
    ensures FallsInto(TextOf(Entries(stack, syms)), cuts, Entries(stack, syms))
    ensures AddressesIn(TextOf(Entries(stack, syms)), cuts, |cuts| - 1) == Visible(stack, syms)
  {
    var es := Entries(stack, syms);
    cuts := TextFallsInto(es);
    AddressesAreRead(TextOf(es), cuts, es, |es|);
    assert es[..|es|] == es;
    PrintedAddresses(stack, syms);
  }

  lemma EntriesStep(stack: seq<U64>, syms: Symbols, i: nat)
    requires i < |stack|
    ensures TextOf(Entries(stack[..i + 1], syms)) == TextOf(Entries(stack[..i], syms)) + TextOf(EntriesAt(stack[i], syms, i))
  {
    assert stack[..i + 1][..i] == stack[..i];
    TextOfConcat(Entries(stack[..i], syms), EntriesAt(stack[i], syms, i));
  }

  lemma InlinedStart(first: Entry, sym: Sym)
    requires sym.name.Some?
    ensures TextOf([first] + InlinedEntries(sym, 0)) == EntryText(first)
  {
    assert [first] + InlinedEntries(sym, 0) == [first];
    TextOfOne(first);
  }

  lemma InlinedStep(first: Entry, sym: Sym, j: nat)
    requires sym.name.Some? && j < |sym.inlined|
    ensures TextOf([first] + InlinedEntries(sym, j + 1)) ==
            TextOf([first] + InlinedEntries(sym, j)) + EntryText(FrameEntry(sym.name.value, 0, 0, 0, sym.inlined[j]))
  {
    var e := FrameEntry(sym.name.value, 0, 0, 0, sym.inlined[j]);
    assert [first] + InlinedEntries(sym, j + 1) == ([first] + InlinedEntries(sym, j)) + [e];
    TextOfConcat([first] + InlinedEntries(sym, j), [e]);
    TextOfOne(e);
  }

  function ToI64(x: U64): int {
    if x < 0x8000_0000_0000_0000 then x else x - TWO64
  }

  function KernelText(size: int, frames: seq<U64>, syms: Symbols): string {
    if size == 0 then "No Kernel Stack\n"
    else "Kernel stack size -> " + Dec(size) + "\nKernel:\n" + TextOf(Entries(frames, syms))
  }

  function UserText(size: int, frames: seq<U64>, syms: Symbols): string {
    if size <= 0 then "No Userspace Stack\n"
    else "User stack size -> " + Dec(size) + "\nUserspace:\n" + TextOf(Entries(frames, syms))
  }

  const RULE := "--------------------------------------------------------------\n"

  function HeaderText(pid: I32, cpu: nat, ts: string): string {
    RULE + "Time -> " + ts + "\nPID -> " + Dec(pid) + "\nCPU -> " + Dec(cpu) + "\n"
  }

  /** The report printed for a trace, or reading on behind the frames it has room for, which C leaves undefined. */
  datatype Report = Printed(text: string) | Overrun

  function ReportOf(t: Trace, cpu: nat, ts: string, kernSyms: Symbols, userSyms: Symbols): Report
    requires t.WellFormed()
  {
    if KernelClaim(t) > MAX_STACK_RAWTP || UserClaim(t) > MAX_STACK_RAWTP then Overrun
    else
      Printed(HeaderText(t.pid, cpu, ts) + KernelText(ToI64(t.kernSize), t.kern[..KernelClaim(t)], kernSyms)
              + UserText(t.userSize, t.user[..UserClaim(t)], userSyms) + RULE + "\n")
  }

  /** `ts` is the formatted time. */
  method StackEventHandler(t: Trace, cpu: nat, ts: string, kernSyms: Symbols, userSyms: Symbols) returns (r: Report)
    requires t.WellFormed()
    ensures r == ReportOf(t, cpu, ts, kernSyms, userSyms)
  {
    var printed := HeaderText(t.pid, cpu, ts);
    if t.kernSize > 0 {
      if t.kernSize / 8 > MAX_STACK_RAWTP { return Overrun; }
      var frames, _ := ShowStackTrace(t.kern, t.kernSize / 8, kernSyms);
      printed := printed + ("Kernel stack size -> " + Dec(ToI64(t.kernSize)) + "\nKernel:\n" + frames);
    } else {
      printed := printed + "No Kernel Stack\n";
    }
    if t.userSize > 0 {
      if t.userSize / 8 > MAX_STACK_RAWTP { return Overrun; }
      var frames, _ := ShowStackTrace(t.user, t.userSize / 8, userSyms);
      printed := printed + ("User stack size -> " + Dec(t.userSize) + "\nUserspace:\n" + frames);
    } else {
      printed := printed + "No Userspace Stack\n";
    }
    return Printed(printed + RULE + "\n");
  }

  /** A sample is reported with its own process, sizes and frames, whatever the slot held before it,
      if and only if its kernel capture succeeded; if that failed, the printer reads past the record. */
  lemma ReportShowsTheSample(slot: Trace, s: Sample, target: Option<string>, cpu: nat, ts: string,
                             kernSyms: Symbols, userSyms: Symbols)
    requires slot.WellFormed() && SampleOk(s, target) && Selects(s.comm, target, s.pidTgid / TWO32)
    ensures ReportOf(Sampled(slot, s, target), cpu, ts, kernSyms, userSyms) ==
            if s.kern.ret < 0 then Overrun
            else
              Printed(RULE + "Time -> " + ts + "\nPID -> " + Dec(ToI32(s.pidTgid / TWO32)) + "\nCPU -> " + Dec(cpu) + "\n"
                      + (if s.kern.ret == 0 then "No Kernel Stack\n"
                         else "Kernel stack size -> " + Dec(s.kern.ret) + "\nKernel:\n" + TextOf(Entries(s.kern.frames, kernSyms)))
                      + (if s.user.ret <= 0 then "No Userspace Stack\n"
                         else "User stack size -> " + Dec(s.user.ret) + "\nUserspace:\n" + TextOf(Entries(s.user.frames, userSyms)))
                      + RULE + "\n")
  {
    SampleIsolation(slot, s, target);
    if s.kern.ret >= 0 { NoWrap(s.kern.ret); }
  }

  // ----- line ends

  /** Every entry ends its line except a frame whose source file is known: it ends in a line number,
      and the next entry continues the line. */
  lemma EntriesEndingTheirLine(e: Entry)
    ensures EntryText(e) != [] && (EntryText(e)[|EntryText(e)| - 1] == '\n' <==> !(e.Frame? && e.code.file.Some?))
  {
    if e.Frame? && e.code.file.Some? {
      var digits := Numeral(e.code.line, 10);
      NumeralDigits(e.code.line, 10);
      assert Position(e.code)[|Position(e.code)| - 1] == digits[|digits| - 1];
    }
  }
}
