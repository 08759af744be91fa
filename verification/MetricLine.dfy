/** The shape shared by all metric lines printed by src/tracers/syscall.c,
      eptracer{pid="<pid>", syscall="<name>", <key>="<value>", ...} <microseconds>
    and how much of a line can be read back from its text. */
module MetricLine {
  import opened CTypes
  import opened Numerals

  /** A conversion of the format string with its argument. */
  datatype Val =
    | D(i: I32)       // %d
    | Lu(u: U64)      // %lu
    | Lx(x: U64)      // %lx
    | P(p: U64)       // %p
    | S(s: string)    // %s

  datatype Field = Field(key: string, val: Val)

  function Text(v: Val): string {
    match v
    case D(i) => Dec(i)
    case Lu(u) => Numeral(u, 10)
    case Lx(x) => Numeral(x, 16)
    case P(p) => Pointer(p)
    case S(s) => s
  }

  function Opening(f: Field): string {
    ", " + f.key + "=\""
  }

  function FieldText(f: Field): string {
    Opening(f) + Text(f.val) + "\""
  }

  function FieldsText(fs: seq<Field>): string {
    if fs == [] then [] else FieldText(fs[0]) + FieldsText(fs[1..])
  }

  function Head(pid: I32, name: string): string {
    "eptracer{pid=\"" + (Dec(pid) + ("\", syscall=\"" + (name + "\"")))
  }

  function Line(pid: I32, name: string, fs: seq<Field>, microseconds: int): string {
    Head(pid, name) + FieldsText(fs) + "} " + Dec(microseconds)
  }

  // ----- cutting at the first and at the last occurrence of a character

  lemma {:induction false} FirstCut(a: string, b: string, x: string, y: string, c: char)
    requires c !in a && c !in b && a + [c] + x == b + [c] + y
    ensures a == b && x == y
    decreases |a|
  {
    var l, r := a + [c] + x, b + [c] + y;
    assert l[0] == if a == [] then c else a[0];
    assert r[0] == if b == [] then c else b[0];
    assert a == [] <==> b == [];
    if a == [] {
      assert l[1..] == x && r[1..] == y;
    } else {
      assert l[1..] == a[1..] + [c] + x && r[1..] == b[1..] + [c] + y;
      FirstCut(a[1..], b[1..], x, y, c);
      assert a == [a[0]] + a[1..] && b == [b[0]] + b[1..];
    }
  }

  lemma {:induction false} LastCut(a: string, b: string, x: string, y: string, c: char)
    requires c !in a && c !in b && x + [c] + a == y + [c] + b
    ensures a == b && x == y
    decreases |a|
  {
    var l, r := x + [c] + a, y + [c] + b;
    var n := |l| - 1;
    assert l[n] == if a == [] then c else a[|a| - 1];
    assert r[n] == if b == [] then c else b[|b| - 1];
    assert a == [] <==> b == [];
    if a == [] {
      assert l[..n] == x && r[..n] == y;
    } else {
      var a', b' := a[..|a| - 1], b[..|b| - 1];
      assert l[..n] == x + [c] + a' && r[..n] == y + [c] + b';
      LastCut(a', b', x, y, c);
      assert a == a' + [a[|a| - 1]] && b == b' + [b[|b| - 1]];
    }
  }

  lemma SamePrefix(p: string, x: string, y: string)
    requires p + x == p + y
    ensures x == y
  {
    assert (p + x)[|p|..] == x && (p + y)[|p|..] == y;
  }

  lemma SameSuffix(q: string, x: string, y: string)
    requires x + q == y + q
    ensures x == y
  {
    assert (x + q)[..|x|] == x && (y + q)[..|y|] == y;
  }

  // ----- values

  predicate SameConversion(v: Val, w: Val) {
    (v.D? <==> w.D?) && (v.Lu? <==> w.Lu?) && (v.Lx? <==> w.Lx?) && (v.P? <==> w.P?) && (v.S? <==> w.S?)
  }

  lemma ValueOfText(v: Val, w: Val)
    requires SameConversion(v, w) && Text(v) == Text(w)
    ensures v == w
  {
    match v
    case D(i) => DecRoundTrip(i); DecRoundTrip(w.i);
    case Lu(u) => NumeralInjective(u, w.u, 10);
    case Lx(x) => NumeralInjective(x, w.x, 16);
    case P(p) => PointerInjective(p, w.p);
    case S(_) =>
  }

  /** What each conversion prints denotes its argument, in its own base and in one way only. */
  lemma TextDenotes(v: Val)
    ensures v.D? ==> DecValue(Text(v)) == v.i &&
                     if v.i < 0 then Text(v)[0] == '-' && Writes(Text(v)[1..], Abs(v.i), 10) else Writes(Text(v), v.i, 10)
    ensures v.Lu? ==> Writes(Text(v), v.u, 10)
    ensures v.Lx? ==> Writes(Text(v), v.x, 16)
    ensures v.P? && v.p != 0 ==> |Text(v)| > 2 && Text(v)[..2] == "0x" && Writes(Text(v)[2..], v.p, 16)
    ensures v.P? ==> (Text(v) == "(nil)" <==> v.p == 0)
    ensures v.S? ==> Text(v) == v.s
  {
    match v
    case D(i) =>
      NumeralWrites(Abs(i), 10);
      DecRoundTrip(i);
    case Lu(u) => NumeralWrites(u, 10);
    case Lx(x) => NumeralWrites(x, 16);
    case P(p) =>
      NumeralWrites(p, 16);
      assert p != 0 ==> Pointer(p)[0] == '0' && Pointer(p)[..2] == "0x" && Pointer(p)[2..] == Numeral(p, 16);
    case S(_) =>
  }

  lemma NumbersHaveNoQuote(v: Val)
    requires !v.S?
    ensures '"' !in Text(v)
  {
    match v
    case D(i) => DecPlain(i);
    case Lu(u) => NumeralPlain(u, 10);
    case Lx(x) => NumeralPlain(x, 16);
    case P(p) => PointerPlain(p);
  }

  // ----- lists of fields

  /** The same format string: keys and conversions agree. */
  predicate SameFormat(fs: seq<Field>, gs: seq<Field>) {
    |fs| == |gs| && forall i | 0 <= i < |fs| :: fs[i].key == gs[i].key && SameConversion(fs[i].val, gs[i].val)
  }

  predicate NoString(fs: seq<Field>) {
    forall i | 0 <= i < |fs| :: !fs[i].val.S?
  }

  /** A numeric field is read off the front of a text. */
  lemma ReadFront(f: Field, g: Field, x: string, y: string)
    requires f.key == g.key && SameConversion(f.val, g.val) && !f.val.S?
    requires FieldText(f) + x == FieldText(g) + y
    ensures f == g && x == y
  {
    var a, b := Text(f.val), Text(g.val);
    NumbersHaveNoQuote(f.val);
    NumbersHaveNoQuote(g.val);
    assert FieldText(f) + x == Opening(f) + (a + ['"'] + x);
    assert FieldText(g) + y == Opening(f) + (b + ['"'] + y);
    SamePrefix(Opening(f), a + ['"'] + x, b + ['"'] + y);
    FirstCut(a, b, x, y, '"');
    ValueOfText(f.val, g.val);
  }

  /** A numeric field is read off the back of a text. */
  lemma ReadBack(f: Field, g: Field, x: string, y: string)
    requires f.key == g.key && SameConversion(f.val, g.val) && !f.val.S?
    requires x + FieldText(f) == y + FieldText(g)
    ensures f == g && x == y
  {
    var a, b := Text(f.val), Text(g.val);
    NumbersHaveNoQuote(f.val);
    NumbersHaveNoQuote(g.val);
    var open := ", " + f.key + "=";
    assert x + FieldText(f) == ((x + open) + ['"'] + a) + "\"";
    assert y + FieldText(g) == ((y + open) + ['"'] + b) + "\"";
    SameSuffix("\"", (x + open) + ['"'] + a, (y + open) + ['"'] + b);
    LastCut(a, b, x + open, y + open, '"');
    SameSuffix(open, x, y);
    ValueOfText(f.val, g.val);
  }

  lemma {:induction false} FieldsTextSnoc(fs: seq<Field>, f: Field)
    ensures FieldsText(fs + [f]) == FieldsText(fs) + FieldText(f)
  {
    if fs == [] {
      assert [f][1..] == [] && [] + [f] == [f];
    } else {
      assert (fs + [f])[1..] == fs[1..] + [f];
      FieldsTextSnoc(fs[1..], f);
      assert FieldText(fs[0]) + (FieldsText(fs[1..]) + FieldText(f)) == FieldsText(fs) + FieldText(f);
    }
  }

  lemma FieldsTextLast(fs: seq<Field>, x: string)
    requires fs != []
    ensures x + FieldsText(fs) == (x + FieldsText(fs[..|fs| - 1])) + FieldText(fs[|fs| - 1])
  {
    var init, last := fs[..|fs| - 1], fs[|fs| - 1];
    assert fs == init + [last];
    FieldsTextSnoc(init, last);
    Associate(x, FieldsText(init), FieldText(last));
  }

  lemma DropLast(fs: seq<Field>, gs: seq<Field>)
    requires fs != [] && SameFormat(fs, gs) && NoString(fs)
    ensures var n := |fs| - 1;
            && SameFormat(fs[..n], gs[..n]) && NoString(fs[..n])
            && (fs[..n] == gs[..n] && fs[n] == gs[n] ==> fs == gs)
  {
    var n := |fs| - 1;
    assert fs == fs[..n] + [fs[n]] && gs == gs[..n] + [gs[n]];
  }

  lemma ReadLast(fs: seq<Field>, gs: seq<Field>, x: string, y: string)
    requires fs != [] && SameFormat(fs, gs) && NoString(fs)
    requires x + FieldsText(fs) == y + FieldsText(gs)
    ensures var n := |fs| - 1; fs[n] == gs[n] && x + FieldsText(fs[..n]) == y + FieldsText(gs[..n])
  {
    var n := |fs| - 1;
    FieldsTextLast(fs, x);
    FieldsTextLast(gs, y);
    ReadBack(fs[n], gs[n], x + FieldsText(fs[..n]), y + FieldsText(gs[..n]));
  }

  /** Numeric fields at the end of a text are read off backwards, whatever stands before them. */
  lemma {:induction false} ReadAllBack(fs: seq<Field>, gs: seq<Field>, x: string, y: string)
    requires SameFormat(fs, gs) && NoString(fs)
    requires x + FieldsText(fs) == y + FieldsText(gs)
    ensures fs == gs && x == y
    decreases |fs|
  {
    if fs == [] {
      SameSuffix("", x, y);
    } else {
      ReadLast(fs, gs, x, y);
      DropLast(fs, gs);
      ReadAllBack(fs[..|fs| - 1], gs[..|gs| - 1], x, y);
    }
  }

  /** At most one field is a string. */
  predicate OneString(fs: seq<Field>) {
    forall i, j | 0 <= i < j < |fs| :: !(fs[i].val.S? && fs[j].val.S?)
  }

  /** A single string may hold anything, quotes included: what precedes it is read forwards, what
      follows it backwards, and the rest is the string. */
  lemma {:induction false} ReadFields(fs: seq<Field>, gs: seq<Field>)
    requires SameFormat(fs, gs) && OneString(fs) && FieldsText(fs) == FieldsText(gs)
    ensures fs == gs
    decreases |fs|
  {
    if fs != [] {
      var f, g := fs[0], gs[0];
      var x, y := FieldsText(fs[1..]), FieldsText(gs[1..]);
      if f.val.S? {
        assert NoString(fs[1..]);
        ReadAllBack(fs[1..], gs[1..], FieldText(f), FieldText(g));
        assert FieldText(f) == Opening(f) + (f.val.s + "\"");
        assert FieldText(g) == Opening(f) + (g.val.s + "\"");
        SamePrefix(Opening(f), f.val.s + "\"", g.val.s + "\"");
        SameSuffix("\"", f.val.s, g.val.s);
      } else {
        ReadFront(f, g, x, y);
        ReadFields(fs[1..], gs[1..]);
      }
      assert fs == [f] + fs[1..] && gs == [g] + gs[1..];
    }
  }

  // ----- whole lines

  /** The time is what follows the last space; pid and name are read from the front. */
  lemma ReadLine(pid: I32, name: string, fs: seq<Field>, t: int, pid': I32, name': string, gs: seq<Field>, t': int)
    requires '"' !in name && '"' !in name'
    requires Line(pid, name, fs, t) == Line(pid', name', gs, t')
    ensures t == t' && pid == pid' && name == name' && FieldsText(fs) == FieldsText(gs)
  {
    var x, y := Head(pid, name) + FieldsText(fs), Head(pid', name') + FieldsText(gs);
    DecPlain(t);
    DecPlain(t');
    TimeIsLast(x, Dec(t));
    TimeIsLast(y, Dec(t'));
    LastCut(Dec(t), Dec(t'), x + "}", y + "}", ' ');
    SameSuffix("}", x, y);
    DecRoundTrip(t);
    DecRoundTrip(t');
    ReadHead(pid, name, FieldsText(fs), pid', name', FieldsText(gs));
  }

  lemma TimeIsLast(x: string, t: string)
    ensures x + "} " + t == (x + "}") + [' '] + t
  {
  }

  lemma LineStart(pid: I32, name: string, fs: seq<Field>, microseconds: int)
    ensures "eptracer{pid=\"" + Dec(pid) + "\", syscall=\"" + name + "\"" <= Line(pid, name, fs, microseconds)
  {
    assert Head(pid, name) == "eptracer{pid=\"" + Dec(pid) + "\", syscall=\"" + name + "\"";
  }

  lemma HeadShape(pid: I32, name: string, x: string)
    ensures Head(pid, name) + x == "eptracer{pid=\"" + (Dec(pid) + ['"'] + (", syscall=\"" + (name + ['"'] + x)))
  {
  }

  lemma ReadHead(pid: I32, name: string, x: string, pid': I32, name': string, y: string)
    requires '"' !in name && '"' !in name'
    requires Head(pid, name) + x == Head(pid', name') + y
    ensures pid == pid' && name == name' && x == y
  {
    var u, v := name + ['"'] + x, name' + ['"'] + y;
    HeadShape(pid, name, x);
    HeadShape(pid', name', y);
    SamePrefix("eptracer{pid=\"", Dec(pid) + ['"'] + (", syscall=\"" + u), Dec(pid') + ['"'] + (", syscall=\"" + v));
    DecPlain(pid);
    DecPlain(pid');
    FirstCut(Dec(pid), Dec(pid'), ", syscall=\"" + u, ", syscall=\"" + v, '"');
    DecRoundTrip(pid);
    DecRoundTrip(pid');
    SamePrefix(", syscall=\"", u, v);
    FirstCut(name, name', x, y, '"');
  }

  // ----- control characters

  /** The characters that end a C string and a line. */
  predicate Control(c: char) {
    c == NUL || c == '\n'
  }

  predicate InString(c: char, fs: seq<Field>) {
    exists i | 0 <= i < |fs| :: fs[i].val.S? && c in fs[i].val.s
  }

  lemma ControlOfField(c: char, f: Field)
    requires Control(c) && c !in f.key
    ensures c in FieldText(f) <==> f.val.S? && c in f.val.s
  {
    match f.val {
      case D(i) => DecPlain(i);
      case Lu(u) => NumeralPlain(u, 10);
      case Lx(x) => NumeralPlain(x, 16);
      case P(p) => PointerPlain(p);
      case S(_) =>
    }
    assert c !in Opening(f);
  }

  lemma {:induction false} ControlOfFields(c: char, fs: seq<Field>)
    requires Control(c) && forall i | 0 <= i < |fs| :: c !in fs[i].key
    ensures c in FieldsText(fs) <==> InString(c, fs)
  {
    if fs != [] {
      ControlOfField(c, fs[0]);
      ControlOfFields(c, fs[1..]);
      assert InString(c, fs) <==> (fs[0].val.S? && c in fs[0].val.s) || InString(c, fs[1..]) by {
        assert forall i | 0 < i < |fs| :: fs[i] == fs[1..][i - 1];
      }
    }
  }

  /** A control character in a line comes from a string printed unescaped. */
  lemma ControlOfLine(c: char, pid: I32, name: string, fs: seq<Field>, microseconds: int)
    requires Control(c) && c !in name && forall i | 0 <= i < |fs| :: c !in fs[i].key
    ensures c in Line(pid, name, fs, microseconds) <==> InString(c, fs)
  {
    DecPlain(pid);
    DecPlain(microseconds);
    ControlOfFields(c, fs);
    assert c !in Head(pid, name);
    assert c !in "} " + Dec(microseconds);
  }

  // ----- lengths

  const MAX_KEY := 12

  lemma {:induction false} FieldsTextLength(fs: seq<Field>)
    requires forall i | 0 <= i < |fs| :: |fs[i].key| <= MAX_KEY && (fs[i].val.S? ==> |fs[i].val.s| <= 128)
    ensures |FieldsText(fs)| <= (MAX_KEY + 5 + 128) * |fs|
  {
    if fs != [] {
      FieldLength(fs[0]);
      FieldsTextLength(fs[1..]);
    }
  }

  lemma FieldLength(f: Field)
    requires |f.key| <= MAX_KEY && (f.val.S? ==> |f.val.s| <= 128)
    ensures |FieldText(f)| <= MAX_KEY + 5 + 128
  {
    match f.val
    case D(i) => Widths(i, 0, 0);
    case Lu(u) => Widths(0, 0, u);
    case Lx(x) => Widths(0, 0, x);
    case P(p) => Widths(0, 0, p);
    case S(_) =>
  }
}
