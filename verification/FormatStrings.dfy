/** The format strings of `syscall_event_handler`, as the calls of snprintf give them, and what printf
    makes of them. */
module FormatStrings {
  import opened CTypes
  import opened Numerals
  import opened SyscallEvents
  import opened MetricLine
  import opened Consumer

  // ----- printf

  /** An argument of printf: the conversion that takes it, and what that prints. */
  datatype Arg = Arg(conversion: string, text: string)

  function Prepend(s: string, rest: Option<string>): Option<string> {
    match rest case None => None case Some(t) => Some(s + t)
  }

  /** Copies the format and replaces its conversions by the arguments, one after the other; fails when
      a conversion does not fit its argument or their numbers differ. */
  function Printf(format: string, args: seq<Arg>): Option<string> {
    if format == "" then if args == [] then Some("") else None
    else if format[0] != '%' then Prepend([format[0]], Printf(format[1..], args))
    else if args == [] || args[0].conversion == "" || !(args[0].conversion <= format) then None
    else Prepend(args[0].text, Printf(format[|args[0].conversion|..], args[1..]))
  }

  lemma PrependTwice(a: string, b: string, rest: Option<string>)
    ensures Prepend(a, Prepend(b, rest)) == Prepend(a + b, rest)
  {
    if rest.Some? { Associate(a, b, rest.value); }
  }

  lemma {:induction false} PrintfCopies(literal: string, format: string, args: seq<Arg>)
    requires '%' !in literal
    ensures Printf(literal + format, args) == Prepend(literal, Printf(format, args))
  {
    if literal == "" {
      assert literal + format == format;
      assert Printf(format, args).Some? ==> [] + Printf(format, args).value == Printf(format, args).value;
    } else {
      assert (literal + format)[1..] == literal[1..] + format;
      PrintfCopies(literal[1..], format, args);
      PrependTwice([literal[0]], literal[1..], Printf(format, args));
      assert [literal[0]] + literal[1..] == literal;
    }
  }

  lemma PrintfConverts(a: Arg, format: string, args: seq<Arg>)
    requires a.conversion != "" && a.conversion[0] == '%'
    ensures Printf(a.conversion + format, [a] + args) == Prepend(a.text, Printf(format, args))
  {
    assert (a.conversion + format)[|a.conversion|..] == format && ([a] + args)[1..] == args;
  }

  // ----- the format strings

  /** How a source is written in a format string. */
  function Conversion(src: Source): string {
    match src
    case AsD(_) => "%d"
    case AsLu(_) => "%lu"
    case AsLx(_) => "%lx"
    case AsP(_) => "%p"
    case AsS(_) => "%s"
  }

  function Parts(specs: seq<Spec>): string {
    if specs == [] then "" else ", " + specs[0].key + "=\"" + Conversion(specs[0].src) + "\"" + Parts(specs[1..])
  }

  /** The format string for an event type; for a read it is
      `eptracer{pid="%d", syscall="read", fd="%d", buf="%p", count="%lu"} %ld`. */
  function FormatString(kind: int): string {
    "eptracer{pid=\"%d\", syscall=\"" + Name(kind) + "\"" + Parts(Format(kind)) + "} %ld"
  }

  /** The arguments for the parts. */
  function PartArgs(specs: seq<Spec>, e: Event): (args: seq<Arg>)
    requires e.WellFormed()
    ensures |args| == |specs|
    ensures forall i | 0 <= i < |args| :: args[i] == Arg(Conversion(specs[i].src), Text(Fetch(specs[i].src, e)))
  {
    seq(|specs|, i requires 0 <= i < |specs| => Arg(Conversion(specs[i].src), Text(Fetch(specs[i].src, e))))
  }

  // ----- the handler prints its format

  /** One conversion between two literals. */
  lemma PrintfSegment(before: string, a: Arg, after: string, format: string, args: seq<Arg>)
    requires '%' !in before && '%' !in after && a.conversion != "" && a.conversion[0] == '%'
    ensures Printf(before + (a.conversion + (after + format)), [a] + args) ==
            Prepend(before + (a.text + after), Printf(format, args))
  {
    PrintfCopies(before, a.conversion + (after + format), [a] + args);
    PrintfConverts(a, after + format, args);
    PrintfCopies(after, format, args);
    PrependTwice(a.text, after, Printf(format, args));
    PrependTwice(before, a.text + after, Printf(format, args));
  }

  lemma PartShape(key: string, conversion: string, rest: string, end: string)
    ensures (", " + key + "=\"" + conversion + "\"" + rest) + end == (", " + key + "=\"") + (conversion + ("\"" + (rest + end)))
  {
  }

  lemma FieldShape(f: Field)
    ensures FieldText(f) == (", " + f.key + "=\"") + (Text(f.val) + "\"")
  {
  }

  lemma {:induction false} PrintfParts(specs: seq<Spec>, e: Event, end: string, args: seq<Arg>)
    requires e.WellFormed()
    ensures Printf(Parts(specs) + end, PartArgs(specs, e) + args) == Prepend(FieldsText(FieldsOf(specs, e)), Printf(end, args))
    decreases |specs|
  {
    if specs == [] {
      assert [] + end == end && PartArgs(specs, e) + args == args;
      PrintfCopies("", end, args);
    } else {
      var spec, rest := specs[0], specs[1..];
      var a := Arg(Conversion(spec.src), Text(Fetch(spec.src, e)));
      PartShape(spec.key, Conversion(spec.src), Parts(rest), end);
      assert PartArgs(specs, e) + args == [a] + (PartArgs(rest, e) + args);
      PrintfSegment(", " + spec.key + "=\"", a, "\"", Parts(rest) + end, PartArgs(rest, e) + args);
      PrintfParts(rest, e, end, args);
      FieldShape(FieldsOf(specs, e)[0]);
      assert FieldsOf(specs, e)[1..] == FieldsOf(rest, e);
      PrependTwice(FieldText(FieldsOf(specs, e)[0]), FieldsText(FieldsOf(rest, e)), Printf(end, args));
    }
  }

  /** The whole metric: each of its conversions prints its own argument, the PID the first and the time
      the last, and everything else is copied from the format string. */
  lemma MetricIsPrintf(e: Event, microseconds: int)
    requires e.WellFormed()
    ensures Printf(FormatString(e.kind),
                   [Arg("%d", Dec(e.pid))] + PartArgs(Format(e.kind), e) + [Arg("%ld", Dec(microseconds))])
         == Some(Render(e, microseconds))
  {
    var specs, name := Format(e.kind), Name(e.kind);
    var pid, time := Arg("%d", Dec(e.pid)), Arg("%ld", Dec(microseconds));
    var parts := PartArgs(specs, e);
    FormatShape(name, Parts(specs));
    assert [pid] + parts + [time] == [pid] + (parts + [time]);
    PrintfSegment("eptracer{pid=\"", pid, "\", syscall=\"" + name + "\"", Parts(specs) + "} %ld", parts + [time]);
    PrintfParts(specs, e, "} %ld", [time]);
    PrintfEnd(time);
    LineShape(e.pid, name, FieldsText(Fields(e)), microseconds);
  }

  lemma FormatShape(name: string, parts: string)
    ensures "eptracer{pid=\"%d\", syscall=\"" + name + "\"" + parts + "} %ld" ==
            "eptracer{pid=\"" + ("%d" + (("\", syscall=\"" + name + "\"") + (parts + "} %ld")))
  {
  }

  lemma PrintfEnd(time: Arg)
    requires time.conversion == "%ld"
    ensures Printf("} %ld", [time]) == Some("} " + time.text)
  {
    assert "} " + ("%ld" + ("" + "")) == "} %ld" && [time] + [] == [time];
    PrintfSegment("} ", time, "", "", []);
    assert ("} " + (time.text + "")) + "" == "} " + time.text;
  }

  lemma LineShape(pid: I32, name: string, fields: string, microseconds: int)
    ensures Head(pid, name) + fields + "} " + Dec(microseconds) ==
            ("eptracer{pid=\"" + (Dec(pid) + ("\", syscall=\"" + name + "\""))) + (fields + ("} " + Dec(microseconds)))
  {
  }
}
