/**
 * Writing test results: as console lines (ConsoleResultWriter) and as an
 * xUnit XML document (XUnitResultsWriter).
 *
 * Durations and dates are rendered by the Formats given, standing for the
 * culture's rendering of TimeSpan.TotalSeconds and the two DateTime
 * formats; the console is the list of lines written so far, and the XML
 * writer the list of calls made on it.
 */
module ResultWriters {
  import opened Wrappers
  import opened Strings
  import opened TestRuns

  /** How a tick duration's TotalSeconds and a time's "yyyy-MM-dd" and "HH:mm:ss" forms are written. */
  datatype Formats = Formats(seconds: int -> string, date: int -> string, time: int -> string)

  function Text(s: Option<string>): string
  {
    s.GetOr("")
  }

  predicate NullOrEmpty(s: Option<string>)
  {
    s.None? || s.value == ""
  }

  function CodeunitDuration(c: Codeunit): int
  {
    c.finishTime - c.startTime
  }

  function MethodDuration(m: TestMethod): int
  {
    m.finishTime - m.startTime
  }

  // ---------------------------------------------------------------------
  // ConsoleResultWriter

  const Level1: string := "  "
  const Level2: string := "         "
  const Level3: string := "           "

  /** The tag of a result on the console. */
  function FormatResult(r: TestResult): (tag: string)
    ensures |tag| == 6 && tag[0] == '[' && tag[5] == ']'
    ensures tag == "[FAIL]" <==> r == Failure
    ensures tag == "[PASS]" <==> r == Success
    ensures tag == "[SKIP]" <==> r == Skipped
    ensures tag == "[ ?? ]" <==> r == Unknown
  {
    match r
    case Failure => "[FAIL]"
    case Success => "[PASS]"
    case Skipped => "[SKIP]"
    case Unknown => "[ ?? ]"
  }

  /** Different results have different tags. */
  lemma FormatResultInjective(a: TestResult, b: TestResult)
    requires FormatResult(a) == FormatResult(b)
    ensures a == b
  {
  }

  function HeaderLine(c: Codeunit, f: Formats): string
  {
    "Codeunit " + IntToString(c.codeunitId) + " " + Text(c.name) + " (" + f.seconds(CodeunitDuration(c)) + "s)"
  }

  function MethodLine(m: TestMethod, f: Formats): string
  {
    Level1 + FormatResult(m.result) + " Method " + Text(m.methodName) + " (" + f.seconds(MethodDuration(m)) + "s)"
  }

  /** The line of one stack trace segment: '\r' trimmed from both ends, then indented. */
  function StackLine(segment: string): string
  {
    Level3 + Trim(segment, '\r')
  }

  /** One line per ';'-separated segment of a stack trace. */
  function StackLines(segments: seq<string>): (r: seq<string>)
    ensures |r| == |segments|
    ensures forall k :: 0 <= k < |r| ==> r[k] == StackLine(segments[k])
  {
    if segments == [] then [] else [StackLine(segments[0])] + StackLines(segments[1..])
  }

  function MessageLines(m: TestMethod): seq<string>
  {
    if NullOrEmpty(m.message) then [] else [Level2 + m.message.value]
  }

  function TraceLines(m: TestMethod): seq<string>
  {
    if NullOrEmpty(m.stackTrace) then [] else StackLines(Split(m.stackTrace.value, {';'}))
  }

  /** The lines of one method: its result line, then its message and its stack trace when present. */
  function MethodLines(m: TestMethod, f: Formats): seq<string>
  {
    [MethodLine(m, f)] + MessageLines(m) + TraceLines(m)
  }

  function MethodsLines(ms: seq<TestMethod>, f: Formats): seq<string>
  {
    if ms == [] then [] else MethodLines(ms[0], f) + MethodsLines(ms[1..], f)
  }

  function CodeunitLines(c: Codeunit, f: Formats): seq<string>
  {
    [HeaderLine(c, f)] + MethodsLines(c.methods, f)
  }

  /** Everything Write sends to the console for a list of codeunits. */
  function Lines(cs: seq<Codeunit>, f: Formats): seq<string>
  {
    if cs == [] then [] else CodeunitLines(cs[0], f) + Lines(cs[1..], f)
  }

  lemma {:induction false} MethodsLinesSnoc(ms: seq<TestMethod>, m: TestMethod, f: Formats)
    ensures MethodsLines(ms + [m], f) == MethodsLines(ms, f) + MethodLines(m, f)
    decreases |ms|
  {
    if ms == [] {
      assert ms + [m] == [m];
      assert [m][1..] == [];
    } else {
      assert (ms + [m])[1..] == ms[1..] + [m];
      MethodsLinesSnoc(ms[1..], m, f);
    }
  }

  lemma {:induction false} LinesSnoc(cs: seq<Codeunit>, c: Codeunit, f: Formats)
    ensures Lines(cs + [c], f) == Lines(cs, f) + CodeunitLines(c, f)
    decreases |cs|
  {
    if cs == [] {
      assert cs + [c] == [c];
      assert [c][1..] == [];
    } else {
      assert (cs + [c])[1..] == cs[1..] + [c];
      LinesSnoc(cs[1..], c, f);
    }
  }

  lemma Assoc<T>(a: seq<T>, b: seq<T>, c: seq<T>)
    ensures a + (b + c) == (a + b) + c
  {
  }

  lemma Assoc4<T>(h: seq<T>, a: seq<T>, b: seq<T>, c: seq<T>, d: seq<T>)
    ensures h + (((a + b) + c) + d) == (((h + a) + b) + c) + d
  {
  }

  /** The prefix of length i + 1 is the prefix of length i and the element at i. */
  lemma TakeSnoc<T>(s: seq<T>, i: nat)
    requires i < |s|
    ensures s[..i + 1] == s[..i] + [s[i]]
  {
  }

  /** One more element after a prefix: start + F(prefix) + G(x) is start + F(prefix + [x]). */
  lemma AppendStep<T>(w: seq<T>, start: seq<T>, a: seq<T>, b: seq<T>, total: seq<T>)
    requires w == start + a + b && total == a + b
    ensures w == start + total
  {
  }

  lemma MethodsLinesPrefix(ms: seq<TestMethod>, j: nat, f: Formats)
    requires j < |ms|
    ensures MethodsLines(ms[..j + 1], f) == MethodsLines(ms[..j], f) + MethodLines(ms[j], f)
  {
    assert ms[..j + 1] == ms[..j] + [ms[j]];
    MethodsLinesSnoc(ms[..j], ms[j], f);
  }

  lemma MethodsStep(w: seq<string>, start: seq<string>, ms: seq<TestMethod>, j: nat, f: Formats)
    requires j < |ms| && w == start + MethodsLines(ms[..j], f) + MethodLines(ms[j], f)
    ensures w == start + MethodsLines(ms[..j + 1], f)
  {
    MethodsLinesPrefix(ms, j, f);
    AppendStep(w, start, MethodsLines(ms[..j], f), MethodLines(ms[j], f), MethodsLines(ms[..j + 1], f));
  }

  lemma StackLinesPrefix(segments: seq<string>, k: nat)
    requires k < |segments|
    ensures StackLines(segments[..k + 1]) == StackLines(segments[..k]) + [StackLine(segments[k])]
  {
    assert segments[..k + 1] == segments[..k] + [segments[k]];
    StackLinesSnoc(segments[..k], segments[k]);
  }

  lemma StackStep(w: seq<string>, start: seq<string>, segments: seq<string>, k: nat)
    requires k < |segments| && w == start + StackLines(segments[..k]) + [StackLine(segments[k])]
    ensures w == start + StackLines(segments[..k + 1])
  {
    StackLinesPrefix(segments, k);
    AppendStep(w, start, StackLines(segments[..k]), [StackLine(segments[k])], StackLines(segments[..k + 1]));
  }

  lemma {:induction false} StackLinesSnoc(segments: seq<string>, s: string)
    ensures StackLines(segments + [s]) == StackLines(segments) + [StackLine(s)]
    decreases |segments|
  {
    if segments == [] {
      assert segments + [s] == [s];
      assert [s][1..] == [];
    } else {
      assert (segments + [s])[1..] == segments[1..] + [s];
      StackLinesSnoc(segments[1..], s);
    }
  }

  lemma LinesPrefix(cs: seq<Codeunit>, i: nat, f: Formats)
    requires i < |cs|
    ensures Lines(cs[..i + 1], f) == Lines(cs[..i], f) + CodeunitLines(cs[i], f)
  {
    assert cs[..i + 1] == cs[..i] + [cs[i]];
    LinesSnoc(cs[..i], cs[i], f);
  }

  lemma LinesStep(w: seq<string>, start: seq<string>, cs: seq<Codeunit>, i: nat, f: Formats)
    requires i < |cs| && w == start + Lines(cs[..i], f) + CodeunitLines(cs[i], f)
    ensures w == start + Lines(cs[..i + 1], f)
  {
    LinesPrefix(cs, i, f);
    AppendStep(w, start, Lines(cs[..i], f), CodeunitLines(cs[i], f), Lines(cs[..i + 1], f));
  }


  /** The number of method lines and message lines and stack lines of one method. */
  lemma MethodLinesCount(m: TestMethod, f: Formats)
    ensures |MethodLines(m, f)| == 1 + (if NullOrEmpty(m.message) then 0 else 1)
      + (if NullOrEmpty(m.stackTrace) then 0 else |Split(m.stackTrace.value, {';'})|)
  {
  }

  /** The method line is the indent, the tag, " Method " and the method's name, in that order. */
  lemma MethodLineShape(m: TestMethod, f: Formats)
    ensures StartsWith(MethodLine(m, f), Level1 + FormatResult(m.result) + " Method " + Text(m.methodName))
  {
    var head := Level1 + FormatResult(m.result) + " Method " + Text(m.methodName);
    var seconds := f.seconds(MethodDuration(m));
    Assoc(head, " (", seconds);
    Assoc(head, " (" + seconds, "s)");
    StartsWithConcat(head, " (" + seconds + "s)");
  }

  predicate CleanEdges(s: string)
  {
    s == [] || (s[0] != '\r' && s[|s| - 1] != '\r')
  }

  lemma TrimClean(s: string)
    requires CleanEdges(s)
    ensures Trim(s, '\r') == s
  {
  }

  /**
   * Taking the indentation off the stack lines and joining them with ';'
   * gives back the stack trace, when no segment starts or ends with '\r'.
   */
  lemma StackLinesRebuildTrace(trace: string)
    requires forall k :: 0 <= k < |Split(trace, {';'})| ==> CleanEdges(Split(trace, {';'})[k])
    ensures var parts := Split(trace, {';'});
      && (forall k :: 0 <= k < |parts| ==> StackLines(parts)[k] == Level3 + parts[k])
      && Join(parts, ';') == trace
  {
    var parts := Split(trace, {';'});
    forall k | 0 <= k < |parts|
      ensures StackLines(parts)[k] == Level3 + parts[k]
    {
      TrimClean(parts[k]);
    }
    JoinSplit(trace, ';');
  }

  /** The lines that start a codeunit's block: those not indented. */
  function Unindented(lines: seq<string>): nat
  {
    if lines == [] then 0
    else (if lines[0] != [] && lines[0][0] != ' ' then 1 else 0) + Unindented(lines[1..])
  }

  lemma {:induction false} UnindentedAppend(a: seq<string>, b: seq<string>)
    ensures Unindented(a + b) == Unindented(a) + Unindented(b)
    decreases |a|
  {
    if a == [] {
      assert a + b == b;
    } else {
      assert (a + b)[1..] == a[1..] + b;
      UnindentedAppend(a[1..], b);
    }
  }

  lemma {:induction false} StackLinesIndented(segments: seq<string>)
    ensures Unindented(StackLines(segments)) == 0
    decreases |segments|
  {
    if segments != [] {
      StackLinesIndented(segments[1..]);
    }
  }

  lemma {:induction false} MethodsLinesIndented(ms: seq<TestMethod>, f: Formats)
    ensures Unindented(MethodsLines(ms, f)) == 0
    decreases |ms|
  {
    if ms != [] {
      var m := ms[0];
      UnindentedAppend([MethodLine(m, f)], MessageLines(m));
      UnindentedAppend([MethodLine(m, f)] + MessageLines(m), TraceLines(m));
      if !NullOrEmpty(m.stackTrace) {
        StackLinesIndented(Split(m.stackTrace.value, {';'}));
      }
      UnindentedAppend(MethodLines(m, f), MethodsLines(ms[1..], f));
      MethodsLinesIndented(ms[1..], f);
    }
  }

  /** Each codeunit contributes exactly one unindented line: its header, which comes first. */
  lemma {:induction false} OneHeaderPerCodeunit(cs: seq<Codeunit>, f: Formats)
    ensures Unindented(Lines(cs, f)) == |cs|
    ensures forall i :: 0 <= i < |cs| ==> Lines(cs[i..], f)[0] == HeaderLine(cs[i], f)
    decreases |cs|
  {
    if cs != [] {
      var c := cs[0];
      MethodsLinesIndented(c.methods, f);
      UnindentedAppend([HeaderLine(c, f)], MethodsLines(c.methods, f));
      UnindentedAppend(CodeunitLines(c, f), Lines(cs[1..], f));
      OneHeaderPerCodeunit(cs[1..], f);
      forall i | 0 < i < |cs|
        ensures Lines(cs[i..], f)[0] == HeaderLine(cs[i], f)
      {
        assert cs[i..] == cs[1..][i - 1..];
      }
    }
  }

  /** The console writer: WriteAction appends one line. */
  class ConsoleWriter {
    var written: seq<string>

    constructor()
      ensures written == []
    {
      written := [];
    }

    method BeginWrite()
      modifies this
      ensures written == old(written)
    {
    }

    method EndWrite()
      modifies this
      ensures written == old(written)
    {
    }

    method WriteAction(line: string)
      modifies this
      ensures written == old(written) + [line]
    {
      written := written + [line];
    }

    /** The lines of one stack trace, segment by segment. */
    method WriteStackTrace(segments: seq<string>)
      modifies this
      ensures written == old(written) + StackLines(segments)
    {
      var k := 0;
      while k < |segments|
        invariant 0 <= k <= |segments|
        invariant written == old(written) + StackLines(segments[..k])
      {
        WriteAction(StackLine(segments[k]));
        StackStep(written, old(written), segments, k);
        k := k + 1;
      }
      assert segments[..k] == segments;
    }

    /** The lines of one method: result line, message, stack trace. */
    method WriteMethod(m: TestMethod, f: Formats)
      modifies this
      ensures written == old(written) + MethodLines(m, f)
    {
      WriteAction(MethodLine(m, f));
      if !NullOrEmpty(m.message) {
        WriteAction(Level2 + m.message.value);
      }
      ghost var head := written;
      if NullOrEmpty(m.message) {
        assert head == old(written) + [MethodLine(m, f)] + MessageLines(m);
      }
      Assoc(old(written), [MethodLine(m, f)], MessageLines(m));
      if !NullOrEmpty(m.stackTrace) {
        var segments := Split(m.stackTrace.value, {';'});
        WriteStackTrace(segments);
      }
      assert written == head + TraceLines(m);
      Assoc(old(written), [MethodLine(m, f)] + MessageLines(m), TraceLines(m));
    }

    /** Write: each codeunit's header, then for each method its lines. */
    method Write(codeunits: seq<Codeunit>, f: Formats)
      modifies this
      ensures written == old(written) + Lines(codeunits, f)
    {
      var i := 0;
      while i < |codeunits|
        invariant 0 <= i <= |codeunits|
        invariant written == old(written) + Lines(codeunits[..i], f)
      {
        var c := codeunits[i];
        ghost var before := written;
        WriteAction(HeaderLine(c, f));
        var j := 0;
        while j < |c.methods|
          invariant 0 <= j <= |c.methods|
          invariant written == before + [HeaderLine(c, f)] + MethodsLines(c.methods[..j], f)
        {
          WriteMethod(c.methods[j], f);
          MethodsStep(written, before + [HeaderLine(c, f)], c.methods, j, f);
          j := j + 1;
        }
        assert c.methods[..j] == c.methods;
        Assoc(before, [HeaderLine(c, f)], MethodsLines(c.methods, f));
        assert written == before + CodeunitLines(c, f);
        LinesStep(written, old(written), codeunits, i, f);
        i := i + 1;
      }
      assert codeunits[..i] == codeunits;
    }
  }

  // ---------------------------------------------------------------------
  // XUnitResultsWriter

  /** An XML element with its attributes, in writing order, and its child elements. */
  datatype Node = Element(name: string, attributes: seq<(string, string)>, children: seq<Node>)

  /** The calls made on the XmlTextWriter. */
  datatype XmlEvent =
    | StartDocument
    | StartElement(name: string)
    | Attribute(key: string, value: string)
    | EndElement

  function AttributeEvents(attributes: seq<(string, string)>): seq<XmlEvent>
  {
    seq(|attributes|, k requires 0 <= k < |attributes| => Attribute(attributes[k].0, attributes[k].1))
  }

  /** The writer calls that produce a node: start, attributes, children, end. */
  function Serialize(n: Node): seq<XmlEvent>
    decreases n
  {
    [StartElement(n.name)] + AttributeEvents(n.attributes) + SerializeAll(n.children) + [EndElement]
  }

  function SerializeAll(ns: seq<Node>): seq<XmlEvent>
    decreases ns
  {
    if ns == [] then [] else Serialize(ns[0]) + SerializeAll(ns[1..])
  }

  /** The number of methods with a given result. */
  function Count(ms: seq<TestMethod>, r: TestResult): (n: nat)
    ensures n <= |ms|
  {
    if ms == [] then 0 else (if ms[0].result == r then 1 else 0) + Count(ms[1..], r)
  }

  /** Every method has exactly one of the four results. */
  lemma {:induction false} CountsPartition(ms: seq<TestMethod>)
    ensures Count(ms, Unknown) + Count(ms, Failure) + Count(ms, Success) + Count(ms, Skipped) == |ms|
    decreases |ms|
  {
    if ms != [] {
      CountsPartition(ms[1..]);
    }
  }

  /** The skipped count of an assembly: everything neither passed nor failed. */
  function SkippedCount(ms: seq<TestMethod>): (n: nat)
    ensures n == Count(ms, Skipped) + Count(ms, Unknown)
  {
    CountsPartition(ms);
    |ms| - Count(ms, Success) - Count(ms, Failure)
  }

  /** The counts shared by an assembly and its collection. */
  function CountAttributes(c: Codeunit, f: Formats): seq<(string, string)>
  {
    [ ("total", NatToString(|c.methods|)),
      ("passed", NatToString(Count(c.methods, Success))),
      ("failed", NatToString(Count(c.methods, Failure))),
      ("skipped", NatToString(SkippedCount(c.methods))),
      ("time", f.seconds(CodeunitDuration(c))) ]
  }

  /** The result string of a test element. */
  function ResultString(r: TestResult): (s: string)
    ensures s == "Pass" <==> r == Success
    ensures s == "Fail" <==> r == Failure
    ensures s == "Skipped" <==> r == Skipped || r == Unknown
  {
    match r
    case Failure => "Fail"
    case Success => "Pass"
    case Skipped => "Skipped"
    case Unknown => "Skipped"
  }

  function TestNode(c: Codeunit, m: TestMethod, f: Formats): Node
  {
    Element("test",
      [ ("name", Text(c.name) + ":" + Text(m.methodName)),
        ("method", Text(m.methodName)),
        ("time", f.seconds(MethodDuration(m))),
        ("result", ResultString(m.result)) ],
      [])
  }

  function TestNodes(c: Codeunit, f: Formats): (r: seq<Node>)
    ensures |r| == |c.methods|
    ensures forall k :: 0 <= k < |r| ==> r[k] == TestNode(c, c.methods[k], f)
  {
    seq(|c.methods|, k requires 0 <= k < |c.methods| => TestNode(c, c.methods[k], f))
  }

  function CollectionNode(c: Codeunit, f: Formats): Node
  {
    Element("collection", [("name", Text(c.name))] + CountAttributes(c, f), TestNodes(c, f))
  }

  function AssemblyName(c: Codeunit): string
  {
    IntToString(c.codeunitId) + " " + Text(c.name)
  }

  function AssemblyNode(c: Codeunit, f: Formats): Node
  {
    Element("assembly",
      [ ("name", AssemblyName(c)),
        ("test-framework", "PS Test Runner"),
        ("run-date", f.date(c.startTime)),
        ("run-time", f.time(c.startTime)) ] + CountAttributes(c, f),
      [CollectionNode(c, f)])
  }

  /** The document: an "assemblies" root with one assembly per codeunit, in order. */
  function Document(cs: seq<Codeunit>, f: Formats): (d: Node)
    ensures d.name == "assemblies" && d.attributes == [] && |d.children| == |cs|
    ensures forall i :: 0 <= i < |cs| ==> d.children[i] == AssemblyNode(cs[i], f)
  {
    Element("assemblies", [], seq(|cs|, i requires 0 <= i < |cs| => AssemblyNode(cs[i], f)))
  }

  /** The value of the first attribute with the given key. */
  function AttributeValue(attributes: seq<(string, string)>, key: string): Option<string>
  {
    if attributes == [] then None
    else if attributes[0].0 == key then Some(attributes[0].1)
    else AttributeValue(attributes[1..], key)
  }

  /**
   * An assembly states the codeunit's counts: total methods, passed =
   * successes, failed = failures, and skipped = the rest, so Unknown
   * results count as skipped; its one collection carries the same counts,
   * and there is one test per method, in order, named
   * "{codeunit name}:{method name}".
   */
  lemma AssemblyCounts(c: Codeunit, f: Formats)
    ensures var a := AssemblyNode(c, f);
      && a.attributes[0] == ("name", AssemblyName(c))
      && a.attributes[4] == ("total", NatToString(|c.methods|))
      && a.attributes[5] == ("passed", NatToString(Count(c.methods, Success)))
      && a.attributes[6] == ("failed", NatToString(Count(c.methods, Failure)))
      && a.attributes[7] == ("skipped", NatToString(Count(c.methods, Skipped) + Count(c.methods, Unknown)))
      && |a.children| == 1 && a.children[0].name == "collection"
      && a.children[0].attributes[1..] == a.attributes[4..]
      && |a.children[0].children| == |c.methods|
      && forall k :: 0 <= k < |c.methods| ==>
           a.children[0].children[k].attributes[0] == ("name", Text(c.name) + ":" + Text(c.methods[k].methodName))
  {
  }

  /** The assembly name gives back the codeunit id before its first space. */
  lemma AssemblyNameKeepsId(c: Codeunit)
    ensures !NoneOf(AssemblyName(c), {' '})
    ensures var n := AssemblyName(c);
      !NoneOf(n, {' '}) && ParseNat(n[..IndexOfAny(n, {' '})]) == (if c.codeunitId >= 0 then Some(c.codeunitId as nat) else None)
  {
    var id := IntToString(c.codeunitId);
    var n := AssemblyName(c);
    assert n[|id|] == ' ';
    assert NoneOf(id, {' '});
    var k := IndexOfAny(n, {' '});
    assert k == |id|;
    assert n[..k] == id;
    if c.codeunitId >= 0 {
      ParseNatToString(c.codeunitId);
    } else {
      assert !IsDigit(id[0]);
    }
  }

  lemma SerializeElement(n: Node)
    ensures Serialize(n) == [StartElement(n.name)] + AttributeEvents(n.attributes) + SerializeAll(n.children) + [EndElement]
  {
  }

  lemma SerializeAllSnoc(xs: seq<Node>, x: Node)
    ensures SerializeAll(xs + [x]) == SerializeAll(xs) + Serialize(x)
  {
    SerializeAllAppend(xs, [x]);
    assert [x][1..] == [];
  }

  lemma {:induction false} SerializeAllAppend(xs: seq<Node>, ys: seq<Node>)
    ensures SerializeAll(xs + ys) == SerializeAll(xs) + SerializeAll(ys)
    decreases |xs|
  {
    if xs == [] {
      assert xs + ys == ys;
    } else {
      assert (xs + ys)[1..] == xs[1..] + ys;
      SerializeAllAppend(xs[1..], ys);
    }
  }

  /** The XUnit writer. */
  class XmlWriter {
    var events: seq<XmlEvent>

    constructor()
      ensures events == []
    {
      events := [];
    }

    method Emit(e: XmlEvent)
      modifies this
      ensures events == old(events) + [e]
    {
      events := events + [e];
    }

    method WriteAttributes(attributes: seq<(string, string)>)
      modifies this
      ensures events == old(events) + AttributeEvents(attributes)
    {
      var k := 0;
      while k < |attributes|
        invariant 0 <= k <= |attributes|
        invariant events == old(events) + AttributeEvents(attributes[..k])
      {
        assert AttributeEvents(attributes[..k + 1]) == AttributeEvents(attributes[..k]) + [Attribute(attributes[k].0, attributes[k].1)];
        Emit(Attribute(attributes[k].0, attributes[k].1));
        k := k + 1;
      }
      assert attributes[..k] == attributes;
    }

    /** WriteResult: one test element. */
    method WriteResult(c: Codeunit, m: TestMethod, f: Formats)
      modifies this
      ensures events == old(events) + Serialize(TestNode(c, m, f))
    {
      var resultString := "Skipped";
      if m.result == Success {
        resultString := "Pass";
      }
      if m.result == Failure {
        resultString := "Fail";
      }
      Emit(StartElement("test"));
      WriteAttributes([
        ("name", Text(c.name) + ":" + Text(m.methodName)),
        ("method", Text(m.methodName)),
        ("time", f.seconds(MethodDuration(m))),
        ("result", resultString)]);
      Emit(EndElement);
    }

    /** WriteAssembly: the assembly element, its collection and one test per method. */
    method WriteAssembly(c: Codeunit, f: Formats)
      modifies this
      ensures events == old(events) + Serialize(AssemblyNode(c, f))
    {
      var assembly := AssemblyNode(c, f);
      Emit(StartElement("assembly"));
      WriteAttributes(assembly.attributes);
      WriteCollection(c, f);
      SerializeAllSnoc([], CollectionNode(c, f));
      assert [] + [CollectionNode(c, f)] == assembly.children;
      Emit(EndElement);
      SerializeElement(assembly);
      Assoc4(old(events), [StartElement("assembly")], AttributeEvents(assembly.attributes), SerializeAll(assembly.children), [EndElement]);
    }

    /** The "collection" element of one codeunit, around its tests. */
    method WriteCollection(c: Codeunit, f: Formats)
      modifies this
      ensures events == old(events) + Serialize(CollectionNode(c, f))
    {
      var collection := CollectionNode(c, f);
      Emit(StartElement("collection"));
      WriteAttributes(collection.attributes);
      WriteTests(c, f);
      Emit(EndElement);
      SerializeElement(collection);
      Assoc4(old(events), [StartElement("collection")], AttributeEvents(collection.attributes), SerializeAll(collection.children), [EndElement]);
    }

    /** One "test" element per method result, in order. */
    method WriteTests(c: Codeunit, f: Formats)
      modifies this
      ensures events == old(events) + SerializeAll(TestNodes(c, f))
    {
      var tests := TestNodes(c, f);
      var k := 0;
      while k < |c.methods|
        invariant 0 <= k <= |c.methods|
        invariant events == old(events) + SerializeAll(tests[..k])
      {
        assert tests[..k + 1] == tests[..k] + [tests[k]];
        SerializeAllSnoc(tests[..k], tests[k]);
        Assoc(old(events), SerializeAll(tests[..k]), Serialize(tests[k]));
        WriteResult(c, c.methods[k], f);
        k := k + 1;
      }
      assert tests[..k] == tests;
    }

    /** Write: the document with its "assemblies" root. */
    method Write(codeunits: seq<Codeunit>, f: Formats)
      modifies this
      ensures events == old(events) + [StartDocument] + Serialize(Document(codeunits, f))
    {
      var document := Document(codeunits, f);
      Emit(StartDocument);
      Emit(StartElement("assemblies"));
      WriteAssemblies(codeunits, f);
      Emit(EndElement);
      SerializeElement(document);
      assert AttributeEvents(document.attributes) == [];
      Assoc4(old(events) + [StartDocument], [StartElement("assemblies")], AttributeEvents(document.attributes),
        SerializeAll(document.children), [EndElement]);
    }

    /** One "assembly" element per codeunit, in order. */
    method WriteAssemblies(codeunits: seq<Codeunit>, f: Formats)
      modifies this
      ensures events == old(events) + SerializeAll(Document(codeunits, f).children)
    {
      var assemblies := Document(codeunits, f).children;
      var i := 0;
      while i < |codeunits|
        invariant 0 <= i <= |codeunits|
        invariant events == old(events) + SerializeAll(assemblies[..i])
      {
        ghost var node := assemblies[i];
        TakeSnoc(assemblies, i);
        SerializeAllSnoc(assemblies[..i], node);
        WriteAssembly(codeunits[i], f);
        AppendStep(events, old(events), SerializeAll(assemblies[..i]), Serialize(node), SerializeAll(assemblies[..i + 1]));
        i := i + 1;
      }
      assert assemblies[..i] == assemblies;
    }
  }
}
