/** The port prompt of the chat program: read lines until one is empty (take the
    default port) or converts, by std::stoi, to a port inside the allowed range.
    Console input is a sequence of lines; once it is used up, std::getline leaves
    the freshly made line empty, so end of input also selects the default. */
module PortPrompt {
  import opened StringToInt

  const PORT_MIN: int := 8000
  const PORT_MAX: int := 9000
  const DEFAULT_PORT: int := 8080

  /** The four ways one line of input can be judged. */
  datatype Verdict =
    | UseDefault                      // the line is empty
    | Accept(port: int)               // stoi gave a value inside the range
    | OutOfRangePort(value: int)      // stoi gave a value outside the range
    | NotNumeric(failure: Conversion) // stoi threw

  function Judge(line: string): (v: Verdict)
    ensures v.UseDefault? <==> line == []
    ensures v.Accept? ==> PORT_MIN <= v.port <= PORT_MAX
    ensures v.OutOfRangePort? ==> v.value < PORT_MIN || v.value > PORT_MAX
    ensures v.NotNumeric? ==> v.failure in {InvalidArgument, OutOfRange}
  {
    if line == [] then UseDefault
    else
      match Stoi(line)
      case Converted(p) => if PORT_MIN <= p <= PORT_MAX then Accept(p) else OutOfRangePort(p)
      case other => NotNumeric(other)
  }

  /** A line ends the prompting when it is empty or holds an acceptable port. */
  predicate Settles(line: string) {
    Judge(line).UseDefault? || Judge(line).Accept?
  }

  function SettledPort(line: string): (p: int)
    requires Settles(line)
    ensures PORT_MIN <= p <= PORT_MAX
  {
    if line == [] then DEFAULT_PORT else Judge(line).port
  }

  /** get_port as the source writes it: recursion on every rejected line. */
  function PortAfter(inputs: seq<string>): (p: int)
    ensures PORT_MIN <= p <= PORT_MAX
  {
    if |inputs| == 0 then DEFAULT_PORT
    else
      match Judge(inputs[0])
      case UseDefault => DEFAULT_PORT
      case Accept(p) => p
      case _ => PortAfter(inputs[1..])
  }

  /** The index of the first line that settles, or |inputs| when none does. */
  function FirstSettling(inputs: seq<string>): (k: nat)
    ensures k <= |inputs|
    ensures forall i :: 0 <= i < k ==> !Settles(inputs[i])
    ensures k < |inputs| ==> Settles(inputs[k])
  {
    if |inputs| == 0 then 0
    else if Settles(inputs[0]) then 0
    else 1 + FirstSettling(inputs[1..])
  }

  /** get_port as a loop: returns the port and how many input lines it consumed. */
  method GetPort(inputs: seq<string>) returns (port: int, linesRead: nat)
    ensures port == PortAfter(inputs)
    ensures PORT_MIN <= port <= PORT_MAX
    ensures FirstSettling(inputs) < |inputs| ==>
              linesRead == FirstSettling(inputs) + 1 && port == SettledPort(inputs[FirstSettling(inputs)])
    ensures FirstSettling(inputs) == |inputs| ==> linesRead == |inputs| && port == DEFAULT_PORT
  {
    var i := 0;
    while i < |inputs|
      invariant 0 <= i <= FirstSettling(inputs)
      invariant PortAfter(inputs[i..]) == PortAfter(inputs)
    {
      var line := inputs[i];
      if line == [] {
        LineSettles(inputs, i);
        return DEFAULT_PORT, i + 1;
      }
      var converted := Stoi(line);
      if converted.Converted? && PORT_MIN <= converted.value <= PORT_MAX {
        LineSettles(inputs, i);
        return converted.value, i + 1;
      }
      LineIsRejected(inputs, i);
      i := i + 1;
    }
    port, linesRead := DEFAULT_PORT, |inputs|;
  }

  /** The loop step that returns: the line at i is the first that settles. */
  lemma LineSettles(inputs: seq<string>, i: nat)
    requires i <= FirstSettling(inputs) && i < |inputs| && Settles(inputs[i])
    ensures FirstSettling(inputs) == i
    ensures PortAfter(inputs[i..]) == SettledPort(inputs[i])
  {
    assert inputs[i..][0] == inputs[i];
  }

  /** The loop step that prompts again: the next line decides. */
  lemma LineIsRejected(inputs: seq<string>, i: nat)
    requires i <= FirstSettling(inputs) && i < |inputs| && !Settles(inputs[i])
    ensures i + 1 <= FirstSettling(inputs)
    ensures PortAfter(inputs[i + 1..]) == PortAfter(inputs[i..])
  {
    assert inputs[i..][0] == inputs[i] && inputs[i..][1..] == inputs[i + 1..];
  }

  /** An empty line gives the default port without consulting stoi. */
  lemma EmptyLineGivesDefault(rest: seq<string>)
    ensures PortAfter([[]] + rest) == DEFAULT_PORT
  {
  }

  /** A non-empty line that stoi rejects, or that is outside the range, is
      skipped and the next line decides. */
  lemma RejectedLineIsSkipped(line: string, rest: seq<string>)
    requires !Settles(line)
    ensures PortAfter([line] + rest) == PortAfter(rest)
  {
    assert ([line] + rest)[1..] == rest;
  }

  /** The result is determined by the first line that settles. */
  lemma {:induction false} FirstSettlingDecides(inputs: seq<string>, k: nat)
    requires k < |inputs| && Settles(inputs[k])
    requires forall i :: 0 <= i < k ==> !Settles(inputs[i])
    ensures PortAfter(inputs) == SettledPort(inputs[k])
  {
    if k > 0 {
      assert !Settles(inputs[0]);
      FirstSettlingDecides(inputs[1..], k - 1);
    }
  }

  /** When no line settles, every line is consumed and the default is used. */
  lemma {:induction false} NoLineSettles(inputs: seq<string>)
    requires forall i :: 0 <= i < |inputs| ==> !Settles(inputs[i])
    ensures PortAfter(inputs) == DEFAULT_PORT
  {
    if |inputs| > 0 {
      assert !Settles(inputs[0]);
      NoLineSettles(inputs[1..]);
    }
  }

  /** The default port is itself inside the allowed range. */
  lemma DefaultPortInRange()
    ensures PORT_MIN <= DEFAULT_PORT <= PORT_MAX
  {
  }

  /** "8080x" is accepted as 8080: stoi ignores the trailing characters. */
  lemma TrailingCharactersIgnored()
    ensures Judge("8080x") == Accept(8080)
  {
    assert Decimal(8080) == "8080";
    assert "8080x" == [] + Decimal(8080) + "x";
    StoiOfDecimal([], 8080, "x");
  }

  /** " 8500" is accepted: stoi skips leading white space. */
  lemma LeadingSpaceSkipped()
    ensures Judge(" 8500") == Accept(8500)
  {
    assert Decimal(8500) == "8500";
    assert " 8500" == " " + Decimal(8500) + [];
    StoiOfDecimal(" ", 8500, []);
  }

  /** "7999" converts but lies outside the range. */
  lemma OutOfRangeExample()
    ensures Judge("7999") == OutOfRangePort(7999)
  {
    assert Decimal(7999) == "7999";
    assert "7999" == [] + Decimal(7999) + [];
    StoiOfDecimal([], 7999, []);
  }

  /** "abc" has no digits, so stoi throws invalid_argument. */
  lemma NotNumericExample()
    ensures Judge("abc") == NotNumeric(InvalidArgument)
  {
    assert Stoi("abc") == InvalidArgument by {
      StoiWithoutDigits("abc");
    }
  }

  /** 3000000000 is beyond INT_MAX, so stoi throws out_of_range. */
  lemma OverflowExample()
    ensures Judge("3000000000") == NotNumeric(OutOfRange)
  {
    assert Stoi("3000000000") == OutOfRange by {
      assert Decimal(3000000000) == "3000000000";
      StoiOverflow(3000000000);
    }
  }

  /** Any number of rejected lines are skipped: the prompt repeats and the
      first line after them decides. */
  lemma {:induction false} RejectedLinesAreSkipped(inputs: seq<string>, k: nat)
    requires k <= |inputs|
    requires forall i :: 0 <= i < k ==> !Settles(inputs[i])
    ensures PortAfter(inputs) == PortAfter(inputs[k..])
  {
    if k > 0 {
      RejectedLinesAreSkipped(inputs, k - 1);
      assert inputs[k - 1..] == [inputs[k - 1]] + inputs[k..];
      RejectedLineIsSkipped(inputs[k - 1], inputs[k..]);
    } else {
      assert inputs[0..] == inputs;
    }
  }
}
