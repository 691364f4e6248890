/**
 * The console side of the debugger (VMOutput.php): the stored-input queue
 * that feeds the VM's `in` requests, the trace flags, the table of event
 * handlers, and the key-driven line editor of `waitForUser`.
 */
module VMOutputs {

  /** A registered event handler; only its identity matters to the console. */
  datatype Handler = Handler(id: nat)

  /** What calling the `gotInput` handler did: returned a value, or threw an exception. */
  datatype Reply = Returned(keepGoing: bool) | Threw

  /** The keys `waitForUser` tells apart. */
  datatype Key = Escape | Enter | Backspace | Printable(c: char) | Unknown

  const EscapeCode: int := 27
  const BackspaceCode: int := 263

  /** How `waitForUser` reads the code of a pressed key. */
  function Classify(pressed: int): (k: Key)
    ensures k.Printable? <==> 32 <= pressed <= 126
    ensures k.Printable? ==> k.c as int == pressed
    ensures k.Enter? <==> pressed == 10 || pressed == 13
  {
    if pressed == EscapeCode then Escape
    else if pressed == 10 || pressed == 13 then Enter
    else if pressed == BackspaceCode then Backspace
    else if 32 <= pressed <= 126 then Printable(pressed as char)
    else Unknown
  }

  /** The line being typed after a key that does not submit it. */
  function Edit(line: string, k: Key): string
  {
    match k
    case Backspace => if line == [] then [] else line[..|line| - 1]
    case Printable(c) => line + [c]
    case _ => line
  }

  /** The line after typing the given key codes, none of which submits it. */
  function Typed(line: string, keys: seq<int>): string
    decreases |keys|
  {
    if keys == [] then line else Typed(Edit(line, Classify(keys[0])), keys[1..])
  }

  /** The key codes that type the characters of `t`. */
  function Codes(t: string): (r: seq<int>)
    ensures |r| == |t|
    ensures forall i :: 0 <= i < |t| ==> r[i] == t[i] as int
  {
    seq(|t|, i requires 0 <= i < |t| => t[i] as int)
  }

  predicate PrintableText(t: string)
  {
    forall i :: 0 <= i < |t| ==> 32 <= t[i] as int <= 126
  }

  /** Backspace undoes the character just typed. */
  lemma BackspaceUndoesTyping(line: string, c: char)
    ensures Edit(Edit(line, Printable(c)), Backspace) == line
  {
    assert (line + [c])[..|line|] == line;
  }

  /** Backspace on an empty line leaves it empty, and otherwise drops exactly the last character. */
  lemma BackspaceDropsLast(line: string)
    ensures |line| == 0 ==> Edit(line, Backspace) == []
    ensures |line| > 0 ==> Edit(line, Backspace) + [line[|line| - 1]] == line
  {
  }

  /** Typing printable text appends exactly that text to the line. */
  lemma {:induction false} TypingAppends(line: string, t: string)
    requires PrintableText(t)
    ensures Typed(line, Codes(t)) == line + t
    decreases |t|
  {
    if t != [] {
      var k := Codes(t);
      assert Classify(k[0]) == Printable(t[0]);
      assert k[1..] == Codes(t[1..]);
      TypingAppends(line + [t[0]], t[1..]);
      assert line + [t[0]] + t[1..] == line + t;
    }
  }

  class VMOutput {
    /** The partial line the user is typing. */
    var userInput: string
    var handlers: map<string, Handler>
    /** Lines waiting to be fed to the VM, oldest first. */
    var storedInput: seq<string>
    var tracing: bool
    var traceOnOutput: bool

    constructor ()
      ensures userInput == [] && handlers == map[] && storedInput == []
      ensures tracing && traceOnOutput
    {
      userInput := [];
      handlers := map[];
      storedInput := [];
      tracing := true;
      traceOnOutput := true;
    }

    /** Register each named handler, replacing any handler of the same name. */
    method SetHandlers(outHandlers: map<string, Handler>)
      modifies this`handlers
      ensures forall n :: n in outHandlers ==> n in handlers && handlers[n] == outHandlers[n]
      ensures forall n :: n !in outHandlers && n in old(handlers) ==> n in handlers && handlers[n] == old(handlers)[n]
      ensures handlers.Keys == old(handlers).Keys + outHandlers.Keys
    {
      var todo := outHandlers.Keys;
      while todo != {}
        invariant todo <= outHandlers.Keys
        invariant handlers.Keys == old(handlers).Keys + (outHandlers.Keys - todo)
        invariant forall n :: n in outHandlers.Keys - todo ==> handlers[n] == outHandlers[n]
        invariant forall n :: n in old(handlers) && n !in outHandlers.Keys - todo ==> handlers[n] == old(handlers)[n]
        decreases todo
      {
        var name :| name in todo;
        handlers := handlers[name := outHandlers[name]];
        todo := todo - {name};
      }
    }

    method GetHandlers() returns (r: map<string, Handler>)
      ensures r == handlers
    {
      r := handlers;
    }

    method TraceOn()
      modifies this`tracing
      ensures tracing
    {
      tracing := true;
    }

    method TraceOff()
      modifies this`tracing
      ensures !tracing
    {
      tracing := false;
    }

    /** Trace every operation as it executes. */
    method TraceAll()
      modifies this`tracing, this`traceOnOutput
      ensures tracing && !traceOnOutput
    {
      TraceOn();
      traceOnOutput := false;
    }

    /** Trace operations only when the VM produces output. */
    method TraceOnOutput()
      modifies this`tracing, this`traceOnOutput
      ensures tracing && traceOnOutput
    {
      TraceOn();
      traceOnOutput := true;
    }

    method Tracing() returns (r: bool)
      ensures r == tracing
    {
      r := tracing;
    }

    method AddStoredInput(input: string)
      modifies this`storedInput
      ensures |storedInput| == |old(storedInput)| + 1
      ensures storedInput[..|old(storedInput)|] == old(storedInput)
      ensures storedInput[|old(storedInput)|] == input
    {
      storedInput := storedInput + [input];
    }

    method GetStoredInput() returns (r: seq<string>)
      ensures r == storedInput
    {
      r := storedInput;
    }

    method SetStoredInput(input: seq<string>)
      modifies this`storedInput
      ensures storedInput == input
    {
      storedInput := input;
    }

    method GetUserInput() returns (r: string)
      ensures r == userInput
    {
      r := userInput;
    }

    /**
     * Handle one key press. Escape ends the session; Enter hands the line
     * to the `gotInput` handler (whose behaviour is the parameter `call`)
     * and starts a new line; any other key edits the line and continues.
     */
    method WaitForUser(pressed: int, call: (Handler, string) -> Reply) returns (result: bool)
      requires Classify(pressed).Enter? ==> "gotInput" in handlers
      modifies this`userInput
      ensures Classify(pressed).Enter? ==> userInput == []
      ensures !Classify(pressed).Enter? ==> userInput == Edit(old(userInput), Classify(pressed))
      ensures Classify(pressed).Escape? ==> !result
      ensures Classify(pressed).Enter? ==>
        result == match call(handlers["gotInput"], old(userInput))
                  case Returned(b) => b
                  case Threw => true
      ensures !Classify(pressed).Escape? && !Classify(pressed).Enter? ==> result
    {
      result := false;
      if pressed == EscapeCode {
        result := false;
      } else if pressed == 10 || pressed == 13 {
        var line := userInput;
        userInput := [];
        var reply := call(handlers["gotInput"], line);
        match reply
        case Returned(b) =>
          result := b;
        case Threw =>
          result := true;
      } else if pressed == BackspaceCode {
        if userInput != [] {
          userInput := userInput[..|userInput| - 1];
        }
        result := true;
      } else if 32 <= pressed <= 126 {
        userInput := userInput + [pressed as char];
        result := true;
      } else {
        result := true;
      }
    }
  }
}
