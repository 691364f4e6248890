/**
 * The glue in run.php: where files are looked up (`getFilepath`), how the
 * stored input lines are fed to the VM one character at a time (the
 * `input` handler), and how a line typed at the console is routed
 * (`gotInput`): a line starting with '!' is a debugger command, anything
 * else is queued for the VM, and the last input is remembered for '!'.
 */
module RunScript {
  import opened Wrappers
  import VMOutputs

  // ---------------------------------------------------------------------
  // getFilepath
  // ---------------------------------------------------------------------

  /** `str_replace(c, '', s)`: `s` with every `c` removed. */
  function RemoveChar(s: string, c: char): (r: string)
    ensures forall i :: 0 <= i < |r| ==> r[i] != c
    ensures multiset(r) == multiset(s)[c := 0]
  {
    if s == [] then []
    else
      assert s == [s[0]] + s[1..];
      (if s[0] == c then [] else [s[0]]) + RemoveChar(s[1..], c)
  }

  /** `pat` occurs in `s` at position `i`. */
  predicate OccursAt(s: string, pat: string, i: nat)
  {
    i + |pat| <= |s| && s[i..i + |pat|] == pat
  }

  /** `str_replace(pat, rep, s)`: occurrences replaced left to right, without overlap. */
  function ReplaceAll(s: string, pat: string, rep: string): string
    decreases |s|
  {
    if pat == [] || s == [] then s
    else if OccursAt(s, pat, 0) then rep + ReplaceAll(s[|pat|..], pat, rep)
    else [s[0]] + ReplaceAll(s[1..], pat, rep)
  }

  /**
   * The path of file `name` in sub-directory `dir` of the script's directory
   * `scriptDir`, with the working directory `cwd` abbreviated to '.'.
   */
  function GetFilepath(name: string, dir: string, scriptDir: string, cwd: string): string
  {
    ReplaceAll(scriptDir + "/" + dir + "/" + RemoveChar(name, '/'), cwd, ".")
  }

  /** `pat` occurs nowhere in `s`. */
  ghost predicate Absent(s: string, pat: string)
  {
    forall i: nat :: !OccursAt(s, pat, i)
  }

  /** Replacing a pattern that does not occur changes nothing. */
  lemma {:induction false} ReplaceAllAbsent(s: string, pat: string, rep: string)
    requires Absent(s, pat)
    ensures ReplaceAll(s, pat, rep) == s
    decreases |s|
  {
    if pat != [] && s != [] {
      assert !OccursAt(s, pat, 0);
      forall i: nat
        ensures !OccursAt(s[1..], pat, i)
      {
        assert Absent(s, pat);
        assert !OccursAt(s, pat, i + 1);
        if i + |pat| <= |s[1..]| {
          assert s[1..][i..i + |pat|] == s[i + 1..i + 1 + |pat|];
        }
      }
      assert Absent(s[1..], pat);
      ReplaceAllAbsent(s[1..], pat, rep);
    }
  }

  /** A leading occurrence is replaced and the rest is processed after it. */
  lemma ReplaceAllPrefix(pat: string, t: string, rep: string)
    requires pat != []
    ensures ReplaceAll(pat + t, pat, rep) == rep + ReplaceAll(t, pat, rep)
  {
    assert OccursAt(pat + t, pat, 0);
    assert (pat + t)[|pat|..] == t;
  }

  /** The file name never contributes a '/', so no name escapes the directory. */
  lemma NameHasNoSlash(name: string)
    ensures '/' !in RemoveChar(name, '/')
    ensures forall c :: c != '/' ==> multiset(RemoveChar(name, '/'))[c] == multiset(name)[c]
  {
  }

  /**
   * Run from the script's own directory, the path is `./<dir>/<name>`
   * (with '/' removed from the name), provided the directory name does not
   * itself spell out the working directory.
   */
  lemma FilepathFromScriptDir(name: string, dir: string, cwd: string)
    requires cwd != []
    requires Absent("/" + dir + "/" + RemoveChar(name, '/'), cwd)
    ensures GetFilepath(name, dir, cwd, cwd) == "./" + dir + "/" + RemoveChar(name, '/')
  {
    var r := RemoveChar(name, '/');
    var tail := "/" + dir + "/" + r;
    Regroup(cwd, "/", dir, "/", r);
    ReplaceAllPrefix(cwd, tail, ".");
    ReplaceAllAbsent(tail, cwd, ".");
    Regroup(".", "/", dir, "/", r);
    assert "./" == "." + "/";
  }

  /** Concatenation regrouped to the right. */
  lemma Regroup(a: string, b: string, c: string, d: string, e: string)
    ensures a + b + c + d + e == a + (b + c + d + e)
  {
  }

  // ---------------------------------------------------------------------
  // The VM's input handler
  // ---------------------------------------------------------------------

  /** PHP's `empty()` on a string: true for '' and also for '0'. */
  predicate PhpEmpty(s: string)
  {
    s == "" || s == "0"
  }

  /** One call of the input handler: the code handed to the VM (None for FALSE) and the queue left. */
  datatype Take = Take(code: Option<int>, rest: seq<string>)

  /** The input handler as run.php writes it, testing the line with `empty()`. */
  function TakeInputAsWritten(stored: seq<string>): Take
  {
    if stored == [] then Take(None, stored)
    else if PhpEmpty(stored[0]) then Take(Some(10), stored[1..])
    else Take(Some(stored[0][0] as int), stored[0 := stored[0][1..]])
  }

  /** The input handler testing for the empty line only, as intended. */
  function TakeInput(stored: seq<string>): Take
  {
    if stored == [] then Take(None, stored)
    else if stored[0] == [] then Take(Some(10), stored[1..])
    else Take(Some(stored[0][0] as int), stored[0 := stored[0][1..]])
  }

  /** The codes the VM receives from a run of input requests, and the queue left. */
  datatype Fed = Fed(codes: seq<int>, rest: seq<string>)

  /** The codes the VM receives from `n` calls of the input handler, and the queue left. */
  function Feed(stored: seq<string>, n: nat): Fed
    decreases n
  {
    if n == 0 || stored == [] then Fed([], stored)
    else
      var t := TakeInput(stored);
      var f := Feed(t.rest, n - 1);
      Fed([t.code.value] + f.codes, f.rest)
  }

  /** With nothing stored the handler returns FALSE and leaves the queue as it was, with either test. */
  lemma NothingStored()
    ensures TakeInput([]) == Take(None, [])
    ensures TakeInputAsWritten([]) == Take(None, [])
  {
  }

  /** A stored line is delivered as its characters followed by a newline (10). */
  lemma {:induction false} LineDelivered(line: string, more: seq<string>)
    ensures Feed([line] + more, |line| + 1) == Fed(VMOutputs.Codes(line) + [10], more)
    decreases |line|
  {
    var s := [line] + more;
    if line == [] {
      assert s[1..] == more;
      assert VMOutputs.Codes(line) + [10] == [10];
    } else {
      var rest := [line[1..]] + more;
      assert TakeInput(s) == Take(Some(line[0] as int), rest);
      LineDelivered(line[1..], more);
      assert VMOutputs.Codes(line) == [line[0] as int] + VMOutputs.Codes(line[1..]);
      assert [line[0] as int] + (VMOutputs.Codes(line[1..]) + [10]) == VMOutputs.Codes(line) + [10];
    }
  }

  /** Feeding `a` codes and then `b` more is feeding `a + b`. */
  lemma {:induction false} FeedSplit(stored: seq<string>, a: nat, b: nat)
    ensures Feed(stored, a + b).codes == Feed(stored, a).codes + Feed(Feed(stored, a).rest, b).codes
    ensures Feed(stored, a + b).rest == Feed(Feed(stored, a).rest, b).rest
    decreases a
  {
    if a > 0 && stored != [] {
      FeedSplit(TakeInput(stored).rest, a - 1, b);
    }
  }

  /** How many codes the queue `lines` yields in total. */
  function QueueLength(lines: seq<string>): nat
  {
    if lines == [] then 0 else |lines[0]| + 1 + QueueLength(lines[1..])
  }

  /** The codes of the queue `lines`: each line's characters, each followed by 10. */
  function QueueCodes(lines: seq<string>): seq<int>
  {
    if lines == [] then [] else VMOutputs.Codes(lines[0]) + [10] + QueueCodes(lines[1..])
  }

  /** Draining the whole queue delivers every line, in order, and empties it. */
  lemma {:induction false} QueueDelivered(lines: seq<string>)
    ensures Feed(lines, QueueLength(lines)) == Fed(QueueCodes(lines), [])
  {
    if lines != [] {
      var line, more := lines[0], lines[1..];
      assert lines == [line] + more;
      FeedSplit(lines, |line| + 1, QueueLength(more));
      LineDelivered(line, more);
      QueueDelivered(more);
    }
  }

  /** As written, a line "0" is taken for an empty line: the VM receives 10 and never the '0'. */
  lemma ZeroLineLost()
    ensures TakeInputAsWritten(["0"]) == Take(Some(10), [])
    ensures TakeInput(["0"]) == Take(Some('0' as int), [""])
  {
    assert "0"[1..] == "";
    assert ["0"][0 := ""] == [""];
  }

  /** As written, a trailing '0' is lost too: the line "10" yields '1' and then 10. */
  lemma TrailingZeroLost()
    ensures TakeInputAsWritten(["10"]) == Take(Some('1' as int), ["0"])
    ensures TakeInputAsWritten(["0"]).code == Some(10)
  {
    assert ["10"][0 := "0"] == ["0"];
  }

  /** The codes the VM receives from `n` calls of the handler as written, and the queue left. */
  function FeedAsWritten(stored: seq<string>, n: nat): Fed
    decreases n
  {
    if n == 0 || stored == [] then Fed([], stored)
    else
      var t := TakeInputAsWritten(stored);
      var f := FeedAsWritten(t.rest, n - 1);
      Fed([t.code.value] + f.codes, f.rest)
  }

  /** What of a line reaches the VM as written: all of it, except a trailing '0'. */
  function Kept(line: string): (k: string)
    ensures |k| <= |line| && k == line[..|k|]
    ensures k == line <==> line == [] || line[|line| - 1] != '0'
  {
    if line != [] && line[|line| - 1] == '0' then line[..|line| - 1] else line
  }

  /** As written, a stored line is delivered without its trailing '0' (if any), then 10. */
  lemma {:induction false} LineDeliveredAsWritten(line: string, more: seq<string>)
    ensures FeedAsWritten([line] + more, |Kept(line)| + 1) == Fed(VMOutputs.Codes(Kept(line)) + [10], more)
    decreases |line|
  {
    var s := [line] + more;
    if PhpEmpty(line) {
      assert s[1..] == more;
      assert VMOutputs.Codes(Kept(line)) + [10] == [10];
    } else {
      var rest := [line[1..]] + more;
      assert TakeInputAsWritten(s) == Take(Some(line[0] as int), rest);
      KeptCons(line);
      CodesCons(line[0], Kept(line[1..]));
      LineDeliveredAsWritten(line[1..], more);
      assert [line[0] as int] + (VMOutputs.Codes(Kept(line[1..])) + [10]) == VMOutputs.Codes(Kept(line)) + [10];
    }
  }

  /** A line that `empty()` does not reject keeps its first character. */
  lemma KeptCons(line: string)
    requires !PhpEmpty(line)
    ensures Kept(line) == [line[0]] + Kept(line[1..])
  {
    if line[|line| - 1] == '0' {
      assert line[1..][..|line| - 2] == line[1..|line| - 1];
    }
  }

  /** The key codes of a character followed by text. */
  lemma CodesCons(c: char, t: string)
    ensures VMOutputs.Codes([c] + t) == [c as int] + VMOutputs.Codes(t)
  {
  }

  /** The written test and the intended one differ only on a line "0". */
  lemma TakeInputAgrees(stored: seq<string>)
    ensures (TakeInputAsWritten(stored) == TakeInput(stored)) <==> (stored == [] || stored[0] != "0")
  {
    if stored != [] && stored[0] == "0" {
      assert TakeInput(stored).code == Some('0' as int);
    }
  }

  /**
   * The `input` handler: read the queue through `getStoredInput`, take one
   * code from it and write the queue back with `setStoredInput`. The line is
   * tested with `empty()`, so a line "0" counts as empty.
   */
  method InputHandler(out: VMOutputs.VMOutput) returns (r: Option<int>)
    modifies out`storedInput
    ensures r == TakeInputAsWritten(old(out.storedInput)).code
    ensures out.storedInput == TakeInputAsWritten(old(out.storedInput)).rest
  {
    r := None;
    var storedInput := out.GetStoredInput();
    if |storedInput| > 0 {
      var line := storedInput[0];
      if PhpEmpty(line) {
        r := Some(10);
        storedInput := storedInput[1..];
      } else {
        r := Some(line[0] as int);
        assert |line| == 1 ==> line[1..] == [];
        storedInput := storedInput[0 := if |line| > 1 then line[1..] else []];
      }
    }
    out.SetStoredInput(storedInput);
  }

  // ---------------------------------------------------------------------
  // Splitting a command line (`explode`)
  // ---------------------------------------------------------------------

  /** `explode(sep, s)`: the pieces between separators, empty ones included. */
  function Split(s: string, sep: char): (r: seq<string>)
    ensures |r| >= 1
    ensures forall i :: 0 <= i < |r| ==> sep !in r[i]
  {
    if s == [] then [[]]
    else
      var rest := Split(s[1..], sep);
      if s[0] == sep then [[]] + rest
      else [[s[0]] + rest[0]] + rest[1..]
  }

  /** `implode(sep, parts)`. */
  function Join(parts: seq<string>, sep: char): string
  {
    if parts == [] then []
    else if |parts| == 1 then parts[0]
    else parts[0] + [sep] + Join(parts[1..], sep)
  }

  lemma JoinExtendsFirst(c: char, parts: seq<string>, sep: char)
    requires parts != []
    ensures Join([[c] + parts[0]] + parts[1..], sep) == [c] + Join(parts, sep)
  {
    var q := [[c] + parts[0]] + parts[1..];
    assert q[1..] == parts[1..];
  }

  /** Joining the pieces with the separator gives back the text. */
  lemma {:induction false} SplitJoin(s: string, sep: char)
    ensures Join(Split(s, sep), sep) == s
    decreases |s|
  {
    if s != [] {
      var rest := Split(s[1..], sep);
      SplitJoin(s[1..], sep);
      if s[0] == sep {
        assert ([[]] + rest)[1..] == rest;
        assert [s[0]] + s[1..] == s;
      } else {
        JoinExtendsFirst(s[0], rest, sep);
        assert [s[0]] + s[1..] == s;
      }
    }
  }

  /** Text without a separator is one piece. */
  lemma {:induction false} SplitNoSep(a: string, sep: char)
    requires sep !in a
    ensures Split(a, sep) == [a]
    decreases |a|
  {
    if a != [] {
      SplitNoSep(a[1..], sep);
      assert [a[0]] + a[1..] == a;
    }
  }

  /** A separator after a separator-free piece ends that piece. */
  lemma {:induction false} SplitAfterPiece(a: string, b: string, sep: char)
    requires sep !in a
    ensures Split(a + [sep] + b, sep) == [a] + Split(b, sep)
    decreases |a|
  {
    var s := a + [sep] + b;
    if a == [] {
      assert s[1..] == b;
    } else {
      assert s[1..] == a[1..] + [sep] + b;
      SplitAfterPiece(a[1..], b, sep);
      assert [a[0]] + a[1..] == a;
    }
  }

  /** Splitting joined separator-free pieces gives back the pieces. */
  lemma {:induction false} JoinSplit(parts: seq<string>, sep: char)
    requires |parts| >= 1
    requires forall i :: 0 <= i < |parts| ==> sep !in parts[i]
    ensures Split(Join(parts, sep), sep) == parts
  {
    if |parts| == 1 {
      SplitNoSep(parts[0], sep);
    } else {
      JoinSplit(parts[1..], sep);
      SplitAfterPiece(parts[0], Join(parts[1..], sep), sep);
      assert [parts[0]] + parts[1..] == parts;
    }
  }

  // ---------------------------------------------------------------------
  // gotInput: routing a typed line
  // ---------------------------------------------------------------------

  /**
   * What `gotInput` keeps track of: the queue of stored lines, the last
   * input (`$__LASTINPUT`), the autorun switch, and the debugger commands
   * dispatched so far, each as its space-separated words.
   */
  datatype Ui = Ui(stored: seq<string>, last: Option<string>, autorun: bool, commands: seq<seq<string>>)

  /** A line starting with '!' is a debugger command. */
  predicate IsCommand(input: string)
  {
    |input| > 0 && input[0] == '!'
  }

  /** The words of a command: its text after '!' split on spaces. */
  function Words(input: string): (r: seq<string>)
    requires IsCommand(input)
    ensures |r| >= 1
  {
    Split(input[1..], ' ')
  }

  /** '!', '!!', '! x', '!! x' ...: re-run the last input. */
  predicate IsRunLast(input: string)
  {
    IsCommand(input) && (Words(input)[0] == "" || Words(input)[0] == "!")
  }

  /** `send <text>`: the first word after `send` is queued as a line of input. */
  predicate Sends(words: seq<string>)
  {
    |words| >= 2 && words[0] == "send"
  }

  /**
   * The command `input` with words `words` is dispatched: `autorun` toggles
   * the switch, and `send` queues its text and, with autorun on, is followed
   * by the command `!run`.
   */
  function Dispatch(ui: Ui, input: string, words: seq<string>): Ui
    requires |words| >= 1
  {
    var autorun := if words[0] == "autorun" then !ui.autorun else ui.autorun;
    var done := ui.(commands := ui.commands + [words], autorun := autorun);
    var sent :=
      if !Sends(words) then done
      else
        var queued := done.(stored := done.stored + [words[1]]);
        if autorun then queued.(commands := queued.commands + [["run"]]) else queued;
    sent.(last := Some(input))
  }

  /**
   * Any input other than a re-run: a command is dispatched, a plain line is
   * stored and, with autorun on, followed by the command `!run`; the input
   * becomes the last input.
   */
  function Perform(ui: Ui, input: string): Ui
    requires !IsRunLast(input)
  {
    if IsCommand(input) then Dispatch(ui, input, Words(input))
    else
      var queued := ui.(stored := ui.stored + [input]);
      var ran := if ui.autorun then Dispatch(queued, "!run", ["run"]) else queued;
      ran.(last := Some(input))
  }

  /** The last-input update as written: every input except exactly '!' and '!!'. */
  function RecordAsWritten(ui: Ui, input: string): Ui
  {
    if input != "!" && input != "!!" then ui.(last := Some(input)) else ui
  }

  /** The last-input update as intended: every input that is not a re-run. */
  function Record(ui: Ui, input: string): Ui
  {
    if !IsRunLast(input) then ui.(last := Some(input)) else ui
  }

  /**
   * `gotInput` as written, with `fuel` bounding the nesting of re-runs;
   * None means the nesting did not end within `fuel` calls.
   */
  function GotInputAsWritten(ui: Ui, input: string, fuel: nat): Option<Ui>
    decreases fuel
  {
    if fuel == 0 then None
    else if IsRunLast(input) then
      var after :=
        if ui.last.Some? && !PhpEmpty(ui.last.value) then GotInputAsWritten(ui, ui.last.value, fuel - 1)
        else Some(ui);
      match after
      case None => None
      case Some(u) => Some(RecordAsWritten(u, input))
    else Some(RecordAsWritten(Perform(ui, input), input))
  }

  /** `gotInput` with the intended last-input update; otherwise the same. */
  function GotInput(ui: Ui, input: string, fuel: nat): Option<Ui>
    decreases fuel
  {
    if fuel == 0 then None
    else if IsRunLast(input) then
      var after :=
        if ui.last.Some? && !PhpEmpty(ui.last.value) then GotInput(ui, ui.last.value, fuel - 1)
        else Some(ui);
      match after
      case None => None
      case Some(u) => Some(Record(u, input))
    else Some(Record(Perform(ui, input), input))
  }

  /** The last input is never itself a re-run. */
  predicate WellRecorded(ui: Ui)
  {
    ui.last.Some? ==> !IsRunLast(ui.last.value)
  }

  lemma RunLastWords()
    ensures IsRunLast("!") && IsRunLast("!!") && IsRunLast("! ")
  {
    assert Words("!") == [""];
    assert "!!"[1..] == "!";
    SplitNoSep("!", ' ');
    assert "! "[1..] == [] + [' '] + [];
    SplitAfterPiece([], [], ' ');
  }

  /** Autorun's nested `!run` is the command whose one word is `run`. */
  lemma AutorunIsRun()
    ensures IsCommand("!run") && !IsRunLast("!run") && Words("!run") == ["run"]
  {
    assert "!run"[1..] == "run";
    SplitNoSep("run", ' ');
  }

  /** A plain line is queued for the VM and becomes the last input. */
  lemma PlainInputStored(ui: Ui, input: string)
    requires !IsCommand(input)
    ensures GotInput(ui, input, 1).Some?
    ensures GotInput(ui, input, 1).value.stored == ui.stored + [input]
    ensures GotInput(ui, input, 1).value.last == Some(input)
    ensures !ui.autorun ==> GotInput(ui, input, 1).value.commands == ui.commands
    ensures ui.autorun ==> GotInput(ui, input, 1).value.commands == ui.commands + [["run"]]
  {
  }

  /**
   * A command other than a re-run is dispatched as its words. Only `send`
   * touches the queue: it appends its first word and, with autorun on, is
   * followed by `run`.
   */
  lemma CommandDispatched(ui: Ui, input: string)
    requires IsCommand(input) && !IsRunLast(input)
    ensures GotInput(ui, input, 1).Some?
    ensures !Sends(Words(input)) ==> GotInput(ui, input, 1).value.commands == ui.commands + [Words(input)]
    ensures !Sends(Words(input)) ==> GotInput(ui, input, 1).value.stored == ui.stored
    ensures Sends(Words(input)) ==> GotInput(ui, input, 1).value.stored == ui.stored + [Words(input)[1]]
    ensures Sends(Words(input)) ==>
      GotInput(ui, input, 1).value.commands == ui.commands + [Words(input)] + (if ui.autorun then [["run"]] else [])
    ensures GotInput(ui, input, 1).value.last == Some(input)
  {
  }

  /** `!send <text> <more>` queues `text` alone: the line is cut at the first space after the text. */
  lemma SendQueuesFirstWord(ui: Ui, text: string, more: string)
    requires ' ' !in text
    ensures GotInput(ui, "!send " + text + [' '] + more, 1).Some?
    ensures GotInput(ui, "!send " + text + [' '] + more, 1).value.stored == ui.stored + [text]
  {
    var input := "!send " + text + [' '] + more;
    var rest := text + [' '] + more;
    SplitAfterPiece(text, more, ' ');
    SplitAfterPiece("send", rest, ' ');
    assert input[1..] == "send" + [' '] + rest;
    assert Words(input) == ["send"] + ([text] + Split(more, ' '));
    CommandDispatched(ui, input);
  }

  /** Every handled input keeps the last input free of re-runs. */
  lemma PerformWellRecorded(ui: Ui, input: string)
    requires !IsRunLast(input)
    ensures WellRecorded(Perform(ui, input))
    ensures Perform(ui, input).last == Some(input)
  {
  }

  /**
   * With the intended update, a re-run nests at most once: two calls deep
   * always suffice, and the last input stays free of re-runs.
   */
  lemma GotInputEnds(ui: Ui, input: string)
    requires WellRecorded(ui)
    ensures GotInput(ui, input, 2).Some?
    ensures WellRecorded(GotInput(ui, input, 2).value)
  {
    if IsRunLast(input) {
      if ui.last.Some? && !PhpEmpty(ui.last.value) {
        PerformWellRecorded(ui, ui.last.value);
      }
    } else {
      PerformWellRecorded(ui, input);
    }
  }

  /** With the intended update, '!' repeats the last input exactly as if it were typed again. */
  lemma RunLastRepeats(ui: Ui, line: string)
    requires ui.last == Some(line) && !IsRunLast(line) && !PhpEmpty(line)
    ensures GotInput(ui, "!", 2) == GotInput(ui, line, 1)
  {
    RunLastWords();
  }

  /** As written, the re-run command "! " is recorded as the last input. */
  lemma SpacedRunLastRecorded(ui: Ui)
    requires ui.last.None?
    ensures GotInputAsWritten(ui, "! ", 1) == Some(ui.(last := Some("! ")))
  {
    RunLastWords();
  }

  /** ... after which '!' re-runs "! ", which re-runs itself, and never ends. */
  lemma {:induction false} RunLastNeverEnds(ui: Ui, input: string, fuel: nat)
    requires ui.last == Some("! ")
    requires input == "!" || input == "! "
    ensures GotInputAsWritten(ui, input, fuel).None?
    decreases fuel
  {
    RunLastWords();
    if fuel > 0 {
      RunLastNeverEnds(ui, "! ", fuel - 1);
    }
  }
}
