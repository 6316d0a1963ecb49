/**
 * The interactive session of redis-cli.go: the output mode and database
 * number it keeps, the address and prompt it shows, one round of the
 * read-dispatch loop, the `mode` command, what is printed for a server
 * response (the `select` command updating the database number), and the
 * tab completer. The server's response is a parameter: the network client
 * is not part of this model.
 */
module Cli {
  import opened Options
  import opened Strings
  import opened Format
  import opened Replies
  import opened Tokenizer
  import opened History

  /** What `switchMode` prints when its argument is not usable, newline included */
  const Usage: string := "invalid args. Should be MODE [raw|std]\n"

  /** What `clear` prints (to standard error) */
  const ClearHint: string := "Please use Ctrl + L instead\n"

  // ---------------------------------------------------------------- address

  /** `addr()`: the socket path when one is given, otherwise `host:port` */
  function AddrOf(hostname: string, port: string, socket: string): (r: string)
    ensures |socket| > 0 ==> r == socket
    ensures |socket| == 0 ==> HasPrefix(r, hostname) && |r| == |hostname| + 1 + |port| && r[|hostname|] == ':'
  {
    if |socket| > 0 then socket else hostname + ":" + port
  }

  /** An address split at its first colon: the inverse of `host:port` */
  function SplitHostPort(a: string): (string, string)
  {
    if a == [] then ("", "")
    else if a[0] == ':' then ("", a[1..])
    else
      var (h, p) := SplitHostPort(a[1..]);
      ([a[0]] + h, p)
  }

  lemma {:induction false} SplitAfterHost(h: string, rest: string)
    requires ':' !in h
    ensures SplitHostPort(h + ":" + rest) == (h, rest)
    decreases |h|
  {
    if h == [] {
      assert h + ":" + rest == ":" + rest;
      assert (":" + rest)[1..] == rest;
    } else {
      assert (h + ":" + rest)[1..] == h[1..] + ":" + rest;
      SplitAfterHost(h[1..], rest);
      assert [h[0]] + h[1..] == h;
    }
  }

  /** Without a socket, the address gives back the host and the port, provided the host has no colon. */
  lemma AddrRoundTrip(hostname: string, port: string, socket: string)
    requires socket == [] && ':' !in hostname
    ensures SplitHostPort(AddrOf(hostname, port, socket)) == (hostname, port)
  {
    SplitAfterHost(hostname, port);
  }

  // ----------------------------------------------------------------- prompt

  /** The prompt of the read loop: the database number shows only when it is 1 to 15. */
  function PromptFor(addr: string, dbn: int64): (p: string)
    ensures HasPrefix(p, addr) && HasSuffix(p, "> ")
  {
    if 0 < dbn < 16 then addr + "[" + Decimal(dbn as int) + "]> " else addr + "> "
  }

  /**
   * A prompt differs from the bare `addr> ` exactly when the number is in
   * 1..15, and then the number reads back from between the brackets.
   */
  lemma PromptShape(addr: string, dbn: int64)
    ensures 0 < dbn < 16 <==> PromptFor(addr, dbn) != addr + "> "
    ensures 0 < dbn < 16 ==>
      var p := PromptFor(addr, dbn);
      |p| >= |addr| + 4 && p[|addr|] == '[' && p[|p| - 3..] == "]> " && Atoi(p[|addr| + 1..|p| - 3]) == dbn
  {
    var p := PromptFor(addr, dbn);
    if 0 < dbn < 16 {
      var d := Decimal(dbn as int);
      assert p == addr + "[" + d + "]> ";
      assert p[|addr| + 1..|p| - 3] == d;
      AtoiOfDecimal(dbn);
    }
  }

  // ------------------------------------------------------ dispatch of a line

  datatype Command = HelpCmd | QuitCmd | ClearCmd | ModeCmd | ServerCmd

  /** How the read loop treats a line by its first token, in any case */
  function Classify(first: string): (c: Command)
    ensures c == HelpCmd <==> ToLower(first) == "help" || ToLower(first) == "?"
    ensures c == QuitCmd <==> ToLower(first) == "quit" || ToLower(first) == "exit"
    ensures c == ClearCmd <==> ToLower(first) == "clear"
    ensures c == ModeCmd <==> ToLower(first) == "mode"
  {
    var c := ToLower(first);
    if c == "help" || c == "?" then HelpCmd
    else if c == "quit" || c == "exit" then QuitCmd
    else if c == "clear" then ClearCmd
    else if c == "mode" then ModeCmd
    else ServerCmd
  }

  /** The dispatch does not depend on the case the command is typed in. */
  lemma ClassifyIgnoresCase(first: string)
    ensures Classify(ToUpper(first)) == Classify(first)
    ensures Classify(ToLower(first)) == Classify(first)
  {
    LowerIgnoresCase(first);
  }

  /** The mode `switchMode` selects for its arguments, if they name one */
  function ModeArg(args: seq<string>): (m: Option<int>)
    ensures m.Some? ==> m.value == StdMode || m.value == RawMode
    ensures m.Some? ==> |args| == 1
  {
    if |args| != 1 then None
    else
      var m := ToLower(args[0]);
      if m == "std" then Some(StdMode)
      else if m == "raw" then Some(RawMode)
      else None
  }

  /**
   * `mode` takes exactly one argument, `raw` or `std` in any case; anything
   * else selects nothing.
   */
  lemma ModeArgCases(args: seq<string>)
    ensures ModeArg(args) == Some(RawMode) <==> |args| == 1 && ToLower(args[0]) == "raw"
    ensures ModeArg(args) == Some(StdMode) <==> |args| == 1 && ToLower(args[0]) == "std"
    ensures ModeArg(args).None? <==> |args| != 1 || (ToLower(args[0]) != "raw" && ToLower(args[0]) != "std")
  {
  }

  /** Changing the case of the argument does not change the mode selected. */
  lemma ModeArgIgnoresCase(a: string)
    ensures ModeArg([ToUpper(a)]) == ModeArg([a])
  {
    LowerIgnoresCase(a);
  }

  // --------------------------------------------------- a forwarded command

  /** What the server answered: a reply, or the error the client returned */
  datatype Response = Ok(reply: Reply) | Failed(message: string)

  /** What `cliSendCommand` returns and prints, or the panic of `cmds[1]` */
  datatype Sent = Output(status: int, text: string) | IndexPanic

  /** `printInfo`: bytes verbatim, an error with its tag, anything else nothing */
  function InfoText(r: Reply): (t: string)
    ensures t != "" ==> r.Bytes? || r.Err?
    ensures r.Bytes? ==> t == r.b
    ensures r.Err? ==> HasPrefix(t, "(error) ") && t[8..] == r.msg
  {
    match r
    case Bytes(b) => b
    case Err(m) => "(error) " + m
    case _ => ""
  }

  /** The status and output of `cliSendCommand(cmds)` when the server answers `resp` */
  function SendResult(cmds: seq<string>, resp: Response, mode: int): (s: Sent)
    ensures s.IndexPanic? <==> cmds != [] && resp.Ok? && ToLower(cmds[0]) == "select" && |cmds| < 2
    ensures s.Output? ==> (s.status == -1 <==> cmds != [] && resp.Failed?)
    ensures s.Output? ==> s.status == 0 || s.status == -1
    ensures s.Output? && cmds != [] ==> HasSuffix(s.text, "\n")
  {
    if cmds == [] then Output(0, "")
    else
      var cmd := ToLower(cmds[0]);
      match resp
      case Failed(m) => Output(-1, "(error) " + m + "\n")
      case Ok(r) =>
        if cmd == "select" && |cmds| < 2 then IndexPanic
        else Output(0, (if cmd == "info" then InfoText(r) else Render(0, r, mode)) + "\n")
  }

  /** The database number after `cliSendCommand(cmds)`: only a successful `select` sets it. */
  function NextDbn(cmds: seq<string>, resp: Response, dbn: int64): (d: int64)
    ensures resp.Ok? && |cmds| >= 2 && ToLower(cmds[0]) == "select" ==> d == Atoi(cmds[1])
    ensures d != dbn ==> resp.Ok? && |cmds| >= 2 && ToLower(cmds[0]) == "select" && d == Atoi(cmds[1])
  {
    if cmds != [] && resp.Ok? && ToLower(cmds[0]) == "select" && |cmds| >= 2 then Atoi(cmds[1])
    else dbn
  }

  /** After a successful `select <k>` the database number is `k`. */
  lemma SelectSetsDbn(cmds: seq<string>, resp: Response, dbn: int64, k: int64)
    requires resp.Ok? && |cmds| >= 2 && ToLower(cmds[0]) == "select" && cmds[1] == Decimal(k as int)
    ensures NextDbn(cmds, resp, dbn) == k
    ensures SendResult(cmds, resp, StdMode) == Output(0, StdRender(0, resp.reply) + "\n")
  {
    AtoiOfDecimal(k);
  }

  /**
   * The parse error is dropped: a successful `select` whose argument is not
   * a number moves to database 0, whatever the number was before.
   */
  lemma SelectOfNonNumberIsZero(cmds: seq<string>, resp: Response, dbn: int64)
    requires resp.Ok? && |cmds| >= 2 && ToLower(cmds[0]) == "select"
    requires !DecimalText(cmds[1]) && !Overflows(cmds[1])
    ensures NextDbn(cmds, resp, dbn) == 0
  {
  }

  /** `select abc` after database 3 moves to database 0. */
  lemma SelectAbcExample(cmds: seq<string>, dbn: int64)
    requires cmds == ["select", "abc"] && dbn == 3
    ensures NextDbn(cmds, Ok(Nil), dbn) == 0
  {
    var a := cmds[1];
    assert !IsDigit(a[0]);
    assert LeadingDigits(a) == [];
    SelectOfNonNumberIsZero(cmds, Ok(Nil), dbn);
  }

  /** ... and the next prompt shows it when it is 1 to 15, and hides it otherwise. */
  lemma SelectShowsInPrompt(addr: string, cmds: seq<string>, resp: Response, dbn: int64, k: int64)
    requires resp.Ok? && |cmds| >= 2 && ToLower(cmds[0]) == "select" && cmds[1] == Decimal(k as int)
    ensures 0 < k < 16 ==> PromptFor(addr, NextDbn(cmds, resp, dbn)) == addr + "[" + cmds[1] + "]> "
    ensures !(0 < k < 16) ==> PromptFor(addr, NextDbn(cmds, resp, dbn)) == addr + "> "
  {
    SelectSetsDbn(cmds, resp, dbn, k);
  }

  /**
   * A failed command prints the error and keeps the database number; so does
   * every command other than `select`; a successful command other than
   * `select` and `info` prints its reply in the current mode.
   */
  lemma SendOutcomes(cmds: seq<string>, resp: Response, mode: int, dbn: int64)
    requires |cmds| > 0
    ensures resp.Failed? ==>
      NextDbn(cmds, resp, dbn) == dbn && SendResult(cmds, resp, mode) == Output(-1, "(error) " + resp.message + "\n")
    ensures ToLower(cmds[0]) != "select" ==> NextDbn(cmds, resp, dbn) == dbn
    ensures (resp.Ok? && ToLower(cmds[0]) != "select" && ToLower(cmds[0]) != "info") ==>
      SendResult(cmds, resp, mode) == Output(0, Render(0, resp.reply, mode) + "\n")
  {
  }

  /** What one round of the read loop does with the line it read */
  datatype Step =
    | Reprompt                  // nothing but whitespace was typed
    | ShowHelp(cmds: seq<string>)
    | Quit
    | Printed(text: string)
    | Forwarded(sent: Sent)

  // ---------------------------------------------------------------- session

  class Session {
    /** stdMode or rawMode */
    var mode: int
    /** the database number shown in the prompt */
    var dbn: int64
    /** the entries handed to the line editor's history, oldest first */
    var history: seq<string>
    const hostname: string
    const port: string
    const socket: string

    predicate Valid()
      reads this
    {
      mode == StdMode || mode == RawMode
    }

    /** The session `main` starts: the `-raw` flag picks the mode. */
    constructor(hostname: string, port: string, socket: string, dbn: int64, outputRaw: bool)
      ensures this.hostname == hostname && this.port == port && this.socket == socket
      ensures this.dbn == dbn && history == []
      ensures mode == (if outputRaw then RawMode else StdMode)
      ensures Valid()
    {
      this.hostname := hostname;
      this.port := port;
      this.socket := socket;
      this.dbn := dbn;
      history := [];
      mode := if outputRaw then RawMode else StdMode;
    }

    function Addr(): string
    {
      AddrOf(hostname, port, socket)
    }

    function Prompt(): string
      reads this
    {
      PromptFor(Addr(), dbn)
    }

    /** `switchMode(args)`: the mode is set when the arguments name one; otherwise the usage is printed. */
    method SwitchMode(args: seq<string>) returns (out: string)
      requires Valid()
      modifies this
      ensures ModeArg(args).Some? ==> mode == ModeArg(args).value && out == ""
      ensures ModeArg(args).None? ==> mode == old(mode) && out == Usage
      ensures dbn == old(dbn) && history == old(history)
      ensures Valid()
    {
      out := "";
      if |args| != 1 {
        out := Usage;
        return;
      }
      var m := ToLower(args[0]);
      if m != "raw" && m != "std" {
        out := Usage;
        return;
      }
      if m == "std" {
        mode := StdMode;
      } else if m == "raw" {
        mode := RawMode;
      }
    }

    /** `cliSendCommand(cmds)` after the server has answered `resp` */
    method SendCommand(cmds: seq<string>, resp: Response) returns (s: Sent)
      requires Valid()
      modifies this
      ensures s == SendResult(cmds, resp, mode)
      ensures dbn == NextDbn(cmds, resp, old(dbn))
      ensures mode == old(mode) && history == old(history)
      ensures Valid()
    {
      if |cmds| == 0 {
        return Output(0, "");
      }
      var cmd := ToLower(cmds[0]);
      if resp.Ok? && cmd == "select" {
        if |cmds| < 2 {
          return IndexPanic;
        }
        dbn := Atoi(cmds[1]);
      }
      if resp.Failed? {
        return Output(-1, "(error) " + resp.message + "\n");
      }
      var text: string;
      if cmd == "info" {
        text := InfoText(resp.reply);
      } else {
        text := Render(0, resp.reply, mode);
      }
      s := Output(0, text + "\n");
    }

    /** The dispatch of `repl` on the first of the tokens `cmds` */
    method Dispatch(cmds: seq<string>, resp: Response) returns (step: Step)
      requires Valid() && cmds != []
      modifies this
      ensures history == old(history)
      ensures Classify(cmds[0]) == HelpCmd ==> step == ShowHelp(cmds) && mode == old(mode) && dbn == old(dbn)
      ensures Classify(cmds[0]) == QuitCmd ==> step == Quit && mode == old(mode) && dbn == old(dbn)
      ensures Classify(cmds[0]) == ClearCmd ==> step == Printed(ClearHint) && mode == old(mode) && dbn == old(dbn)
      ensures Classify(cmds[0]) == ModeCmd ==>
        var arg := ModeArg(cmds[1..]);
        step == Printed(if arg.Some? then "" else Usage)
        && mode == (if arg.Some? then arg.value else old(mode)) && dbn == old(dbn)
      ensures Classify(cmds[0]) == ServerCmd ==>
        step == Forwarded(SendResult(cmds, resp, old(mode)))
        && mode == old(mode) && dbn == NextDbn(cmds, resp, old(dbn))
      ensures Valid()
    {
      match Classify(cmds[0])
      case HelpCmd =>
        step := ShowHelp(cmds);
      case QuitCmd =>
        step := Quit;
      case ClearCmd =>
        step := Printed(ClearHint);
      case ModeCmd =>
        var out := SwitchMode(cmds[1..]);
        step := Printed(out);
      case ServerCmd =>
        var sent := SendCommand(cmds, resp);
        step := Forwarded(sent);
    }

    /**
     * One round of `repl` after the prompt returned `input`: tokenize, record
     * the masked line in the history, and dispatch on the first token.
     */
    method HandleLine(input: string, resp: Response) returns (step: Step)
      requires Valid()
      modifies this
      ensures Tokens(input) == [] ==>
        step == Reprompt && mode == old(mode) && dbn == old(dbn) && history == old(history)
      ensures Tokens(input) != [] ==> history == old(history) + [HistoryLine(Tokens(input))]
      ensures Tokens(input) != [] && Classify(Tokens(input)[0]) == HelpCmd ==>
        step == ShowHelp(Tokens(input)) && mode == old(mode) && dbn == old(dbn)
      ensures Tokens(input) != [] && Classify(Tokens(input)[0]) == QuitCmd ==>
        step == Quit && mode == old(mode) && dbn == old(dbn)
      ensures Tokens(input) != [] && Classify(Tokens(input)[0]) == ClearCmd ==>
        step == Printed(ClearHint) && mode == old(mode) && dbn == old(dbn)
      ensures Tokens(input) != [] && Classify(Tokens(input)[0]) == ModeCmd ==>
        var arg := ModeArg(Tokens(input)[1..]);
        step == Printed(if arg.Some? then "" else Usage)
        && mode == (if arg.Some? then arg.value else old(mode)) && dbn == old(dbn)
      ensures Tokens(input) != [] && Classify(Tokens(input)[0]) == ServerCmd ==>
        step == Forwarded(SendResult(Tokens(input), resp, old(mode)))
        && mode == old(mode) && dbn == NextDbn(Tokens(input), resp, old(dbn))
      ensures Valid()
    {
      var cmds := Tokens(input);
      if |cmds| == 0 {
        return Reprompt;
      }
      var entry := AppendTokens(cmds);
      history := history + [entry];
      step := Dispatch(cmds, resp);
    }
  }

  // -------------------------------------------------------------- completer

  /** The completer: the table's names, in table order, that start with the upper-cased input */
  function Completions(names: seq<string>, input: string): (c: seq<string>)
    ensures |c| <= |names|
    ensures forall x :: x in c <==> x in names && HasPrefix(x, ToUpper(input))
  {
    if names == [] then []
    else (if HasPrefix(names[0], ToUpper(input)) then [names[0]] else []) + Completions(names[1..], input)
  }

  lemma {:induction false} CompletionsSnoc(names: seq<string>, x: string, input: string)
    ensures Completions(names + [x], input)
      == Completions(names, input) + (if HasPrefix(x, ToUpper(input)) then [x] else [])
    decreases |names|
  {
    if names == [] {
      assert [] + [x] == [x];
    } else {
      assert (names + [x])[1..] == names[1..] + [x];
      CompletionsSnoc(names[1..], x, input);
    }
  }

  /** The candidates keep the order of the table. */
  lemma {:induction false} CompletionsInOrder(names: seq<string>, input: string)
    ensures IsSubsequence(Completions(names, input), names)
    decreases |names|
  {
    if names != [] {
      CompletionsInOrder(names[1..], input);
      if !HasPrefix(names[0], ToUpper(input)) {
        assert Completions(names, input) == Completions(names[1..], input);
        SubsequenceOfTail(Completions(names, input), names);
      }
    }
  }

  /** An empty line completes to the whole table. */
  lemma {:induction false} CompletionsOfEmptyInput(names: seq<string>)
    ensures Completions(names, "") == names
    decreases |names|
  {
    if names != [] {
      CompletionsOfEmptyInput(names[1..]);
    }
  }

  /** The completer ignores the case of what was typed. */
  lemma CompletionsIgnoreCase(names: seq<string>, input: string)
    ensures Completions(names, ToLower(input)) == Completions(names, input)
  {
    UpperIgnoresCase(input);
  }

  /** The completer closure of `setCompletionHandler`, appending match by match */
  method Complete(names: seq<string>, input: string) returns (c: seq<string>)
    ensures c == Completions(names, input)
  {
    var upper := ToUpper(input);
    c := [];
    for i := 0 to |names|
      invariant c == Completions(names[..i], input)
    {
      CompletionsSnoc(names[..i], names[i], input);
      assert names[..i + 1] == names[..i] + [names[i]];
      if HasPrefix(names[i], upper) {
        c := c + [names[i]];
      }
    }
    assert names[..|names|] == names;
  }
}
