/**
The console's pending prompt: one slot, driven by a stream of lines. A line answers
the open prompt, or is looked up while it stays open, or is an ordinary line.
*/
module ConsolePrompt {
  import opened Wrappers
  import opened Text
  import opened ConsoleLine

  datatype Prompt =
    | PersonaSelection(packDir: string, required: seq<string>, optional: seq<string>)
    | RevokeConfirmation(id: string)

  datatype Event =
    | Opened(prompt: Prompt)
    | Resolved(prompt: Prompt, reply: string)
    | Dispatched(line: string)
    | Turn(line: string)

  datatype Input = Line(text: string) | Eof

  /** What the handlers make of a dispatched line: whether a prompt is asked, whether the daemon stops. */
  datatype Handling = Handling(asks: Option<Prompt>, stops: bool)

  datatype Console = Console(pending: Option<Prompt>, stdinOpen: bool, running: bool, events: seq<Event>)

  const INITIAL := Console(None, true, true, [])

  predicate IsCommand(line: string) {
    "/" <= Trim(line)
  }

  /** The commands the loop handles itself; none of them stops the daemon. */
  predicate HasOwnHandler(line: string) {
    FirstToken(Trim(line)) in
      ["/backend", "/task", "/credential", "/extension", "/committee", "/proposal", "/schedule", "/auth"]
  }

  /** Only installing and revoking an extension ask something back. */
  predicate MayAsk(line: string) {
    FirstToken(Trim(line)) == "/extension" && FirstToken(ArgText(Trim(line))) in ["install", "revoke"]
  }

  /** The reply an open prompt gets from a line. */
  function Reply(line: string): string {
    if IsCommand(line) then "none" else line
  }

  /** What one dispatched command does. */
  function Dispatch(c: Console, line: string, h: Handling): Console {
    var asked := if MayAsk(line) then h.asks else None;
    c.(events := c.events + [Dispatched(line)] + (if asked.Some? then [Opened(asked.value)] else []),
       pending := if asked.Some? then asked else c.pending,
       running := HasOwnHandler(line) || !h.stops)
  }

  function Step(c: Console, input: Input, h: Handling): Console {
    if !c.running || !c.stdinOpen then c
    else if input.Eof? then c.(stdinOpen := false)
    else
      var line := input.text;
      if c.pending.Some? && !IsReadOnly(line) then
        c.(pending := None, events := c.events + [Resolved(c.pending.value, Reply(line))])
      else if Trim(line) == "" then c
      else if IsCommand(line) then Dispatch(c, line, h)
      else c.(events := c.events + [Turn(line)])
  }

  function Run(c: Console, inputs: seq<(Input, Handling)>): Console
    decreases inputs
  {
    if inputs == [] then c else Run(Step(c, inputs[0].0, inputs[0].1), inputs[1..])
  }

  class DaemonLoop {
    var pending: Option<Prompt>
    var stdinOpen: bool
    var running: bool
    var events: seq<Event>

    function Value(): Console
      reads this
    {
      Console(pending, stdinOpen, running, events)
    }

    constructor ()
      ensures Value() == INITIAL
    {
      pending, stdinOpen, running, events := None, true, true, [];
    }

    /** One iteration of the stdin arm. */
    method NextLine(input: Input, h: Handling)
      modifies this
      ensures Value() == Step(old(Value()), input, h)
      // a stopped loop and a closed input read nothing, and the end of input only closes it
      ensures !old(running) || !old(stdinOpen) ==> Value() == old(Value())
      ensures old(running) && old(stdinOpen) && input.Eof? ==> Value() == old(Value()).(stdinOpen := false)
      ensures input.Line? ==> stdinOpen == old(stdinOpen)
      // no prompt open: a blank line is nothing, a command is dispatched, any other line is a turn
      ensures old(running) && old(stdinOpen) && old(pending).None? && input.Line? ==>
                var line := Trim(input.text);
                if line == "" then Value() == old(Value())
                else if !("/" <= line) then Value() == old(Value()).(events := old(events) + [Turn(input.text)])
                else
                  // only an install or a revoke of an extension opens what its handler asks
                  var asked := if FirstToken(line) == "/extension" && FirstToken(ArgText(line)) in ["install", "revoke"]
                               then h.asks else None;
                  && pending == asked
                  && events == old(events) + [Dispatched(input.text)]
                               + (if asked.Some? then [Opened(asked.value)] else [])
      // a prompt is open: a lookup leaves it, any other line is its reply, a command counting as none
      ensures old(running) && old(stdinOpen) && old(pending).Some? && input.Line? ==>
                if IsReadOnly(input.text) then
                  pending == old(pending) && events == old(events) + [Dispatched(input.text)]
                else
                  var reply := if "/" <= Trim(input.text) then "none" else input.text;
                  Value() == Console(None, true, true, old(events) + [Resolved(old(pending).value, reply)])
      // it stops only by a dispatched command whose handler says so, and by none of the loop's own commands
      ensures old(running) ==> (!running <==>
                && old(stdinOpen) && input.Line? && (old(pending).None? || IsReadOnly(input.text))
                && "/" <= Trim(input.text) && h.stops && FirstToken(Trim(input.text)) !in
                     ["/backend", "/task", "/credential", "/extension",
                      "/committee", "/proposal", "/schedule", "/auth"])
    {
      hide FirstToken, IsReadOnly, ArgText, Trim, TrimBy;
      if input.Line? && IsReadOnly(input.text) {
        ReadOnlyNeverAsks(input.text);
        ReadOnlyIsCommand(input.text);
      }
      if !running || !stdinOpen { return; }
      match input {
        case Eof =>
          stdinOpen := false;
        case Line(line) =>
          if pending.Some? && !IsReadOnly(line) {
            var prompt := pending.value;
            pending := None;
            if IsCommand(line) {
              events := events + [Resolved(prompt, "none")];
            } else {
              events := events + [Resolved(prompt, line)];
            }
          } else if Trim(line) == "" {
            return;
          } else if IsCommand(line) {
            events := events + [Dispatched(line)];
            if !HasOwnHandler(line) && h.stops { running := false; }
            if MayAsk(line) && h.asks.Some? {
              events := events + [Opened(h.asks.value)];
              pending := h.asks;
            }
          } else {
            events := events + [Turn(line)];
          }
      }
    }
  }

  // ---- the protocol, told by the events alone -----------------------------------------------

  /** The slot after one event, or None if the event may not happen then. */
  function Judge(open: Option<Prompt>, e: Event): Option<Option<Prompt>> {
    match e
    case Opened(p) => if open == None then Some(Some(p)) else None
    case Resolved(p, _) => if open == Some(p) then Some(None) else None
    case Dispatched(line) => if open == None || IsReadOnly(line) then Some(open) else None
    case Turn(_) => if open == None then Some(open) else None
  }

  function JudgeAll(events: seq<Event>): Option<Option<Prompt>> {
    if events == [] then Some(None)
    else
      var before := JudgeAll(events[..|events| - 1]);
      if before.None? then None else Judge(before.value, events[|events| - 1])
  }

  lemma JudgeOneMore(events: seq<Event>, e: Event)
    ensures JudgeAll(events + [e]) == if JudgeAll(events).None? then None else Judge(JudgeAll(events).value, e)
  {
    assert (events + [e])[..|events|] == events;
  }

  /** A whitelisted line never opens a second prompt. */
  lemma ReadOnlyNeverAsks(line: string)
    requires IsReadOnly(line)
    ensures !MayAsk(line)
  {
    hide FirstToken, Rest, Gap, SpaceArg, ArgText;
    ReadOnlyChangesIff(line);
  }

  lemma StepIsOrderly(c: Console, input: Input, h: Handling)
    requires JudgeAll(c.events) == Some(c.pending)
    ensures var c' := Step(c, input, h); JudgeAll(c'.events) == Some(c'.pending)
  {
    hide IsReadOnly, MayAsk, JudgeAll;
    if c.running && c.stdinOpen && input.Line? {
      var line := input.text;
      if IsReadOnly(line) {
        ReadOnlyNeverAsks(line);
        ReadOnlyIsCommand(line);
      }
      if c.pending.Some? && !IsReadOnly(line) {
        JudgeOneMore(c.events, Resolved(c.pending.value, Reply(line)));
      } else if Trim(line) != "" {
        JudgeOneMore(c.events, Dispatched(line));
        JudgeOneMore(c.events, Turn(line));
        if h.asks.Some? { JudgeOneMore(c.events + [Dispatched(line)], Opened(h.asks.value)); }
        assert c.events + [Dispatched(line)] + [] == c.events + [Dispatched(line)];
      }
    }
  }

  lemma ReadOnlyIsCommand(line: string)
    requires IsReadOnly(line)
    ensures IsCommand(line)
  {
    var s := Trim(line);
    assert FirstToken(s) <= s;
    assert FirstToken(s)[0] == '/';
    assert s[0] == '/' && s[..1] == "/";
  }

  /**
  Over any lines and handler outcomes: a prompt opens only when none is open and
  is resolved only while it is the open one; between the two no line becomes a
  turn and only whitelisted lines are dispatched; and the slot holds exactly the
  prompt that is open.
  */
  lemma {:induction false} RunIsOrderly(c: Console, inputs: seq<(Input, Handling)>)
    requires JudgeAll(c.events) == Some(c.pending)
    ensures JudgeAll(Run(c, inputs).events) == Some(Run(c, inputs).pending)
    decreases inputs
  {
    if inputs != [] {
      StepIsOrderly(c, inputs[0].0, inputs[0].1);
      RunIsOrderly(Step(c, inputs[0].0, inputs[0].1), inputs[1..]);
    }
  }

  /** The messages that became turns. */
  function TurnsOf(events: seq<Event>): seq<string> {
    if events == [] then []
    else TurnsOf(events[..|events| - 1]) + if events[|events| - 1].Turn? then [events[|events| - 1].line] else []
  }

  /** The lines that are neither blank nor a command and are read while no prompt is open. */
  function PlainLines(c: Console, inputs: seq<(Input, Handling)>): seq<string>
    decreases inputs
  {
    if inputs == [] then []
    else
      var (input, h) := inputs[0];
      var plain := && c.running && c.stdinOpen && c.pending.None? && input.Line?
                   && Trim(input.text) != "" && !("/" <= Trim(input.text));
      (if plain then [input.text] else []) + PlainLines(Step(c, input, h), inputs[1..])
  }

  lemma StepAddsTurns(c: Console, input: Input, h: Handling)
    ensures TurnsOf(Step(c, input, h).events) == TurnsOf(c.events) + PlainLines(c, [(input, h)])
  {
    hide IsReadOnly, MayAsk, HasOwnHandler, Trim, TurnsOf;
    assert [(input, h)][1..] == [];
    assert TurnsOf(c.events) + [] == TurnsOf(c.events);
    if c.running && c.stdinOpen && input.Line? {
      var line := input.text;
      if c.pending.Some? { OneMoreTurn(c.events, Resolved(c.pending.value, Reply(line))); }
      OneMoreTurn(c.events, Dispatched(line));
      OneMoreTurn(c.events, Turn(line));
      if h.asks.Some? { OneMoreTurn(c.events + [Dispatched(line)], Opened(h.asks.value)); }
      assert c.events + [Dispatched(line)] + [] == c.events + [Dispatched(line)];
      if IsReadOnly(line) { ReadOnlyIsCommand(line); }
    }
  }

  lemma OneMoreTurn(events: seq<Event>, e: Event)
    ensures TurnsOf(events + [e]) == TurnsOf(events) + if e.Turn? then [e.line] else []
  {
    assert (events + [e])[..|events|] == events;
  }

  /**
  Over any run: the turns are exactly the lines, neither blank nor commands,
  that were read while no prompt was open, in their order.
  */
  lemma {:induction false} TurnsAreThePlainLines(c: Console, inputs: seq<(Input, Handling)>)
    ensures TurnsOf(Run(c, inputs).events) == TurnsOf(c.events) + PlainLines(c, inputs)
    decreases inputs
  {
    hide Step, TurnsOf;
    if inputs == [] {
      assert TurnsOf(c.events) + [] == TurnsOf(c.events);
    } else {
      var (input, h) := inputs[0];
      StepAddsTurns(c, input, h);
      TurnsAreThePlainLines(Step(c, input, h), inputs[1..]);
      assert [inputs[0]][1..] == [];
      var first, rest := PlainLines(c, [inputs[0]]), PlainLines(Step(c, input, h), inputs[1..]);
      assert PlainLines(c, inputs) == first + rest;
      assert TurnsOf(c.events) + first + rest == TurnsOf(c.events) + (first + rest);
    }
  }

  function CountOpened(events: seq<Event>): nat {
    if events == [] then 0
    else CountOpened(events[..|events| - 1]) + if events[|events| - 1].Opened? then 1 else 0
  }

  function CountResolved(events: seq<Event>): nat {
    if events == [] then 0
    else CountResolved(events[..|events| - 1]) + if events[|events| - 1].Resolved? then 1 else 0
  }

  lemma {:induction false} OrderlyConserves(events: seq<Event>)
    requires JudgeAll(events).Some?
    ensures CountOpened(events) == CountResolved(events) + if JudgeAll(events).value.Some? then 1 else 0
  {
    if events != [] { OrderlyConserves(events[..|events| - 1]); }
  }

  /** Every prompt that was opened is resolved once, except the one still open. */
  lemma PromptsAreConserved(inputs: seq<(Input, Handling)>)
    ensures var c := Run(INITIAL, inputs);
            CountOpened(c.events) == CountResolved(c.events) + if c.pending.Some? then 1 else 0
  {
    RunIsOrderly(INITIAL, inputs);
    OrderlyConserves(Run(INITIAL, inputs).events);
  }

  // ---- which line answers -----------------------------------------------------------------------

  /** The whitelisted lines at the front, and no end of input among them. */
  function Lookups(inputs: seq<(Input, Handling)>): (n: nat)
    ensures n <= |inputs|
  {
    if inputs != [] && inputs[0].0.Line? && IsReadOnly(inputs[0].0.text) then 1 + Lookups(inputs[1..]) else 0
  }

  /** One lookup: dispatched, and the prompt stays. */
  lemma LookupKeepsPrompt(c: Console, line: string, h: Handling)
    requires c.pending.Some? && c.running && c.stdinOpen && IsReadOnly(line)
    ensures var c' := Step(c, Line(line), h);
            c'.pending == c.pending && c'.stdinOpen && c'.events == c.events + [Dispatched(line)]
  {
    hide IsReadOnly, MayAsk;
    ReadOnlyNeverAsks(line);
    ReadOnlyIsCommand(line);
  }

  /** The dispatches of the first n inputs. */
  function DispatchesOf(inputs: seq<(Input, Handling)>, n: nat): seq<Event>
    requires n <= Lookups(inputs)
  {
    if n == 0 then [] else [Dispatched(inputs[0].0.text)] + DispatchesOf(inputs[1..], n - 1)
  }

  /**
  An open prompt survives every lookup, each of which is dispatched and nothing
  else, as long as the daemon runs.
  */
  lemma {:induction false} PromptSurvivesLookups(c: Console, inputs: seq<(Input, Handling)>, n: nat)
    requires c.pending.Some? && c.running && c.stdinOpen && n <= Lookups(inputs)
    requires Run(c, inputs[..n]).running
    ensures var c' := Run(c, inputs[..n]);
            c'.pending == c.pending && c'.stdinOpen && c'.events == c.events + DispatchesOf(inputs, n)
    decreases n
  {
    hide Step, IsReadOnly, Run;
    RunFront(c, inputs, n);
    if n > 0 {
      var line, h := inputs[0].0.text, inputs[0].1;
      var c1 := Step(c, Line(line), h);
      LookupKeepsPrompt(c, line, h);
      if !c1.running { StoppedStays(c1, inputs[1..][..n - 1]); }
      PromptSurvivesLookups(c1, inputs[1..], n - 1);
      Regroup(c.events, [Dispatched(line)], DispatchesOf(inputs[1..], n - 1));
    } else {
      assert c.events + [] == c.events;
    }
  }

  lemma RunFront(c: Console, inputs: seq<(Input, Handling)>, n: nat)
    requires n <= |inputs|
    ensures Run(c, inputs[..n]) == if n == 0 then c else Run(Step(c, inputs[0].0, inputs[0].1), inputs[1..][..n - 1])
  {
    hide Step;
    if n > 0 { assert inputs[..n][1..] == inputs[1..][..n - 1] && inputs[..n][0] == inputs[0]; }
  }

  lemma Regroup(a: seq<Event>, b: seq<Event>, c: seq<Event>)
    ensures a + b + c == a + (b + c)
  {
  }

  lemma {:induction false} StoppedStays(c: Console, inputs: seq<(Input, Handling)>)
    requires !c.running || !c.stdinOpen
    ensures Run(c, inputs) == c
    decreases inputs
  {
    if inputs != [] { StoppedStays(c, inputs[1..]); }
  }

  /**
  An open prompt is answered by exactly the next line that is not a lookup, an
  empty one included: the whole line is the reply, or `none` if it is a command,
  and the line itself is neither dispatched nor a turn.
  */
  lemma NextOtherLineAnswers(c: Console, inputs: seq<(Input, Handling)>)
    requires c.pending.Some? && c.running && c.stdinOpen
    requires var n := Lookups(inputs); n < |inputs| && inputs[n].0.Line? && Run(c, inputs[..n]).running
    ensures var n := Lookups(inputs);
            var c' := Run(c, inputs[..n + 1]);
            && c'.pending == None
            && c'.events == c.events + DispatchesOf(inputs, n) + [Resolved(c.pending.value, Reply(inputs[n].0.text))]
  {
    hide Step, IsReadOnly, Reply;
    var n := Lookups(inputs);
    PromptSurvivesLookups(c, inputs, n);
    LookupsStop(inputs);
    RunAppends(c, inputs[..n], inputs[n]);
    AnswerResolves(Run(c, inputs[..n]), inputs[n].0.text, inputs[n].1);
    assert inputs[..n] + [inputs[n]] == inputs[..n + 1];
  }

  /** Any other line takes the prompt and is its answer. */
  lemma AnswerResolves(c: Console, line: string, h: Handling)
    requires c.pending.Some? && c.running && c.stdinOpen && !IsReadOnly(line)
    ensures Step(c, Line(line), h) == c.(pending := None, events := c.events + [Resolved(c.pending.value, Reply(line))])
  {
  }

  lemma {:induction false} LookupsStop(inputs: seq<(Input, Handling)>)
    ensures var n := Lookups(inputs); n < |inputs| && inputs[n].0.Line? ==> !IsReadOnly(inputs[n].0.text)
  {
    if inputs != [] && inputs[0].0.Line? && IsReadOnly(inputs[0].0.text) { LookupsStop(inputs[1..]); }
  }

  lemma {:induction false} RunAppends(c: Console, inputs: seq<(Input, Handling)>, last: (Input, Handling))
    ensures Run(c, inputs + [last]) == Step(Run(c, inputs), last.0, last.1)
    decreases inputs
  {
    hide Step;
    if inputs == [] {
      assert ([] + [last])[1..] == [];
    } else {
      RunAppends(Step(c, inputs[0].0, inputs[0].1), inputs[1..], last);
      assert (inputs + [last])[1..] == inputs[1..] + [last];
    }
  }
}
