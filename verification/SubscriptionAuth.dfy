/**
The subscription service: connect, resolve and disconnect as sequences of calls
that other operations and fence moves may interleave with.
*/
module SubscriptionAuth {
  import opened Wrappers
  import opened ProviderAuth

  /** Who may spend credentials upstream; a primary's fence says whether it is still the current one. */
  datatype Authority = Standalone | Node | Primary(current: bool)

  predicate MayRefresh(a: Authority) {
    a.Standalone? || (a.Primary? && a.current)
  }

  datatype Op =
    | Connect(reference: AuthRef, title: string)
    | Resolve(reference: AuthRef, model: string)
    | Disconnect(reference: AuthRef)

  datatype Failure = UnknownProvider | Refused | FailedAt(stage: Stage)

  /** The call an operation is about to make. */
  datatype Stage =
    | Login | Approve | Refresh | Label | Read  // connect
    | Build                                     // resolve, after Refresh
    | Revoke | Forget | Unlabel                 // disconnect
    | Done(result: Result<(), Failure>)

  /** The calls that reach the vendor. */
  predicate IsUpstream(s: Stage) {
    s.Login? || s.Approve? || s.Refresh? || s.Revoke?
  }

  /** Lookup and fence check happen at once, before the first await. */
  function First(connectors: set<string>, authority: Authority, op: Op): Stage {
    var registered := op.reference.provider in connectors;
    if op.Disconnect? then
      if !registered then Unlabel else if MayRefresh(authority) then Revoke else Forget
    else if !registered then Done(Err(UnknownProvider))
    else if !MayRefresh(authority) then Done(Err(Refused))
    else if op.Connect? then Login
    else Refresh
  }

  /** What follows when the call of a stage ends; a failed revocation is only logged. */
  function Next(op: Op, stage: Stage, ok: bool): Stage
    requires !stage.Done?
  {
    if !ok && !stage.Revoke? then Done(Err(FailedAt(stage)))
    else
      match stage
      case Login => Approve
      case Approve => Refresh
      case Refresh => if op.Connect? then Label else Build
      case Label => Read
      case Read => Done(Ok(()))
      case Build => Done(Ok(()))
      case Revoke => Forget
      case Forget => Unlabel
      case Unlabel => Done(Ok(()))
  }

  /** What a call does to the label table. */
  function Labelled(labels: map<AuthRef, string>, op: Op, stage: Stage, ok: bool): map<AuthRef, string> {
    if ok && stage.Label? && op.Connect? then labels[op.reference := op.title]
    else if ok && stage.Unlabel? then labels - {op.reference}
    else labels
  }

  // ---- interleaved operations ------------------------------------------------------------

  datatype Thread = Thread(op: Op, stage: Stage)

  datatype Event =
    | Began(id: nat, op: Op, open: bool)
    | Ran(id: nat, op: Op, stage: Stage, ok: bool, open: bool)

  datatype Service = Service(
    authority: Authority, labels: map<AuthRef, string>, threads: seq<Thread>, history: seq<Event>)

  datatype Action = Begin(op: Op) | Advance(id: nat, ok: bool) | MoveFence(current: bool)

  function Step(connectors: set<string>, s: Service, a: Action): Service {
    match a
    case Begin(op) =>
      s.(threads := s.threads + [Thread(op, First(connectors, s.authority, op))],
         history := s.history + [Began(|s.threads|, op, MayRefresh(s.authority))])
    case MoveFence(current) =>
      if s.authority.Primary? then s.(authority := Primary(current)) else s
    case Advance(id, ok) =>
      if id >= |s.threads| || s.threads[id].stage.Done? then s
      else
        var t := s.threads[id];
        s.(labels := Labelled(s.labels, t.op, t.stage, ok),
           threads := s.threads[id := t.(stage := Next(t.op, t.stage, ok))],
           history := s.history + [Ran(id, t.op, t.stage, ok, MayRefresh(s.authority))])
  }

  function Run(connectors: set<string>, s: Service, actions: seq<Action>): Service
    decreases actions
  {
    if actions == [] then s else Run(connectors, Step(connectors, s, actions[0]), actions[1..])
  }

  function Fresh(authority: Authority): Service {
    Service(authority, map[], [], [])
  }

  // ---- the fence, per operation -------------------------------------------------------------

  /** Every vendor call belongs to an operation that began, earlier, with the gate open. */
  predicate FenceHeld(history: seq<Event>) {
    forall i | 0 <= i < |history| && history[i].Ran? && IsUpstream(history[i].stage) ::
      Began(history[i].id, history[i].op, true) in history[..i]
  }

  /** An operation begins once. */
  predicate BegunOnce(history: seq<Event>) {
    forall i, j | 0 <= i < j < |history| && history[i].Began? && history[j].Began? :: history[i].id != history[j].id
  }

  predicate Did(history: seq<Event>, id: nat, stage: Stage) {
    exists i | 0 <= i < |history| ::
      history[i].Ran? && history[i].id == id && history[i].stage == stage && history[i].ok
  }

  /** The calls that must have succeeded before an operation reaches a stage. */
  function Needs(connectors: set<string>, op: Op, stage: Stage): set<Stage> {
    match op
    case Connect(_, _) =>
      (match stage
       case Approve => {Login}
       case Refresh => {Login, Approve}
       case Label => {Login, Approve, Refresh}
       case Read => {Login, Approve, Refresh, Label}
       case Done(Ok(_)) => {Login, Approve, Refresh, Label, Read}
       case _ => {})
    case Resolve(_, _) => if stage.Build? then {Refresh} else if stage == Done(Ok(())) then {Refresh, Build} else {}
    case Disconnect(r) =>
      var forgotten := if r.provider in connectors then {Forget} else {};
      if stage.Unlabel? then forgotten else if stage == Done(Ok(())) then forgotten + {Unlabel} else {}
  }

  predicate BelongsTo(op: Op, stage: Stage) {
    stage.Done? || match op
                   case Connect(_, _) => stage in {Login, Approve, Refresh, Label, Read}
                   case Resolve(_, _) => stage in {Refresh, Build}
                   case Disconnect(_) => stage in {Revoke, Forget, Unlabel}
  }

  /** No call runs before the calls it depends on succeeded. */
  predicate Ordered(connectors: set<string>, history: seq<Event>) {
    forall i, st | 0 <= i < |history| && history[i].Ran? && st in Needs(connectors, history[i].op, history[i].stage) ::
      Did(history[..i], history[i].id, st)
  }

  predicate ThreadExplained(connectors: set<string>, history: seq<Event>, id: nat, t: Thread) {
    && BelongsTo(t.op, t.stage)
    && (IsUpstream(t.stage) ==> Began(id, t.op, true) in history)
    && forall st | st in Needs(connectors, t.op, t.stage) :: Did(history, id, st)
  }

  predicate Known(s: Service) {
    forall i | 0 <= i < |s.history| :: s.history[i].id < |s.threads|
  }

  predicate Explained(connectors: set<string>, s: Service) {
    forall id: nat | id < |s.threads| :: ThreadExplained(connectors, s.history, id, s.threads[id])
  }

  predicate Inv(connectors: set<string>, s: Service) {
    && Known(s)
    && Explained(connectors, s)
    && BegunOnce(s.history)
    && FenceHeld(s.history)
    && Ordered(connectors, s.history)
    && s.labels == LabelsOf(s.history)
  }

  lemma DidExtends(history: seq<Event>, e: Event, id: nat, stage: Stage)
    ensures Did(history, id, stage) ==> Did(history + [e], id, stage)
    ensures e.Ran? && e.id == id && e.stage == stage && e.ok ==> Did(history + [e], id, stage)
  {
    if Did(history, id, stage) {
      var i :| 0 <= i < |history| && history[i].Ran? && history[i].id == id
          && history[i].stage == stage && history[i].ok;
      assert (history + [e])[i] == history[i];
    }
    assert (history + [e])[|history|] == e;
  }

  lemma ThreadStaysExplained(connectors: set<string>, history: seq<Event>, e: Event, id: nat, t: Thread)
    requires ThreadExplained(connectors, history, id, t)
    ensures ThreadExplained(connectors, history + [e], id, t)
  {
    forall st | st in Needs(connectors, t.op, t.stage)
      ensures Did(history + [e], id, st)
    {
      DidExtends(history, e, id, st);
    }
  }

  lemma ThreadAdvances(connectors: set<string>, history: seq<Event>, id: nat, t: Thread, ok: bool, open: bool)
    requires ThreadExplained(connectors, history, id, t) && !t.stage.Done?
    ensures ThreadExplained(connectors, history + [Ran(id, t.op, t.stage, ok, open)],
            id, t.(stage := Next(t.op, t.stage, ok)))
  {
    var e := Ran(id, t.op, t.stage, ok, open);
    var next := Next(t.op, t.stage, ok);
    forall st | st in Needs(connectors, t.op, next)
      ensures Did(history + [e], id, st)
    {
      assert st == t.stage || st in Needs(connectors, t.op, t.stage);
      DidExtends(history, e, id, st);
    }
  }

  lemma HistoryExtends(connectors: set<string>, history: seq<Event>, e: Event)
    requires BegunOnce(history) && FenceHeld(history) && Ordered(connectors, history)
    requires e.Began? ==> forall i | 0 <= i < |history| :: history[i].id != e.id
    requires e.Ran? && IsUpstream(e.stage) ==> Began(e.id, e.op, true) in history
    requires e.Ran? ==> forall st | st in Needs(connectors, e.op, e.stage) :: Did(history, e.id, st)
    ensures BegunOnce(history + [e]) && FenceHeld(history + [e]) && Ordered(connectors, history + [e])
  {
    var h := history + [e];
    forall i | 0 <= i < |h| && h[i].Ran? && IsUpstream(h[i].stage)
      ensures Began(h[i].id, h[i].op, true) in h[..i]
    {
      assert h[..i] == history[..i];
      if i == |history| { assert history[..i] == history; }
    }
    forall i, st | 0 <= i < |h| && h[i].Ran? && st in Needs(connectors, h[i].op, h[i].stage)
      ensures Did(h[..i], h[i].id, st)
    {
      assert h[..i] == history[..i];
      if i == |history| { assert history[..i] == history; }
    }
  }

  lemma BeginExplains(connectors: set<string>, s: Service, op: Op)
    requires Explained(connectors, s)
    ensures Explained(connectors, Step(connectors, s, Begin(op)))
  {
    hide ThreadExplained, First;
    var e := Began(|s.threads|, op, MayRefresh(s.authority));
    BeginIsExplained(s.history, |s.threads|, op, connectors, s.authority);
    forall id: nat | id < |s.threads|
      ensures ThreadExplained(connectors, s.history + [e], id, s.threads[id])
    {
      ThreadStaysExplained(connectors, s.history, e, id, s.threads[id]);
    }
  }

  lemma AdvanceExplains(connectors: set<string>, s: Service, id: nat, ok: bool)
    requires Explained(connectors, s) && id < |s.threads| && !s.threads[id].stage.Done?
    ensures Explained(connectors, Step(connectors, s, Advance(id, ok)))
  {
    hide ThreadExplained, Next, Labelled;
    var t := s.threads[id];
    var e := Ran(id, t.op, t.stage, ok, MayRefresh(s.authority));
    ThreadAdvances(connectors, s.history, id, t, ok, MayRefresh(s.authority));
    forall other: nat | other < |s.threads| && other != id
      ensures ThreadExplained(connectors, s.history + [e], other, s.threads[other])
    {
      ThreadStaysExplained(connectors, s.history, e, other, s.threads[other]);
    }
  }

  lemma LabelsExtend(history: seq<Event>, e: Event)
    ensures LabelsOf(history + [e]) ==
            if e.Ran? then Labelled(LabelsOf(history), e.op, e.stage, e.ok) else LabelsOf(history)
  {
    assert (history + [e])[..|history|] == history;
  }

  lemma BeginKeeps(connectors: set<string>, s: Service, op: Op)
    requires Inv(connectors, s)
    ensures Inv(connectors, Step(connectors, s, Begin(op)))
  {
    hide FenceHeld, Ordered, BegunOnce, Explained, First, LabelsOf;
    var e := Began(|s.threads|, op, MayRefresh(s.authority));
    HistoryExtends(connectors, s.history, e);
    LabelsExtend(s.history, e);
    BeginExplains(connectors, s, op);
  }

  lemma AdvanceKeeps(connectors: set<string>, s: Service, id: nat, ok: bool)
    requires Inv(connectors, s) && id < |s.threads| && !s.threads[id].stage.Done?
    ensures Inv(connectors, Step(connectors, s, Advance(id, ok)))
  {
    hide *;
    var t := s.threads[id];
    var e := Ran(id, t.op, t.stage, ok, MayRefresh(s.authority));
    InvGives(connectors, s, id);
    HistoryExtends(connectors, s.history, e);
    AdvanceExplains(connectors, s, id, ok);
    AdvanceRecords(connectors, s, id, ok);
    InvFrom(connectors, s, Step(connectors, s, Advance(id, ok)), e);
  }

  lemma InvGives(connectors: set<string>, s: Service, id: nat)
    requires Inv(connectors, s) && id < |s.threads|
    ensures Known(s) && Explained(connectors, s) && s.labels == LabelsOf(s.history)
    ensures BegunOnce(s.history) && FenceHeld(s.history) && Ordered(connectors, s.history)
    ensures var t := s.threads[id];
            && (IsUpstream(t.stage) ==> Began(id, t.op, true) in s.history)
            && forall st | st in Needs(connectors, t.op, t.stage) :: Did(s.history, id, st)
  {
    hide Needs, FenceHeld, Ordered, BegunOnce, LabelsOf, Did;
    assert ThreadExplained(connectors, s.history, id, s.threads[id]);
  }

  lemma AdvanceRecords(connectors: set<string>, s: Service, id: nat, ok: bool)
    requires id < |s.threads| && !s.threads[id].stage.Done?
    ensures var t := s.threads[id];
            var s' := Step(connectors, s, Advance(id, ok));
            && s'.history == s.history + [Ran(id, t.op, t.stage, ok, MayRefresh(s.authority))]
            && s'.labels == Labelled(s.labels, t.op, t.stage, ok)
            && |s'.threads| == |s.threads|
  {
    hide Next, Labelled, MayRefresh;
  }

  lemma InvFrom(connectors: set<string>, s: Service, s': Service, e: Event)
    requires Known(s) && s.labels == LabelsOf(s.history)
    requires e.Ran? && s'.history == s.history + [e] && e.id < |s'.threads| && |s'.threads| == |s.threads|
    requires s'.labels == Labelled(s.labels, e.op, e.stage, e.ok)
    requires Explained(connectors, s')
    requires BegunOnce(s'.history) && FenceHeld(s'.history) && Ordered(connectors, s'.history)
    ensures Inv(connectors, s')
  {
    hide FenceHeld, Ordered, BegunOnce, Explained, Labelled, LabelsOf;
    LabelsExtend(s.history, e);
  }

  lemma StepKeeps(connectors: set<string>, s: Service, a: Action)
    requires Inv(connectors, s)
    ensures Inv(connectors, Step(connectors, s, a))
  {
    hide Inv;
    match a
    case Begin(op) => BeginKeeps(connectors, s, op);
    case Advance(id, ok) => if id < |s.threads| && !s.threads[id].stage.Done? { AdvanceKeeps(connectors, s, id, ok); }
    case MoveFence(current) => MoveKeeps(connectors, s, current);
  }

  lemma MoveKeeps(connectors: set<string>, s: Service, current: bool)
    requires Inv(connectors, s)
    ensures Inv(connectors, Step(connectors, s, MoveFence(current)))
  {
    hide ThreadExplained, FenceHeld, Ordered, BegunOnce, LabelsOf;
  }

  lemma BeginIsExplained(history: seq<Event>, id: nat, op: Op, connectors: set<string>, authority: Authority)
    ensures ThreadExplained(connectors, history + [Began(id, op, MayRefresh(authority))],
            id, Thread(op, First(connectors, authority, op)))
  {
    var e := Began(id, op, MayRefresh(authority));
    assert (history + [e])[|history|] == e;
  }

  lemma {:induction false} RunKeeps(connectors: set<string>, s: Service, actions: seq<Action>)
    requires Inv(connectors, s)
    ensures Inv(connectors, Run(connectors, s, actions))
    decreases actions
  {
    if actions != [] {
      StepKeeps(connectors, s, actions[0]);
      RunKeeps(connectors, Step(connectors, s, actions[0]), actions[1..]);
    }
  }

  lemma UpstreamWasAdmitted(history: seq<Event>, i: nat)
    requires FenceHeld(history) && i < |history| && history[i].Ran?
    ensures IsUpstream(history[i].stage) ==> Began(history[i].id, history[i].op, true) in history
  {
  }

  lemma OneBeginning(history: seq<Event>, id: nat, op: Op, op': Op)
    requires BegunOnce(history)
    ensures !(Began(id, op, true) in history && Began(id, op', false) in history)
  {
  }

  /**
  Over any interleaving of operations, outcomes and fence moves: an operation
  that began with the gate closed makes no vendor call, ever.
  */
  lemma ClosedGateMeansNoVendorCall(
    connectors: set<string>, authority: Authority, actions: seq<Action>, id: nat, op: Op)
    ensures var h := Run(connectors, Fresh(authority), actions).history;
            Began(id, op, false) in h ==>
                forall i | 0 <= i < |h| && h[i].Ran? && h[i].id == id :: !IsUpstream(h[i].stage)
  {
    RunKeeps(connectors, Fresh(authority), actions);
    var h := Run(connectors, Fresh(authority), actions).history;
    if Began(id, op, false) in h {
      forall i | 0 <= i < |h| && h[i].Ran? && h[i].id == id
        ensures !IsUpstream(h[i].stage)
      {
        UpstreamWasAdmitted(h, i);
        OneBeginning(h, id, h[i].op, op);
      }
    }
  }

  /** The label of a registered provider goes only after the local state was forgotten. */
  lemma LabelsGoAfterForget(connectors: set<string>, authority: Authority, actions: seq<Action>, i: nat)
    requires var h := Run(connectors, Fresh(authority), actions).history;
             i < |h| && h[i].Ran? && h[i].op.Disconnect? && h[i].stage == Unlabel
               && h[i].op.reference.provider in connectors
    ensures var h := Run(connectors, Fresh(authority), actions).history;
            Did(h[..i], h[i].id, Forget)
  {
    RunKeeps(connectors, Fresh(authority), actions);
    var h := Run(connectors, Fresh(authority), actions).history;
    assert Forget in Needs(connectors, h[i].op, h[i].stage);
  }

  /** A label is written only by a connect whose login, approval and first refresh all succeeded before. */
  lemma LabelsNeedAProvenCredential(connectors: set<string>, authority: Authority, actions: seq<Action>, i: nat)
    requires var h := Run(connectors, Fresh(authority), actions).history;
             i < |h| && h[i].Ran? && h[i].op.Connect? && h[i].stage == Label
    ensures var h := Run(connectors, Fresh(authority), actions).history;
            && Did(h[..i], h[i].id, Login)
            && Did(h[..i], h[i].id, Approve)
            && Did(h[..i], h[i].id, Refresh)
  {
    RunKeeps(connectors, Fresh(authority), actions);
    var h := Run(connectors, Fresh(authority), actions).history;
    assert Needs(connectors, h[i].op, h[i].stage) == {Login, Approve, Refresh};
  }

  // ---- the fence, per call: what does not hold ---------------------------------------------------

  predicate NoFenceMoves(actions: seq<Action>) {
    forall i | 0 <= i < |actions| :: !actions[i].MoveFence?
  }

  predicate AtVendorStage(s: Service) {
    exists id: nat | id < |s.threads| :: IsUpstream(s.threads[id].stage)
  }

  /** A vendor call is recorded, from position n on, at a moment when the gate was closed. */
  predicate LateCallSince(n: nat, history: seq<Event>) {
    exists i | n <= i < |history| :: history[i].Ran? && IsUpstream(history[i].stage) && !history[i].open
  }

  /** With the gate closed and nobody at a vendor stage, one step records no vendor call and brings nobody to one. */
  lemma ClosedStaysQuiet(connectors: set<string>, s: Service, a: Action)
    requires !MayRefresh(s.authority) && !AtVendorStage(s) && !a.MoveFence?
    ensures var s' := Step(connectors, s, a);
            && s'.authority == s.authority && !AtVendorStage(s')
            && s.history <= s'.history && !LateCallSince(|s.history|, s'.history)
  {
    var s' := Step(connectors, s, a);
    if a.Begin? {
      assert s'.threads[..|s.threads|] == s.threads;
    } else if a.id < |s.threads| {
      assert !IsUpstream(s.threads[a.id].stage);
    }
  }

  lemma {:induction false} QuietRun(connectors: set<string>, s: Service, after: seq<Action>)
    requires !MayRefresh(s.authority) && !AtVendorStage(s) && NoFenceMoves(after)
    ensures s.history <= Run(connectors, s, after).history
    ensures !LateCallSince(|s.history|, Run(connectors, s, after).history)
    decreases after
  {
    hide Step, AtVendorStage;
    if after != [] {
      var s1 := Step(connectors, s, after[0]);
      ClosedStaysQuiet(connectors, s, after[0]);
      QuietRun(connectors, s1, after[1..]);
      NotLateJoins(s.history, s1.history, Run(connectors, s1, after[1..]).history);
    }
  }

  lemma NotLateJoins(a: seq<Event>, b: seq<Event>, c: seq<Event>)
    requires a <= b <= c && !LateCallSince(|a|, b) && !LateCallSince(|b|, c)
    ensures !LateCallSince(|a|, c)
  {
    forall i | |a| <= i < |c| && c[i].Ran? && IsUpstream(c[i].stage)
      ensures c[i].open
    {
      if i < |b| { assert b[i] == c[i]; }
    }
  }

  lemma {:induction false} OpenStaysOpen(connectors: set<string>, s: Service, after: seq<Action>)
    requires s.authority.Standalone?
    ensures s.history <= Run(connectors, s, after).history
    ensures !LateCallSince(|s.history|, Run(connectors, s, after).history)
    decreases after
  {
    hide First, Next, Labelled;
    if after != [] {
      var s1 := Step(connectors, s, after[0]);
      OpenStaysOpen(connectors, s1, after[1..]);
      NotLateJoins(s.history, s1.history, Run(connectors, s1, after[1..]).history);
    }
  }

  /** No continuation without fence moves records a vendor call behind a closed gate. */
  ghost predicate NeverLate(connectors: set<string>, s: Service) {
    forall after | NoFenceMoves(after) :: !LateCallSince(|s.history|, Run(connectors, s, after).history)
  }

  lemma AdvancedLate(connectors: set<string>, s: Service, id: nat)
    requires !MayRefresh(s.authority) && id < |s.threads| && IsUpstream(s.threads[id].stage)
    ensures !NeverLate(connectors, s)
  {
    var after := [Advance(id, true)];
    var s1 := Step(connectors, s, after[0]);
    assert after[1..] == [];
    assert Run(connectors, s1, []) == s1;
    assert Run(connectors, s, after) == s1;
    var e := s1.history[|s.history|];
    assert e.Ran? && IsUpstream(e.stage) && !e.open;
  }

  /**
  The gate is checked once per operation. In any reachable state, closing the
  fence stops every later vendor call, until it moves again, if and only if no
  operation is between its check and the last of its vendor calls, or there is
  no fence to close.
  */
  lemma ClosingStopsCallsIff(connectors: set<string>, authority: Authority, before: seq<Action>)
    ensures var s := Run(connectors, Fresh(authority), before);
            NeverLate(connectors, Step(connectors, s, MoveFence(false))) <==> authority.Standalone? || !AtVendorStage(s)
  {
    hide NeverLate;
    var s := Run(connectors, Fresh(authority), before);
    var closed := Step(connectors, s, MoveFence(false));
    AuthorityKindStays(connectors, Fresh(authority), before);
    if authority.Standalone? {
      StandaloneIsNeverLate(connectors, closed);
    } else if AtVendorStage(s) {
      var id: nat :| id < |s.threads| && IsUpstream(s.threads[id].stage);
      AdvancedLate(connectors, closed, id);
    } else {
      QuietIsNeverLate(connectors, closed);
    }
  }

  lemma StandaloneIsNeverLate(connectors: set<string>, s: Service)
    requires s.authority.Standalone?
    ensures NeverLate(connectors, s)
  {
    forall after | NoFenceMoves(after)
      ensures !LateCallSince(|s.history|, Run(connectors, s, after).history)
    {
      OpenStaysOpen(connectors, s, after);
    }
  }

  lemma QuietIsNeverLate(connectors: set<string>, s: Service)
    requires !MayRefresh(s.authority) && !AtVendorStage(s)
    ensures NeverLate(connectors, s)
  {
    forall after | NoFenceMoves(after)
      ensures !LateCallSince(|s.history|, Run(connectors, s, after).history)
    {
      QuietRun(connectors, s, after);
    }
  }

  lemma {:induction false} AuthorityKindStays(connectors: set<string>, s: Service, actions: seq<Action>)
    ensures var a := Run(connectors, s, actions).authority;
            (a.Standalone? <==> s.authority.Standalone?) && (a.Node? <==> s.authority.Node?)
    decreases actions
  {
    if actions != [] { AuthorityKindStays(connectors, Step(connectors, s, actions[0]), actions[1..]); }
  }

  /** The fence closes between connect's check and its refresh; the refresh goes out all the same. */
  lemma FenceIsNotCheckedPerCall(reference: AuthRef)
    ensures var actions := [Begin(Connect(reference, "Work")), Advance(0, true),
                            Advance(0, true), MoveFence(false), Advance(0, true)];
            var s := Run({reference.provider}, Fresh(Primary(true)), actions);
            Ran(0, Connect(reference, "Work"), Refresh, true, false) in s.history
  {
    var c := {reference.provider};
    var op := Connect(reference, "Work");
    var s1 := Step(c, Fresh(Primary(true)), Begin(op));
    var s2 := Step(c, s1, Advance(0, true));
    var s3 := Step(c, s2, Advance(0, true));
    var s4 := Step(c, s3, MoveFence(false));
    var s5 := Step(c, s4, Advance(0, true));
    assert s1.threads == [Thread(op, Login)];
    assert s3.threads == [Thread(op, Refresh)];
    assert s5.history[|s5.history| - 1] == Ran(0, op, Refresh, true, false);
    RunOf5(c, Fresh(Primary(true)), Begin(op), Advance(0, true), Advance(0, true), MoveFence(false), Advance(0, true));
  }

  lemma RunOf5(c: set<string>, s: Service, a0: Action, a1: Action, a2: Action, a3: Action, a4: Action)
    ensures Run(c, s, [a0, a1, a2, a3, a4]) == Step(c, Step(c, Step(c, Step(c, Step(c, s, a0), a1), a2), a3), a4)
  {
    hide Step;
    var s1 := Step(c, s, a0);
    var s2 := Step(c, s1, a1);
    var s3 := Step(c, s2, a2);
    var s4 := Step(c, s3, a3);
    assert Run(c, s, [a0, a1, a2, a3, a4]) == Run(c, s1, [a1, a2, a3, a4]);
    assert Run(c, s1, [a1, a2, a3, a4]) == Run(c, s2, [a2, a3, a4]);
    assert Run(c, s2, [a2, a3, a4]) == Run(c, s3, [a3, a4]);
    assert Run(c, s3, [a3, a4]) == Run(c, s4, [a4]);
    assert Run(c, s4, [a4]) == Run(c, Step(c, s4, a4), []);
  }

  // ---- the label table ------------------------------------------------------------------------------

  function LabelsOf(history: seq<Event>): map<AuthRef, string> {
    if history == [] then map[]
    else
      var last := history[|history| - 1];
      var before := LabelsOf(history[..|history| - 1]);
      if last.Ran? then Labelled(before, last.op, last.stage, last.ok) else before
  }

  /** A connect's label write, the point at which it takes effect. */
  predicate Connects(e: Event, reference: AuthRef) {
    e.Ran? && e.op.Connect? && e.stage.Label? && e.ok && e.op.reference == reference
  }

  predicate Disconnects(e: Event, reference: AuthRef) {
    e.Ran? && e.stage.Unlabel? && e.ok && e.op.reference == reference
  }

  /** The event that decides a reference: the last connect or disconnect on it. */
  predicate Decides(history: seq<Event>, reference: AuthRef, i: nat) {
    && i < |history|
    && (Connects(history[i], reference) || Disconnects(history[i], reference))
    && forall j | i < j < |history| :: !Connects(history[j], reference) && !Disconnects(history[j], reference)
  }

  lemma {:induction false} LabelledIffLastIsConnect(history: seq<Event>, reference: AuthRef)
    ensures reference in LabelsOf(history) <==>
            exists i: nat :: Decides(history, reference, i) && Connects(history[i], reference)
    ensures forall i: nat | Decides(history, reference, i) && Connects(history[i], reference) ::
              reference in LabelsOf(history) && LabelsOf(history)[reference] == history[i].op.title
  {
    if history != [] {
      var n := |history| - 1;
      var before := history[..n];
      LabelledIffLastIsConnect(before, reference);
      if Connects(history[n], reference) || Disconnects(history[n], reference) {
        assert Decides(history, reference, n);
        assert forall i: nat | Decides(history, reference, i) :: i == n;
      } else {
        forall i: nat
          ensures Decides(history, reference, i) <==> Decides(before, reference, i)
        {
          DecidesBefore(history, reference, i);
        }
        assert forall i: nat | Decides(before, reference, i) :: before[i] == history[i];
      }
    }
  }

  lemma DecidesBefore(history: seq<Event>, reference: AuthRef, i: nat)
    requires history != []
    requires var last := history[|history| - 1]; !Connects(last, reference) && !Disconnects(last, reference)
    ensures Decides(history, reference, i) <==> Decides(history[..|history| - 1], reference, i)
  {
    var before := history[..|history| - 1];
    if Decides(before, reference, i) {
      forall j | i < j < |history|
        ensures !Connects(history[j], reference) && !Disconnects(history[j], reference)
      {
        if j < |before| { assert before[j] == history[j]; }
      }
    }
  }

  /**
  Over any interleaving, the label table holds exactly the references whose last
  connect has no later disconnect, each with that connect's label.
  */
  lemma LabelTable(connectors: set<string>, authority: Authority, actions: seq<Action>, reference: AuthRef)
    ensures var s := Run(connectors, Fresh(authority), actions);
            && (reference in s.labels <==>
                exists i: nat :: Decides(s.history, reference, i) && Connects(s.history[i], reference))
            && forall i: nat | Decides(s.history, reference, i) && Connects(s.history[i], reference) ::
                 reference in s.labels && s.labels[reference] == s.history[i].op.title
  {
    RunKeeps(connectors, Fresh(authority), actions);
    LabelledIffLastIsConnect(Run(connectors, Fresh(authority), actions).history, reference);
  }

  // ---- one operation at a time -----------------------------------------------------------------------

  /** Whether each call an operation may make succeeds. */
  datatype Outcomes = Outcomes(
    login: bool, approve: bool, refresh: bool, upsert: bool, read: bool,
    build: bool, revoke: bool, forget: bool, delete: bool)

  function Succeeds(o: Outcomes, stage: Stage): bool {
    match stage
    case Login => o.login
    case Approve => o.approve
    case Refresh => o.refresh
    case Label => o.upsert
    case Read => o.read
    case Build => o.build
    case Revoke => o.revoke
    case Forget => o.forget
    case Unlabel => o.delete
    case Done(_) => true
  }

  function Rank(stage: Stage): nat {
    match stage
    case Login => 5
    case Approve => 4
    case Refresh => 3
    case Label => 2
    case Read => 1
    case Build => 2
    case Revoke => 3
    case Forget => 2
    case Unlabel => 1
    case Done(_) => 0
  }

  /** An operation run from a stage to its end without interruption: the labels, the vendor calls, the result. */
  function Alone(labels: map<AuthRef, string>, calls: seq<Stage>, op: Op, stage: Stage, o: Outcomes)
    : (map<AuthRef, string>, seq<Stage>, Result<(), Failure>)
    decreases Rank(stage)
  {
    if stage.Done? then (labels, calls, stage.result)
    else
      var ok := Succeeds(o, stage);
      Alone(Labelled(labels, op, stage, ok), if IsUpstream(stage) then calls + [stage] else calls,
            op, Next(op, stage, ok), o)
  }

  class SubscriptionAuthService {
    const connectors: set<string>
    var authority: Authority
    var labels: map<AuthRef, string>
    var calls: seq<Stage>  // the vendor calls made, in order

    constructor (connectors: set<string>, authority: Authority)
      ensures this.connectors == connectors && this.authority == authority && labels == map[] && calls == []
    {
      this.connectors, this.authority, labels, calls := connectors, authority, map[], [];
    }

    method Connect(reference: AuthRef, title: string, o: Outcomes) returns (r: Result<(), Failure>)
      modifies this`labels, this`calls
      ensures var op := Op.Connect(reference, title);
              (labels, calls, r) == Alone(old(labels), old(calls), op, First(connectors, authority, op), o)
      // refused before any call
      ensures reference.provider !in connectors ==> r == Err(UnknownProvider)
      ensures reference.provider in connectors && !(authority.Standalone? || authority == Primary(true)) ==>
              r == Err(Refused)
      ensures r.Err? && (r.error.UnknownProvider? || r.error.Refused?) ==> labels == old(labels) && calls == old(calls)
      // admitted: each call follows the one before only if that succeeded, and the first failure is the result
      ensures reference.provider in connectors && (authority.Standalone? || authority == Primary(true)) ==>
                && calls == old(calls) + (if !o.login then [Login] else if !o.approve then [Login, Approve]
                                          else [Login, Approve, Refresh])
                && labels == (if o.login && o.approve && o.refresh && o.upsert then old(labels)[reference := title]
                              else old(labels))
                && r == (if !o.login then Err(FailedAt(Login)) else if !o.approve then Err(FailedAt(Approve))
                         else if !o.refresh then Err(FailedAt(Refresh)) else if !o.upsert then Err(FailedAt(Label))
                         else if !o.read then Err(FailedAt(Read)) else Ok(()))
    {
      if reference.provider !in connectors { return Err(UnknownProvider); }
      if !MayRefresh(authority) { return Err(Refused); }
      calls := calls + [Login];
      if !o.login { return Err(FailedAt(Login)); }
      calls := calls + [Approve];
      if !o.approve { return Err(FailedAt(Approve)); }
      calls := calls + [Refresh];
      if !o.refresh { return Err(FailedAt(Refresh)); }
      ghost var op := Op.Connect(reference, title);
      ThroughLogin(labels, old(calls), op, o);
      assert calls == old(calls) + [Login, Approve, Refresh];
      if !o.upsert { return Err(FailedAt(Label)); }
      labels := labels[reference := title];
      if !o.read { return Err(FailedAt(Read)); }
      return Ok(());
    }

    method ResolveProvider(reference: AuthRef, model: string, o: Outcomes) returns (r: Result<(), Failure>)
      modifies this`calls
      ensures var op := Op.Resolve(reference, model);
              (labels, calls, r) == Alone(old(labels), old(calls), op, First(connectors, authority, op), o)
      ensures reference.provider !in connectors ==> r == Err(UnknownProvider) && calls == old(calls)
      ensures reference.provider in connectors && !(authority.Standalone? || authority == Primary(true)) ==>
                r == Err(Refused) && calls == old(calls)
      // admitted: the credential is refreshed, and what is returned is the first failure of the two steps
      ensures reference.provider in connectors && (authority.Standalone? || authority == Primary(true)) ==>
                && calls == old(calls) + [Refresh]
                && r == (if !o.refresh then Err(FailedAt(Refresh))
                         else if !o.build then Err(FailedAt(Build)) else Ok(()))
    {
      if reference.provider !in connectors { return Err(UnknownProvider); }
      if !MayRefresh(authority) { return Err(Refused); }
      calls := calls + [Refresh];
      if !o.refresh { return Err(FailedAt(Refresh)); }
      if !o.build { return Err(FailedAt(Build)); }
      return Ok(());
    }

    method Disconnect(reference: AuthRef, o: Outcomes) returns (r: Result<(), Failure>)
      modifies this`labels, this`calls
      ensures var op := Op.Disconnect(reference);
              (labels, calls, r) == Alone(old(labels), old(calls), op, First(connectors, authority, op), o)
      // the vendor is asked if the provider is known and the gate open, and its answer does not matter
      ensures calls == old(calls) + (if reference.provider in connectors
                                       && (authority.Standalone? || authority == Primary(true)) then [Revoke] else [])
      ensures r == (if reference.provider in connectors && !o.forget then Err(FailedAt(Forget))
                    else if !o.delete then Err(FailedAt(Unlabel)) else Ok(()))
      ensures labels == if r.Ok? then old(labels) - {reference} else old(labels)
    {
      assert calls + [] == calls;
      if reference.provider in connectors {
        if !MayRefresh(authority) {
          if !o.forget { return Err(FailedAt(Forget)); }
          r := Delete(reference, o);
          return;
        }
        calls := calls + [Revoke];
        if !o.forget { return Err(FailedAt(Forget)); }
      }
      r := Delete(reference, o);
    }

    method Delete(reference: AuthRef, o: Outcomes) returns (r: Result<(), Failure>)
      modifies this`labels
      ensures (labels, calls, r) == Alone(old(labels), calls, Op.Disconnect(reference), Unlabel, o)
      ensures r == if o.delete then Ok(()) else Err(FailedAt(Unlabel))
      ensures labels == if o.delete then old(labels) - {reference} else old(labels)
    {
      if !o.delete { return Err(FailedAt(Unlabel)); }
      labels := labels - {reference};
      return Ok(());
    }
  }

  lemma ThroughLogin(labels: map<AuthRef, string>, calls: seq<Stage>, op: Op, o: Outcomes)
    requires op.Connect? && o.login && o.approve && o.refresh
    ensures Alone(labels, calls, op, Login, o) == Alone(labels, calls + [Login] + [Approve] + [Refresh], op, Label, o)
  {
    assert Alone(labels, calls, op, Login, o) == Alone(labels, calls + [Login], op, Approve, o);
    assert Alone(labels, calls + [Login], op, Approve, o) == Alone(labels, calls + [Login] + [Approve], op, Refresh, o);
  }

  // ---- the machine and the methods agree ----------------------------------------------------------------

  function VendorCalls(history: seq<Event>): seq<Stage> {
    if history == [] then []
    else
      var last := history[|history| - 1];
      var before := VendorCalls(history[..|history| - 1]);
      if last.Ran? && IsUpstream(last.stage) then before + [last.stage] else before
  }

  /** The steps that take one operation to its end. */
  function ToTheEnd(op: Op, stage: Stage, id: nat, o: Outcomes): seq<Action>
    decreases Rank(stage)
  {
    if stage.Done? then []
    else [Advance(id, Succeeds(o, stage))] + ToTheEnd(op, Next(op, stage, Succeeds(o, stage)), id, o)
  }

  /** An operation of the machine that nothing interrupts does what the service's method does. */
  lemma {:induction false} UninterruptedIsAlone(connectors: set<string>, s: Service, id: nat, o: Outcomes)
    requires id < |s.threads|
    ensures var t := s.threads[id];
            var s' := Run(connectors, s, ToTheEnd(t.op, t.stage, id, o));
            var (labels, calls, r) := Alone(s.labels, VendorCalls(s.history), t.op, t.stage, o);
            && s'.labels == labels
            && VendorCalls(s'.history) == calls
            && s'.threads == s.threads[id := Thread(t.op, Done(r))]
    decreases Rank(s.threads[id].stage)
  {
    var t := s.threads[id];
    if !t.stage.Done? {
      var a := Advance(id, Succeeds(o, t.stage));
      var s1 := Step(connectors, s, a);
      assert s1.history[..|s1.history| - 1] == s.history;
      UninterruptedIsAlone(connectors, s1, id, o);
      var rest := ToTheEnd(t.op, s1.threads[id].stage, id, o);
      assert ([a] + rest)[1..] == rest;
    }
  }

  // ---- what a returned result says about the table --------------------------------------------------------

  /** The table as the results tell it: a success set or removed the label, a failure did nothing. */
  function AsReturned(labels: map<AuthRef, string>, op: Op, r: Result<(), Failure>): map<AuthRef, string> {
    if r.Err? || op.Resolve? then labels
    else if op.Connect? then labels[op.reference := op.title]
    else labels - {op.reference}
  }

  /** An admitted connect that gets as far as writing its label, and then cannot read the state. */
  predicate LosesTheRead(connectors: set<string>, authority: Authority, op: Op, o: Outcomes) {
    && op.Connect? && op.reference.provider in connectors && MayRefresh(authority)
    && o.login && o.approve && o.refresh && o.upsert && !o.read
  }

  /**
  A result tells what happened to the table except for one failure: when the
  state cannot be read after the label was written, connect returns an error for
  a profile that is connected. It shows unless the label was already there.
  */
  lemma ResultTellsTheTableIff(
    labels: map<AuthRef, string>, calls: seq<Stage>, connectors: set<string>, authority: Authority, op: Op, o: Outcomes)
    ensures var (after, _, r) := Alone(labels, calls, op, First(connectors, authority, op), o);
            after == AsReturned(labels, op, r) <==>
            !(LosesTheRead(connectors, authority, op, o)
              && (op.reference in labels ==> labels[op.reference] != op.title))
  {
    hide Alone;
    var stage := First(connectors, authority, op);
    if stage.Done? {
      EndedIsUnchanged(labels, calls, op, stage, o);
    } else if op.Connect? {
      ConnectInFull(labels, calls, op, o);
      if op.reference in labels && labels[op.reference] == op.title {
        assert labels[op.reference := op.title] == labels;
      }
    } else {
      OthersInFull(labels, calls, op, stage, o);
    }
  }

  lemma EndedIsUnchanged(labels: map<AuthRef, string>, calls: seq<Stage>, op: Op, stage: Stage, o: Outcomes)
    requires stage.Done?
    ensures Alone(labels, calls, op, stage, o) == (labels, calls, stage.result)
  {
  }

  lemma ConnectInFull(labels: map<AuthRef, string>, calls: seq<Stage>, op: Op, o: Outcomes)
    requires op.Connect?
    ensures var (after, _, r) := Alone(labels, calls, op, Login, o);
            var proven := o.login && o.approve && o.refresh && o.upsert;
            && after == (if proven then labels[op.reference := op.title] else labels)
            && (r == Err(FailedAt(Read)) <==> proven && !o.read)
            && (r.Ok? <==> proven && o.read)
  {
    if o.login && o.approve && o.refresh { ThroughLogin(labels, calls, op, o); }
  }

  /**
  Disconnect asks the vendor exactly when the provider is registered and the gate
  is open; whether that call succeeds changes nothing.
  */
  lemma DisconnectInFull(
    labels: map<AuthRef, string>, calls: seq<Stage>, connectors: set<string>, authority: Authority, op: Op, o: Outcomes)
    requires op.Disconnect?
    ensures var (after, calls', r) := Alone(labels, calls, op, First(connectors, authority, op), o);
            var registered := op.reference.provider in connectors;
            && calls' == calls + (if registered && MayRefresh(authority) then [Revoke] else [])
            && (r.Ok? <==> (registered ==> o.forget) && o.delete)
            && after == if r.Ok? then labels - {op.reference} else labels
  {
    var asked := if op.reference.provider in connectors && MayRefresh(authority) then calls + [Revoke] else calls;
    if op.reference.provider in connectors {
      assert Alone(labels, calls, op, First(connectors, authority, op), o) == Alone(labels, asked, op, Forget, o);
    }
    assert calls + [] == calls;
  }

  lemma OthersInFull(labels: map<AuthRef, string>, calls: seq<Stage>, op: Op, stage: Stage, o: Outcomes)
    requires !op.Connect? && BelongsTo(op, stage) && !stage.Done?
    ensures var (after, _, r) := Alone(labels, calls, op, stage, o);
            r != Err(FailedAt(Read)) && after == AsReturned(labels, op, r)
  {
  }

  datatype Request = Request(op: Op, authority: Authority, outcomes: Outcomes)

  /** Requests served one after another, the fence moving freely in between. */
  function Serve(connectors: set<string>, labels: map<AuthRef, string>, requests: seq<Request>)
    : (map<AuthRef, string>, seq<Result<(), Failure>>)
    decreases requests
  {
    if requests == [] then (labels, [])
    else
      var q := requests[0];
      var (after, _, r) := Alone(labels, [], q.op, First(connectors, q.authority, q.op), q.outcomes);
      var (last, results) := Serve(connectors, after, requests[1..]);
      (last, [r] + results)
  }

  lemma {:induction false} OneResultEach(connectors: set<string>, labels: map<AuthRef, string>, requests: seq<Request>)
    ensures |Serve(connectors, labels, requests).1| == |requests|
    decreases requests
  {
    if requests != [] {
      var q := requests[0];
      OneResultEach(connectors,
          Alone(labels, [], q.op, First(connectors, q.authority, q.op), q.outcomes).0, requests[1..]);
    }
  }

  function Told(labels: map<AuthRef, string>, requests: seq<Request>, results: seq<Result<(), Failure>>)
    : map<AuthRef, string>
    requires |requests| == |results|
    decreases requests
  {
    if requests == [] then labels
    else Told(AsReturned(labels, requests[0].op, results[0]), requests[1..], results[1..])
  }

  /**
  When the state can always be read back, the returned results alone determine
  the table: the last successful connect of a reference with no later successful
  disconnect.
  */
  lemma {:induction false} ResultsTellTheTable(
    connectors: set<string>, labels: map<AuthRef, string>, requests: seq<Request>)
    requires forall i | 0 <= i < |requests| :: requests[i].outcomes.read
    ensures var (after, results) := Serve(connectors, labels, requests);
            |results| == |requests| && after == Told(labels, requests, results)
    decreases requests
  {
    OneResultEach(connectors, labels, requests);
    if requests != [] {
      var q := requests[0];
      var (after, _, r) := Alone(labels, [], q.op, First(connectors, q.authority, q.op), q.outcomes);
      ResultTellsTheTableIff(labels, [], connectors, q.authority, q.op, q.outcomes);
      ResultsTellTheTable(connectors, after, requests[1..]);
      assert Serve(connectors, labels, requests).1[1..] == Serve(connectors, after, requests[1..]).1;
    }
  }
}
