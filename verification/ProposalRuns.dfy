/** What whole runs of the proposal machinery keep. */
module ProposalRuns {
  import opened Wrappers
  import opened ConfigStore
  import opened Proposals
  import Routing
  import Text

  // ---- every stored payload passed the gate ----------------------------------------

  ghost predicate GatedTable(w: World, d: Daemon) {
    forall id | id in d.proposals :: Gated(w, d.proposals[id].payload)
  }

  /** The halves of a model_config leave every other part of the daemon alone. */
  ghost predicate OnlyConfig(d: Daemon, d': Daemon) {
    d'.proposals == d.proposals && d'.pen == d.pen && d'.files == d.files && d'.personas == d.personas
    && d'.backups == d.backups
    && d'.notices == d.notices && d'.up == d.up && d'.arriving == d.arriving
    && d'.secretsDir == d.secretsDir && d.log <= d'.log
  }

  predicate SameLadder(d: Daemon, d': Daemon) {
    d'.ladder == d.ladder && Latest(d'.log, KEY_MODEL_FALLBACKS) == Latest(d.log, KEY_MODEL_FALLBACKS)
  }

  lemma DefaultView(w: World, d: Daemon, raw: string, actor: string, now: int, stored: bool)
    ensures var (d', r) := ApplyDefault(w, d, raw, actor, now, stored);
            && OnlyConfig(d, d') && SameLadder(d, d')
            && (r.Ok? ==> |r.value| == 1 && r.value[0].DefaultSwitched?)
  {
    hide Text.Trim, Connect, ModelValue;
    var model := Text.Trim(raw);
    if Connect(w, d, model).Ready? { ConnectChangesEnvOnly(w, d, model); }
    assert |KEY_MODEL_SELECTED| != |KEY_MODEL_FALLBACKS|;
    var row := WebRow(KEY_MODEL_SELECTED, ModelValue(model), actor, now);
    assert (d.log + [row])[..|d.log|] == d.log;
  }

  lemma LadderView(d: Daemon, models: seq<string>, actor: string, now: int, stored: bool)
    ensures var (d', r) := ApplyLadder(d, models, actor, now, stored);
            && OnlyConfig(d, d')
            && (if r.Ok? then NewLadder(d, d', models) && r.value == [LadderApplied(|models|, d.ladder.Some?)]
                else SameLadder(d, d'))
  {
    hide FallbackModelsValue;
  }

  /** A new ladder is both the log's latest and, where a handle is wired, the live one. */
  predicate NewLadder(d: Daemon, d': Daemon, models: seq<string>) {
    && !HasBlank(models)
    && Latest(d'.log, KEY_MODEL_FALLBACKS) == Some(FallbackModelsValue(models))
    && d'.ladder == (if d.ladder.Some? then Some(models) else None)
  }

  /** The size of the ladder an answer reports as applied. */
  function LadderLine(lines: seq<Line>): Option<nat> {
    if lines == [] then None
    else
      var last := lines[|lines| - 1];
      if last.LadderApplied? then Some(last.count) else LadderLine(lines[..|lines| - 1])
  }

  lemma ModelConfigKeepsTable(
    w: World, d: Daemon, model: Option<string>, ladder: Option<seq<string>>, actor: string, now: int, io: Io)
    ensures var (d', r) := ApplyModelConfig(w, d, model, ladder, actor, now, io);
            && OnlyConfig(d, d')
            && (if r.Ok? && ladder.Some? then
                  NewLadder(d, d', ladder.value) && LadderLine(r.value) == Some(|ladder.value|)
                else SameLadder(d, d') && (r.Ok? ==> LadderLine(r.value) == None))
  {
    hide ApplyDefault, ApplyLadder, NewLadder;
    var d1 := if model.Some? then ApplyDefault(w, d, model.value, actor, now, io.first).0 else d;
    if model.Some? { DefaultView(w, d, model.value, actor, now, io.first); }
    if ladder.Some? {
      LadderView(d1, ladder.value, actor, now, io.second);
      NewLadderFrom(d, d1, ApplyLadder(d1, ladder.value, actor, now, io.second).0, ladder.value);
    }
  }

  lemma NewLadderFrom(d: Daemon, d1: Daemon, d2: Daemon, models: seq<string>)
    requires SameLadder(d, d1)
    ensures NewLadder(d1, d2, models) ==> NewLadder(d, d2, models)
  {
  }

  /** Applying a payload leaves the table and the requests in flight alone, and takes no secret but its own. */
  predicate Frame(d: Daemon, d': Daemon, id: string) {
    && d'.proposals == d.proposals && d'.arriving == d.arriving && d'.up == d.up && d'.notices == d.notices
    && d.log <= d'.log && (d'.pen == d.pen || d'.pen == d.pen - {id})
  }

  lemma SecretSetFrame(d: Daemon, id: string, providerId: string, envKey: string, actor: string, now: int, io: Io)
    ensures var d' := ApplySecretSet(d, id, providerId, envKey, actor, now, io).0;
            && Frame(d, d', id)
            && (d'.files != d.files ==>
                  id in d.pen && d'.files == d.files[envKey := d.pen[id]] && d'.pen == d.pen - {id})
  {
    hide IsValidEnvKey, EnvKeyFor;
  }

  lemma RoutingFrame(w: World, d: Daemon, rules: map<string, string>, actor: string, now: int, io: Io, id: string)
    ensures var d' := ApplyRoutingConfig(w, d, rules, actor, now, io).0; Frame(d, d', id) && d'.files == d.files
  {
    hide GoodRules, ChatProblem, WithChatRule, RoutedLines, RoutingRulesValue;
  }

  lemma PersonasAreOutside(d: Daemon, personas: map<string, string>, backups: seq<(string, string)>, id: string)
    ensures Frame(d, d.(personas := personas, backups := backups), id)
  {
  }

  lemma PersonaFrame(w: World, d: Daemon, slug: string, content: string, io: Io, id: string)
    ensures var d' := ApplyPersonaEdit(w, d, slug, content, io).0; Frame(d, d', id) && d'.files == d.files
  {
    hide IsSafeSlug, Text.Bytes, Frame;
    var backups := if slug in d.personas then d.backups + [(slug, d.personas[slug])] else d.backups;
    PersonasAreOutside(d, d.personas[slug := content], backups, id);
    PersonasAreOutside(d, d.personas, d.backups, id);
    assert d.(personas := d.personas, backups := d.backups) == d;
  }

  lemma ApplyFrame(w: World, d: Daemon, id: string, payload: Payload, actor: string, now: int, io: Io)
    ensures var d' := Apply(w, d, id, payload, actor, now, io).0;
            && Frame(d, d', id)
            && (d'.files != d.files ==>
                  payload.SecretSet? && id in d.pen && d'.pen == d.pen - {id}
                  && d'.files == d.files[payload.envKey := d.pen[id]])
  {
    hide ApplyModelConfig, ApplySecretSet, ApplyRoutingConfig, ApplyPersonaEdit;
    match payload
    case ModelConfig(model, ladder) => ModelConfigKeepsTable(w, d, model, ladder, actor, now, io);
    case SecretSet(providerId, envKey) => SecretSetFrame(d, id, providerId, envKey, actor, now, io);
    case RoutingConfig(rules) => RoutingFrame(w, d, rules, actor, now, io, id);
    case PersonaEdit(slug, content) => PersonaFrame(w, d, slug, content, io, id);
  }

  // ---- what an approval comes to ---------------------------------------------------------

  /** The persona files after applying a payload: an edit that went through replaced one, anything else none. */
  predicate PersonasAfter(d: Daemon, d': Daemon, payload: Payload, r: Result<seq<Line>, ApplyError>) {
    if r.Ok? && payload.PersonaEdit? then
      && PersonaReplaced(d, d', payload.slug, payload.content)
      && r.value == [PersonaWritten(payload.slug, payload.slug in d.personas)]
    else d'.personas == d.personas && d'.backups == d.backups
  }

  lemma ApplyOnPersonas(w: World, d: Daemon, id: string, payload: Payload, actor: string, now: int, io: Io)
    ensures var (d', r) := Apply(w, d, id, payload, actor, now, io); PersonasAfter(d, d', payload, r)
  {
    hide ApplyModelConfig, ApplySecretSet, ApplyRoutingConfig, ApplyPersonaEdit, NewLadder, SameLadder;
    match payload
    case ModelConfig(model, ladder) => ModelConfigKeepsTable(w, d, model, ladder, actor, now, io);
    case SecretSet(providerId, envKey) => SecretSetSparesPersonas(d, id, providerId, envKey, actor, now, io);
    case RoutingConfig(rules) => RoutingSparesPersonas(w, d, rules, actor, now, io);
    case PersonaEdit(slug, content) => EditOnPersonas(w, d, slug, content, io);
  }

  lemma SecretSetSparesPersonas(
    d: Daemon, id: string, providerId: string, envKey: string, actor: string, now: int, io: Io)
    ensures var d' := ApplySecretSet(d, id, providerId, envKey, actor, now, io).0;
            d'.personas == d.personas && d'.backups == d.backups
  {
    hide IsValidEnvKey, EnvKeyFor;
  }

  lemma RoutingSparesPersonas(w: World, d: Daemon, rules: map<string, string>, actor: string, now: int, io: Io)
    ensures var d' := ApplyRoutingConfig(w, d, rules, actor, now, io).0;
            d'.personas == d.personas && d'.backups == d.backups
  {
    hide GoodRules, ChatProblem, WithChatRule, RoutedLines, RoutingRulesValue;
  }

  lemma EditOnPersonas(w: World, d: Daemon, slug: string, content: string, io: Io)
    ensures var (d', r) := ApplyPersonaEdit(w, d, slug, content, io);
            PersonasAfter(d, d', PersonaEdit(slug, content), r)
  {
    hide IsSafeSlug, Text.Bytes;
  }

  /** Resolving the row first changes nothing an application looks at or is measured by. */
  lemma ResolvingIsAside(w: World, d: Daemon, id: string, payload: Payload, owner: string, now: int, io: Io)
    requires id in d.proposals
    ensures var e := Resolve(d, id, Approved);
            && (GoesThrough(w, e, id, payload, io) <==> GoesThrough(w, d, id, payload, io))
            && forall d' :: (FullyApplied(e, d', payload, owner, now) <==> FullyApplied(d, d', payload, owner, now))
                         && (SameConfig(e, d') <==> SameConfig(d, d'))
  {
    hide Text.Trim, Text.Bytes, ReadBack, TrimNewlines, IsSafeSlug, IsProviderKey, EnvKeyFor;
    hide ModelValue, FallbackModelsValue, RoutingRulesValue;
  }

  /**
  An approval resolves the row once, whatever comes of it; it goes through
  exactly when the payload's conditions hold; a gated payload is applied all or
  nothing; and persona files change by an edit that went through, and only so.
  */
  lemma ApproveInFull(w: World, d: Daemon, owner: string, id: string, now: int, io: Io)
    ensures var (d', m) := Approve(w, d, owner, id, now, io);
            && (Resolves(m, id) <==> Resolvable(d, owner, id))
            && (if Resolves(m, id) then Settled(d', id) else d' == d)
            && (m.Applied? <==> Resolvable(d, owner, id) && GoesThrough(w, d, id, d.proposals[id].payload, io))
            && (id in d.proposals && Gated(w, d.proposals[id].payload) && StoreHolds(io) ==>
                  if m.Applied? then FullyApplied(d, d', d.proposals[id].payload, owner, now) else SameConfig(d, d'))
            && (if m.Applied? && d.proposals[id].payload.PersonaEdit? then
                  var edit := d.proposals[id].payload;
                  && PersonaReplaced(d, d', edit.slug, edit.content)
                  && m.lines == [PersonaWritten(edit.slug, edit.slug in d.personas)]
                else d'.personas == d.personas && d'.backups == d.backups)
  {
    hide Apply, Gated, FullyApplied, GoesThrough;
    if Resolvable(d, owner, id) {
      var d1, payload := Resolve(d, id, Approved), d.proposals[id].payload;
      ApplyFrame(w, d1, id, payload, owner, now, io);
      AppliedIff(w, d1, id, payload, owner, now, io);
      ApplyOnPersonas(w, d1, id, payload, owner, now, io);
      ResolvingIsAside(w, d, id, payload, owner, now, io);
      if Gated(w, payload) && StoreHolds(io) { GatedApplyIsAtomic(w, d1, id, payload, owner, now, io); }
      DownIsAside(Apply(w, d1, id, payload, owner, now, io).0, d, payload, owner, now);
    }
  }

  lemma DownIsAside(d': Daemon, d: Daemon, payload: Payload, owner: string, now: int)
    ensures SameConfig(d, d'.(up := false)) <==> SameConfig(d, d')
  {
  }

  /** No payload changes, no settled row changes, and the log only grows. */
  ghost predicate RowsKept(d: Daemon, d': Daemon) {
    && d.log <= d'.log
    && forall id | id in d.proposals ::
         id in d'.proposals && d'.proposals[id].payload == d.proposals[id].payload
         && (!d.proposals[id].status.Pending? ==> d'.proposals[id] == d.proposals[id])
  }

  lemma FrameKeepsRows(d: Daemon, d': Daemon, id: string)
    requires id in d.proposals && d.proposals[id].status.Pending? && Frame(Resolve(d, id, Approved), d', id)
    ensures RowsKept(d, d') && RowsKept(d, d'.(up := false))
  {
  }

  lemma ApproveKeeps(w: World, d: Daemon, owner: string, id: string, now: int, io: Io)
    ensures RowsKept(d, Approve(w, d, owner, id, now, io).0)
  {
    hide Apply, Frame, RowsKept;
    if Resolvable(d, owner, id) {
      var d1 := Resolve(d, id, Approved);
      var payload := d.proposals[id].payload;
      ApplyFrame(w, d1, id, payload, owner, now, io);
      FrameKeepsRows(d, Apply(w, d1, id, payload, owner, now, io).0, id);
    } else {
      NothingKeeps(d);
    }
  }

  /** An insert is refused, or adds one pending row and one request in flight. */
  lemma InsertIs(w: World, d: Daemon, owner: string, req: CreateRequest, id: string)
    ensures var (d', m) := Insert(w, d, owner, req, id);
            var g := Gate(w, req);
            if g.Err? then (d', m) == (d, Refused(g.error))
            else if id in d.proposals then (d', m) == (d, Refused(StoreError))
            else
              && m == Inserted(id)
              && d' == WithArrival(d, id, Arrival(Proposal(owner, g.value.payload, Pending), g.value.secret))
  {
    hide Gate;
  }

  function WithArrival(d: Daemon, id: string, a: Arrival): Daemon {
    d.(proposals := d.proposals[id := a.proposal], arriving := d.arriving[id := a])
  }

  lemma NewRowKeeps(d: Daemon, id: string, a: Arrival)
    requires id !in d.proposals
    ensures RowsKept(d, WithArrival(d, id, a)) && RowsKept(d, d)
  {
  }

  lemma InsertKeeps(w: World, d: Daemon, owner: string, req: CreateRequest, id: string)
    ensures RowsKept(d, Insert(w, d, owner, req, id).0)
  {
    hide Gate, Insert, RowsKept, WithArrival;
    InsertIs(w, d, owner, req, id);
    var g := Gate(w, req);
    if g.Ok? && id !in d.proposals {
      NewRowKeeps(d, id, Arrival(Proposal(owner, g.value.payload, Pending), g.value.secret));
    } else {
      NothingKeeps(d);
    }
  }

  lemma NothingKeeps(d: Daemon)
    ensures RowsKept(d, d)
  {
  }

  /** A step never alters a payload, never reopens a proposal, and only adds log rows. */
  lemma StepKeeps(w: World, toml: TomlConfig, d: Daemon, op: Op)
    ensures RowsKept(d, Step(w, toml, d, op).0)
  {
    hide Insert, Finish, Approve, Reject, Start, RowsKept;
    NothingKeeps(d);
    match op
    case OpCreate(owner, req, id) => InsertKeeps(w, d, owner, req, id);
    case OpFinish(id) => FinishKeeps(d, id);
    case OpApprove(owner, id, now, io) => ApproveKeeps(w, d, owner, id, now, io);
    case OpReject(owner, id) => RejectKeeps(d, owner, id);
    case OpRestart(env) => StartKeeps(w, toml, d, env);
  }

  lemma FinishKeeps(d: Daemon, id: string)
    ensures RowsKept(d, Finish(d, id).0)
  {
  }

  lemma RejectKeeps(d: Daemon, owner: string, id: string)
    ensures RowsKept(d, Reject(d, owner, id).0)
  {
  }

  lemma StartKeeps(w: World, toml: TomlConfig, d: Daemon, env: map<string, string>)
    ensures RowsKept(d, Start(w, toml, d, env).0)
  {
    hide Chosen, DefaultAtStart, ChatAtStart, LadderAtStart;
  }

  lemma StepKeepsGated(w: World, toml: TomlConfig, d: Daemon, op: Op)
    requires GatedTable(w, d)
    ensures GatedTable(w, Step(w, toml, d, op).0)
  {
    hide Gate, Gated, Apply;
    match op
    case OpCreate(owner, req, id) => if Gate(w, req).Ok? { GateMeansGated(w, req); }
    case OpApprove(owner, id, now, io) =>
      if Resolvable(d, owner, id) {
        ApplyFrame(w, Resolve(d, id, Approved), id, d.proposals[id].payload, owner, now, io);
      }
    case _ =>
  }

  lemma {:induction false} RunKeepsGatedTable(w: World, toml: TomlConfig, d: Daemon, ops: seq<Op>)
    requires GatedTable(w, d)
    ensures GatedTable(w, Run(w, toml, d, ops).0) && d.log <= Run(w, toml, d, ops).0.log
    decreases |ops|
  {
    if ops != [] {
      StepKeeps(w, toml, d, ops[0]);
      StepKeepsGated(w, toml, d, ops[0]);
      RunKeepsGatedTable(w, toml, Step(w, toml, d, ops[0]).0, ops[1..]);
    }
  }

  /**
  In any run that starts from a table of gated proposals, approving one either
  does all of it or none of it to the log and the live handles.
  */
  lemma ApprovalsAreAtomic(
    w: World, toml: TomlConfig, d0: Daemon, ops: seq<Op>, owner: string, id: string, now: int, io: Io)
    requires GatedTable(w, d0) && StoreHolds(io)
    ensures var d := Run(w, toml, d0, ops).0;
            var (d', m) := Step(w, toml, d, OpApprove(owner, id, now, io));
            if m.Applied? then id in d.proposals && FullyApplied(d, d', d.proposals[id].payload, owner, now)
            else SameConfig(d, d')
  {
    hide Apply, Gated;
    RunKeepsGatedTable(w, toml, d0, ops);
    var d := Run(w, toml, d0, ops).0;
    if Resolvable(d, owner, id) {
      GatedApplyIsAtomic(w, Resolve(d, id, Approved), id, d.proposals[id].payload, owner, now, io);
    }
  }

  // ---- approvals are once only -----------------------------------------------------

  /** The operation that resolves a proposal for good. */
  predicate Resolves(m: Message, id: string) {
    (m.Applied? || m.ApplyFailed? || m.Panicked? || m.WasRejected?) && m.id == id
  }

  predicate Settled(d: Daemon, id: string) {
    id in d.proposals && !d.proposals[id].status.Pending?
  }

  lemma StepSettles(w: World, toml: TomlConfig, d: Daemon, op: Op, id: string)
    ensures var (d', m) := Step(w, toml, d, op);
            && (Resolves(m, id) ==> id in d.proposals && d.proposals[id].status.Pending? && Settled(d', id))
            && (Settled(d, id) ==> Settled(d', id))
  {
    hide Gate, Apply;
    StepKeeps(w, toml, d, op);
    if op.OpApprove? && Resolvable(d, op.owner, op.id) {
      ApplyFrame(w, Resolve(d, op.id, Approved), op.id, d.proposals[op.id].payload, op.owner, op.now, op.io);
    }
  }

  /** A value leaves the pen by a resolution only, and one that is settled and gone does not come back. */
  predicate SecretKept(d: Daemon, d': Daemon, m: Message, id: string) {
    && (id in d.pen && id !in d'.pen ==> Resolves(m, id))
    && (Settled(d, id) && id !in d.pen && id !in d.arriving ==> id !in d'.pen && id !in d'.arriving)
  }

  lemma NewRowLeavesSecret(d: Daemon, id': string, a: Arrival, m: Message, id: string)
    requires id' !in d.proposals
    ensures SecretKept(d, WithArrival(d, id', a), m, id)
  {
  }

  lemma NothingLeavesSecret(d: Daemon, m: Message, id: string)
    ensures SecretKept(d, d, m, id)
  {
  }

  lemma InsertLeavesSecret(w: World, d: Daemon, owner: string, req: CreateRequest, id': string, id: string)
    ensures var (d', m) := Insert(w, d, owner, req, id'); SecretKept(d, d', m, id)
  {
    hide Gate, Insert, SecretKept, WithArrival;
    InsertIs(w, d, owner, req, id');
    var (d', m) := Insert(w, d, owner, req, id');
    var g := Gate(w, req);
    if g.Ok? && id' !in d.proposals {
      NewRowLeavesSecret(d, id', Arrival(Proposal(owner, g.value.payload, Pending), g.value.secret), m, id);
    } else {
      NothingLeavesSecret(d, m, id);
    }
  }

  lemma FinishLeavesSecret(d: Daemon, id': string, id: string)
    ensures var (d', m) := Finish(d, id'); SecretKept(d, d', m, id)
  {
  }

  lemma FrameLeavesSecret(d: Daemon, d': Daemon, m: Message, id': string, id: string)
    requires id' in d.proposals && Frame(Resolve(d, id', Approved), d', id') && Resolves(m, id')
    ensures SecretKept(d, d', m, id) && SecretKept(d, d'.(up := false), m, id)
  {
  }

  lemma ApproveLeavesSecret(w: World, d: Daemon, owner: string, id': string, now: int, io: Io, id: string)
    ensures var (d', m) := Approve(w, d, owner, id', now, io); SecretKept(d, d', m, id)
  {
    hide Apply, Frame, SecretKept;
    var (d', m) := Approve(w, d, owner, id', now, io);
    if Resolvable(d, owner, id') {
      var d1 := Resolve(d, id', Approved);
      var payload := d.proposals[id'].payload;
      ApplyFrame(w, d1, id', payload, owner, now, io);
      FrameLeavesSecret(d, Apply(w, d1, id', payload, owner, now, io).0, m, id', id);
    } else {
      NothingLeavesSecret(d, m, id);
    }
  }

  lemma StepResolves(w: World, toml: TomlConfig, d: Daemon, op: Op, id: string)
    ensures var (d', m) := Step(w, toml, d, op);
            && (id in d.pen && id !in d'.pen ==> op.OpRestart? || Resolves(m, id))
            && (Settled(d, id) && id !in d.pen && id !in d.arriving ==> id !in d'.pen && id !in d'.arriving)
  {
    hide Insert, Finish, Approve, LadderAtStart, Chosen, DefaultAtStart, ChatAtStart;
    if op.OpRestart? {
      StartEmpties(w, toml, d, op.env);
    } else if d.up {
      match op
      case OpCreate(owner, req, id') => InsertLeavesSecret(w, d, owner, req, id', id);
      case OpFinish(id') => FinishLeavesSecret(d, id', id);
      case OpApprove(owner, id', now, io) => ApproveLeavesSecret(w, d, owner, id', now, io, id);
      case _ =>
    }
  }

  lemma StartEmpties(w: World, toml: TomlConfig, d: Daemon, env: map<string, string>)
    ensures var (d', m) := Start(w, toml, d, env);
            d'.pen == map[] && d'.arriving == map[] && (m.Restarted? || m.StartFailed?)
  {
    hide Chosen, DefaultAtStart, ChatAtStart, LadderAtStart;
  }

  /**
  Once settled, a proposal is never resolved again, and its secret never comes
  back unless its create request has yet to stash it.
  */
  lemma {:induction false} SettledStaysSettled(w: World, toml: TomlConfig, d: Daemon, ops: seq<Op>, id: string)
    requires Settled(d, id)
    ensures var (d', ms) := Run(w, toml, d, ops);
            && |ms| == |ops| && Settled(d', id)
            && (forall i | 0 <= i < |ms| :: !Resolves(ms[i], id))
            && (id !in d.pen && id !in d.arriving ==> id !in d'.pen && id !in d'.arriving)
    decreases |ops|
  {
    if ops != [] {
      StepSettles(w, toml, d, ops[0], id);
      StepResolves(w, toml, d, ops[0], id);
      SettledStaysSettled(w, toml, Step(w, toml, d, ops[0]).0, ops[1..], id);
    }
  }

  /** In any run a proposal is resolved at most once. */
  lemma {:induction false} ResolvedAtMostOnce(w: World, toml: TomlConfig, d: Daemon, ops: seq<Op>, id: string)
    ensures var ms := Run(w, toml, d, ops).1;
            |ms| == |ops| && forall i, j | 0 <= i < j < |ms| :: !(Resolves(ms[i], id) && Resolves(ms[j], id))
    decreases |ops|
  {
    if ops != [] {
      var (d1, m) := Step(w, toml, d, ops[0]);
      StepSettles(w, toml, d, ops[0], id);
      if Resolves(m, id) {
        SettledStaysSettled(w, toml, d1, ops[1..], id);
      }
      ResolvedAtMostOnce(w, toml, d1, ops[1..], id);
    }
  }

  // ---- where a secret goes -------------------------------------------------------------

  /** The value under an id leaves the pen, other than by a restart. */
  predicate Takes(d: Daemon, op: Op, d': Daemon, id: string) {
    !op.OpRestart? && id in d.pen && id !in d'.pen
  }

  function Takings(w: World, toml: TomlConfig, d: Daemon, ops: seq<Op>, id: string): nat
    decreases |ops|
  {
    if ops == [] then 0
    else
      var d1 := Step(w, toml, d, ops[0]).0;
      (if Takes(d, ops[0], d1, id) then 1 else 0) + Takings(w, toml, d1, ops[1..], id)
  }

  /** In any run the value under an id leaves the pen at most once, and never once its proposal is settled. */
  lemma {:induction false} SecretIsTakenAtMostOnce(w: World, toml: TomlConfig, d: Daemon, ops: seq<Op>, id: string)
    ensures Takings(w, toml, d, ops, id) <= 1
    ensures Settled(d, id) ==> Takings(w, toml, d, ops, id) == 0
    decreases |ops|
  {
    hide Step;
    if ops != [] {
      StepSettles(w, toml, d, ops[0], id);
      StepResolves(w, toml, d, ops[0], id);
      SecretIsTakenAtMostOnce(w, toml, Step(w, toml, d, ops[0]).0, ops[1..], id);
    }
  }

  /** A secrets file changes only by the value that leaves the pen in the same step, under the payload's key. */
  lemma FilesComeFromThePen(w: World, toml: TomlConfig, d: Daemon, op: Op)
    ensures var d' := Step(w, toml, d, op).0;
            d'.files != d.files ==>
            && op.OpApprove? && op.id in d.proposals && d.proposals[op.id].payload.SecretSet?
            && Takes(d, op, d', op.id)
            && d'.files == d.files[d.proposals[op.id].payload.envKey := d.pen[op.id]]
  {
    hide Gate, Apply, LadderAtStart, Chosen, DefaultAtStart, ChatAtStart;
    if op.OpApprove? && Resolvable(d, op.owner, op.id) {
      ApplyFrame(w, Resolve(d, op.id, Approved), op.id, d.proposals[op.id].payload, op.owner, op.now, op.io);
    }
  }

  // ---- a secret that arrives too late ---------------------------------------------------

  predicate NoRestart(ops: seq<Op>) {
    forall op | op in ops :: !op.OpRestart?
  }

  /** The handler of an id's create request gets to its end while the daemon is up. */
  predicate FinishesWhileUp(w: World, toml: TomlConfig, d: Daemon, ops: seq<Op>, id: string)
    decreases |ops|
  {
    && ops != []
    && ((d.up && ops[0] == OpFinish(id)) || FinishesWhileUp(w, toml, Step(w, toml, d, ops[0]).0, ops[1..], id))
  }

  /** The part of the daemon that an id's secret passes through is the same. */
  predicate SameSecret(d: Daemon, d': Daemon, id: string) {
    && (id in d'.arriving <==> id in d.arriving) && (id in d.arriving ==> d'.arriving[id] == d.arriving[id])
    && (id in d'.pen <==> id in d.pen)
  }

  lemma FrameLeavesOtherSecrets(d: Daemon, d': Daemon, id': string, id: string)
    requires id' in d.proposals && Frame(Resolve(d, id', Approved), d', id') && id != id'
    ensures SameSecret(d, d', id)
  {
  }

  lemma ApproveLeavesSettledSecret(w: World, d: Daemon, owner: string, id': string, now: int, io: Io, id: string)
    requires Settled(d, id)
    ensures SameSecret(d, Approve(w, d, owner, id', now, io).0, id)
  {
    hide Apply, Frame;
    if Resolvable(d, owner, id') {
      var d1 := Resolve(d, id', Approved);
      var payload := d.proposals[id'].payload;
      ApplyFrame(w, d1, id', payload, owner, now, io);
      FrameLeavesOtherSecrets(d, Apply(w, d1, id', payload, owner, now, io).0, id', id);
    }
  }

  /** One step of a settled proposal's secret: only its own request can stash it, and nothing takes it. */
  lemma StepOfSettledSecret(w: World, toml: TomlConfig, d: Daemon, op: Op, id: string)
    requires Settled(d, id) && !op.OpRestart?
    ensures var d' := Step(w, toml, d, op).0;
            if d.up && op == OpFinish(id) then Stashed(d, d', id) else SameSecret(d, d', id)
  {
    hide Insert, Finish, Approve, SameSecret, Stashed;
    if !d.up {
      NothingIsSame(d, id);
    } else {
      match op
      case OpCreate(owner, req, id') => InsertIsSame(w, d, owner, req, id', id);
      case OpFinish(id') => FinishOfSettled(d, id', id);
      case OpApprove(owner, id', now, io) => ApproveLeavesSettledSecret(w, d, owner, id', now, io, id);
      case OpReject(owner, id') => RejectIsSame(d, owner, id', id);
    }
  }

  lemma NothingIsSame(d: Daemon, id: string)
    ensures SameSecret(d, d, id)
  {
  }

  lemma InsertIsSame(w: World, d: Daemon, owner: string, req: CreateRequest, id': string, id: string)
    requires Settled(d, id)
    ensures SameSecret(d, Insert(w, d, owner, req, id').0, id)
  {
    hide Gate, Insert;
    InsertIs(w, d, owner, req, id');
  }

  /** The request is in flight no more, and the secret it carried is in the pen. */
  predicate Stashed(d: Daemon, d': Daemon, id: string) {
    id !in d'.arriving && (id in d'.pen <==> id in d.pen || (id in d.arriving && d.arriving[id].secret.Some?))
  }

  lemma FinishOfSettled(d: Daemon, id': string, id: string)
    ensures var d' := Finish(d, id').0; if id' == id then Stashed(d, d', id) else SameSecret(d, d', id)
  {
  }

  lemma RejectIsSame(d: Daemon, owner: string, id': string, id: string)
    ensures SameSecret(d, Reject(d, owner, id').0, id)
  {
  }

  /**
  When the secret of a settled proposal turns up in the pen after all: exactly
  if the proposal was settled while its create request was in flight, and the
  handler of that request gets to its end while the daemon is up. Nothing takes
  it out again but a restart.
  */
  lemma {:induction false} LateSecretIff(w: World, toml: TomlConfig, d: Daemon, ops: seq<Op>, id: string)
    requires Settled(d, id) && NoRestart(ops)
    ensures var d' := Run(w, toml, d, ops).0;
            var stashed := FinishesWhileUp(w, toml, d, ops, id);
            && (id in d'.pen <==> id in d.pen || (id in d.arriving && d.arriving[id].secret.Some? && stashed))
            && (id in d'.arriving <==> id in d.arriving && !stashed)
    decreases |ops|
  {
    hide Step;
    if ops != [] {
      var d1 := Step(w, toml, d, ops[0]).0;
      assert ops[0] in ops && NoRestart(ops[1..]);
      StepSettles(w, toml, d, ops[0], id);
      StepOfSettledSecret(w, toml, d, ops[0], id);
      LateSecretIff(w, toml, d1, ops[1..], id);
    }
  }

  /** Approved between its insert and its answer: the approval finds no value, which then stays behind. */
  lemma ApprovedTooEarly(
    w: World, toml: TomlConfig, d: Daemon, owner: string, req: CreateRequest, id: string, now: int, io: Io)
    requires d.up && d.secretsDir && id !in d.proposals && id !in d.pen
    requires Gate(w, req).Ok? && Gate(w, req).value.payload.SecretSet?
    ensures var (d1, _) := Step(w, toml, d, OpCreate(owner, req, id));
            var (d2, m2) := Step(w, toml, d1, OpApprove(owner, id, now, io));
            var (d3, m3) := Step(w, toml, d2, OpFinish(id));
            && m2 == ApplyFailed(id, SecretExpired) && m3.Created?
            && Settled(d3, id) && id in d3.pen
  {
    hide Gate, Step, Insert, Finish, Approve;
    var payload := Gate(w, req).value.payload;
    EarlyInsert(w, toml, d, owner, req, id);
    var d1 := Step(w, toml, d, OpCreate(owner, req, id)).0;
    GateMeansGated(w, req);
    EarlyApprove(w, toml, d1, owner, payload.providerId, payload.envKey, id, now, io);
    var d2 := Step(w, toml, d1, OpApprove(owner, id, now, io)).0;
    LateFinish(w, toml, d2, id);
  }

  lemma EarlyInsert(w: World, toml: TomlConfig, d: Daemon, owner: string, req: CreateRequest, id: string)
    requires d.up && id !in d.proposals && Gate(w, req).Ok?
    ensures var p := Proposal(owner, Gate(w, req).value.payload, Pending);
            var d' := Step(w, toml, d, OpCreate(owner, req, id)).0;
            d' == d.(proposals := d.proposals[id := p],
              arriving := d.arriving[id := Arrival(p, Gate(w, req).value.secret)])
  {
    hide Gate;
  }

  lemma EarlyApprove(
    w: World, toml: TomlConfig, d: Daemon, owner: string, providerId: string,
    envKey: string, id: string, now: int, io: Io)
    requires d.up && d.secretsDir && id !in d.pen && Gated(w, SecretSet(providerId, envKey))
    requires id in d.proposals && d.proposals[id] == Proposal(owner, SecretSet(providerId, envKey), Pending)
    ensures Step(w, toml, d, OpApprove(owner, id, now, io)) ==
            (Resolve(d, id, Approved), ApplyFailed(id, SecretExpired))
  {
    hide IsValidEnvKey, EnvKeyFor;
  }

  lemma LateFinish(w: World, toml: TomlConfig, d: Daemon, id: string)
    requires d.up && id in d.arriving && d.arriving[id].secret.Some?
    ensures var (d', m) := Step(w, toml, d, OpFinish(id));
            m.Created? && id in d'.pen && d'.proposals == d.proposals
  {
  }

  // ---- the live ladder and the one a restart loads -----------------------------------

  /** The log's last ladder was the empty one, and it is live as such. */
  predicate Cleared(d: Daemon) {
    Latest(d.log, KEY_MODEL_FALLBACKS) == Some(FallbackModelsValue([])) && d.ladder == Some([])
  }

  predicate Agrees(d: Daemon, toml: TomlConfig) {
    d.ladder == Some(LadderAtStart(d.log, toml))
  }

  /** The last ladder reported as applied since the last restart, by its size. */
  function LadderReported(last: Option<nat>, ms: seq<Message>): Option<nat>
    decreases |ms|
  {
    if ms == [] then last
    else LadderReported(
      if ms[0].Restarted? then None
      else if ms[0].Applied? && LadderLine(ms[0].lines).Some? then LadderLine(ms[0].lines)
      else last, ms[1..])
  }

  lemma {:induction false} NoLadderLine(lines: seq<Line>)
    requires forall l | l in lines :: !l.LadderApplied?
    ensures LadderLine(lines) == None
  {
    if lines != [] {
      assert lines[|lines| - 1] in lines;
      NoLadderLine(lines[..|lines| - 1]);
    }
  }

  lemma {:induction false} RoutedLinesAreRouted(
    classes: seq<Routing.RouteClass>, rules: map<string, string>, live: bool)
    ensures forall l | l in RoutedLines(classes, rules, live) :: l.Routed?
  {
    if classes != [] { RoutedLinesAreRouted(classes[1..], rules, live); }
  }

  lemma RowAdded(log: seq<Row>, row: Row, key: string)
    ensures Latest(log + [row], key) == if row.key == key then Some(row.value) else Latest(log, key)
  {
    assert (log + [row])[..|log|] == log;
  }

  lemma SecretSetLadder(d: Daemon, id: string, providerId: string, envKey: string, actor: string, now: int, io: Io)
    ensures var (d', r) := ApplySecretSet(d, id, providerId, envKey, actor, now, io);
            SameLadder(d, d') && (r.Ok? ==> LadderLine(r.value) == None)
  {
    hide IsValidEnvKey, EnvKeyFor;
    var d' := ApplySecretSet(d, id, providerId, envKey, actor, now, io).0;
    assert (SECRET_SET_PREFIX + envKey)[0] == 's' && KEY_MODEL_FALLBACKS[0] == 'm';
    if d'.log != d.log { assert d'.log[..|d'.log| - 1] == d.log; }
  }

  lemma RoutingLadder(w: World, d: Daemon, rules: map<string, string>, actor: string, now: int, io: Io)
    ensures var (d', r) := ApplyRoutingConfig(w, d, rules, actor, now, io);
            SameLadder(d, d') && (r.Ok? ==> LadderLine(r.value) == None)
  {
    hide GoodRules, ChatProblem, WithChatRule, RoutedLines, RoutingRulesValue, Latest, LadderLine;
    var r := ApplyRoutingConfig(w, d, rules, actor, now, io).1;
    RoutedLinesAreRouted(Routing.ALL_CLASSES, rules, d.provider.Some?);
    if r.Ok? { NoLadderLine(r.value); }
    assert KEY_MODEL_FALLBACKS[0] == 'm' && KEY_ROUTING_RULES[0] == 'r';
    RowAdded(d.log, WebRow(KEY_ROUTING_RULES, RoutingRulesValue(rules), actor, now), KEY_MODEL_FALLBACKS);
  }

  /** The ladder a payload applies when its approval succeeds. */
  function LadderIn(payload: Payload): Option<seq<string>> {
    if payload.ModelConfig? then payload.fallbackModels else None
  }

  /**
  An approval that succeeds with a ladder replaces row and live ladder and
  reports it; any other leaves both alone.
  */
  lemma ApplyLadderView(w: World, d: Daemon, id: string, payload: Payload, actor: string, now: int, io: Io)
    ensures var (d', r) := Apply(w, d, id, payload, actor, now, io);
            if r.Ok? && LadderIn(payload).Some?
            then NewLadder(d, d', LadderIn(payload).value) && LadderLine(r.value) == Some(|LadderIn(payload).value|)
            else SameLadder(d, d') && (r.Ok? ==> LadderLine(r.value) == None)
  {
    hide ApplyDefault, ApplyLadder, Text.Trim, IsSafeSlug, GoodRules,
        ChatProblem, RoutedLines, IsValidEnvKey, EnvKeyFor;
    match payload
    case ModelConfig(model, ladder) => ModelConfigKeepsTable(w, d, model, ladder, actor, now, io);
    case SecretSet(providerId, envKey) => SecretSetLadder(d, id, providerId, envKey, actor, now, io);
    case RoutingConfig(rules) => RoutingLadder(w, d, rules, actor, now, io);
    case PersonaEdit(_, _) =>
  }

  /** What the reports so far say of the live ladder. */
  predicate LadderAsReported(d: Daemon, toml: TomlConfig, last: Option<nat>) {
    match last
    case None => Agrees(d, toml)
    case Some(n) =>
      && d.ladder.Some? && |d.ladder.value| == n && !HasBlank(d.ladder.value)
      && Latest(d.log, KEY_MODEL_FALLBACKS) == Some(FallbackModelsValue(d.ladder.value))
  }

  /** An approval under way. */
  predicate Approves(d: Daemon, op: Op) {
    d.up && op.OpApprove? && Resolvable(d, op.owner, op.id)
  }

  /** The handles a start comes up with. */
  predicate Reloaded(w: World, toml: TomlConfig, d: Daemon, op: Op, d': Daemon) {
    && op.OpRestart? && d'.log == d.log && d'.ladder == Some(LadderAtStart(d.log, toml))
    && d'.personas == d.personas && d'.backups == d.backups
    && d'.provider == Chosen(w, op.env, DefaultAtStart(d.log, toml), ChatAtStart(d.log, toml)) && d'.provider.Some?
  }

  /** Only an approval or a start changes the log or a live handle. */
  lemma QuietStep(w: World, toml: TomlConfig, d: Daemon, op: Op)
    requires !Approves(d, op)
    ensures var (d', m) := Step(w, toml, d, op);
            !m.Applied? && if m.Restarted? then Reloaded(w, toml, d, op, d') else SameConfig(d, d')
  {
    hide Gate, Apply, Chosen, DefaultAtStart, ChatAtStart, LadderAtStart;
  }

  /** An approval resolves the row, applies its payload and reports what came of it. */
  lemma ApprovingStep(w: World, toml: TomlConfig, d: Daemon, op: Op)
    requires Approves(d, op)
    ensures var (d', m) := Step(w, toml, d, op);
            var (d1, r) := Apply(w, Resolve(d, op.id, Approved), op.id,
                d.proposals[op.id].payload, op.owner, op.now, op.io);
            && d' == d1.(up := d'.up) && (m.Applied? <==> r.Ok?) && !m.Restarted?
            && (m.Applied? ==> m == Applied(op.id, r.value) && d'.up)
  {
    hide Apply;
    ApplyFrame(w, Resolve(d, op.id, Approved), op.id, d.proposals[op.id].payload, op.owner, op.now, op.io);
  }

  lemma StepKeepsLadder(w: World, toml: TomlConfig, d: Daemon, op: Op, last: Option<nat>)
    requires LadderAsReported(d, toml, last)
    ensures var (d', m) := Step(w, toml, d, op); LadderAsReported(d', toml, LadderReported(last, [m]))
  {
    hide Step, Apply, Text.IsBlank, FallbackModelsValue, FallbackModelsFromValue, Chosen, HasBlank, LadderLine;
    var (d', m) := Step(w, toml, d, op);
    assert [m][1..] == [];
    if Approves(d, op) {
      ApprovingStep(w, toml, d, op);
      ApplyLadderView(w, Resolve(d, op.id, Approved), op.id, d.proposals[op.id].payload, op.owner, op.now, op.io);
    } else {
      QuietStep(w, toml, d, op);
    }
  }

  lemma ReportedOneByOne(last: Option<nat>, m: Message, ms: seq<Message>)
    ensures LadderReported(last, [m] + ms) == LadderReported(LadderReported(last, [m]), ms)
  {
    assert [m][1..] == [] && ([m] + ms)[1..] == ms && ([m] + ms)[0] == m;
  }

  lemma {:induction false} RunKeepsLadder(w: World, toml: TomlConfig, d: Daemon, ops: seq<Op>, last: Option<nat>)
    requires LadderAsReported(d, toml, last)
    ensures var (d', ms) := Run(w, toml, d, ops); LadderAsReported(d', toml, LadderReported(last, ms))
    decreases |ops|
  {
    hide Step, LadderAsReported, LadderReported;
    if ops == [] {
      NothingReported(last);
    } else {
      var (d1, m) := Step(w, toml, d, ops[0]);
      StepKeepsLadder(w, toml, d, ops[0], last);
      RunKeepsLadder(w, toml, d1, ops[1..], LadderReported(last, [m]));
      ReportedOneByOne(last, m, Run(w, toml, d1, ops[1..]).1);
    }
  }

  lemma NothingReported(last: Option<nat>)
    ensures LadderReported(last, []) == last
  {
  }

  /** A reported ladder is what a restart loads, except that the empty one gives way to TOML. */
  lemma ReportedLadderAtStart(d: Daemon, toml: TomlConfig, n: nat)
    requires LadderAsReported(d, toml, Some(n))
    ensures LadderAtStart(d.log, toml) == if n == 0 then toml.ladder else d.ladder.value
  {
    FallbackRoundTrip(d.ladder.value);
  }

  /**
  From a fresh start, after any run, with any write failing: the live ladder is
  the one a restart would load, except exactly when the last ladder reported as
  applied since the last restart was the empty one and the TOML ladder is not empty.
  */
  lemma LiveLadderMatchesRestart(w: World, toml: TomlConfig, d0: Daemon, ops: seq<Op>)
    requires Agrees(d0, toml)
    ensures var (d, ms) := Run(w, toml, d0, ops);
            Agrees(d, toml) <==> !(LadderReported(None, ms) == Some(0) && toml.ladder != [])
  {
    hide LadderAtStart, Chosen, DefaultAtStart, ChatAtStart, FallbackModelsValue;
    RunKeepsLadder(w, toml, d0, ops, None);
    var (d, ms) := Run(w, toml, d0, ops);
    var last := LadderReported(None, ms);
    if last.Some? { ReportedLadderAtStart(d, toml, last.value); }
  }

  /** The ladder named by the last approved payload that applied one since the last restart. */
  function LastLadder(w: World, toml: TomlConfig, d: Daemon, ops: seq<Op>, last: Option<seq<string>>)
    : Option<seq<string>>
    decreases |ops|
  {
    if ops == [] then last
    else
      var (d1, m) := Step(w, toml, d, ops[0]);
      LastLadder(w, toml, d1, ops[1..],
                 if m.Restarted? then None
                 else if m.Applied? && m.id in d.proposals && LadderIn(d.proposals[m.id].payload).Some?
                 then LadderIn(d.proposals[m.id].payload)
                 else last)
  }

  /** The live ladder is the last one applied, as long as there is one. */
  predicate IsLive(d: Daemon, last: Option<seq<string>>) {
    last.Some? ==>
      && d.ladder == last && !HasBlank(last.value)
      && Latest(d.log, KEY_MODEL_FALLBACKS) == Some(FallbackModelsValue(last.value))
  }

  lemma StepKeepsLive(w: World, toml: TomlConfig, d: Daemon, op: Op, last: Option<seq<string>>)
    requires d.ladder.Some? && IsLive(d, last)
    ensures var (d', m) := Step(w, toml, d, op);
            && d'.ladder.Some?
            && IsLive(d', if m.Restarted? then None
                          else if m.Applied? && m.id in d.proposals && LadderIn(d.proposals[m.id].payload).Some?
                          then LadderIn(d.proposals[m.id].payload)
                          else last)
  {
    hide Step, Apply, Text.IsBlank, FallbackModelsValue, LadderAtStart, Chosen, HasBlank, LadderLine;
    if !Approves(d, op) {
      QuietStep(w, toml, d, op);
    } else {
      ApprovingStep(w, toml, d, op);
      ApplyLadderView(w, Resolve(d, op.id, Approved), op.id, d.proposals[op.id].payload, op.owner, op.now, op.io);
    }
  }

  lemma {:induction false} RunKeepsLive(w: World, toml: TomlConfig, d: Daemon, ops: seq<Op>, last: Option<seq<string>>)
    requires d.ladder.Some? && IsLive(d, last)
    ensures IsLive(Run(w, toml, d, ops).0, LastLadder(w, toml, d, ops, last))
    decreases |ops|
  {
    hide Step, IsLive, LadderIn;
    if ops != [] {
      var (d1, m) := Step(w, toml, d, ops[0]);
      StepKeepsLive(w, toml, d, ops[0], last);
      RunKeepsLive(w, toml, d1, ops[1..],
                   if m.Restarted? then None
                   else if m.Applied? && m.id in d.proposals && LadderIn(d.proposals[m.id].payload).Some?
                   then LadderIn(d.proposals[m.id].payload)
                   else last);
    }
  }

  /** The last ladder applied since the last restart is live, and if not empty it survives the next one unchanged. */
  lemma LastLadderSurvives(w: World, toml: TomlConfig, d0: Daemon, ops: seq<Op>)
    requires Agrees(d0, toml) && LastLadder(w, toml, d0, ops, None).Some?
    ensures var models := LastLadder(w, toml, d0, ops, None).value;
            var d := Run(w, toml, d0, ops).0;
            && d.ladder == Some(models)
            && LadderAtStart(d.log, toml) == if models == [] then toml.ladder else models
  {
    var models := LastLadder(w, toml, d0, ops, None).value;
    RunKeepsLive(w, toml, d0, ops, None);
    FallbackRoundTrip(models);
  }

  // ---- what the persona files hold -----------------------------------------------------------

  function TextOf(d: Daemon, slug: string): Option<string> {
    if slug in d.personas then Some(d.personas[slug]) else None
  }

  /** The text a step writes under a slug: the content of the edit it reports as applied. */
  function EditOf(d: Daemon, m: Message, slug: string): Option<string> {
    if && m.Applied? && m.id in d.proposals && d.proposals[m.id].payload.PersonaEdit?
       && d.proposals[m.id].payload.slug == slug
    then Some(d.proposals[m.id].payload.content)
    else None
  }

  function LastEdit(w: World, toml: TomlConfig, d: Daemon, ops: seq<Op>, slug: string, last: Option<string>)
    : Option<string>
    decreases |ops|
  {
    if ops == [] then last
    else
      var (d1, m) := Step(w, toml, d, ops[0]);
      LastEdit(w, toml, d1, ops[1..], slug, if EditOf(d, m, slug).Some? then EditOf(d, m, slug) else last)
  }

  lemma StepOnPersonas(w: World, toml: TomlConfig, d: Daemon, op: Op, slug: string)
    ensures var (d', m) := Step(w, toml, d, op);
            && TextOf(d', slug) == (if EditOf(d, m, slug).Some? then EditOf(d, m, slug) else TextOf(d, slug))
            && d.backups <= d'.backups
            && (EditOf(d, m, slug).Some? && slug in d.personas ==> (slug, d.personas[slug]) in d'.backups)
  {
    hide Step, Approve, Gated, FullyApplied, GoesThrough, LadderAtStart, Chosen, DefaultAtStart, ChatAtStart;
    if Approves(d, op) {
      ApproveInFull(w, d, op.owner, op.id, op.now, op.io);
      ApprovingIsApprove(w, toml, d, op);
    } else {
      QuietStep(w, toml, d, op);
    }
  }

  lemma ApprovingIsApprove(w: World, toml: TomlConfig, d: Daemon, op: Op)
    requires Approves(d, op)
    ensures Step(w, toml, d, op) == Approve(w, d, op.owner, op.id, op.now, op.io)
  {
    hide Approve;
  }

  /** Over any run, a slug's file holds the content of the last applied edit of it, or what it held before. */
  lemma {:induction false} PersonaHoldsLastEdit(w: World, toml: TomlConfig, d: Daemon, ops: seq<Op>, slug: string)
    ensures TextOf(Run(w, toml, d, ops).0, slug) == LastEdit(w, toml, d, ops, slug, TextOf(d, slug))
    decreases |ops|
  {
    hide Step, TextOf, EditOf;
    if ops != [] {
      StepOnPersonas(w, toml, d, ops[0], slug);
      PersonaHoldsLastEdit(w, toml, Step(w, toml, d, ops[0]).0, ops[1..], slug);
    }
  }

  /** Over any run, no text a persona ever had is lost: it is still its file's, or it was backed up. */
  lemma {:induction false} NoTextIsLost(w: World, toml: TomlConfig, d: Daemon, ops: seq<Op>, slug: string)
    requires slug in d.personas
    ensures var d' := Run(w, toml, d, ops).0;
            && d.backups <= d'.backups
            && (TextOf(d', slug) == Some(d.personas[slug]) || (slug, d.personas[slug]) in d'.backups)
    decreases |ops|
  {
    hide Step, EditOf;
    if ops != [] {
      var d1 := Step(w, toml, d, ops[0]).0;
      StepOnPersonas(w, toml, d, ops[0], slug);
      NoTextIsLost(w, toml, d1, ops[1..], slug);
      var last := Run(w, toml, d, ops).0;
      if TextOf(d1, slug) != TextOf(d, slug) {
        assert (slug, d.personas[slug]) in d1.backups && d1.backups <= last.backups;
      }
    }
  }
}
