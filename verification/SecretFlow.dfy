/**
Where a secret value can be seen: two runs that differ only in the values of
secret_set requests are compared step by step.
*/
module SecretFlow {
  import opened Wrappers
  import opened ConfigStore
  import opened Proposals
  import opened ProposalRuns
  import Text

  /** Same keys, and values that read back alike: the one fact the daemon acts on. */
  predicate AlikeUsable(a: map<string, string>, b: map<string, string>) {
    a.Keys == b.Keys && forall k | k in a :: ReadBack(a[k]) == ReadBack(b[k])
  }

  predicate AlikeSecrets(a: Option<string>, b: Option<string>) {
    a == b || (a.Some? && b.Some? && ReadBack(a.value) == ReadBack(b.value))
  }

  /** The same requests in flight, with values that read back alike. */
  predicate AlikeArriving(a: map<string, Arrival>, b: map<string, Arrival>) {
    && a.Keys == b.Keys
    && forall k | k in a :: a[k].proposal == b[k].proposal && AlikeSecrets(a[k].secret, b[k].secret)
  }

  predicate AlikeSet(a: map<string, string>, b: map<string, string>) {
    a.Keys == b.Keys && forall k | k in a :: (a[k] == "") == (b[k] == "")
  }

  /** Everything but the secret values themselves is the same. */
  predicate Alike(a: Daemon, b: Daemon) {
    && b == a.(arriving := b.arriving, pen := b.pen, files := b.files, env := b.env)
    && AlikeArriving(a.arriving, b.arriving)
    && AlikeUsable(a.pen, b.pen) && AlikeUsable(a.files, b.files) && AlikeSet(a.env, b.env)
  }

  predicate WithinLimits(value: string) {
    value != "" && Text.Bytes(value) <= MAX_SECRET_VALUE_BYTES
  }

  /**
  Two values the gate accepts that read back alike: both as no key, both as a
  key, or both as the same unpublishable text.
  */
  predicate AlikeValues(a: string, b: string) {
    WithinLimits(a) && WithinLimits(b) && ReadBack(a) == ReadBack(b)
  }

  predicate AlikeRequests(a: CreateRequest, b: CreateRequest) {
    && b == a.(value := b.value)
    && (a.value == b.value || (a.value.Some? && b.value.Some? && AlikeValues(a.value.value, b.value.value)))
  }

  predicate AlikeOps(a: Op, b: Op) {
    if a.OpCreate? && b.OpCreate? then b == a.(req := b.req) && AlikeRequests(a.req, b.req) else a == b
  }

  lemma GateAlike(w: World, a: CreateRequest, b: CreateRequest)
    requires AlikeRequests(a, b)
    ensures Gate(w, a).Ok? <==> Gate(w, b).Ok?
    ensures Gate(w, a).Err? ==> Gate(w, a) == Gate(w, b)
    ensures Gate(w, a).Ok? ==>
              && Gate(w, b).value.payload == Gate(w, a).value.payload
              && (Gate(w, a).value.secret.Some? ==>
                    && Gate(w, a).value.secret == a.value && Gate(w, b).value.secret == b.value && b.value.Some?
                    && ReadBack(a.value.value) == ReadBack(b.value.value))
              && (Gate(w, a).value.secret.None? ==> Gate(w, b).value.secret.None?)
  {
    hide Text.Trim, IsSafeSlug, IsValidEnvKey, GoodLadder, GoodRules, EnvKeyFor, Text.Bytes, ReadBack;
  }

  lemma ConnectAlike(w: World, a: Daemon, b: Daemon, model: string)
    requires Alike(a, b)
    ensures var (c, e) := (Connect(w, a, model), Connect(w, b, model));
            if c.Ready? then e.Ready? && Alike(c.daemon, e.daemon) else e == c
  {
    hide AlikeArriving;
    var key := EnvKeyFor(w.kindOf(model));
    if key.Some? { ResolveAlike(a, b, key.value); }
  }

  lemma ResolveAlike(a: Daemon, b: Daemon, key: string)
    requires Alike(a, b)
    ensures var (c, e) := (ResolveSecret(a, key), ResolveSecret(b, key));
            if c.Ready? then e.Ready? && Alike(c.daemon, e.daemon) else e == c
  {
    hide TrimNewlines, ReadBack, AlikeArriving;
    if key in a.files { PublishedIsSet(a.files[key], b.files[key]); }
  }

  lemma PublishedIsSet(value: string, value': string)
    requires ReadBack(value) == ReadBack(value')
    ensures ReadBack(value).Usable? ==> TrimNewlines(value) != "" && TrimNewlines(value') != ""
  {
    hide TrimNewlines;
  }

  lemma DefaultAlike(w: World, a: Daemon, b: Daemon, raw: string, actor: string, now: int, stored: bool)
    requires Alike(a, b)
    ensures var (a', r) := ApplyDefault(w, a, raw, actor, now, stored);
            var (b', s) := ApplyDefault(w, b, raw, actor, now, stored);
            r == s && Alike(a', b')
  {
    hide Text.Trim, Connect, AlikeUsable, AlikeSet, AlikeArriving;
    ConnectAlike(w, a, b, Text.Trim(raw));
  }

  lemma LadderAlike(a: Daemon, b: Daemon, models: seq<string>, actor: string, now: int, stored: bool)
    requires Alike(a, b)
    ensures var (a', r) := ApplyLadder(a, models, actor, now, stored);
            var (b', s) := ApplyLadder(b, models, actor, now, stored);
            r == s && Alike(a', b')
  {
    hide AlikeUsable, AlikeSet, AlikeArriving, HasBlank;
  }

  lemma ModelConfigAlike(
    w: World, a: Daemon, b: Daemon, model: Option<string>, ladder: Option<seq<string>>, actor: string, now: int, io: Io)
    requires Alike(a, b)
    ensures var (a', r) := ApplyModelConfig(w, a, model, ladder, actor, now, io);
            var (b', s) := ApplyModelConfig(w, b, model, ladder, actor, now, io);
            r == s && Alike(a', b')
  {
    hide ApplyDefault, ApplyLadder, Alike;
    var a1 := if model.Some? then ApplyDefault(w, a, model.value, actor, now, io.first).0 else a;
    var b1 := if model.Some? then ApplyDefault(w, b, model.value, actor, now, io.first).0 else b;
    if model.Some? { DefaultAlike(w, a, b, model.value, actor, now, io.first); }
    if ladder.Some? { LadderAlike(a1, b1, ladder.value, actor, now, io.second); }
  }

  lemma SecretSetAlike(
    a: Daemon, b: Daemon, id: string, providerId: string, envKey: string, actor: string, now: int, io: Io)
    requires Alike(a, b)
    ensures var (a', r) := ApplySecretSet(a, id, providerId, envKey, actor, now, io);
            var (b', s) := ApplySecretSet(b, id, providerId, envKey, actor, now, io);
            r == s && Alike(a', b')
  {
    hide IsValidEnvKey, EnvKeyFor, ReadBack, AlikeArriving;
  }

  lemma RoutingAlike(w: World, a: Daemon, b: Daemon, rules: map<string, string>, actor: string, now: int, io: Io)
    requires Alike(a, b)
    ensures var (a', r) := ApplyRoutingConfig(w, a, rules, actor, now, io);
            var (b', s) := ApplyRoutingConfig(w, b, rules, actor, now, io);
            r == s && Alike(a', b')
  {
    hide Text.Trim, GoodRules, AlikeUsable, AlikeArriving, RoutedLines, RoutingRulesValue;
    assert ChatProblem(w, a, rules) == ChatProblem(w, b, rules);
  }

  lemma ApplyAlike(w: World, a: Daemon, b: Daemon, id: string, payload: Payload, actor: string, now: int, io: Io)
    requires Alike(a, b)
    ensures var (a', r) := Apply(w, a, id, payload, actor, now, io);
            var (b', s) := Apply(w, b, id, payload, actor, now, io);
            r == s && Alike(a', b')
  {
    match payload
    case ModelConfig(model, ladder) =>
      hide ApplyModelConfig, Alike;
      ModelConfigAlike(w, a, b, model, ladder, actor, now, io);
    case SecretSet(providerId, envKey) =>
      hide ApplySecretSet, Alike;
      SecretSetAlike(a, b, id, providerId, envKey, actor, now, io);
    case RoutingConfig(rules) =>
      hide ApplyRoutingConfig, Alike;
      RoutingAlike(w, a, b, rules, actor, now, io);
    case PersonaEdit(slug, content) =>
      hide IsSafeSlug, Text.Bytes, AlikeUsable, AlikeSet, AlikeArriving;
  }

  lemma InsertAlike(w: World, a: Daemon, b: Daemon, owner: string, req: CreateRequest, req': CreateRequest, id: string)
    requires Alike(a, b) && AlikeRequests(req, req')
    ensures Insert(w, a, owner, req, id).1 == Insert(w, b, owner, req', id).1
    ensures Alike(Insert(w, a, owner, req, id).0, Insert(w, b, owner, req', id).0)
  {
    hide Gate, Insert, ReadBack, AlikeUsable, AlikeSet, AlikeArriving;
    GateAlike(w, req, req');
    InsertIs(w, a, owner, req, id);
    InsertIs(w, b, owner, req', id);
    if Gate(w, req).Ok? {
      var g, h := Gate(w, req).value, Gate(w, req').value;
      ArrivalsAlike(a.arriving, b.arriving, id, Proposal(owner, g.payload, Pending), g.secret, h.secret);
    }
  }

  lemma ArrivalsAlike(
    a: map<string, Arrival>, b: map<string, Arrival>, id: string, p: Proposal,
    secret: Option<string>, secret': Option<string>)
    requires AlikeArriving(a, b) && AlikeSecrets(secret, secret')
    ensures AlikeArriving(a[id := Arrival(p, secret)], b[id := Arrival(p, secret')])
  {
    hide ReadBack;
  }

  lemma FinishAlike(a: Daemon, b: Daemon, id: string)
    requires Alike(a, b)
    ensures Finish(a, id).1 == Finish(b, id).1 && Alike(Finish(a, id).0, Finish(b, id).0)
  {
    hide ReadBack, AlikeSet;
  }

  lemma ApproveAlike(w: World, a: Daemon, b: Daemon, owner: string, id: string, now: int, io: Io)
    requires Alike(a, b)
    ensures Approve(w, a, owner, id, now, io).1 == Approve(w, b, owner, id, now, io).1
    ensures Alike(Approve(w, a, owner, id, now, io).0, Approve(w, b, owner, id, now, io).0)
  {
    hide Apply, AlikeUsable, AlikeSet, AlikeArriving;
    if Resolvable(a, owner, id) {
      ApplyAlike(w, Resolve(a, id, Approved), Resolve(b, id, Approved), id, a.proposals[id].payload, owner, now, io);
    }
  }

  /** A start looks at the log and at the environment it is given, never at a secret of the previous process. */
  lemma StartAlike(w: World, toml: TomlConfig, a: Daemon, b: Daemon, env: map<string, string>)
    requires Alike(a, b)
    ensures Start(w, toml, a, env).1 == Start(w, toml, b, env).1
    ensures Alike(Start(w, toml, a, env).0, Start(w, toml, b, env).0)
  {
    hide Chosen, DefaultAtStart, ChatAtStart, LadderAtStart, ReadBack;
  }

  lemma StepAlike(w: World, toml: TomlConfig, a: Daemon, b: Daemon, op: Op, op': Op)
    requires Alike(a, b) && AlikeOps(op, op')
    ensures Step(w, toml, a, op).1 == Step(w, toml, b, op').1
    ensures Alike(Step(w, toml, a, op).0, Step(w, toml, b, op').0)
  {
    hide Insert, Finish, Approve, Start, ReadBack, AlikeRequests;
    match op
    case OpCreate(owner, req, id) => InsertAlike(w, a, b, owner, req, op'.req, id);
    case OpFinish(id) => FinishAlike(a, b, id);
    case OpApprove(owner, id, now, io) => ApproveAlike(w, a, b, owner, id, now, io);
    case OpRestart(env) => StartAlike(w, toml, a, b, env);
    case _ =>
  }

  ghost predicate AlikeRuns(ops: seq<Op>, ops': seq<Op>) {
    |ops| == |ops'| && forall i | 0 <= i < |ops| :: AlikeOps(ops[i], ops'[i])
  }

  /**
  Two runs differing only in secret values that are alike produce the same
  messages, proposal rows, log rows and notices; only the pen, the secrets
  files and what was published from them into the environment can differ.
  */
  lemma {:induction false} SecretsStayInvisible(
    w: World, toml: TomlConfig, a: Daemon, b: Daemon, ops: seq<Op>, ops': seq<Op>)
    requires Alike(a, b) && AlikeRuns(ops, ops')
    ensures Run(w, toml, a, ops).1 == Run(w, toml, b, ops').1
    ensures Alike(Run(w, toml, a, ops).0, Run(w, toml, b, ops').0)
    decreases |ops|
  {
    if ops != [] {
      StepAlike(w, toml, a, b, ops[0], ops'[0]);
      SecretsStayInvisible(w, toml, Step(w, toml, a, ops[0]).0, Step(w, toml, b, ops'[0]).0, ops[1..], ops'[1..]);
    }
  }

  // ---- the fact about a value that does show ------------------------------------------

  function SecretRequest(value: string): CreateRequest {
    CreateRequest("secret_set", None, None, None, None, Some("anthropic"), Some("ANTHROPIC_API_KEY"), Some(value), None)
  }

  const MODEL_REQUEST := CreateRequest("model_config", None, None, Some("m"), None, None, None, None, None)

  const FINE := Io(true, true, true)

  /** Set a key and approve it. */
  function SetKey(value: string): seq<Op> {
    [OpCreate("o", SecretRequest(value), "1"), OpFinish("1"), OpApprove("o", "1", 0, FINE)]
  }

  /** Ask for a model of that provider and approve it. */
  const USE_MODEL: seq<Op> := [OpCreate("o", MODEL_REQUEST, "2"), OpFinish("2"), OpApprove("o", "2", 0, FINE)]

  /** A daemon with a secrets directory and no key of this provider in its environment. */
  predicate AwaitsKey(w: World, d: Daemon) {
    && d.up && d.secretsDir && !InEnv(d, "ANTHROPIC_API_KEY") && "1" !in d.proposals && "2" !in d.proposals
    && w.kindOf("m") == "anthropic" && w.resolves("m")
  }

  const KEY_PROPOSAL := Proposal("o", SecretSet("anthropic", "ANTHROPIC_API_KEY"), Pending)
  const MODEL_PROPOSAL := Proposal("o", ModelConfig(Some("m"), None), Pending)

  lemma KeyBytes()
    ensures Text.Bytes("ANTHROPIC_API_KEY") == 17
  {
    Text.AsciiBytes("ANTHROPIC_API_KEY");
  }

  lemma KeyGate(w: World, value: string)
    requires WithinLimits(value)
    ensures IsValidEnvKey("ANTHROPIC_API_KEY")
    ensures Gate(w, SecretRequest(value)) == Ok(Staged(SecretSet("anthropic", "ANTHROPIC_API_KEY"), Some(value)))
  {
    KeyBytes();
    hide Text.Bytes;
  }

  /** A request the gate accepts, through its two steps. */
  lemma Submitted(w: World, toml: TomlConfig, d: Daemon, req: CreateRequest, id: string)
    requires d.up && id !in d.proposals && Gate(w, req).Ok?
    ensures var staged := Gate(w, req).value;
            var p := Proposal("o", staged.payload, Pending);
            var (d1, m1) := Step(w, toml, d, OpCreate("o", req, id));
            var (d2, m2) := Step(w, toml, d1, OpFinish(id));
            && m1 == Inserted(id) && m2 == Created(id, p)
            && d2.proposals == d.proposals[id := p]
            && d2.pen == (if staged.secret.Some? then d.pen[id := staged.secret.value] else d.pen)
            && d2.up && d2.files == d.files && d2.env == d.env
            && d2.secretsDir == d.secretsDir && d2.provider == d.provider
  {
    hide Gate;
  }

  lemma KeyApproved(w: World, toml: TomlConfig, d: Daemon, value: string)
    requires d.up && d.secretsDir && "1" in d.pen && d.pen["1"] == value
    requires "1" in d.proposals && d.proposals["1"] == KEY_PROPOSAL
    ensures var (d2, m2) := Step(w, toml, d, OpApprove("o", "1", 0, FINE));
            && m2 == Applied("1", [SecretWritten("ANTHROPIC_API_KEY", "anthropic")])
            && d2.files == d.files["ANTHROPIC_API_KEY" := value] && d2.env == d.env && d2.secretsDir && d2.up
            && d2.proposals.Keys == d.proposals.Keys && d2.provider == d.provider
  {
    KeyBytes();
    hide Text.Bytes;
    assert IsValidEnvKey("ANTHROPIC_API_KEY");
  }

  /** What the approval of the model says, depending on how the stored key reads back. */
  function Verdict(reading: Reading, live: bool): Message {
    match reading
    case Unusable => ApplyFailed("2", NotConnected("anthropic"))
    case Unpublishable(text) => Panicked("2", "ANTHROPIC_API_KEY", text)
    case Usable => Applied("2", [DefaultSwitched("m", live)])
  }

  lemma ModelGate(w: World)
    ensures Gate(w, MODEL_REQUEST) == Ok(Staged(ModelConfig(Some("m"), None), None))
  {
    Text.TrimByBare(Text.Whitespace, "m");
    hide Text.Trim;
  }

  lemma ModelApproved(w: World, toml: TomlConfig, d: Daemon, value: string)
    requires d.up && d.secretsDir && !InEnv(d, "ANTHROPIC_API_KEY")
    requires w.kindOf("m") == "anthropic" && w.resolves("m")
    requires "2" in d.proposals && d.proposals["2"] == MODEL_PROPOSAL
    requires "ANTHROPIC_API_KEY" in d.files && d.files["ANTHROPIC_API_KEY"] == value
    ensures Step(w, toml, d, OpApprove("o", "2", 0, FINE)).1 == Verdict(ReadBack(value), d.provider.Some?)
  {
    hide ReadBack, ModelValue;
    Text.TrimByBare(Text.Whitespace, "m");
    hide Text.Trim;
  }

  lemma {:induction false} RunInTwo(w: World, toml: TomlConfig, d: Daemon, ops: seq<Op>, more: seq<Op>)
    ensures var (d1, ms) := Run(w, toml, d, ops);
            var (d2, ms') := Run(w, toml, d1, more);
            Run(w, toml, d, ops + more) == (d2, ms + ms')
    decreases |ops|
  {
    hide Step;
    if ops == [] {
      assert ops + more == more;
      assert [] + Run(w, toml, d, more).1 == Run(w, toml, d, more).1;
    } else {
      var (d1, m) := Step(w, toml, d, ops[0]);
      RunInTwo(w, toml, d1, ops[1..], more);
      assert (ops + more)[1..] == ops[1..] + more;
      Regrouped(m, Run(w, toml, d1, ops[1..]).1, Run(w, toml, Run(w, toml, d1, ops[1..]).0, more).1);
    }
  }

  lemma Regrouped(m: Message, a: seq<Message>, b: seq<Message>)
    ensures [m] + (a + b) == [m] + a + b
  {
  }

  lemma Run3(w: World, toml: TomlConfig, d: Daemon, a: Op, b: Op, c: Op)
    ensures var (d1, m1) := Step(w, toml, d, a);
            var (d2, m2) := Step(w, toml, d1, b);
            var (d3, m3) := Step(w, toml, d2, c);
            Run(w, toml, d, [a, b, c]) == (d3, [m1, m2, m3])
  {
    hide Step;
    var (d1, m1) := Step(w, toml, d, a);
    var (d2, m2) := Step(w, toml, d1, b);
    var (d3, m3) := Step(w, toml, d2, c);
    assert [a, b, c][1..] == [b, c] && [b, c][1..] == [c] && [c][1..] == [];
    assert Run(w, toml, d3, []) == (d3, []);
    assert [m3] + [] == [m3] && [m2] + [m3] == [m2, m3] && [m1] + [m2, m3] == [m1, m2, m3];
    assert Run(w, toml, d2, [c]) == (d3, [m3]);
    assert Run(w, toml, d1, [b, c]) == (d3, [m2, m3]);
  }

  lemma SetKeyAnswers(w: World, toml: TomlConfig, d: Daemon, value: string)
    requires AwaitsKey(w, d) && WithinLimits(value)
    ensures var (d', ms) := Run(w, toml, d, SetKey(value));
            && ms == [Inserted("1"), Created("1", KEY_PROPOSAL),
                 Applied("1", [SecretWritten("ANTHROPIC_API_KEY", "anthropic")])]
            && d'.up && d'.secretsDir && d'.provider == d.provider && d'.env == d.env && "2" !in d'.proposals
            && d'.files == d.files["ANTHROPIC_API_KEY" := value]
  {
    hide Step, Gate, InEnv, WithinLimits;
    var req := SecretRequest(value);
    KeyGate(w, value);
    Submitted(w, toml, d, req, "1");
    var d1 := Step(w, toml, d, OpCreate("o", req, "1")).0;
    var d2 := Step(w, toml, d1, OpFinish("1")).0;
    KeyApproved(w, toml, d2, value);
    assert "1" != "2";
    Run3(w, toml, d, OpCreate("o", req, "1"), OpFinish("1"), OpApprove("o", "1", 0, FINE));
  }

  lemma UseModelAnswers(w: World, toml: TomlConfig, d: Daemon, value: string)
    requires d.up && d.secretsDir && !InEnv(d, "ANTHROPIC_API_KEY") && "2" !in d.proposals
    requires w.kindOf("m") == "anthropic" && w.resolves("m")
    requires "ANTHROPIC_API_KEY" in d.files && d.files["ANTHROPIC_API_KEY"] == value
    ensures Run(w, toml, d, USE_MODEL).1 ==
            [Inserted("2"), Created("2", MODEL_PROPOSAL), Verdict(ReadBack(value), d.provider.Some?)]
  {
    hide Step, Gate, ReadBack;
    ModelGate(w);
    Submitted(w, toml, d, MODEL_REQUEST, "2");
    var d1 := Step(w, toml, d, OpCreate("o", MODEL_REQUEST, "2")).0;
    var d2 := Step(w, toml, d1, OpFinish("2")).0;
    ModelApproved(w, toml, d2, value);
    Run3(w, toml, d, OpCreate("o", MODEL_REQUEST, "2"), OpFinish("2"), OpApprove("o", "2", 0, FINE));
  }

  lemma WhatIsSeen(w: World, toml: TomlConfig, d: Daemon, value: string)
    requires AwaitsKey(w, d) && WithinLimits(value)
    ensures Run(w, toml, d, SetKey(value) + USE_MODEL).1 ==
            [Inserted("1"), Created("1", KEY_PROPOSAL), Applied("1", [SecretWritten("ANTHROPIC_API_KEY", "anthropic")])]
            + [Inserted("2"), Created("2", MODEL_PROPOSAL), Verdict(ReadBack(value), d.provider.Some?)]
  {
    hide Step, Run, WithinLimits, ReadBack, SetKey, Verdict;
    SetKeyAnswers(w, toml, d, value);
    var d1 := Run(w, toml, d, SetKey(value)).0;
    UseModelAnswers(w, toml, d1, value);
    RunInTwo(w, toml, d, SetKey(value), USE_MODEL);
  }

  /**
  The one fact about an accepted value that is ever seen: how it reads back once
  its line end is trimmed. It is no key, or a key, or text that cannot be put
  into an environment, in which case the process panics and prints that text.
  Two accepted values are told apart by this run exactly when they differ in it.
  */
  lemma SecretShowsIff(w: World, toml: TomlConfig, d: Daemon, value: string, value': string)
    requires AwaitsKey(w, d) && WithinLimits(value) && WithinLimits(value')
    ensures Run(w, toml, d, SetKey(value) + USE_MODEL).1 == Run(w, toml, d, SetKey(value') + USE_MODEL).1 <==>
            ReadBack(value) == ReadBack(value')
  {
    hide ReadBack, Run, WithinLimits, AwaitsKey, SetKey;
    WhatIsSeen(w, toml, d, value);
    WhatIsSeen(w, toml, d, value');
    VerdictsTellReadings(ReadBack(value), ReadBack(value'), d.provider.Some?);
    var head := [Inserted("1"), Created("1", KEY_PROPOSAL),
        Applied("1", [SecretWritten("ANTHROPIC_API_KEY", "anthropic")])];
    LastTells(head, Inserted("2"), Created("2", MODEL_PROPOSAL),
        Verdict(ReadBack(value), d.provider.Some?), Verdict(ReadBack(value'), d.provider.Some?));
  }

  lemma VerdictsTellReadings(a: Reading, b: Reading, live: bool)
    ensures Verdict(a, live) == Verdict(b, live) <==> a == b
  {
  }

  lemma LastTells(head: seq<Message>, m: Message, n: Message, a: Message, b: Message)
    ensures head + [m, n, a] == head + [m, n, b] <==> a == b
  {
    assert (head + [m, n, a])[|head| + 2] == a && (head + [m, n, b])[|head| + 2] == b;
  }

  /** A lone newline is accepted by the gate, yet it reads back as no key. */
  lemma NewlineIsUnusable()
    ensures WithinLimits("\n") && ReadBack("\n") == Unusable && WithinLimits("k") && ReadBack("k") == Usable
  {
    Text.AsciiBytes("\n");
    Text.AsciiBytes("k");
    assert "\n"[..0] == "";
  }

  /**
  A value with a NUL byte is accepted by the gate, and publishing it ends the
  daemon with the value in the panic text.
  */
  lemma NulEndsTheDaemon(w: World, toml: TomlConfig, d: Daemon)
    requires AwaitsKey(w, d)
    ensures WithinLimits("k\0") && ReadBack("k\0") == Unpublishable("k\0")
    ensures Panicked("2", "ANTHROPIC_API_KEY", "k\0") in Run(w, toml, d, SetKey("k\0") + USE_MODEL).1
  {
    Text.AsciiBytes("k\0");
    assert "k\0"[1] == '\0';
    assert ReadBack("k\0") == Unpublishable("k\0");
    hide Run, AwaitsKey, ReadBack, SetKey;
    WhatIsSeen(w, toml, d, "k\0");
    var head := [Inserted("1"), Created("1", KEY_PROPOSAL),
        Applied("1", [SecretWritten("ANTHROPIC_API_KEY", "anthropic")])];
    var tail := [Inserted("2"), Created("2", MODEL_PROPOSAL), Panicked("2", "ANTHROPIC_API_KEY", "k\0")];
    assert tail[2] in head + tail;
  }
}
