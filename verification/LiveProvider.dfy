/**
Which model answers a chat turn: the one approvals have made live, and the one
the next start of the daemon would come up with.
*/
module LiveProvider {
  import opened Wrappers
  import opened ConfigStore
  import opened Proposals
  import opened ProposalRuns
  import Routing
  import Text

  /** The default model in effect, the chat_turn rule in effect, and the model that is live. */
  datatype Choice = Choice(model: string, chat: Option<string>, live: string)

  /** A default model that takes effect, whatever becomes of the ladder approved with it. */
  function WithDefault(w: World, d: Daemon, model: Option<string>, io: Io, c: Choice): Choice {
    if DefaultTakes(w, d, model, io) then Choice(Text.Trim(model.value), c.chat, Text.Trim(model.value)) else c
  }

  /** The chat_turn rule under approved rules: their own, else the file's. */
  function ChatUnder(toml: TomlConfig, rules: map<string, string>): Option<string> {
    if "chat_turn" in rules then Some(Text.Trim(rules["chat_turn"])) else Routing.Named(toml.rules, Routing.ChatTurn)
  }

  /** Rules replace the earlier ones whole, and without a chat_turn rule of theirs the file's counts again. */
  function WithRules(w: World, toml: TomlConfig, d: Daemon, rules: map<string, string>, io: Io, c: Choice): Choice {
    if !RulesTake(w, d, rules, io) then c
    else Choice(c.model, ChatUnder(toml, rules), if "chat_turn" in rules then Text.Trim(rules["chat_turn"]) else c.live)
  }

  /** What one operation settles: an approved default and an approved chat_turn rule go live, a start chooses anew. */
  function Chooses(w: World, toml: TomlConfig, d: Daemon, op: Op, c: Choice): Choice {
    if op.OpRestart? then
      var chosen := Chosen(w, op.env, c.model, c.chat);
      if chosen.Some? then c.(live := chosen.value) else c
    else if !Approves(d, op) then c
    else
      match d.proposals[op.id].payload
      case ModelConfig(model, _) => WithDefault(w, d, model, op.io, c)
      case RoutingConfig(rules) => WithRules(w, toml, d, rules, op.io, c)
      case _ => c
  }

  /** What a whole run settles. */
  function Choices(w: World, toml: TomlConfig, d: Daemon, ops: seq<Op>, c: Choice): Choice
    decreases |ops|
  {
    if ops == [] then c
    else Choices(w, toml, Step(w, toml, d, ops[0]).0, ops[1..], Chooses(w, toml, d, ops[0], c))
  }

  /** The daemon and its log are as the choice says. */
  predicate Follows(toml: TomlConfig, d: Daemon, c: Choice) {
    && d.provider == Some(c.live) && DefaultAtStart(d.log, toml) == c.model && ChatAtStart(d.log, toml) == c.chat
  }

  function ChoiceOf(toml: TomlConfig, d: Daemon): (c: Choice)
    requires d.provider.Some?
    ensures Follows(toml, d, c)
  {
    Choice(DefaultAtStart(d.log, toml), ChatAtStart(d.log, toml), d.provider.value)
  }

  // ---- what each write does to the choice ----------------------------------------------

  lemma KeysDiffer(envKey: string)
    ensures KEY_MODEL_SELECTED != KEY_ROUTING_RULES && KEY_MODEL_FALLBACKS != KEY_ROUTING_RULES
    ensures KEY_MODEL_SELECTED != KEY_MODEL_FALLBACKS
    ensures SECRET_SET_PREFIX + envKey != KEY_MODEL_SELECTED && SECRET_SET_PREFIX + envKey != KEY_ROUTING_RULES
  {
    assert KEY_MODEL_SELECTED[0] == 'm' && KEY_MODEL_FALLBACKS[0] == 'm' && KEY_ROUTING_RULES[0] == 'r';
    assert (SECRET_SET_PREFIX + envKey)[0] == 's' && |KEY_MODEL_SELECTED| != |KEY_MODEL_FALLBACKS|;
  }

  lemma OtherRow(toml: TomlConfig, log: seq<Row>, row: Row)
    requires row.key != KEY_MODEL_SELECTED && row.key != KEY_ROUTING_RULES
    ensures DefaultAtStart(log + [row], toml) == DefaultAtStart(log, toml)
    ensures ChatAtStart(log + [row], toml) == ChatAtStart(log, toml)
  {
    hide Latest;
    RowAdded(log, row, KEY_MODEL_SELECTED);
    RowAdded(log, row, KEY_ROUTING_RULES);
  }

  lemma DefaultRow(toml: TomlConfig, log: seq<Row>, model: string, actor: string, now: int)
    requires !Text.IsBlank(model)
    ensures var log' := log + [WebRow(KEY_MODEL_SELECTED, ModelValue(model), actor, now)];
            DefaultAtStart(log', toml) == model && ChatAtStart(log', toml) == ChatAtStart(log, toml)
  {
    hide Latest, ModelValue, ModelFromValue, Text.IsBlank;
    var row := WebRow(KEY_MODEL_SELECTED, ModelValue(model), actor, now);
    KeysDiffer("");
    RowAdded(log, row, KEY_MODEL_SELECTED);
    RowAdded(log, row, KEY_ROUTING_RULES);
    ModelRoundTrip(model);
  }

  lemma RulesRow(toml: TomlConfig, log: seq<Row>, rules: map<string, string>, actor: string, now: int)
    requires GoodRules(rules)
    ensures var log' := log + [WebRow(KEY_ROUTING_RULES, RoutingRulesValue(rules), actor, now)];
            && DefaultAtStart(log', toml) == DefaultAtStart(log, toml)
            && ChatAtStart(log', toml) == ChatUnder(toml, rules)
  {
    hide Latest, RoutingRulesValue, Routing.Loaded, Routing.Parse, Text.IsBlank, Text.Trim;
    var row := WebRow(KEY_ROUTING_RULES, RoutingRulesValue(rules), actor, now);
    KeysDiffer("");
    RowAdded(log, row, KEY_MODEL_SELECTED);
    RowAdded(log, row, KEY_ROUTING_RULES);
    Routing.StoredRulesLoad(log + [row], rules, toml.rules, Routing.ChatTurn);
  }

  lemma ApplyDefaultFollows(
    w: World, toml: TomlConfig, d: Daemon, raw: string, actor: string, now: int, io: Io, c: Choice)
    ensures var d' := ApplyDefault(w, d, raw, actor, now, io.first).0;
            Follows(toml, d, c) ==> Follows(toml, d', WithDefault(w, d, Some(raw), io, c))
  {
    DefaultOutcome(w, d, raw, actor, now, io);
    Text.TrimByIdempotent(Text.Whitespace, raw);
    hide ApplyDefault, DefaultAtStart, ChatAtStart, ModelValue, Connect;
    if DefaultTakes(w, d, Some(raw), io) {
      DefaultRow(toml, d.log, Text.Trim(raw), actor, now);
      var row := WebRow(KEY_MODEL_SELECTED, ModelValue(Text.Trim(raw)), actor, now);
      assert d.log + [row] + [] == d.log + [row];
    }
  }

  lemma ApplyLadderFollows(
    toml: TomlConfig, d: Daemon, models: seq<string>, actor: string, now: int, stored: bool, c: Choice)
    ensures Follows(toml, d, c) ==> Follows(toml, ApplyLadder(d, models, actor, now, stored).0, c)
  {
    hide DefaultAtStart, ChatAtStart, FallbackModelsValue, HasBlank;
    KeysDiffer("");
    OtherRow(toml, d.log, WebRow(KEY_MODEL_FALLBACKS, FallbackModelsValue(models), actor, now));
  }

  lemma ApplyModelConfigFollows(
    w: World, toml: TomlConfig, d: Daemon, model: Option<string>, ladder: Option<seq<string>>,
    actor: string, now: int, io: Io, c: Choice)
    ensures Follows(toml, d, c) ==>
            Follows(toml, ApplyModelConfig(w, d, model, ladder, actor, now, io).0, WithDefault(w, d, model, io, c))
  {
    hide ApplyDefault, ApplyLadder, Follows, Connect, Text.Trim;
    var c1 := WithDefault(w, d, model, io, c);
    var d1 := if model.Some? then ApplyDefault(w, d, model.value, actor, now, io.first).0 else d;
    if model.Some? { ApplyDefaultFollows(w, toml, d, model.value, actor, now, io, c); }
    if ladder.Some? { ApplyLadderFollows(toml, d1, ladder.value, actor, now, io.second, c1); }
  }

  lemma ApplyRoutingFollows(
    w: World, toml: TomlConfig, d: Daemon, rules: map<string, string>, actor: string, now: int, io: Io, c: Choice)
    ensures Follows(toml, d, c) ==>
            Follows(toml, ApplyRoutingConfig(w, d, rules, actor, now, io).0, WithRules(w, toml, d, rules, io, c))
  {
    hide DefaultAtStart, ChatAtStart, GoodRules, ChatProblem, RulesTake,
        RoutingRulesValue, RoutedLines, Text.Trim, Routing.Named;
    RulesTakeIff(w, d, rules, io);
    if RulesTake(w, d, rules, io) { RulesRow(toml, d.log, rules, actor, now); }
  }

  lemma ApplySecretFollows(
    toml: TomlConfig, d: Daemon, id: string, providerId: string, envKey: string,
    actor: string, now: int, io: Io, c: Choice)
    ensures Follows(toml, d, c) ==> Follows(toml, ApplySecretSet(d, id, providerId, envKey, actor, now, io).0, c)
  {
    hide DefaultAtStart, ChatAtStart, IsValidEnvKey, EnvKeyFor;
    KeysDiffer(envKey);
    OtherRow(toml, d.log, WebRow(SECRET_SET_PREFIX + envKey, Parsed(JObject(map["set" := JBool(true)])), actor, now));
  }

  lemma SameChoice(toml: TomlConfig, d: Daemon, d': Daemon, c: Choice)
    requires d'.log == d.log && d'.provider == d.provider
    ensures Follows(toml, d, c) <==> Follows(toml, d', c)
  {
    hide DefaultAtStart, ChatAtStart;
  }

  lemma ApproveFollows(w: World, toml: TomlConfig, d: Daemon, op: Op, c: Choice)
    requires Approves(d, op)
    ensures Follows(toml, d, c) ==> Follows(toml, Step(w, toml, d, op).0, Chooses(w, toml, d, op, c))
  {
    hide Step, Follows, ApplyModelConfig, ApplyRoutingConfig, ApplySecretSet, WithDefault, WithRules;
    var d1 := Resolve(d, op.id, Approved);
    ApprovingStep(w, toml, d, op);
    SameChoice(toml, d, d1, c);
    match d.proposals[op.id].payload
    case ModelConfig(model, ladder) =>
      ApplyModelConfigFollows(w, toml, d1, model, ladder, op.owner, op.now, op.io, c);
      TakesAlike(w, d, d1, model, op.io);
      SameChoice(toml, ApplyModelConfig(w, d1, model, ladder, op.owner, op.now, op.io).0, Step(w, toml, d, op).0,
                 Chooses(w, toml, d, op, c));
    case RoutingConfig(rules) =>
      ApplyRoutingFollows(w, toml, d1, rules, op.owner, op.now, op.io, c);
      RulesTakeAlike(w, d, d1, rules, op.io);
      SameChoice(toml, ApplyRoutingConfig(w, d1, rules, op.owner, op.now, op.io).0, Step(w, toml, d, op).0,
                 Chooses(w, toml, d, op, c));
    case SecretSet(providerId, envKey) =>
      ApplySecretFollows(toml, d1, op.id, providerId, envKey, op.owner, op.now, op.io, c);
      SameChoice(toml, ApplySecretSet(d1, op.id, providerId, envKey, op.owner, op.now, op.io).0,
          Step(w, toml, d, op).0, c);
    case PersonaEdit(slug, content) =>
      PersonaIsSame(w, d1, slug, content, op.io);
      SameChoice(toml, d1, Step(w, toml, d, op).0, c);
  }

  lemma PersonaIsSame(w: World, d: Daemon, slug: string, content: string, io: Io)
    ensures var d' := ApplyPersonaEdit(w, d, slug, content, io).0; d'.log == d.log && d'.provider == d.provider
  {
    hide IsSafeSlug, Text.Bytes;
  }

  lemma TakesAlike(w: World, d: Daemon, d': Daemon, model: Option<string>, io: Io)
    requires d' == d.(proposals := d'.proposals)
    ensures forall c :: WithDefault(w, d, model, io, c) == WithDefault(w, d', model, io, c)
  {
    hide Text.Trim, ReadBack;
  }

  lemma RulesTakeAlike(w: World, d: Daemon, d': Daemon, rules: map<string, string>, io: Io)
    requires d' == d.(proposals := d'.proposals)
    ensures forall toml, c :: WithRules(w, toml, d, rules, io, c) == WithRules(w, toml, d', rules, io, c)
  {
    hide Text.Trim, GoodRules;
  }

  lemma StepFollows(w: World, toml: TomlConfig, d: Daemon, op: Op, c: Choice)
    ensures Follows(toml, d, c) ==> Follows(toml, Step(w, toml, d, op).0, Chooses(w, toml, d, op, c))
  {
    hide Step, DefaultAtStart, ChatAtStart, LadderAtStart, Chosen;
    if Approves(d, op) {
      ApproveFollows(w, toml, d, op, c);
    } else {
      QuietStep(w, toml, d, op);
      if op.OpRestart? { StartedIff(w, toml, d, op.env); }
    }
  }

  lemma StartedIff(w: World, toml: TomlConfig, d: Daemon, env: map<string, string>)
    ensures var m := Step(w, toml, d, OpRestart(env)).1;
            && (m == Restarted || m == StartFailed)
            && (m == Restarted <==> Chosen(w, env, DefaultAtStart(d.log, toml), ChatAtStart(d.log, toml)).Some?)
  {
    hide DefaultAtStart, ChatAtStart, LadderAtStart, Chosen;
  }

  /**
  Over any run, restarts included: the live model, the stored default and the
  stored rule are what was last settled.
  */
  lemma {:induction false} RunFollows(w: World, toml: TomlConfig, d: Daemon, ops: seq<Op>, c: Choice)
    requires Follows(toml, d, c)
    ensures Follows(toml, Run(w, toml, d, ops).0, Choices(w, toml, d, ops, c))
    decreases |ops|
  {
    hide Step, Follows, Chooses;
    if ops != [] {
      StepFollows(w, toml, d, ops[0], c);
      RunFollows(w, toml, Step(w, toml, d, ops[0]).0, ops[1..], Chooses(w, toml, d, ops[0], c));
    }
  }

  // ---- live against restarted ------------------------------------------------------------

  /** A start in this environment comes up with the model that is live now. */
  predicate RestartKeepsLive(w: World, toml: TomlConfig, d: Daemon, env: map<string, string>) {
    var (d', m) := Step(w, toml, d, OpRestart(env));
    m == Restarted && d'.provider == d.provider
  }

  /** What a choice says of the next start. */
  lemma RestartOf(w: World, toml: TomlConfig, d: Daemon, c: Choice, env: map<string, string>)
    requires Follows(toml, d, c)
    ensures RestartKeepsLive(w, toml, d, env) <==>
              if IsUsableRule(w, env, c.chat) then c.live == c.chat.value
              else CanStart(w, env, c.model) && c.live == c.model
    ensures Step(w, toml, d, OpRestart(env)).1 == StartFailed <==>
              !IsUsableRule(w, env, c.chat) && !CanStart(w, env, c.model)
    ensures Step(w, toml, d, OpRestart(env)).1 != StartFailed ==>
              Step(w, toml, d, OpRestart(env)).0.provider == Chosen(w, env, c.model, c.chat)
  {
    hide Step, DefaultAtStart, ChatAtStart, CanStart, LadderAtStart, Connected;
    StartedIff(w, toml, d, env);
    QuietStep(w, toml, d, OpRestart(env));
  }

  /**
  After any run, a restart keeps the live model exactly when a usable chat_turn
  rule names it or, without a usable rule, the stored default is it and can be
  built; and it fails exactly when there is neither.
  */
  lemma RestartKeepsLiveIff(w: World, toml: TomlConfig, d0: Daemon, ops: seq<Op>, env: map<string, string>)
    requires d0.provider.Some?
    ensures var d := Run(w, toml, d0, ops).0;
            var c := Choices(w, toml, d0, ops, ChoiceOf(toml, d0));
            && d.provider == Some(c.live)
            && (RestartKeepsLive(w, toml, d, env) <==>
                  if IsUsableRule(w, env, c.chat) then c.live == c.chat.value
                  else CanStart(w, env, c.model) && c.live == c.model)
            && (Step(w, toml, d, OpRestart(env)).1 == StartFailed <==>
                  !IsUsableRule(w, env, c.chat) && !CanStart(w, env, c.model))
  {
    hide Run, Step, RestartKeepsLive, Choices, DefaultAtStart, ChatAtStart, IsUsableRule, CanStart;
    RunFollows(w, toml, d0, ops, ChoiceOf(toml, d0));
    RestartOf(w, toml, Run(w, toml, d0, ops).0, Choices(w, toml, d0, ops, ChoiceOf(toml, d0)), env);
  }

  /**
  An approved default is live at once. A restart keeps it unless a usable rule
  names another, or it cannot be built; and without a usable rule the restart
  fails exactly when the environment lacks the key it needs, wherever else that
  key may be stored, and it cannot be built without.
  */
  lemma ApprovedDefaultIff(
    w: World, toml: TomlConfig, d: Daemon, op: Op, model: string, ladder: Option<seq<string>>, env: map<string, string>)
    requires d.provider.Some? && Approves(d, op) && d.proposals[op.id].payload == ModelConfig(Some(model), ladder)
    requires DefaultTakes(w, d, Some(model), op.io)
    ensures var d' := Step(w, toml, d, op).0;
            var chat := ChatAtStart(d.log, toml);
            && d'.provider == Some(Text.Trim(model))
            && (RestartKeepsLive(w, toml, d', env) <==>
                  if IsUsableRule(w, env, chat) then chat == Some(Text.Trim(model))
                  else CanStart(w, env, Text.Trim(model)))
            && (Step(w, toml, d', OpRestart(env)).1 == StartFailed <==>
                  !IsUsableRule(w, env, chat) && !Connected(w, env, Text.Trim(model)) && !w.keyless(Text.Trim(model)))
  {
    hide Step, RestartKeepsLive, Connect, DefaultAtStart, ChatAtStart, Connected, Text.Trim;
    StepFollows(w, toml, d, op, ChoiceOf(toml, d));
    RestartOf(w, toml, Step(w, toml, d, op).0, Chooses(w, toml, d, op, ChoiceOf(toml, d)), env);
  }

  /** Approved rules swap the live model only when they have a chat_turn rule; clearing them swaps nothing back. */
  lemma ApprovedRulesIff(
    w: World, toml: TomlConfig, d: Daemon, op: Op, rules: map<string, string>, env: map<string, string>)
    requires d.provider.Some? && Approves(d, op) && d.proposals[op.id].payload == RoutingConfig(rules)
    requires RulesTake(w, d, rules, op.io)
    ensures var d' := Step(w, toml, d, op).0;
            var chat := ChatUnder(toml, rules);
            var model := DefaultAtStart(d.log, toml);
            && d'.provider == (if "chat_turn" in rules then chat else d.provider)
            && (RestartKeepsLive(w, toml, d', env) <==>
                  if IsUsableRule(w, env, chat) then d'.provider == chat
                  else CanStart(w, env, model) && d'.provider == Some(model))
  {
    hide Step, RestartKeepsLive, RulesTake, DefaultAtStart, ChatAtStart, Connected, CanStart, Text.Trim, Routing.Named;
    StepFollows(w, toml, d, op, ChoiceOf(toml, d));
    RestartOf(w, toml, Step(w, toml, d, op).0, Chooses(w, toml, d, op, ChoiceOf(toml, d)), env);
  }

  const ALL_STORED := Io(true, true, true)
  const CHAT_RULE := map["chat_turn" := "a"]

  lemma RuleIsGood(w: World, d: Daemon)
    requires EnvKeyFor(w.kindOf("a")).None? && w.resolves("a")
    ensures RulesTake(w, d, CHAT_RULE, ALL_STORED) && Text.Trim("a") == "a"
  {
    Text.TrimByBare(Text.Whitespace, "a");
    hide Text.Trim, EnvKeyFor;
    Routing.ParseInvertsAsStr("chat_turn", Routing.ChatTurn);
  }

  /** The first approval of the witness below. */
  lemma RuleApproved(w: World, toml: TomlConfig, d: Daemon)
    requires d.up && d.provider.Some? && EnvKeyFor(w.kindOf("a")).None? && w.resolves("a")
    requires "1" in d.proposals && d.proposals["1"] == Proposal("o", RoutingConfig(CHAT_RULE), Pending)
    ensures var d' := Step(w, toml, d, OpApprove("o", "1", 0, ALL_STORED)).0;
            && d'.up && d'.provider == Some("a") && ChatAtStart(d'.log, toml) == Some("a")
            && d'.proposals == Resolve(d, "1", Approved).proposals
  {
    hide Step, RulesTake, DefaultAtStart, ChatAtStart, GoodRules, ChatProblem, RoutedLines, Text.Trim, EnvKeyFor;
    var op := OpApprove("o", "1", 0, ALL_STORED);
    var d1 := Resolve(d, "1", Approved);
    RuleIsGood(w, d);
    RuleIsGood(w, d1);
    StepFollows(w, toml, d, op, ChoiceOf(toml, d));
    ApprovingStep(w, toml, d, op);
    ApplyFrame(w, d1, "1", RoutingConfig(CHAT_RULE), "o", 0, ALL_STORED);
    RoutingTakesIff(w, d1, CHAT_RULE, "o", 0, ALL_STORED);
  }

  /**
  Rules that send chat to "a", then a default of "b", both of vendors without
  keys: "b" is live, every start loads "a".
  */
  lemma RuleOutranksLaterDefault(w: World, toml: TomlConfig, d: Daemon, env: map<string, string>)
    requires d.up && d.provider.Some? && w.resolves("a") && w.resolves("b")
    requires EnvKeyFor(w.kindOf("a")).None? && EnvKeyFor(w.kindOf("b")).None?
    requires "1" in d.proposals && d.proposals["1"] == Proposal("o", RoutingConfig(CHAT_RULE), Pending)
    requires "2" in d.proposals && d.proposals["2"] == Proposal("o", ModelConfig(Some("b"), None), Pending)
    ensures var d1 := Step(w, toml, d, OpApprove("o", "1", 0, ALL_STORED)).0;
            var d2 := Step(w, toml, d1, OpApprove("o", "2", 0, ALL_STORED)).0;
            d2.provider == Some("b") && Step(w, toml, d2, OpRestart(env)).0.provider == Some("a")
  {
    hide Step, DefaultTakes, DefaultAtStart, ChatAtStart, CanStart, Connected, RestartKeepsLive, Text.Trim, EnvKeyFor;
    RuleApproved(w, toml, d);
    var d1 := Step(w, toml, d, OpApprove("o", "1", 0, ALL_STORED)).0;
    var op := OpApprove("o", "2", 0, ALL_STORED);
    assert "1" != "2" && Approves(d1, op);
    DefaultIsGood(w, d1);
    StepFollows(w, toml, d1, op, ChoiceOf(toml, d1));
    NeedsNoKey(w, env, "a");
    RestartOf(w, toml, Step(w, toml, d1, op).0, Choice("b", Some("a"), "b"), env);
  }

  lemma DefaultIsGood(w: World, d: Daemon)
    requires EnvKeyFor(w.kindOf("b")).None? && w.resolves("b")
    ensures DefaultTakes(w, d, Some("b"), ALL_STORED) && Text.Trim("b") == "b"
  {
    Text.TrimByBare(Text.Whitespace, "b");
    hide Text.Trim, EnvKeyFor;
  }

  lemma NeedsNoKey(w: World, env: map<string, string>, model: string)
    requires EnvKeyFor(w.kindOf(model)).None? && w.resolves(model)
    ensures IsUsableRule(w, env, Some(model))
  {
  }
}
