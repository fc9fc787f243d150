/**
Staged configuration proposals: the create gate the web reaches, the once-only
resolution, and what an approval does to the config log, the live handles and
the secrets directory.
*/
module Proposals {
  import opened Wrappers
  import opened ConfigStore
  import Routing
  import Text

  // ---- data ------------------------------------------------------------------------

  datatype Payload =
    | PersonaEdit(slug: string, content: string)
    | ModelConfig(defaultModel: Option<string>, fallbackModels: Option<seq<string>>)
    | SecretSet(providerId: string, envKey: string)
    | RoutingConfig(rules: map<string, string>)

  datatype Status = Pending | Approved | Rejected

  datatype Proposal = Proposal(owner: string, payload: Payload, status: Status)

  /** The one field bag every kind of request is sent in. */
  datatype CreateRequest = CreateRequest(
    kind: string,
    slug: Option<string>, content: Option<string>,
    defaultModel: Option<string>, fallbackModels: Option<seq<string>>,
    providerId: Option<string>, envKey: Option<string>, value: Option<string>,
    rules: Option<map<string, string>>)

  datatype HttpError = BadRequest | PayloadTooLarge | StoreError

  datatype ApplyError =
    | UnsafeSlug | ContentTooLarge | InvalidPersona
    | EmptyModelConfig | EmptyDefaultModel | NotConnected(kind: string) | UnresolvableModel
    | TooManyFallbacks | EmptyFallback
    | InvalidEnvKey | WrongProvider | NoSecretsDir | SecretExpired
    | InvalidRule
    | PublishPanic(envKey: string, value: string)
    | IoFailed

  datatype Line =
    | PersonaWritten(slug: string, backedUp: bool)
    | DefaultSwitched(model: string, live: bool)
    | LadderApplied(count: nat, live: bool)
    | SecretWritten(envKey: string, providerId: string)
    | RoutingCleared
    | Routed(cls: string, model: string, live: bool)

  /** What is seen of an operation: an answer, or the text of the panic that ends the process instead. */
  datatype Message =
    | Inserted(id: string)
    | Created(id: string, proposal: Proposal)
    | Refused(httpError: HttpError)
    | NoSuchProposal(id: string)
    | NotPending(id: string)
    | Applied(id: string, lines: seq<Line>)
    | ApplyFailed(id: string, error: ApplyError)
    | Panicked(id: string, envKey: string, value: string)
    | WasRejected(id: string)
    | NoSuchRequest(id: string)
    | Down
    | Restarted
    | StartFailed

  /** config.change_requested on the event stream. */
  datatype Notice = ChangeRequested(owner: string, id: string)

  /**
  Code outside the repository: the persona parser and the provider registry.
  A model `resolves` if its provider can be built when its key is set or it
  needs none, and it is `keyless` if it can be built without the key it needs.
  */
  datatype World = World(
    personaOk: string -> bool, kindOf: string -> string, resolves: string -> bool, keyless: string -> bool)

  /** What a start takes from the configuration file where the log says nothing. */
  datatype TomlConfig = TomlConfig(ladder: seq<string>, defaultModel: string, rules: map<string, string>)

  /** Which durable writes of one approval succeed. */
  datatype Io = Io(first: bool, second: bool, file: bool)

  /** A create request whose row is stored and whose handler has not answered yet. */
  datatype Arrival = Arrival(proposal: Proposal, secret: Option<string>)

  /**
  The daemon. `provider` and `ladder` are the live handles, None when not wired;
  `pen` holds secret values between proposal and approval; `files` is the
  secrets directory and `env` the process environment; `personas` holds each
  slug's SOUL.md and `backups` the texts copied beside one. A panic in the console
  loop ends the process: `up` is then false until a restart.
  */
  datatype Daemon = Daemon(
    up: bool,
    arriving: map<string, Arrival>,
    proposals: map<string, Proposal>,
    log: seq<Row>,
    provider: Option<string>,
    ladder: Option<seq<string>>,
    pen: map<string, string>,
    secretsDir: bool,
    files: map<string, string>,
    env: map<string, string>,
    personas: map<string, string>,
    backups: seq<(string, string)>,
    notices: seq<Notice>)

  const MAX_CONTENT_BYTES := 256 * 1024
  const MAX_SECRET_VALUE_BYTES := 8 * 1024
  const MAX_FALLBACK_MODELS := 16

  // ---- checks ------------------------------------------------------------------------

  predicate IsSafeSlug(s: string) {
    s != "" && Text.Bytes(s) <= 64
    && forall i | 0 <= i < |s| ::
         'a' <= s[i] <= 'z' || 'A' <= s[i] <= 'Z' || '0' <= s[i] <= '9' || s[i] == '-' || s[i] == '_'
  }

  predicate IsValidEnvKey(s: string) {
    3 <= Text.Bytes(s) <= 64 && |s| > 0 && 'A' <= s[0] <= 'Z'
    && forall i | 0 <= i < |s| :: 'A' <= s[i] <= 'Z' || '0' <= s[i] <= '9' || s[i] == '_'
  }

  function EnvKeyFor(providerId: string): Option<string> {
    if providerId == "anthropic" then Some("ANTHROPIC_API_KEY")
    else if providerId == "openai" then Some("OPENAI_API_KEY")
    else if providerId == "gemini" then Some("GEMINI_API_KEY")
    else if providerId == "groq" then Some("GROQ_API_KEY")
    else if providerId == "openrouter" then Some("OPENROUTER_API_KEY")
    else None
  }

  predicate HasBlank(models: seq<string>) {
    exists m | m in models :: Text.IsBlank(m)
  }

  predicate GoodLadder(models: seq<string>) {
    |models| <= MAX_FALLBACK_MODELS && !HasBlank(models)
  }

  predicate GoodRules(rules: map<string, string>) {
    forall cls | cls in rules :: Routing.Parse(cls).Some? && !Text.IsBlank(rules[cls])
  }

  // ---- create --------------------------------------------------------------------------

  /** What a request is turned into, with the secret value it carries. */
  datatype Staged = Staged(payload: Payload, secret: Option<string>)

  /** The checks of proposals_create_handler, kind by kind. */
  function Gate(w: World, req: CreateRequest): Result<Staged, HttpError> {
    if req.kind == "persona_edit" then
      if req.slug.None? || req.content.None? then Err(BadRequest)
      else if !IsSafeSlug(req.slug.value) then Err(BadRequest)
      else if Text.Bytes(req.content.value) > MAX_CONTENT_BYTES then Err(PayloadTooLarge)
      else if !w.personaOk(req.content.value) then Err(BadRequest)
      else Ok(Staged(PersonaEdit(req.slug.value, req.content.value), None))
    else if req.kind == "model_config" then
      var model := if req.defaultModel.Some? then Some(Text.Trim(req.defaultModel.value)) else None;
      if req.fallbackModels.None? && model.None? then Err(BadRequest)
      else if model == Some("") then Err(BadRequest)
      else if req.fallbackModels.Some? && !GoodLadder(req.fallbackModels.value) then Err(BadRequest)
      else Ok(Staged(ModelConfig(model, req.fallbackModels), None))
    else if req.kind == "secret_set" then
      if req.providerId.None? || req.envKey.None? || req.value.None? then Err(BadRequest)
      else if !IsValidEnvKey(req.envKey.value) || EnvKeyFor(req.providerId.value) != req.envKey then Err(BadRequest)
      else if req.value.value == "" then Err(BadRequest)
      else if Text.Bytes(req.value.value) > MAX_SECRET_VALUE_BYTES then Err(PayloadTooLarge)
      else Ok(Staged(SecretSet(req.providerId.value, req.envKey.value), req.value))
    else if req.kind == "routing_config" then
      if req.rules.None? || !GoodRules(req.rules.value) then Err(BadRequest)
      else Ok(Staged(RoutingConfig(req.rules.value), None))
    else Err(BadRequest)
  }

  /** The providers keys are kept for, with the key of each. */
  predicate IsProviderKey(providerId: string, envKey: string) {
    || (providerId == "anthropic" && envKey == "ANTHROPIC_API_KEY")
    || (providerId == "openai" && envKey == "OPENAI_API_KEY")
    || (providerId == "gemini" && envKey == "GEMINI_API_KEY")
    || (providerId == "groq" && envKey == "GROQ_API_KEY")
    || (providerId == "openrouter" && envKey == "OPENROUTER_API_KEY")
  }

  lemma KnownKeys(providerId: string, envKey: string)
    ensures IsValidEnvKey(envKey) && EnvKeyFor(providerId) == Some(envKey) <==> IsProviderKey(providerId, envKey)
  {
    hide IsValidEnvKey;
    if IsProviderKey(providerId, envKey) {
      var vendor :=
        if providerId == "openrouter" then "OPENROUTER" else if providerId == "anthropic" then "ANTHROPIC"
        else if providerId == "openai" then "OPENAI" else if providerId == "gemini" then "GEMINI" else "GROQ";
      assert envKey == vendor + "_API_KEY";
      ApiKeyIsValid(vendor);
    }
  }

  lemma ApiKeyIsValid(vendor: string)
    requires vendor in ["ANTHROPIC", "OPENAI", "GEMINI", "GROQ", "OPENROUTER"]
    ensures IsValidEnvKey(vendor + "_API_KEY")
  {
    var key := vendor + "_API_KEY";
    assert 1 <= |vendor| <= 10 && forall i | 0 <= i < |vendor| :: 'A' <= vendor[i] <= 'Z';
    assert forall i | 0 <= i < |key| :: 'A' <= key[i] <= 'Z' || key[i] == '_';
    Text.AsciiBytes(key);
    hide Text.Bytes;
  }

  /** The payload a request of a kind carries, in the request's own fields; None when it is refused. */
  predicate IsStagedAs(w: World, req: CreateRequest, payload: Payload, secret: Option<string>) {
    match payload
    case PersonaEdit(slug, content) =>
      && req.kind == "persona_edit" && req.slug == Some(slug) && req.content == Some(content) && secret.None?
      && IsSafeSlug(slug) && Text.Bytes(content) <= 256 * 1024 && w.personaOk(content)
    case ModelConfig(model, ladder) =>
      && req.kind == "model_config" && ladder == req.fallbackModels && secret.None?
      && (model.Some? <==> req.defaultModel.Some?)
      && (model.Some? ==> model.value == Text.Trim(req.defaultModel.value) != "")
      && (model.Some? || ladder.Some?)
      && (ladder.Some? ==> |ladder.value| <= 16 && forall m | m in ladder.value :: Text.Trim(m) != "")
    case SecretSet(providerId, envKey) =>
      && req.kind == "secret_set" && req.providerId == Some(providerId) && req.envKey == Some(envKey)
      && IsProviderKey(providerId, envKey)
      && secret == req.value && secret.Some? && secret.value != "" && Text.Bytes(secret.value) <= 8 * 1024
    case RoutingConfig(rules) =>
      && req.kind == "routing_config" && req.rules == Some(rules) && secret.None?
      && forall cls | cls in rules ::
           cls in ["chat_turn", "pursue_task", "cabinet", "reflection", "compaction"] && Text.Trim(rules[cls]) != ""
  }

  /** What a request is staged as is decided by its own fields, and anything that could be staged is. */
  lemma GateIff(w: World, req: CreateRequest, payload: Payload, secret: Option<string>)
    ensures Gate(w, req) == Ok(Staged(payload, secret)) <==> IsStagedAs(w, req, payload, secret)
  {
    hide Text.Trim, Text.Bytes, Routing.Parse, IsSafeSlug, IsValidEnvKey, EnvKeyFor;
    assert "persona_edit"[0] == 'p' && "model_config"[0] == 'm' && "secret_set"[0] == 's' && "routing_config"[0] == 'r';
    if payload.SecretSet? { KnownKeys(payload.providerId, payload.envKey); }
    if payload.RoutingConfig? {
      forall cls
        ensures Routing.Parse(cls).Some? <==>
                cls in ["chat_turn", "pursue_task", "cabinet", "reflection", "compaction"]
      {
        Routing.ParsesIff(cls);
      }
    }
  }

  /** A refusal is about size exactly when size is the only thing wrong with an edit or a secret. */
  lemma RefusedForSizeIff(w: World, req: CreateRequest)
    ensures Gate(w, req) == Err(PayloadTooLarge) <==>
              || (req.kind == "persona_edit" && req.slug.Some? && req.content.Some? && IsSafeSlug(req.slug.value)
                  && Text.Bytes(req.content.value) > 256 * 1024)
              || (req.kind == "secret_set" && req.providerId.Some? && req.envKey.Some? && req.value.Some?
                  && IsProviderKey(req.providerId.value, req.envKey.value) && Text.Bytes(req.value.value) > 8 * 1024)
    ensures Gate(w, req).Err? ==> Gate(w, req) == Err(PayloadTooLarge) || Gate(w, req) == Err(BadRequest)
  {
    hide Text.Trim, Routing.Parse, IsSafeSlug, IsValidEnvKey, EnvKeyFor, GoodLadder, GoodRules;
    assert "persona_edit"[0] == 'p' && "model_config"[0] == 'm' && "secret_set"[0] == 's' && "routing_config"[0] == 'r';
    if req.providerId.Some? && req.envKey.Some? { KnownKeys(req.providerId.value, req.envKey.value); }
  }

  /** The handler up to its first await: gate, then insert (the id is the primary key). */
  function Insert(w: World, d: Daemon, owner: string, req: CreateRequest, id: string): (Daemon, Message) {
    match Gate(w, req)
    case Err(e) => (d, Refused(e))
    case Ok(staged) =>
      if id in d.proposals then (d, Refused(StoreError))
      else
        var p := Proposal(owner, staged.payload, Pending);
        (d.(proposals := d.proposals[id := p], arriving := d.arriving[id := Arrival(p, staged.secret)]), Inserted(id))
  }

  /** The rest of the handler: stash the secret, notify, answer. */
  function Finish(d: Daemon, id: string): (Daemon, Message) {
    if id !in d.arriving then (d, NoSuchRequest(id))
    else
      var a := d.arriving[id];
      (d.(arriving := d.arriving - {id},
          pen := if a.secret.Some? then d.pen[id := a.secret.value] else d.pen,
          notices := d.notices + [ChangeRequested(a.proposal.owner, id)]),
       Created(id, a.proposal))
  }

  // ---- apply ---------------------------------------------------------------------------

  function WebRow(key: string, value: Document, actor: string, now: int): Row {
    Row(key, value, "web", Some(actor), now)
  }

  function TrimNewlines(s: string): string {
    if s != "" && (s[|s| - 1] == '\n' || s[|s| - 1] == '\r') then TrimNewlines(s[..|s| - 1]) else s
  }

  /** The text without the line ends behind it. */
  predicate IsStripped(value: string, text: string) {
    && text <= value && (forall i | |text| <= i < |value| :: value[i] == '\n' || value[i] == '\r')
    && (text != "" ==> text[|text| - 1] != '\n' && text[|text| - 1] != '\r')
  }

  lemma {:induction false} StrippedIs(value: string, text: string)
    ensures IsStripped(value, text) <==> text == TrimNewlines(value)
  {
    var n := |value| - 1;
    if value != "" && (value[n] == '\n' || value[n] == '\r') {
      StrippedIs(value[..n], text);
      if IsStripped(value, text) { assert |text| <= n && value[..n][..|text|] == text; }
    }
  }

  /** What a stored value is read back as. A value with a NUL byte cannot be set in an environment. */
  datatype Reading = Unusable | Unpublishable(text: string) | Usable

  function ReadBack(value: string): Reading {
    var text := TrimNewlines(value);
    if text == "" then Unusable else if '\0' in text then Unpublishable(text) else Usable
  }

  predicate IsSet(env: map<string, string>, key: string) {
    key in env && env[key] != ""
  }

  predicate InEnv(d: Daemon, key: string) {
    IsSet(d.env, key)
  }

  /** Making a provider's key usable: done, not possible, or the panic of set_var, whose text quotes key and value. */
  datatype Publication = Ready(daemon: Daemon) | Missing | Panics(envKey: string, text: string)

  /** resolve_provider_secret: the environment first, else publish the secrets-dir value into it. */
  function ResolveSecret(d: Daemon, key: string): Publication {
    if InEnv(d, key) then Ready(d)
    else if !d.secretsDir || key !in d.files then Missing
    else match ReadBack(d.files[key])
      case Unusable => Missing
      case Unpublishable(text) => Panics(key, text)
      case Usable => Ready(d.(env := d.env[key := TrimNewlines(d.files[key])]))
  }

  function Connect(w: World, d: Daemon, model: string): Publication {
    match EnvKeyFor(w.kindOf(model))
    case None => Ready(d)
    case Some(key) => ResolveSecret(d, key)
  }

  /** The default-model half: trim, connect, resolve, persist, swap. */
  function ApplyDefault(w: World, d: Daemon, raw: string, actor: string, now: int, stored: bool)
    : (Daemon, Result<seq<Line>, ApplyError>)
  {
    var model := Text.Trim(raw);
    if model == "" then (d, Err(EmptyDefaultModel))
    else match Connect(w, d, model)
      case Missing => (d, Err(NotConnected(w.kindOf(model))))
      case Panics(key, text) => (d, Err(PublishPanic(key, text)))
      case Ready(c) =>
        if !w.resolves(model) then (c, Err(UnresolvableModel))
        else if !stored then (c, Err(IoFailed))
        else (c.(log := c.log + [WebRow(KEY_MODEL_SELECTED, ModelValue(model), actor, now)],
                 provider := if c.provider.Some? then Some(model) else None),
              Ok([DefaultSwitched(model, c.provider.Some?)]))
  }

  /** The ladder half: validate, persist, swap. */
  function ApplyLadder(d: Daemon, models: seq<string>, actor: string, now: int, stored: bool)
    : (Daemon, Result<seq<Line>, ApplyError>)
  {
    if |models| > MAX_FALLBACK_MODELS then (d, Err(TooManyFallbacks))
    else if HasBlank(models) then (d, Err(EmptyFallback))
    else if !stored then (d, Err(IoFailed))
    else (d.(log := d.log + [WebRow(KEY_MODEL_FALLBACKS, FallbackModelsValue(models), actor, now)],
             ladder := if d.ladder.Some? then Some(models) else None),
          Ok([LadderApplied(|models|, d.ladder.Some?)]))
  }

  /** apply_model_config: the default model is persisted and live before the ladder is looked at. */
  function ApplyModelConfig(
    w: World, d: Daemon, model: Option<string>, ladder: Option<seq<string>>, actor: string, now: int, io: Io)
    : (Daemon, Result<seq<Line>, ApplyError>)
  {
    if model.None? && ladder.None? then (d, Err(EmptyModelConfig))
    else
      var (d1, r1) := if model.Some? then ApplyDefault(w, d, model.value, actor, now, io.first) else (d, Ok([]));
      if r1.Err? || ladder.None? then (d1, r1)
      else
        var (d2, r2) := ApplyLadder(d1, ladder.value, actor, now, io.second);
        (d2, if r2.Ok? then Ok(r1.value + r2.value) else r2)
  }

  /** The rules in display order, with what approving each did. */
  function RoutedLines(classes: seq<Routing.RouteClass>, rules: map<string, string>, live: bool): seq<Line> {
    if classes == [] then []
    else
      var cls := Routing.AsStr(classes[0]);
      (if cls in rules then [Routed(cls, rules[cls], live && classes[0].ChatTurn?)] else [])
      + RoutedLines(classes[1..], rules, live)
  }

  /** The chat_turn rule names a provider that cannot be used from this process. */
  function ChatProblem(w: World, d: Daemon, rules: map<string, string>): Option<ApplyError> {
    if "chat_turn" !in rules then None
    else
      var model := Text.Trim(rules["chat_turn"]);
      var key := EnvKeyFor(w.kindOf(model));
      if key.Some? && !InEnv(d, key.value) then Some(NotConnected(w.kindOf(model)))
      else if !w.resolves(model) then Some(UnresolvableModel)
      else None
  }

  /** A live handle is swapped to the chat_turn model, if the rules have one. */
  function WithChatRule(provider: Option<string>, rules: map<string, string>): Option<string> {
    if "chat_turn" in rules && provider.Some? then Some(Text.Trim(rules["chat_turn"])) else provider
  }

  /** apply_routing_config: validate everything, persist the whole map, then swap the chat provider. */
  function ApplyRoutingConfig(w: World, d: Daemon, rules: map<string, string>, actor: string, now: int, io: Io)
    : (Daemon, Result<seq<Line>, ApplyError>)
  {
    if !GoodRules(rules) then (d, Err(InvalidRule))
    else
      var problem := ChatProblem(w, d, rules);
      if problem.Some? then (d, Err(problem.value))
      else if !io.first then (d, Err(IoFailed))
      else
        var d1 := d.(log := d.log + [WebRow(KEY_ROUTING_RULES, RoutingRulesValue(rules), actor, now)]);
        if rules == map[] then (d1, Ok([RoutingCleared]))
        else
          (d1.(provider := WithChatRule(d.provider, rules)),
           Ok(RoutedLines(Routing.ALL_CLASSES, rules, d.provider.Some?)))
  }

  const SECRET_SET_PREFIX := "secret.set:"

  /** apply_secret_set: the value is consumed before the file is written; the log gets a marker only. */
  function ApplySecretSet(d: Daemon, id: string, providerId: string, envKey: string, actor: string, now: int, io: Io)
    : (Daemon, Result<seq<Line>, ApplyError>)
  {
    if !IsValidEnvKey(envKey) then (d, Err(InvalidEnvKey))
    else if EnvKeyFor(providerId) != Some(envKey) then (d, Err(WrongProvider))
    else if !d.secretsDir then (d, Err(NoSecretsDir))
    else if id !in d.pen then (d, Err(SecretExpired))
    else
      var d1 := d.(pen := d.pen - {id});
      if !io.file then (d1, Err(IoFailed))
      else
        var d2 := d1.(files := d1.files[envKey := d.pen[id]]);
        if !io.first then (d2, Err(IoFailed))
        else
          (d2.(log := d2.log + [WebRow(SECRET_SET_PREFIX + envKey,
            Parsed(JObject(map["set" := JBool(true)])), actor, now)]),
           Ok([SecretWritten(envKey, providerId)]))
  }

  function ApplyPersonaEdit(w: World, d: Daemon, slug: string, content: string, io: Io)
    : (Daemon, Result<seq<Line>, ApplyError>)
  {
    if !IsSafeSlug(slug) then (d, Err(UnsafeSlug))
    else if Text.Bytes(content) > MAX_CONTENT_BYTES then (d, Err(ContentTooLarge))
    else if !w.personaOk(content) then (d, Err(InvalidPersona))
    else if !io.file then (d, Err(IoFailed))
    else
      (d.(personas := d.personas[slug := content],
          backups := if slug in d.personas then d.backups + [(slug, d.personas[slug])] else d.backups),
       Ok([PersonaWritten(slug, slug in d.personas)]))
  }

  function Apply(w: World, d: Daemon, id: string, payload: Payload, actor: string, now: int, io: Io)
    : (Daemon, Result<seq<Line>, ApplyError>)
  {
    match payload
    case PersonaEdit(slug, content) => ApplyPersonaEdit(w, d, slug, content, io)
    case ModelConfig(model, ladder) => ApplyModelConfig(w, d, model, ladder, actor, now, io)
    case SecretSet(providerId, envKey) => ApplySecretSet(d, id, providerId, envKey, actor, now, io)
    case RoutingConfig(rules) => ApplyRoutingConfig(w, d, rules, actor, now, io)
  }

  // ---- resolving -----------------------------------------------------------------------

  /** The row a caller may resolve: its own, and still pending. */
  predicate Resolvable(d: Daemon, owner: string, id: string) {
    id in d.proposals && d.proposals[id].owner == owner && d.proposals[id].status.Pending?
  }

  function Resolve(d: Daemon, id: string, status: Status): Daemon
    requires id in d.proposals
  {
    d.(proposals := d.proposals[id := d.proposals[id].(status := status)])
  }

  /** /proposal approve: resolve first, then apply; a panic ends the process instead of answering. */
  function Approve(w: World, d: Daemon, owner: string, id: string, now: int, io: Io): (Daemon, Message) {
    if id !in d.proposals || d.proposals[id].owner != owner then (d, NoSuchProposal(id))
    else if !Resolvable(d, owner, id) then (d, NotPending(id))
    else
      var (d1, r) := Apply(w, Resolve(d, id, Approved), id, d.proposals[id].payload, owner, now, io);
      if r.Ok? then (d1, Applied(id, r.value))
      else if r.error.PublishPanic? then (d1.(up := false), Panicked(id, r.error.envKey, r.error.value))
      else (d1, ApplyFailed(id, r.error))
  }

  /** /proposal reject. */
  function Reject(d: Daemon, owner: string, id: string): (Daemon, Message) {
    if !Resolvable(d, owner, id) then (d, NotPending(id))
    else (Resolve(d, id, Rejected), WasRejected(id))
  }

  /** The ladder a daemon starts with: the log's override, else the TOML one. */
  function LadderAtStart(log: seq<Row>, toml: TomlConfig): seq<string> {
    var raw := Latest(log, KEY_MODEL_FALLBACKS);
    var over := if raw.Some? then FallbackModelsFromValue(raw.value) else None;
    if over.Some? then over.value else toml.ladder
  }

  /** The default model likewise. */
  function DefaultAtStart(log: seq<Row>, toml: TomlConfig): string {
    var raw := Latest(log, KEY_MODEL_SELECTED);
    var over := if raw.Some? then ModelFromValue(raw.value) else None;
    if over.Some? then over.value else toml.defaultModel
  }

  /** The model of the chat_turn rule, if the effective routing table has one. */
  function ChatAtStart(log: seq<Row>, toml: TomlConfig): Option<string> {
    var rule := Routing.Loaded(log, true, toml.rules, Routing.ChatTurn);
    if rule.Some? then Some(rule.value.model) else None
  }

  /** Its provider needs no key, or the environment has it. */
  predicate Connected(w: World, env: map<string, string>, model: string) {
    var key := EnvKeyFor(w.kindOf(model));
    key.Some? ==> IsSet(env, key.value)
  }

  /** The chat_turn rule is passed over unless its provider is connected and can be built. */
  predicate IsUsableRule(w: World, env: map<string, string>, chat: Option<string>) {
    chat.Some? && Connected(w, env, chat.value) && w.resolves(chat.value)
  }

  /** The default model is built without asking whether its provider is connected. */
  predicate CanStart(w: World, env: map<string, string>, model: string) {
    if Connected(w, env, model) then w.resolves(model) else w.keyless(model)
  }

  /** The model a start comes up with: the chat_turn rule outranks the default, and without either there is no start. */
  function Chosen(w: World, env: map<string, string>, model: string, chat: Option<string>): Option<string> {
    if IsUsableRule(w, env, chat) then chat
    else if CanStart(w, env, model) then Some(model)
    else None
  }

  /**
  The rule counts if its model can be built with a key that is here; the default
  needs no key where it can do without.
  */
  lemma ChosenIs(w: World, env: map<string, string>, model: string, chat: Option<string>)
    ensures var keyIsHere := key => key in env && env[key] != "";
            var ruleCounts := && chat.Some? && w.resolves(chat.value)
                              && forall key | EnvKeyFor(w.kindOf(chat.value)) == Some(key) :: keyIsHere(key);
            var isConnected := forall key | EnvKeyFor(w.kindOf(model)) == Some(key) :: keyIsHere(key);
            var builds := if isConnected then w.resolves(model) else w.keyless(model);
            Chosen(w, env, model, chat) == if ruleCounts then chat else if builds then Some(model) else None
  {
    hide EnvKeyFor;
  }

  /** A start of the process: nothing in memory survives, and the handles are loaded again. */
  function Start(w: World, toml: TomlConfig, d: Daemon, env: map<string, string>): (Daemon, Message) {
    var off := d.(up := false, arriving := map[], pen := map[], env := env);
    var chosen := Chosen(w, env, DefaultAtStart(d.log, toml), ChatAtStart(d.log, toml));
    if chosen.None? then (off, StartFailed)
    else (off.(up := true, provider := chosen, ladder := Some(LadderAtStart(d.log, toml))), Restarted)
  }

  datatype Op =
    | OpCreate(owner: string, req: CreateRequest, id: string)
    | OpFinish(id: string)
    | OpApprove(owner: string, id: string, now: int, io: Io)
    | OpReject(owner: string, id: string)
    | OpRestart(env: map<string, string>)

  /**
  One step of the daemon; the two halves of a create request may have other
  steps in between. A restart may meet another environment, and may fail.
  */
  function Step(w: World, toml: TomlConfig, d: Daemon, op: Op): (Daemon, Message) {
    if op.OpRestart? then Start(w, toml, d, op.env)
    else if !d.up then (d, Down)
    else
      match op
      case OpCreate(owner, req, id) => Insert(w, d, owner, req, id)
      case OpFinish(id) => Finish(d, id)
      case OpApprove(owner, id, now, io) => Approve(w, d, owner, id, now, io)
      case OpReject(owner, id) => Reject(d, owner, id)
  }

  function Run(w: World, toml: TomlConfig, d: Daemon, ops: seq<Op>): (Daemon, seq<Message>)
    decreases |ops|
  {
    if ops == [] then (d, [])
    else
      var (d1, m) := Step(w, toml, d, ops[0]);
      var (d2, ms) := Run(w, toml, d1, ops[1..]);
      (d2, [m] + ms)
  }

  // ---- all or nothing ------------------------------------------------------------------

  /** What an approval changes: the log, the two live handles and the persona files. */
  predicate SameConfig(d: Daemon, d': Daemon) {
    && d'.log == d.log && d'.provider == d.provider && d'.ladder == d.ladder
    && d'.personas == d.personas && d'.backups == d.backups
  }

  /** The slug's file holds the content, its text before is backed up, and no other persona is touched. */
  predicate PersonaReplaced(d: Daemon, d': Daemon, slug: string, content: string) {
    && d'.personas == d.personas[slug := content]
    && d'.backups == if slug in d.personas then d.backups + [(slug, d.personas[slug])] else d.backups
  }

  /** Everything the payload asks of the log, the live handles and the persona files has been done. */
  ghost predicate FullyApplied(d: Daemon, d': Daemon, payload: Payload, actor: string, now: int) {
    match payload
    case PersonaEdit(slug, content) =>
      PersonaReplaced(d, d', slug, content) && SameConfig(d, d'.(personas := d.personas, backups := d.backups))
    case SecretSet(_, envKey) =>
      SameConfig(d.(log := d.log + [WebRow(SECRET_SET_PREFIX + envKey,
          Parsed(JObject(map["set" := JBool(true)])), actor, now)]), d')
    case RoutingConfig(rules) =>
      && d'.log == d.log + [WebRow(KEY_ROUTING_RULES, RoutingRulesValue(rules), actor, now)]
      && d'.ladder == d.ladder && d'.personas == d.personas && d'.backups == d.backups
      && d'.provider == (if "chat_turn" in rules && d.provider.Some? then Some(Text.Trim(rules["chat_turn"]))
                         else d.provider)
    case ModelConfig(model, ladder) =>
      && d'.log == d.log
         + (if model.Some? then [WebRow(KEY_MODEL_SELECTED, ModelValue(Text.Trim(model.value)), actor, now)] else [])
         + (if ladder.Some? then [WebRow(KEY_MODEL_FALLBACKS, FallbackModelsValue(ladder.value), actor, now)] else [])
      && d'.provider == (if model.Some? && d.provider.Some? then Some(Text.Trim(model.value)) else d.provider)
      && d'.ladder == (if ladder.Some? && d.ladder.Some? then ladder else d.ladder)
      && d'.personas == d.personas && d'.backups == d.backups
  }

  /** What the create gate lets through, seen from the payload. */
  predicate Gated(w: World, payload: Payload) {
    match payload
    case PersonaEdit(slug, content) =>
      IsSafeSlug(slug) && Text.Bytes(content) <= MAX_CONTENT_BYTES && w.personaOk(content)
    case ModelConfig(model, ladder) =>
      && (model.Some? || ladder.Some?)
      && (model.Some? ==> Text.Trim(model.value) == model.value != "")
      && (ladder.Some? ==> GoodLadder(ladder.value))
    case SecretSet(providerId, envKey) => IsValidEnvKey(envKey) && EnvKeyFor(providerId) == Some(envKey)
    case RoutingConfig(rules) => GoodRules(rules)
  }

  /** The gate accepts a payload only in the shape `Gated` describes. */
  lemma GateMeansGated(w: World, req: CreateRequest)
    requires Gate(w, req).Ok?
    ensures Gated(w, Gate(w, req).value.payload)
    ensures Gate(w, req).value.secret.Some? <==> Gate(w, req).value.payload.SecretSet?
  {
    if req.kind == "model_config" && req.defaultModel.Some? {
      Text.TrimByIdempotent(Text.Whitespace, req.defaultModel.value);
    }
  }

  /** The writes of one approval that reach the durable stores all succeed. */
  predicate StoreHolds(io: Io) {
    io.first && io.second
  }

  /** The model needs no key, or its key is set, or a secrets file holds one that can be published. */
  predicate HasKey(w: World, d: Daemon, model: string) {
    var key := EnvKeyFor(w.kindOf(model));
    key.Some? && !IsSet(d.env, key.value) ==>
      && d.secretsDir && key.value in d.files
      && var text := TrimNewlines(d.files[key.value]); text != "" && '\0' !in text
  }

  /** The default-model half does take effect. */
  predicate DefaultTakes(w: World, d: Daemon, model: Option<string>, io: Io) {
    && model.Some? && Text.Trim(model.value) != ""
    && HasKey(w, d, Text.Trim(model.value)) && w.resolves(Text.Trim(model.value)) && io.first
  }

  lemma ConnectedIff(w: World, d: Daemon, model: string)
    ensures Connect(w, d, model).Ready? <==> HasKey(w, d, model)
  {
    hide TrimNewlines;
  }

  lemma ConnectChangesEnvOnly(w: World, d: Daemon, model: string)
    requires Connect(w, d, model).Ready?
    ensures Connect(w, d, model).daemon == d.(env := Connect(w, d, model).daemon.env)
  {
  }

  /** The default-model half is itself all or nothing. */
  lemma DefaultOutcome(w: World, d: Daemon, raw: string, actor: string, now: int, io: Io)
    ensures var (d', r) := ApplyDefault(w, d, raw, actor, now, io.first);
            && (r.Ok? <==> DefaultTakes(w, d, Some(raw), io))
            && (r.Ok? ==> FullyApplied(d, d', ModelConfig(Some(raw), None), actor, now))
            && (r.Err? ==> SameConfig(d, d'))
  {
    hide Text.Trim, Connect, HasKey;
    var model := Text.Trim(raw);
    ConnectedIff(w, d, model);
    if Connect(w, d, model).Ready? { ConnectChangesEnvOnly(w, d, model); }
  }

  /**
  Exactly when approving a model_config leaves half of it behind: the default
  model took effect, and then the ladder was refused or its row not stored.
  */
  lemma ModelConfigPartialIff(
    w: World, d: Daemon, model: Option<string>, ladder: Option<seq<string>>, actor: string, now: int, io: Io)
    ensures var (d', r) := ApplyModelConfig(w, d, model, ladder, actor, now, io);
            && (r.Ok? ==> FullyApplied(d, d', ModelConfig(model, ladder), actor, now))
            && (r.Err? && !SameConfig(d, d') <==>
                  DefaultTakes(w, d, model, io) && ladder.Some? && (!GoodLadder(ladder.value) || !io.second))
  {
    hide Text.Trim, GoodLadder, HasKey, Connect;
    LadderOutcome(d, [], actor, now, io);
    if model.Some? {
      DefaultOutcome(w, d, model.value, actor, now, io);
      var (d1, r1) := ApplyDefault(w, d, model.value, actor, now, io.first);
      if ladder.Some? { LadderOutcome(d1, ladder.value, actor, now, io); }
    } else if ladder.Some? {
      LadderOutcome(d, ladder.value, actor, now, io);
    }
  }

  lemma LadderOutcome(d: Daemon, models: seq<string>, actor: string, now: int, io: Io)
    ensures var (d', r) := ApplyLadder(d, models, actor, now, io.second);
            && (r.Ok? <==> GoodLadder(models) && io.second)
            && (r.Ok? ==> FullyApplied(d, d', ModelConfig(None, Some(models)), actor, now))
            && (r.Err? ==> d' == d)
  {
  }

  /** A payload written without the gate, whose default model goes live although its ladder is refused. */
  lemma UngatedPayloadIsNotAtomic(w: World, d: Daemon, actor: string, now: int)
    requires EnvKeyFor(w.kindOf("m")).None? && w.resolves("m")
    ensures var (d', r) := ApplyModelConfig(w, d, Some("m"), Some([""]), actor, now, Io(true, true, true));
            r.Err? && !SameConfig(d, d') && Latest(d'.log, KEY_MODEL_SELECTED) == Some(ModelValue("m"))
  {
    Text.TrimByBare(Text.Whitespace, "m");
    assert "" in [""];
    ModelConfigPartialIff(w, d, Some("m"), Some([""]), actor, now, Io(true, true, true));
  }

  lemma ModelConfigIsAtomic(
    w: World, d: Daemon, model: Option<string>, ladder: Option<seq<string>>, actor: string, now: int, io: Io)
    requires Gated(w, ModelConfig(model, ladder)) && StoreHolds(io)
    ensures var (d', r) := ApplyModelConfig(w, d, model, ladder, actor, now, io);
            if r.Ok? then FullyApplied(d, d', ModelConfig(model, ladder), actor, now) else SameConfig(d, d')
  {
    hide Text.Trim, GoodLadder, DefaultTakes, ApplyDefault, ApplyLadder;
    ModelConfigPartialIff(w, d, model, ladder, actor, now, io);
  }

  lemma SecretSetIsAtomic(
    w: World, d: Daemon, id: string, providerId: string, envKey: string, actor: string, now: int, io: Io)
    requires Gated(w, SecretSet(providerId, envKey)) && StoreHolds(io)
    ensures var (d', r) := ApplySecretSet(d, id, providerId, envKey, actor, now, io);
            if r.Ok? then FullyApplied(d, d', SecretSet(providerId, envKey), actor, now) else SameConfig(d, d')
  {
    hide IsValidEnvKey, EnvKeyFor;
  }

  lemma RoutingIsAtomic(w: World, d: Daemon, rules: map<string, string>, actor: string, now: int, io: Io)
    requires StoreHolds(io)
    ensures var (d', r) := ApplyRoutingConfig(w, d, rules, actor, now, io);
            if r.Ok? then FullyApplied(d, d', RoutingConfig(rules), actor, now) else SameConfig(d, d')
  {
    hide Text.Trim, GoodRules, ChatProblem, RoutedLines, RoutingRulesValue;
  }

  /** What an approval that goes through needs, payload by payload. */
  predicate GoesThrough(w: World, d: Daemon, id: string, payload: Payload, io: Io) {
    match payload
    case PersonaEdit(slug, content) =>
      IsSafeSlug(slug) && Text.Bytes(content) <= MAX_CONTENT_BYTES && w.personaOk(content) && io.file
    case ModelConfig(model, ladder) =>
      && (model.Some? || ladder.Some?)
      && (model.Some? ==> DefaultTakes(w, d, model, io))
      && (ladder.Some? ==> io.second && |ladder.value| <= 16 && forall m | m in ladder.value :: Text.Trim(m) != "")
    case SecretSet(providerId, envKey) =>
      && IsProviderKey(providerId, envKey)
      && d.secretsDir && id in d.pen && io.file && io.first
    case RoutingConfig(rules) => RulesTake(w, d, rules, io)
  }

  /** Rules take effect when all are good, the chat_turn one can be used here, and the row is stored. */
  predicate RulesTake(w: World, d: Daemon, rules: map<string, string>, io: Io) {
    && (forall cls | cls in rules ::
          cls in ["chat_turn", "pursue_task", "cabinet", "reflection", "compaction"] && Text.Trim(rules[cls]) != "")
    && ("chat_turn" in rules ==>
          Connected(w, d.env, Text.Trim(rules["chat_turn"])) && w.resolves(Text.Trim(rules["chat_turn"])))
    && io.first
  }

  lemma RulesTakeIff(w: World, d: Daemon, rules: map<string, string>, io: Io)
    ensures RulesTake(w, d, rules, io) <==> GoodRules(rules) && ChatProblem(w, d, rules).None? && io.first
  {
    hide Text.Trim, Routing.Parse;
    forall cls
      ensures Routing.Parse(cls).Some? <==>
              cls in ["chat_turn", "pursue_task", "cabinet", "reflection", "compaction"]
    {
      Routing.ParsesIff(cls);
    }
  }

  lemma RoutingTakesIff(w: World, d: Daemon, rules: map<string, string>, actor: string, now: int, io: Io)
    ensures ApplyRoutingConfig(w, d, rules, actor, now, io).1.Ok? <==> RulesTake(w, d, rules, io)
  {
    hide GoodRules, ChatProblem, RulesTake, RoutedLines, RoutingRulesValue, WithChatRule;
    RulesTakeIff(w, d, rules, io);
  }

  lemma ModelConfigTakesIff(
    w: World, d: Daemon, model: Option<string>, ladder: Option<seq<string>>, actor: string, now: int, io: Io)
    ensures ApplyModelConfig(w, d, model, ladder, actor, now, io).1.Ok? <==>
              && (model.Some? || ladder.Some?)
              && (model.Some? ==> DefaultTakes(w, d, model, io))
              && (ladder.Some? ==> GoodLadder(ladder.value) && io.second)
  {
    hide ApplyDefault, ApplyLadder, DefaultTakes, GoodLadder;
    if model.Some? { DefaultOutcome(w, d, model.value, actor, now, io); }
    if ladder.Some? {
      LadderOutcome(d, ladder.value, actor, now, io);
      if model.Some? {
        LadderOutcome(ApplyDefault(w, d, model.value, actor, now, io.first).0, ladder.value, actor, now, io);
      }
    }
  }

  /** Exactly when an approval goes through. */
  lemma AppliedIff(w: World, d: Daemon, id: string, payload: Payload, actor: string, now: int, io: Io)
    ensures Apply(w, d, id, payload, actor, now, io).1.Ok? <==> GoesThrough(w, d, id, payload, io)
  {
    hide ApplyModelConfig, DefaultTakes, RulesTake, GoodRules, ChatProblem, IsValidEnvKey, EnvKeyFor, IsSafeSlug;
    hide Text.Trim, IsProviderKey;
    match payload
    case ModelConfig(model, ladder) => ModelConfigTakesIff(w, d, model, ladder, actor, now, io);
    case SecretSet(providerId, envKey) => KnownKeys(providerId, envKey);
    case RoutingConfig(rules) => RoutingTakesIff(w, d, rules, actor, now, io);
    case _ =>
  }

  lemma PersonaIsAtomic(w: World, d: Daemon, slug: string, content: string, actor: string, now: int, io: Io)
    ensures var (d', r) := ApplyPersonaEdit(w, d, slug, content, io);
            if r.Ok? then FullyApplied(d, d', PersonaEdit(slug, content), actor, now) else SameConfig(d, d')
  {
    hide IsSafeSlug, Text.Bytes;
  }

  /** Any payload the gate accepted is applied all or nothing, as long as the stores hold. */
  lemma GatedApplyIsAtomic(w: World, d: Daemon, id: string, payload: Payload, actor: string, now: int, io: Io)
    requires Gated(w, payload) && StoreHolds(io)
    ensures var (d', r) := Apply(w, d, id, payload, actor, now, io);
            if r.Ok? then FullyApplied(d, d', payload, actor, now) else SameConfig(d, d')
  {
    hide Text.Trim, IsSafeSlug, IsValidEnvKey, GoodLadder, GoodRules, EnvKeyFor;
    hide ApplyDefault, ApplyLadder, Connect;
    match payload
    case ModelConfig(model, ladder) => ModelConfigIsAtomic(w, d, model, ladder, actor, now, io);
    case SecretSet(providerId, envKey) => SecretSetIsAtomic(w, d, id, providerId, envKey, actor, now, io);
    case RoutingConfig(rules) => RoutingIsAtomic(w, d, rules, actor, now, io);
    case PersonaEdit(slug, content) => PersonaIsAtomic(w, d, slug, content, actor, now, io);
  }
}
