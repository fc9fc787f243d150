/** The proposal machinery as the daemon runs it: a table, a pen and live handles changed in place. */
module ProposalDaemon {
  import opened Wrappers
  import opened ConfigStore
  import P = Proposals
  import R = ProposalRuns
  import Routing
  import Text

  class DaemonState {
    const store: ConfigStore
    var up: bool
    var arriving: map<string, P.Arrival>
    var proposals: map<string, P.Proposal>
    var provider: Option<string>
    var ladder: Option<seq<string>>
    var pen: map<string, string>
    var secretsDir: bool
    var files: map<string, string>
    var env: map<string, string>
    var personas: map<string, string>
    var backups: seq<(string, string)>
    var notices: seq<P.Notice>

    constructor (store: ConfigStore, provider: Option<string>, ladder: Option<seq<string>>, secretsDir: bool,
        env: map<string, string>)
      ensures this.store == store
      ensures State() == P.Daemon(true, map[], map[], store.rows,
                                  provider, ladder, map[], secretsDir, map[], env, map[], [], [])
    {
      this.store, this.provider, this.ladder, this.secretsDir, this.env := store, provider, ladder, secretsDir, env;
      up, arriving, proposals, pen, files := true, map[], map[], map[], map[];
      personas, backups, notices := map[], [], [];
    }

    function State(): P.Daemon
      reads this, store
    {
      P.Daemon(up, arriving, proposals, store.rows, provider, ladder, pen, secretsDir, files, env,
               personas, backups, notices)
    }

    /**
    The boot provider: the chat_turn rule if it can be used here, else the
    default model, which must then be buildable.
    */
    method BootProvider(w: P.World, toml: P.TomlConfig) returns (chosen: Option<string>)
      ensures chosen == P.Chosen(w, env, P.DefaultAtStart(store.rows, toml), P.ChatAtStart(store.rows, toml))
    {
      hide ModelFromValue, RoutingRulesFromValue, Routing.Loaded, Routing.IsOverlaid, Latest, P.EnvKeyFor;
      var stored := Latest(store.rows, KEY_MODEL_SELECTED);
      var selected := if stored.Some? then ModelFromValue(stored.value) else None;
      var model := if selected.Some? then selected.value else toml.defaultModel;
      var table := Routing.LoadTable(store, true, toml.rules);
      var chat := Routing.ModelFor(table, Routing.ChatTurn);
      assert Routing.RuleOf(table, Routing.ChatTurn) == Routing.Loaded(store.rows, true, toml.rules, Routing.ChatTurn);
      if chat.Some? {
        var key := P.EnvKeyFor(w.kindOf(chat.value));
        var connected := key.None? || (key.value in env && env[key.value] != "");
        if connected && w.resolves(chat.value) { return chat; }
      }
      return if P.CanStart(w, env, model) then Some(model) else None;
    }

    /** A start of the process: memory is empty and the handles are loaded, unless no provider can be built. */
    method Start(w: P.World, toml: P.TomlConfig, environment: map<string, string>) returns (m: P.Message)
      modifies this
      ensures (State(), m) == P.Start(w, toml, old(State()), environment)
      ensures pen == map[] && arriving == map[] && env == environment && (up <==> m == P.Restarted)
      ensures m in [P.Restarted, P.StartFailed]
    {
      hide FallbackModelsFromValue, Latest, P.Chosen, P.DefaultAtStart, P.ChatAtStart;
      up, arriving, pen, env := false, map[], map[], environment;
      var chosen := BootProvider(w, toml);
      if chosen.None? { return P.StartFailed; }
      var rungs := Latest(store.rows, KEY_MODEL_FALLBACKS);
      var override := if rungs.Some? then FallbackModelsFromValue(rungs.value) else None;
      up, provider, ladder := true, chosen, Some(if override.Some? then override.value else toml.ladder);
      return P.Restarted;
    }

    /** proposals_create_handler up to the insert, after authentication. */
    method InsertProposal(w: P.World, owner: string, req: P.CreateRequest, id: string) returns (m: P.Message)
      modifies this`proposals, this`arriving
      ensures (State(), m) == P.Insert(w, old(State()), owner, req, id)
      // a request is accepted in its own fields, if it can be at all and the id is new
      ensures forall payload, secret | P.IsStagedAs(w, req, payload, secret) && id !in old(proposals) ::
                var p := P.Proposal(owner, payload, P.Pending);
                && m == P.Inserted(id) && proposals == old(proposals)[id := p]
                && arriving == old(arriving)[id := P.Arrival(p, secret)]
      ensures m.Inserted? ==> id !in old(proposals) && exists payload, secret :: P.IsStagedAs(w, req, payload, secret)
      ensures !m.Inserted? ==> m.Refused? && State() == old(State())
      ensures forall payload, secret | P.IsStagedAs(w, req, payload, secret) && id in old(proposals) ::
                m == P.Refused(P.StoreError)
    {
      hide P.IsStagedAs, P.Gate;
      forall payload, secret
        ensures P.IsStagedAs(w, req, payload, secret) <==> P.Gate(w, req) == Ok(P.Staged(payload, secret))
      {
        P.GateIff(w, req, payload, secret);
      }
      var staged := P.Gate(w, req);
      if staged.Err? { return P.Refused(staged.error); }
      if id in proposals { return P.Refused(P.StoreError); }
      var p := P.Proposal(owner, staged.value.payload, P.Pending);
      proposals := proposals[id := p];
      arriving := arriving[id := P.Arrival(p, staged.value.secret)];
      return P.Inserted(id);
    }

    /** The rest of the handler. */
    method FinishProposal(id: string) returns (m: P.Message)
      modifies this`arriving, this`pen, this`notices
      ensures (State(), m) == P.Finish(old(State()), id)
      ensures id in old(arriving) ==>
                var a := old(arriving)[id];
                && m == P.Created(id, a.proposal) && arriving == old(arriving) - {id}
                && pen == (if a.secret.Some? then old(pen)[id := a.secret.value] else old(pen))
                && notices == old(notices) + [P.ChangeRequested(a.proposal.owner, id)]
    {
      if id !in arriving { return P.NoSuchRequest(id); }
      var a := arriving[id];
      arriving := arriving - {id};
      if a.secret.Some? {
        pen := pen[id := a.secret.value];
      }
      notices := notices + [P.ChangeRequested(a.proposal.owner, id)];
      return P.Created(id, a.proposal);
    }

    /** Flip a pending row of this owner; false when there is none. */
    method Resolve(owner: string, id: string, status: P.Status) returns (changed: bool)
      modifies this`proposals
      ensures changed == P.Resolvable(old(State()), owner, id)
      ensures changed ==> State() == P.Resolve(old(State()), id, status)
      ensures changed && status != P.Pending ==> R.Settled(State(), id)
      ensures R.Settled(old(State()), id) ==> !changed
      ensures !changed ==> State() == old(State())
    {
      changed := id in proposals && proposals[id].owner == owner && proposals[id].status.Pending?;
      if changed {
        proposals := proposals[id := proposals[id].(status := status)];
      }
    }

    /** Remove and return a secret value. */
    method Take(id: string) returns (value: Option<string>)
      modifies this`pen
      ensures value == if id in old(pen) then Some(old(pen)[id]) else None
      ensures pen == old(pen) - {id}
    {
      if id in pen {
        value := Some(pen[id]);
        pen := pen - {id};
      } else {
        value := None;
        assert pen == pen - {id};
      }
    }

    /** Make the key usable in this process: from the environment, else published from the secrets directory. */
    method ResolveProviderSecret(key: string) returns (r: P.Publication)
      modifies this`env
      ensures r == P.ResolveSecret(old(State()), key)
      ensures State() == if r.Ready? then r.daemon else old(State())
      // a key that is set stays as it is; else a stored value is published without the line ends behind it
      ensures P.IsSet(old(env), key) ==> r.Ready? && env == old(env)
      ensures !P.IsSet(old(env), key) && (!secretsDir || key !in files) ==> r.Missing? && env == old(env)
      ensures !P.IsSet(old(env), key) && secretsDir && key in files ==>
                forall text | P.IsStripped(files[key], text) ::
                  if text == "" then r.Missing? && env == old(env)
                  else if '\0' in text then r == P.Panics(key, text) && env == old(env)
                  else r.Ready? && env == old(env)[key := text]
    {
      if key in files {
        forall text
          ensures P.IsStripped(files[key], text) <==> text == P.TrimNewlines(files[key])
        {
          P.StrippedIs(files[key], text);
        }
      }
      hide P.IsStripped, P.TrimNewlines;
      if key in env && env[key] != "" { return P.Ready(State()); }
      if !secretsDir || key !in files { return P.Missing; }
      var value := P.TrimNewlines(files[key]);
      if value == "" { return P.Missing; }
      if '\0' in value { return P.Panics(key, value); }
      env := env[key := value];
      return P.Ready(State());
    }

    /** The default-model half of apply_model_config. */
    method ApplyDefault(w: P.World, raw: string, actor: string, now: int, stored: bool)
      returns (r: Result<seq<P.Line>, P.ApplyError>)
      modifies this`env, this`provider, store
      ensures (State(), r) == P.ApplyDefault(w, old(State()), raw, actor, now, stored)
      ensures r.Ok? ==> r.value == [P.DefaultSwitched(Text.Trim(raw), old(provider).Some?)]
    {
      hide Text.Trim, P.ResolveSecret, ModelValue;
      var model := Text.Trim(raw);
      if model == "" { return Err(P.EmptyDefaultModel); }
      var key := P.EnvKeyFor(w.kindOf(model));
      if key.Some? {
        var connected := ResolveProviderSecret(key.value);
        if connected.Missing? { return Err(P.NotConnected(w.kindOf(model))); }
        if connected.Panics? { return Err(P.PublishPanic(connected.envKey, connected.text)); }
      }
      if !w.resolves(model) { return Err(P.UnresolvableModel); }
      var ok := store.Apply(KEY_MODEL_SELECTED, ModelValue(model), "web", Some(actor), now, stored);
      if !ok { return Err(P.IoFailed); }
      var live := provider.Some?;
      if live { provider := Some(model); }
      return Ok([P.DefaultSwitched(model, live)]);
    }

    /** The ladder half of apply_model_config. */
    method ApplyLadder(models: seq<string>, actor: string, now: int, stored: bool)
      returns (r: Result<seq<P.Line>, P.ApplyError>)
      modifies this`ladder, store
      ensures (State(), r) == P.ApplyLadder(old(State()), models, actor, now, stored)
      ensures r.Ok? <==> stored && |models| <= 16 && forall m | m in models :: Text.Trim(m) != ""
      ensures r.Ok? ==> r.value == [P.LadderApplied(|models|, old(ladder).Some?)]
    {
      if |models| > P.MAX_FALLBACK_MODELS { return Err(P.TooManyFallbacks); }
      for i := 0 to |models|
        invariant forall j | 0 <= j < i :: !Text.IsBlank(models[j])
        invariant State() == old(State())
      {
        if Text.IsBlank(models[i]) {
          assert models[i] in models;
          return Err(P.EmptyFallback);
        }
      }
      var ok := store.Apply(KEY_MODEL_FALLBACKS, FallbackModelsValue(models), "web", Some(actor), now, stored);
      if !ok { return Err(P.IoFailed); }
      var live := ladder.Some?;
      if live { ladder := Some(models); }
      return Ok([P.LadderApplied(|models|, live)]);
    }

    method ApplyModelConfig(
      w: P.World, model: Option<string>, fallbacks: Option<seq<string>>, actor: string, now: int, io: P.Io)
      returns (r: Result<seq<P.Line>, P.ApplyError>)
      modifies this`env, this`provider, this`ladder, store
      ensures (State(), r) == P.ApplyModelConfig(w, old(State()), model, fallbacks, actor, now, io)
      // done in full, or half done for a reason, or not at all
      ensures r.Ok? ==> P.FullyApplied(old(State()), State(), P.ModelConfig(model, fallbacks), actor, now)
      ensures r.Err? ==> (P.SameConfig(old(State()), State()) <==>
                !(P.DefaultTakes(w, old(State()), model, io) && fallbacks.Some?
                  && (!P.GoodLadder(fallbacks.value) || !io.second)))
    {
      hide P.ApplyDefault, P.ApplyLadder, P.DefaultTakes, P.GoodLadder;
      P.ModelConfigPartialIff(w, State(), model, fallbacks, actor, now, io);
      if model.None? && fallbacks.None? { return Err(P.EmptyModelConfig); }
      r := Ok([]);
      if model.Some? {
        r := ApplyDefault(w, model.value, actor, now, io.first);
        if r.Err? { return; }
      }
      if fallbacks.Some? {
        var r2 := ApplyLadder(fallbacks.value, actor, now, io.second);
        r := if r2.Ok? then Ok(r.value + r2.value) else r2;
      }
    }

    method ApplySecretSet(id: string, providerId: string, envKey: string, actor: string, now: int, io: P.Io)
      returns (r: Result<seq<P.Line>, P.ApplyError>)
      modifies this`pen, this`files, store
      ensures (State(), r) == P.ApplySecretSet(old(State()), id, providerId, envKey, actor, now, io)
      // a file changes only by the value this id had in the pen, and takes it out
      ensures State().files != old(State()).files ==>
                && id in old(pen) && files == old(files)[envKey := old(pen)[id]] && pen == old(pen) - {id}
      ensures r.Ok? <==>
                P.IsProviderKey(providerId, envKey) && secretsDir && id in old(pen) && io.file && io.first
      ensures r.Ok? ==> files == old(files)[envKey := old(pen)[id]] && r.value == [P.SecretWritten(envKey, providerId)]
    {
      hide P.IsProviderKey;
      P.KnownKeys(providerId, envKey);
      R.SecretSetFrame(State(), id, providerId, envKey, actor, now, io);
      hide P.IsValidEnvKey, P.EnvKeyFor;
      if !P.IsValidEnvKey(envKey) { return Err(P.InvalidEnvKey); }
      if P.EnvKeyFor(providerId) != Some(envKey) { return Err(P.WrongProvider); }
      if !secretsDir { return Err(P.NoSecretsDir); }
      ghost var before := pen;
      var value := Take(id);
      if value.None? {
        assert pen == before;
        return Err(P.SecretExpired);
      }
      if !io.file { return Err(P.IoFailed); }
      files := files[envKey := value.value];
      var marker := Parsed(JObject(map["set" := JBool(true)]));
      var ok := store.Apply(P.SECRET_SET_PREFIX + envKey, marker, "web", Some(actor), now, io.first);
      if !ok { return Err(P.IoFailed); }
      return Ok([P.SecretWritten(envKey, providerId)]);
    }

    /** The rules are visited in any order; the first bad one refuses the whole map. */
    method CheckRules(rules: map<string, string>) returns (ok: bool)
      ensures ok == P.GoodRules(rules)
    {
      var pending := rules.Keys;
      while pending != {}
        invariant pending <= rules.Keys
        invariant forall cls | cls in rules && cls !in pending :: Routing.Parse(cls).Some? && !Text.IsBlank(rules[cls])
      {
        var cls :| cls in pending;
        pending := pending - {cls};
        if Routing.Parse(cls).None? || Text.IsBlank(rules[cls]) { return false; }
      }
      return true;
    }

    /** A chat_turn rule must name a provider that can be built in this process. */
    method CheckChatRule(w: P.World, rules: map<string, string>) returns (problem: Option<P.ApplyError>)
      ensures problem == P.ChatProblem(w, State(), rules)
    {
      hide Text.Trim, P.EnvKeyFor;
      if "chat_turn" !in rules { return None; }
      var model := Text.Trim(rules["chat_turn"]);
      var key := P.EnvKeyFor(w.kindOf(model));
      if key.Some? && !(key.value in env && env[key.value] != "") { return Some(P.NotConnected(w.kindOf(model))); }
      return if w.resolves(model) then None else Some(P.UnresolvableModel);
    }

    method ApplyRoutingConfig(w: P.World, rules: map<string, string>, actor: string, now: int, io: P.Io)
      returns (r: Result<seq<P.Line>, P.ApplyError>)
      modifies this`provider, store
      ensures (State(), r) == P.ApplyRoutingConfig(w, old(State()), rules, actor, now, io)
      ensures r.Ok? <==> P.RulesTake(w, old(State()), rules, io)
    {
      hide Text.Trim, P.GoodRules, P.RulesTake, P.RoutedLines, P.ChatProblem, RoutingRulesValue;
      P.RoutingTakesIff(w, State(), rules, actor, now, io);
      var good := CheckRules(rules);
      if !good { return Err(P.InvalidRule); }
      var problem := CheckChatRule(w, rules);
      if problem.Some? { return Err(problem.value); }
      var ok := store.Apply(KEY_ROUTING_RULES, RoutingRulesValue(rules), "web", Some(actor), now, io.first);
      if !ok { return Err(P.IoFailed); }
      if rules == map[] { return Ok([P.RoutingCleared]); }
      var live := provider.Some?;
      if "chat_turn" in rules && live {
        provider := Some(Text.Trim(rules["chat_turn"]));
      }
      return Ok(P.RoutedLines(Routing.ALL_CLASSES, rules, live));
    }

    method ApplyPersonaEdit(w: P.World, slug: string, content: string, io: P.Io)
      returns (r: Result<seq<P.Line>, P.ApplyError>)
      modifies this`personas, this`backups
      ensures (State(), r) == P.ApplyPersonaEdit(w, old(State()), slug, content, io)
      ensures r.Ok? <==> P.IsSafeSlug(slug) && Text.Bytes(content) <= 256 * 1024 && w.personaOk(content) && io.file
      ensures r.Ok? ==> P.PersonaReplaced(old(State()), State(), slug, content)
      ensures r.Ok? ==> r.value == [P.PersonaWritten(slug, slug in old(personas))]
      ensures r.Err? ==> personas == old(personas) && backups == old(backups)
    {
      if !P.IsSafeSlug(slug) { return Err(P.UnsafeSlug); }
      if Text.Bytes(content) > P.MAX_CONTENT_BYTES { return Err(P.ContentTooLarge); }
      if !w.personaOk(content) { return Err(P.InvalidPersona); }
      if !io.file { return Err(P.IoFailed); }
      var backedUp := slug in personas;
      if backedUp { backups := backups + [(slug, personas[slug])]; }
      personas := personas[slug := content];
      return Ok([P.PersonaWritten(slug, backedUp)]);
    }

    /** What a payload's own apply function does. */
    method ApplyPayload(w: P.World, id: string, payload: P.Payload, owner: string, now: int, io: P.Io)
      returns (r: Result<seq<P.Line>, P.ApplyError>)
      modifies this`env, this`provider, this`ladder, this`pen, this`files, this`personas, this`backups, store
      ensures (State(), r) == P.Apply(w, old(State()), id, payload, owner, now, io)
    {
      hide P.ApplyModelConfig, P.ApplySecretSet, P.ApplyRoutingConfig, P.ApplyPersonaEdit;
      match payload {
        case PersonaEdit(slug, content) => r := ApplyPersonaEdit(w, slug, content, io);
        case ModelConfig(model, fallbacks) => r := ApplyModelConfig(w, model, fallbacks, owner, now, io);
        case SecretSet(providerId, envKey) => r := ApplySecretSet(id, providerId, envKey, owner, now, io);
        case RoutingConfig(rules) => r := ApplyRoutingConfig(w, rules, owner, now, io);
      }
    }

    /** /proposal approve: resolve the row first, then apply its payload; a panic ends the process. */
    method Approve(w: P.World, owner: string, id: string, now: int, io: P.Io) returns (m: P.Message)
      modifies this, store
      ensures (State(), m) == P.Approve(w, old(State()), owner, id, now, io)
      // once only
      ensures R.Resolves(m, id) <==> P.Resolvable(old(State()), owner, id)
      ensures R.Resolves(m, id) ==> R.Settled(State(), id)
      ensures !R.Resolves(m, id) ==> State() == old(State())
      // it goes through exactly when the payload's conditions hold
      ensures m.Applied? <==>
                && P.Resolvable(old(State()), owner, id)
                && P.GoesThrough(w, old(State()), id, old(proposals)[id].payload, io)
      // all or nothing, for a payload the gate let through
      ensures id in old(proposals) && P.Gated(w, old(proposals)[id].payload) && P.StoreHolds(io) ==>
                if m.Applied? then P.FullyApplied(old(State()), State(), old(proposals)[id].payload, owner, now)
                else P.SameConfig(old(State()), State())
      // a persona's file changes by an edit that went through, and by nothing else
      ensures if m.Applied? && old(proposals)[id].payload.PersonaEdit? then
                var edit := old(proposals)[id].payload;
                && P.PersonaReplaced(old(State()), State(), edit.slug, edit.content)
                && m.lines == [P.PersonaWritten(edit.slug, edit.slug in old(personas))]
              else personas == old(personas) && backups == old(backups)
    {
      hide P.Apply, P.Gated, P.FullyApplied, P.GoesThrough, P.SameConfig, P.PersonaReplaced;
      R.ApproveInFull(w, State(), owner, id, now, io);
      if id !in proposals || proposals[id].owner != owner { return P.NoSuchProposal(id); }
      var payload := proposals[id].payload;
      var changed := Resolve(owner, id, P.Approved);
      if !changed { return P.NotPending(id); }
      var r := ApplyPayload(w, id, payload, owner, now, io);
      if r.Ok? { return P.Applied(id, r.value); }
      if r.error.PublishPanic? {
        up := false;
        return P.Panicked(id, r.error.envKey, r.error.value);
      }
      return P.ApplyFailed(id, r.error);
    }

    /** /proposal reject. */
    method Reject(owner: string, id: string) returns (m: P.Message)
      modifies this`proposals
      ensures (State(), m) == P.Reject(old(State()), owner, id)
      ensures R.Resolves(m, id) <==> P.Resolvable(old(State()), owner, id)
      ensures R.Resolves(m, id) ==> R.Settled(State(), id) && State().(proposals := old(proposals)) == old(State())
    {
      var changed := Resolve(owner, id, P.Rejected);
      return if changed then P.WasRejected(id) else P.NotPending(id);
    }
  }
}
