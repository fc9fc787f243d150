/**
The two Codex login flows. The browser flow accepts loopback requests until one
carries the login's own state; the device flow polls until it is answered or
15 minutes are over (RFC 8628 section 3.5).
*/
module CodexLogin {
  import opened Wrappers
  import opened HttpCallback
  import opened ProviderAuth

  datatype AuthError = Throttled | ReauthRequired | UnsupportedProtocol | Missing | Other(transient: bool)

  predicate IsTransient(e: AuthError) {
    e.Throttled? || (e.Other? && e.transient)
  }

  datatype TokenRecord = TokenRecord(refreshToken: string, accountId: Option<string>)

  /** One login between start and wait_for_approval. */
  datatype PendingLogin = Device(intervalSecs: nat) | Browser(state: string)

  /** What accepting on the callback port yields before the deadline; a connection that is no callback carries None. */
  datatype Accept = TimedOut | AcceptFailed | Connection(callback: Option<Callback>)

  datatype PollReply = Authorized(code: string, verifier: string) | Pending | PollError(error: AuthError)

  /** The vendor and the token table, as seen by one login. */
  datatype Vendor = Vendor(
    accepts: seq<Accept>,
    exchangeBrowser: string -> Result<TokenRecord, AuthError>,
    reply: nat -> PollReply,
    took: nat -> nat,
    exchangeDevice: (string, string) -> Result<TokenRecord, AuthError>,
    stored: bool)

  // ---- the browser flow ------------------------------------------------------------------

  /** What a login comes down to. */
  datatype Decision = GaveUp(error: AuthError) | Exchange(code: string)

  /** A request that says something about this login: a callback carrying its state. */
  predicate IsOurs(state: string, a: Accept) {
    a.Connection? && a.callback.Some? && a.callback.value.state == Some(state)
  }

  /** A favicon request, a port probe, or a callback of some other login. */
  predicate IsStray(state: string, a: Accept) {
    a.Connection? && !IsOurs(state, a)
  }

  /** What one accept that is not stray decides. */
  function Decide(a: Accept): Decision
    requires a.Connection? ==> a.callback.Some?
  {
    match a
    case TimedOut => GaveUp(ReauthRequired)
    case AcceptFailed => GaveUp(Throttled)
    case Connection(callback) =>
      if callback.value.code.None? then GaveUp(ReauthRequired) else Exchange(callback.value.code.value)
  }

  /** The first accept that is not stray decides; if none comes, the deadline does. */
  function BrowserDecision(state: string, accepts: seq<Accept>): Decision {
    if accepts == [] then GaveUp(ReauthRequired)
    else if IsStray(state, accepts[0]) then BrowserDecision(state, accepts[1..])
    else Decide(accepts[0])
  }

  /** The status each handled request is answered with, when the exchange ends in `ok`. */
  function Answers(state: string, accepts: seq<Accept>, ok: bool): seq<nat> {
    if accepts == [] || !accepts[0].Connection? then []
    else if IsStray(state, accepts[0]) then
      [if accepts[0].callback.None? then 404 else 400] + Answers(state, accepts[1..], ok)
    else if accepts[0].callback.value.code.None? then [400]
    else [if ok then 200 else 500]
  }

  /** The browser is told of success exactly when a code was exchanged successfully. */
  lemma {:induction false} SuccessIsAnsweredIff(state: string, accepts: seq<Accept>, ok: bool)
    ensures 200 in Answers(state, accepts, ok) <==> ok && BrowserDecision(state, accepts).Exchange?
  {
    if accepts != [] && IsStray(state, accepts[0]) { SuccessIsAnsweredIff(state, accepts[1..], ok); }
  }

  function Relevant(state: string, accepts: seq<Accept>): seq<Accept> {
    if accepts == [] then []
    else (if IsStray(state, accepts[0]) then [] else [accepts[0]]) + Relevant(state, accepts[1..])
  }

  /** Deleting every stray and wrong-state request changes nothing. */
  lemma {:induction false} StrayRequestsDoNotMatter(state: string, accepts: seq<Accept>)
    ensures BrowserDecision(state, accepts) == BrowserDecision(state, Relevant(state, accepts))
  {
    if accepts != [] {
      StrayRequestsDoNotMatter(state, accepts[1..]);
      assert IsStray(state, accepts[0]) ==> Relevant(state, accepts) == Relevant(state, accepts[1..]);
    }
  }

  /** Two request sequences that agree on what is ours decide alike, whatever else arrives. */
  lemma SameRelevantSameDecision(state: string, a: seq<Accept>, b: seq<Accept>)
    requires Relevant(state, a) == Relevant(state, b)
    ensures BrowserDecision(state, a) == BrowserDecision(state, b)
  {
    StrayRequestsDoNotMatter(state, a);
    StrayRequestsDoNotMatter(state, b);
  }

  /** A code is exchanged exactly when the first request that is ours carries it and nothing gave up before. */
  lemma {:induction false} ExchangeIff(state: string, accepts: seq<Accept>, code: string)
    ensures BrowserDecision(state, accepts) == Exchange(code) <==>
            exists i :: 0 <= i < |accepts| && IsOurs(state, accepts[i]) && accepts[i].callback.value.code == Some(code)
                        && forall j | 0 <= j < i :: IsStray(state, accepts[j])
  {
    if accepts != [] {
      ExchangeIff(state, accepts[1..], code);
      if IsStray(state, accepts[0]) {
        var rest := accepts[1..];
        if i :| 0 <= i < |rest| && IsOurs(state, rest[i]) && rest[i].callback.value.code == Some(code)
                && forall j | 0 <= j < i :: IsStray(state, rest[j]) {
          assert IsOurs(state, accepts[i + 1]);
          forall j | 0 <= j < i + 1
            ensures IsStray(state, accepts[j])
          {
            if j > 0 { assert accepts[j] == accepts[1..][j - 1]; }
          }
        }
        if i :| 0 <= i < |accepts| && IsOurs(state, accepts[i]) && accepts[i].callback.value.code == Some(code)
                && forall j | 0 <= j < i :: IsStray(state, accepts[j]) {
          assert accepts[1..][i - 1] == accepts[i];
        }
      }
    }
  }

  // ---- the device flow ---------------------------------------------------------------------

  const TICKS_PER_SECOND: nat := 1_000_000_000
  const POLL_WINDOW_SECS: nat := 15 * 60
  const DEADLINE: nat := POLL_WINDOW_SECS * TICKS_PER_SECOND

  function IntervalSecs(secs: nat): (n: nat)
    ensures n >= 1
  {
    if secs < 1 then 1 else secs
  }

  /** Pending and transient errors are both a reason to sleep and ask again. */
  predicate KeepsWaiting(r: PollReply) {
    r.Pending? || (r.PollError? && IsTransient(r.error))
  }

  datatype DeviceDecision = DeviceGaveUp(error: AuthError) | DeviceExchange(code: string, verifier: string)

  /**
  The poll loop from poll k at time `now`: `took(k)` is how long the k-th poll
  and the sleep after it last beyond the interval. The result counts the polls.
  */
  function DeviceRun(reply: nat -> PollReply, took: nat -> nat, interval: nat, k: nat, now: nat): (DeviceDecision, nat)
    requires interval >= 1
    decreases if now < DEADLINE then DEADLINE - now else 0
  {
    if now >= DEADLINE then (DeviceGaveUp(ReauthRequired), k)
    else
      var r := reply(k);
      if KeepsWaiting(r) then DeviceRun(reply, took, interval, k + 1, now + interval * TICKS_PER_SECOND + took(k))
      else if r.Authorized? then (DeviceExchange(r.code, r.verifier), k + 1)
      else (DeviceGaveUp(r.error), k + 1)
  }

  function CeilDiv(a: nat, b: nat): nat
    requires b >= 1
  {
    (a + b - 1) / b
  }

  lemma TimesIsMonotone(x: nat, y: nat, b: nat)
    ensures x <= y ==> x * b <= y * b
  {
  }

  /** If k whole intervals fit strictly before the end, k + 1 is within the rounded-up quotient. */
  lemma CeilBound(k: nat, b: nat, a: nat)
    requires b >= 1 && k * b < a
    ensures k + 1 <= CeilDiv(a, b)
  {
    TimesIsMonotone(CeilDiv(a, b), k, b);
    assert a <= CeilDiv(a, b) * b;
  }

  /** At most ceil(900 / max(1, interval)) polls, whatever the replies and delays. */
  lemma {:induction false} PollsAreBounded(reply: nat -> PollReply, took: nat -> nat, interval: nat, k: nat, now: nat)
    requires interval >= 1 && k * interval * TICKS_PER_SECOND <= now
    requires k <= CeilDiv(POLL_WINDOW_SECS, interval)
    ensures DeviceRun(reply, took, interval, k, now).1 <= CeilDiv(POLL_WINDOW_SECS, interval)
    decreases if now < DEADLINE then DEADLINE - now else 0
  {
    if now < DEADLINE {
      assert k * interval < POLL_WINDOW_SECS;
      CeilBound(k, interval, POLL_WINDOW_SECS);
      if KeepsWaiting(reply(k)) {
        assert (k + 1) * interval * TICKS_PER_SECOND == k * interval * TICKS_PER_SECOND + interval * TICKS_PER_SECOND;
        PollsAreBounded(reply, took, interval, k + 1, now + interval * TICKS_PER_SECOND + took(k));
      }
    }
  }

  /** The bound is met when every reply is pending and nothing is ever late. */
  lemma {:induction false} BoundIsReached(reply: nat -> PollReply, took: nat -> nat, interval: nat, k: nat)
    requires interval >= 1 && k <= CeilDiv(POLL_WINDOW_SECS, interval)
    requires forall i: nat :: reply(i) == Pending && took(i) == 0
    ensures DeviceRun(reply, took, interval, k, k * interval * TICKS_PER_SECOND)
         == (DeviceGaveUp(ReauthRequired), CeilDiv(POLL_WINDOW_SECS, interval))
    decreases CeilDiv(POLL_WINDOW_SECS, interval) - k
  {
    var n := CeilDiv(POLL_WINDOW_SECS, interval);
    CeilIsEnough(POLL_WINDOW_SECS, interval);
    if k == n {
      assert n * interval * TICKS_PER_SECOND >= DEADLINE;
    } else {
      CeilIsTight(k, interval, POLL_WINDOW_SECS);
      assert k * interval * TICKS_PER_SECOND < DEADLINE;
      assert (k + 1) * interval * TICKS_PER_SECOND == k * interval * TICKS_PER_SECOND + interval * TICKS_PER_SECOND;
      BoundIsReached(reply, took, interval, k + 1);
    }
  }

  lemma CeilIsEnough(a: nat, b: nat)
    requires b >= 1
    ensures CeilDiv(a, b) * b >= a
  {
  }

  lemma CeilIsTight(k: nat, b: nat, a: nat)
    requires b >= 1 && k < CeilDiv(a, b)
    ensures k * b < a
  {
    assert (k + 1) * b <= CeilDiv(a, b) * b <= a + b - 1;
  }

  /** Transient errors are equivalent to pending replies. */
  lemma {:induction false} TransientIsPending(
    reply: nat -> PollReply, reply': nat -> PollReply, took: nat -> nat, interval: nat, k: nat, now: nat)
    requires interval >= 1
    requires forall i: nat :: reply(i) == reply'(i) || (KeepsWaiting(reply(i)) && KeepsWaiting(reply'(i)))
    ensures DeviceRun(reply, took, interval, k, now) == DeviceRun(reply', took, interval, k, now)
    decreases if now < DEADLINE then DEADLINE - now else 0
  {
    if now < DEADLINE && KeepsWaiting(reply(k)) {
      TransientIsPending(reply, reply', took, interval, k + 1, now + interval * TICKS_PER_SECOND + took(k));
    }
  }

  /** A token is exchanged only for a reply that authorised it, and only after replies that kept waiting. */
  lemma {:induction false} ExchangeNeedsAuthorization(
    reply: nat -> PollReply, took: nat -> nat, interval: nat, k: nat, now: nat)
    requires interval >= 1 && DeviceRun(reply, took, interval, k, now).0.DeviceExchange?
    ensures var (d, n) := DeviceRun(reply, took, interval, k, now);
            && n > k && reply(n - 1) == Authorized(d.code, d.verifier)
            && forall i | k <= i < n - 1 :: KeepsWaiting(reply(i))
    decreases if now < DEADLINE then DEADLINE - now else 0
  {
    if KeepsWaiting(reply(k)) {
      ExchangeNeedsAuthorization(reply, took, interval, k + 1, now + interval * TICKS_PER_SECOND + took(k));
    }
  }

  // ---- the connector -------------------------------------------------------------------------

  /** What a successful or failed exchange leaves of the token table. */
  function Stored(
    tokens: map<AuthRef, TokenRecord>, reference: AuthRef, exchanged: Result<TokenRecord, AuthError>, stored: bool)
    : (map<AuthRef, TokenRecord>, Result<(), AuthError>)
  {
    if exchanged.Err? then (tokens, Err(exchanged.error))
    else if !stored then (tokens, Err(Throttled))
    else (tokens[reference := exchanged.value], Ok(()))
  }

  /** Whether a login spends a code, and what the vendor gives for it. */
  datatype Settled = NoCode(error: AuthError) | OneCode(code: string, exchanged: Result<TokenRecord, AuthError>)

  function Settlement(pending: PendingLogin, vendor: Vendor): Settled {
    match pending
    case Device(intervalSecs) =>
      (match DeviceRun(vendor.reply, vendor.took, IntervalSecs(intervalSecs), 0, 0).0
       case DeviceGaveUp(e) => NoCode(e)
       case DeviceExchange(code, verifier) => OneCode(code, vendor.exchangeDevice(code, verifier)))
    case Browser(state) =>
      (match BrowserDecision(state, vendor.accepts)
       case GaveUp(e) => NoCode(e)
       case Exchange(code) => OneCode(code, vendor.exchangeBrowser(code)))
  }

  /** What waiting for a login comes to: the new token table, the codes sent to the vendor, the result. */
  function Awaited(tokens: map<AuthRef, TokenRecord>, reference: AuthRef, pending: PendingLogin, vendor: Vendor)
    : (map<AuthRef, TokenRecord>, seq<string>, Result<(), AuthError>)
  {
    match Settlement(pending, vendor)
    case NoCode(e) => (tokens, [], Err(e))
    case OneCode(code, exchanged) =>
      var (t, r) := Stored(tokens, reference, exchanged, vendor.stored);
      (t, [code], r)
  }

  /** The same, after the codes already sent. */
  function After(
    tokens: map<AuthRef, TokenRecord>, spent: seq<string>, reference: AuthRef, pending: PendingLogin, vendor: Vendor)
    : (map<AuthRef, TokenRecord>, seq<string>, Result<(), AuthError>)
  {
    var (t, codes, r) := Awaited(tokens, reference, pending, vendor);
    (t, if codes == [] then spent else spent + codes, r)
  }

  /**
  At most one code is spent. The login succeeds exactly when that code's exchange
  and the write after it do; then the exchanged token is stored for this
  reference and nothing else changes, and otherwise nothing changes at all.
  */
  lemma OneCodeOneToken(tokens: map<AuthRef, TokenRecord>, reference: AuthRef, pending: PendingLogin, vendor: Vendor)
    ensures var (t, codes, r) := Awaited(tokens, reference, pending, vendor);
            var s := Settlement(pending, vendor);
            && |codes| <= 1 && (codes != [] <==> s.OneCode?)
            && (r.Ok? <==> s.OneCode? && s.exchanged.Ok? && vendor.stored)
            && t == if r.Ok? then tokens[reference := s.exchanged.value] else tokens
  {
  }

  lemma WaitingSpendsOneCode(
    tokens: map<AuthRef, TokenRecord>, spent: seq<string>, reference: AuthRef, pending: PendingLogin, vendor: Vendor)
    ensures var (t, codes, r) := After(tokens, spent, reference, pending, vendor);
            && spent <= codes && |codes| <= |spent| + 1
            && (r.Ok? ==> |codes| == |spent| + 1 && reference in t)
            && t - {reference} == tokens - {reference} && (r.Err? ==> t == tokens)
  {
    hide Awaited, Settlement;
    OneCodeOneToken(tokens, reference, pending, vendor);
  }

  // ---- what a login comes to, told by what the vendor and the browser did ---------------------

  /** When poll k is due, if every poll before it is waited out. */
  function Due(took: nat -> nat, interval: nat, k: nat): nat {
    if k == 0 then 0 else Due(took, interval, k - 1) + interval * TICKS_PER_SECOND + took(k - 1)
  }

  predicate AsksToWait(r: PollReply) {
    r == Pending || r == PollError(Throttled) || r == PollError(Other(true))
  }

  /** Poll k is made: the window is not over by then, and every reply before asked to wait. */
  ghost predicate IsPolled(vendor: Vendor, intervalSecs: nat, k: nat) {
    && Due(vendor.took, if intervalSecs < 1 then 1 else intervalSecs, k) < DEADLINE
    && forall i: nat | i < k :: AsksToWait(vendor.reply(i))
  }

  lemma {:induction false} DueGrows(took: nat -> nat, interval: nat, k: nat, j: nat)
    requires k <= j
    ensures Due(took, interval, k) <= Due(took, interval, j)
  {
    if k < j { DueGrows(took, interval, k, j - 1); }
  }

  /**
  The run from poll k on is decided by the first reply that does not ask to
  wait, or else by the end of the window.
  */
  lemma {:induction false} DeviceRunFrom(vendor: Vendor, secs: nat, k: nat)
    requires forall i: nat | i < k :: AsksToWait(vendor.reply(i))
    ensures var interval := IntervalSecs(secs);
            var run := DeviceRun(vendor.reply, vendor.took, interval, k, Due(vendor.took, interval, k));
            && (forall j: nat | k <= j && IsPolled(vendor, secs, j) && !AsksToWait(vendor.reply(j)) ::
                  var reply := vendor.reply(j);
                  run == (if reply.Authorized? then DeviceExchange(reply.code, reply.verifier)
                          else DeviceGaveUp(reply.error), j + 1))
            && ((forall j: nat | k <= j && IsPolled(vendor, secs, j) :: AsksToWait(vendor.reply(j))) ==>
                  run.0 == DeviceGaveUp(ReauthRequired))
    decreases var now := Due(vendor.took, IntervalSecs(secs), k); if now < DEADLINE then DEADLINE - now else 0
  {
    var interval := IntervalSecs(secs);
    if Due(vendor.took, interval, k) >= DEADLINE {
      forall j: nat | k <= j
        ensures !IsPolled(vendor, secs, j)
      {
        DueGrows(vendor.took, interval, k, j);
      }
    } else {
      assert IsPolled(vendor, secs, k);
      if AsksToWait(vendor.reply(k)) { DeviceRunFrom(vendor, secs, k + 1); }
    }
  }

  /** A code is exchanged exactly when some poll that is made is answered with it. */
  lemma DeviceExchangeIff(vendor: Vendor, secs: nat, code: string, verifier: string)
    ensures DeviceRun(vendor.reply, vendor.took, IntervalSecs(secs), 0, 0).0 == DeviceExchange(code, verifier) <==>
            exists k: nat :: IsPolled(vendor, secs, k) && vendor.reply(k) == Authorized(code, verifier)
  {
    hide IsPolled, DeviceRun;
    DeviceRunFrom(vendor, secs, 0);
    if forall j: nat | IsPolled(vendor, secs, j) :: AsksToWait(vendor.reply(j)) {
    } else {
      var k: nat :| IsPolled(vendor, secs, k) && !AsksToWait(vendor.reply(k));
    }
  }

  /** A code was sent; its token is stored exactly if there is one and the table can be written. */
  predicate CodeSent(
    reference: AuthRef, code: string, exchanged: Result<TokenRecord, AuthError>, stored: bool,
    tokens: map<AuthRef, TokenRecord>, spent: seq<string>,
    tokens': map<AuthRef, TokenRecord>, spent': seq<string>, r: Result<(), AuthError>)
  {
    && spent' == spent + [code]
    && (r.Ok? <==> exchanged.Ok? && stored)
    && tokens' == (if r.Ok? then tokens[reference := exchanged.value] else tokens)
    && (exchanged.Err? ==> r == Err(exchanged.error))
    && (exchanged.Ok? && !stored ==> r == Err(Throttled))
  }

  /**
  The outcome of a device login: the poll that was authorised spends its code, a
  permanent error is returned, and without either the window ends.
  */
  ghost predicate DeviceOutcome(
    reference: AuthRef, secs: nat, vendor: Vendor, tokens: map<AuthRef, TokenRecord>, spent: seq<string>,
    tokens': map<AuthRef, TokenRecord>, spent': seq<string>, r: Result<(), AuthError>)
  {
    && (forall k: nat | IsPolled(vendor, secs, k) && vendor.reply(k).Authorized? ::
          var exchanged := vendor.exchangeDevice(vendor.reply(k).code, vendor.reply(k).verifier);
          CodeSent(reference, vendor.reply(k).code, exchanged, vendor.stored, tokens, spent, tokens', spent', r))
    && (forall k: nat | IsPolled(vendor, secs, k) && vendor.reply(k).PollError? && !AsksToWait(vendor.reply(k)) ::
          r == Err(vendor.reply(k).error) && tokens' == tokens && spent' == spent)
    && ((forall k: nat | IsPolled(vendor, secs, k) :: AsksToWait(vendor.reply(k))) ==>
          r == Err(ReauthRequired) && tokens' == tokens && spent' == spent)
  }

  lemma DeviceLogin(
    tokens: map<AuthRef, TokenRecord>, spent: seq<string>, reference: AuthRef, secs: nat, vendor: Vendor)
    ensures var (t, s, r) := After(tokens, spent, reference, Device(secs), vendor);
            DeviceOutcome(reference, secs, vendor, tokens, spent, t, s, r)
    ensures After(tokens, spent, reference, Device(secs), vendor).2.Ok? <==>
              exists k: nat :: IsPolled(vendor, secs, k) && vendor.reply(k).Authorized? && vendor.stored
                && vendor.exchangeDevice(vendor.reply(k).code, vendor.reply(k).verifier).Ok?
  {
    hide IsPolled, DeviceRun;
    DeviceRunFrom(vendor, secs, 0);
    if k: nat :| IsPolled(vendor, secs, k) && !AsksToWait(vendor.reply(k)) {
      assert DeviceRun(vendor.reply, vendor.took, IntervalSecs(secs), 0, 0).1 == k + 1;
    }
  }

  predicate IsForeign(state: string, a: Accept) {
    a.Connection? && (a.callback.None? || a.callback.value.state != Some(state))
  }

  /** What accept i yields ends the wait: everything before it was some other request. */
  predicate IsDecisive(state: string, accepts: seq<Accept>, i: nat) {
    i < |accepts| && !IsForeign(state, accepts[i]) && forall j | 0 <= j < i :: IsForeign(state, accepts[j])
  }

  /**
  The outcome of a browser login: the first request that carries this login's
  state spends its code, unless the login was refused or the wait ended before.
  */
  ghost predicate BrowserOutcome(
    reference: AuthRef, state: string, vendor: Vendor, tokens: map<AuthRef, TokenRecord>, spent: seq<string>,
    tokens': map<AuthRef, TokenRecord>, spent': seq<string>, r: Result<(), AuthError>)
  {
    && (forall i: nat | IsDecisive(state, vendor.accepts, i) ::
          match vendor.accepts[i]
          case TimedOut => r == Err(ReauthRequired) && tokens' == tokens && spent' == spent
          case AcceptFailed => r == Err(Throttled) && tokens' == tokens && spent' == spent
          case Connection(callback) =>
            var code := callback.value.code;
            if code.None? then r == Err(ReauthRequired) && tokens' == tokens && spent' == spent
            else
              var exchanged := vendor.exchangeBrowser(code.value);
              CodeSent(reference, code.value, exchanged, vendor.stored, tokens, spent, tokens', spent', r))
    && ((forall i: nat :: !IsDecisive(state, vendor.accepts, i)) ==>
          r == Err(ReauthRequired) && tokens' == tokens && spent' == spent)
  }

  /** What the browser was told: 404 for no callback, 400 for another login's or a refused one, then how it went. */
  ghost predicate AnsweredInTurn(state: string, accepts: seq<Accept>, given: seq<nat>, ok: bool) {
    && |given| <= |accepts|
    && (forall i: nat | i < |given| && IsForeign(state, accepts[i]) ::
          given[i] == if accepts[i].callback.None? then 404 else 400)
    && (forall i: nat | IsDecisive(state, accepts, i) ::
          if !accepts[i].Connection? then |given| == i
          else
            && |given| == i + 1
            && given[i] == if accepts[i].callback.value.code.None? then 400 else if ok then 200 else 500)
    && ((forall i: nat :: !IsDecisive(state, accepts, i)) ==> |given| == |accepts|)
  }

  lemma {:induction false} DecisiveDecides(state: string, accepts: seq<Accept>, i: nat)
    requires IsDecisive(state, accepts, i)
    ensures BrowserDecision(state, accepts) == Decide(accepts[i])
    ensures forall ok :: AnsweredInTurn(state, accepts, Answers(state, accepts, ok), ok)
  {
    forall j: nat | IsDecisive(state, accepts, j)
      ensures j == i
    {
    }
    if i > 0 {
      forall j | 0 <= j < i - 1
        ensures accepts[1..][j] == accepts[j + 1]
      {
      }
      DecisiveDecides(state, accepts[1..], i - 1);
      forall ok
        ensures AnsweredInTurn(state, accepts, Answers(state, accepts, ok), ok)
      {
        AnswersFromTail(state, accepts, i, ok);
      }
    }
  }

  lemma AnswersFromTail(state: string, accepts: seq<Accept>, i: nat, ok: bool)
    requires i > 0 && IsDecisive(state, accepts, i)
    requires IsDecisive(state, accepts[1..], i - 1)
    requires AnsweredInTurn(state, accepts[1..], Answers(state, accepts[1..], ok), ok)
    ensures AnsweredInTurn(state, accepts, Answers(state, accepts, ok), ok)
  {
    var rest := Answers(state, accepts[1..], ok);
    assert Answers(state, accepts, ok) == [if accepts[0].callback.None? then 404 else 400] + rest;
    forall j: nat | IsDecisive(state, accepts, j)
      ensures j == i
    {
    }
    forall j: nat | 0 < j < |rest| + 1 && IsForeign(state, accepts[j])
      ensures IsForeign(state, accepts[1..][j - 1])
    {
    }
  }

  /** With nothing but other requests, every one is answered and the wait ends with the deadline. */
  lemma {:induction false} NothingDecides(state: string, accepts: seq<Accept>)
    requires forall j | 0 <= j < |accepts| :: IsForeign(state, accepts[j])
    ensures BrowserDecision(state, accepts) == GaveUp(ReauthRequired)
    ensures forall ok :: AnsweredInTurn(state, accepts, Answers(state, accepts, ok), ok)
  {
    if accepts != [] {
      NothingDecides(state, accepts[1..]);
      forall ok
        ensures AnsweredInTurn(state, accepts, Answers(state, accepts, ok), ok)
      {
        var rest := Answers(state, accepts[1..], ok);
        assert forall i: nat :: !IsDecisive(state, accepts[1..], i);
        assert Answers(state, accepts, ok) == [if accepts[0].callback.None? then 404 else 400] + rest;
        assert forall j | 0 < j < |accepts| :: accepts[1..][j - 1] == accepts[j];
      }
    }
  }

  lemma {:induction false} FirstNotForeign(state: string, accepts: seq<Accept>) returns (i: nat)
    requires exists j :: 0 <= j < |accepts| && !IsForeign(state, accepts[j])
    ensures IsDecisive(state, accepts, i)
  {
    if !IsForeign(state, accepts[0]) {
      i := 0;
    } else {
      var j :| 0 <= j < |accepts| && !IsForeign(state, accepts[j]);
      assert accepts[1..][j - 1] == accepts[j];
      var k := FirstNotForeign(state, accepts[1..]);
      i := k + 1;
      assert forall m | 0 < m < i :: accepts[1..][m - 1] == accepts[m];
    }
  }

  lemma BrowserLogin(
    tokens: map<AuthRef, TokenRecord>, spent: seq<string>, reference: AuthRef, state: string, vendor: Vendor)
    ensures var (t, s, r) := After(tokens, spent, reference, Browser(state), vendor);
            BrowserOutcome(reference, state, vendor, tokens, spent, t, s, r)
    ensures forall ok :: AnsweredInTurn(state, vendor.accepts, Answers(state, vendor.accepts, ok), ok)
  {
    hide Answers, AnsweredInTurn, BrowserDecision;
    if exists j :: 0 <= j < |vendor.accepts| && !IsForeign(state, vendor.accepts[j]) {
      var i := FirstNotForeign(state, vendor.accepts);
      DecisiveDecides(state, vendor.accepts, i);
      assert forall j: nat | IsDecisive(state, vendor.accepts, j) :: j == i;
    } else {
      NothingDecides(state, vendor.accepts);
    }
  }

  /** The answers given so far, followed by those of the rest, are the answers of the whole. */
  ghost predicate AnswersLeft(state: string, accepts: seq<Accept>, i: nat, start: seq<nat>, sofar: seq<nat>)
    requires i <= |accepts|
  {
    forall ok :: start + Answers(state, accepts, ok) == sofar + Answers(state, accepts[i..], ok)
  }

  lemma NothingFollows(
    tokens: map<AuthRef, TokenRecord>, spent: seq<string>, reference: AuthRef, state: string, vendor: Vendor,
    i: nat, start: seq<nat>, sofar: seq<nat>)
    requires i <= |vendor.accepts| && (i < |vendor.accepts| ==> !vendor.accepts[i].Connection?)
    requires BrowserDecision(state, vendor.accepts) == BrowserDecision(state, vendor.accepts[i..])
    requires AnswersLeft(state, vendor.accepts, i, start, sofar)
    ensures var e := if i < |vendor.accepts| && vendor.accepts[i].AcceptFailed? then Throttled else ReauthRequired;
            After(tokens, spent, reference, Browser(state), vendor) == (tokens, spent, Err(e))
    ensures forall ok :: start + Answers(state, vendor.accepts, ok) == sofar
  {
    assert forall ok :: Answers(state, vendor.accepts[i..], ok) == [];
    assert sofar + [] == sofar;
  }

  lemma StrayAnswered(state: string, accepts: seq<Accept>, i: nat, start: seq<nat>, sofar: seq<nat>)
    requires i < |accepts| && IsStray(state, accepts[i])
    requires AnswersLeft(state, accepts, i, start, sofar)
    ensures BrowserDecision(state, accepts[i..]) == BrowserDecision(state, accepts[i + 1..])
    ensures AnswersLeft(state, accepts, i + 1, start, sofar + [if accepts[i].callback.None? then 404 else 400])
  {
    var status := if accepts[i].callback.None? then 404 else 400;
    assert accepts[i..][1..] == accepts[i + 1..];
    forall ok
      ensures start + Answers(state, accepts, ok) == sofar + [status] + Answers(state, accepts[i + 1..], ok)
    {
      assert Answers(state, accepts[i..], ok) == [status] + Answers(state, accepts[i + 1..], ok);
    }
  }

  lemma OursAnswered(
    tokens: map<AuthRef, TokenRecord>, spent: seq<string>, reference: AuthRef, state: string, vendor: Vendor,
    i: nat, start: seq<nat>, sofar: seq<nat>)
    requires i < |vendor.accepts| && IsOurs(state, vendor.accepts[i])
    requires BrowserDecision(state, vendor.accepts) == BrowserDecision(state, vendor.accepts[i..])
    requires AnswersLeft(state, vendor.accepts, i, start, sofar)
    ensures var code := vendor.accepts[i].callback.value.code;
            After(tokens, spent, reference, Browser(state), vendor) ==
            if code.None? then (tokens, spent, Err(ReauthRequired))
            else
              var (t, r) := Stored(tokens, reference, vendor.exchangeBrowser(code.value), vendor.stored);
              (t, spent + [code.value], r)
    ensures forall ok :: start + Answers(state, vendor.accepts, ok)
                      == sofar + [if vendor.accepts[i].callback.value.code.None? then 400 else if ok then 200 else 500]
  {
    hide Stored;
  }

  class CodexConnector {
    var tokens: map<AuthRef, TokenRecord>
    var inFlight: map<AuthRef, (PendingLogin, nat)>
    var spent: seq<string>  // the authorization codes sent to the vendor, in order
    var answers: seq<nat>   // the status codes sent to the browser, in order

    constructor ()
      ensures tokens == map[] && inFlight == map[] && spent == [] && answers == []
    {
      tokens, inFlight, spent, answers := map[], map[], [], [];
    }

    /** Sweep logins as old as the poll window, then remember this one. */
    method Remember(reference: AuthRef, pending: PendingLogin, now: nat)
      modifies this`inFlight
      ensures reference in inFlight && inFlight[reference] == (pending, now)
      ensures forall r | r != reference ::
                r in inFlight <==> r in old(inFlight) && now - old(inFlight)[r].1 < DEADLINE
      ensures forall r | r in inFlight && r != reference :: inFlight[r] == old(inFlight)[r]
      ensures forall r | r in inFlight :: now - inFlight[r].1 < DEADLINE
    {
      inFlight := map r | r in inFlight && now - inFlight[r].1 < DEADLINE :: inFlight[r];
      inFlight := inFlight[reference := (pending, now)];
    }

    method StoreRecord(reference: AuthRef, exchanged: Result<TokenRecord, AuthError>, stored: bool)
      returns (r: Result<(), AuthError>)
      modifies this`tokens
      ensures (tokens, r) == Stored(old(tokens), reference, exchanged, stored)
    {
      if exchanged.Err? { return Err(exchanged.error); }
      if !stored { return Err(Throttled); }
      tokens := tokens[reference := exchanged.value];
      return Ok(());
    }

    /** Accept requests until one decides this login. */
    method WaitForBrowser(reference: AuthRef, state: string, vendor: Vendor) returns (r: Result<(), AuthError>)
      modifies this`tokens, this`spent, this`answers
      ensures (tokens, spent, r) == After(old(tokens), old(spent), reference, Browser(state), vendor)
      ensures answers == old(answers) + Answers(state, vendor.accepts, r.Ok?)
      ensures BrowserOutcome(reference, state, vendor, old(tokens), old(spent), tokens, spent, r)
      ensures old(answers) <= answers && AnsweredInTurn(state, vendor.accepts, answers[|old(answers)|..], r.Ok?)
    {
      hide BrowserOutcome, AnsweredInTurn;
      BrowserLogin(tokens, spent, reference, state, vendor);
      var i := 0;
      assert vendor.accepts[0..] == vendor.accepts;
      while true
        invariant 0 <= i <= |vendor.accepts|
        invariant tokens == old(tokens) && spent == old(spent)
        invariant BrowserDecision(state, vendor.accepts) == BrowserDecision(state, vendor.accepts[i..])
        invariant AnswersLeft(state, vendor.accepts, i, old(answers), answers)
        decreases |vendor.accepts| - i
      {
        hide Answers, BrowserDecision, After;
        var accepted := if i < |vendor.accepts| then vendor.accepts[i] else TimedOut;
        if !accepted.Connection? {
          NothingFollows(tokens, spent, reference, state, vendor, i, old(answers), answers);
          return Err(if accepted.TimedOut? then ReauthRequired else Throttled);
        }
        i := i + 1;
        if accepted.callback.None? {
          StrayAnswered(state, vendor.accepts, i - 1, old(answers), answers);
          answers := answers + [404];
          continue;
        }
        var callback := accepted.callback.value;
        if callback.state != Some(state) {
          StrayAnswered(state, vendor.accepts, i - 1, old(answers), answers);
          answers := answers + [400];
          continue;
        }
        OursAnswered(tokens, spent, reference, state, vendor, i - 1, old(answers), answers);
        if callback.code.None? {
          answers := answers + [400];
          return Err(ReauthRequired);
        }
        spent := spent + [callback.code.value];
        r := StoreRecord(reference, vendor.exchangeBrowser(callback.code.value), vendor.stored);
        answers := answers + [if r.Ok? then 200 else 500];
        return;
      }
    }

    /** Poll until the login is answered or the window is over. */
    method WaitForDevice(reference: AuthRef, intervalSecs: nat, vendor: Vendor)
      returns (r: Result<(), AuthError>, polls: nat)
      modifies this`tokens, this`spent
      ensures (tokens, spent, r) == After(old(tokens), old(spent), reference, Device(intervalSecs), vendor)
      ensures polls == DeviceRun(vendor.reply, vendor.took, IntervalSecs(intervalSecs), 0, 0).1
      ensures polls <= CeilDiv(POLL_WINDOW_SECS, IntervalSecs(intervalSecs))
      ensures DeviceOutcome(reference, intervalSecs, vendor, old(tokens), old(spent), tokens, spent, r)
    {
      hide DeviceOutcome;
      DeviceLogin(tokens, spent, reference, intervalSecs, vendor);
      var interval := IntervalSecs(intervalSecs);
      var now := 0;
      polls := 0;
      PollsAreBounded(vendor.reply, vendor.took, interval, 0, 0);
      while true
        invariant tokens == old(tokens) && spent == old(spent)
        invariant DeviceRun(vendor.reply, vendor.took, interval, 0, 0) ==
                  DeviceRun(vendor.reply, vendor.took, interval, polls, now)
        decreases if now < DEADLINE then DEADLINE - now else 0
      {
        if now >= DEADLINE { return Err(ReauthRequired), polls; }
        var reply := vendor.reply(polls);
        match reply {
          case Authorized(code, verifier) =>
            polls := polls + 1;
            spent := spent + [code];
            r := StoreRecord(reference, vendor.exchangeDevice(code, verifier), vendor.stored);
            return;
          case Pending =>
          case PollError(e) =>
            if !IsTransient(e) { return Err(e), polls + 1; }
        }
        now := now + interval * TICKS_PER_SECOND + vendor.took(polls);
        polls := polls + 1;
      }
    }

    /** Take the login out of the map, then wait for its answer. */
    method WaitForApproval(reference: AuthRef, vendor: Vendor) returns (r: Result<(), AuthError>)
      modifies this
      ensures inFlight == old(inFlight) - {reference}
      ensures reference !in old(inFlight) ==> r == Err(Missing) && tokens == old(tokens) && spent == old(spent)
      ensures reference in old(inFlight) ==>
                (tokens, spent, r) == After(old(tokens), old(spent), reference, old(inFlight)[reference].0, vendor)
      // a device login succeeds exactly when a poll that is made is authorised, exchanged and stored
      ensures reference in old(inFlight) && old(inFlight)[reference].0.Device? ==>
                var secs := old(inFlight)[reference].0.intervalSecs;
                && DeviceOutcome(reference, secs, vendor, old(tokens), old(spent), tokens, spent, r)
                && answers == old(answers)
                && (r.Ok? <==> exists k: nat ::
                      && IsPolled(vendor, secs, k) && vendor.reply(k).Authorized? && vendor.stored
                      && vendor.exchangeDevice(vendor.reply(k).code, vendor.reply(k).verifier).Ok?)
      // a browser login is decided by the first request that carries its state
      ensures reference in old(inFlight) && old(inFlight)[reference].0.Browser? ==>
                var state := old(inFlight)[reference].0.state;
                && BrowserOutcome(reference, state, vendor, old(tokens), old(spent), tokens, spent, r)
                && old(answers) <= answers && AnsweredInTurn(state, vendor.accepts, answers[|old(answers)|..], r.Ok?)
      // at most one more code is sent, whatever the flow, and success takes one
      ensures old(spent) <= spent && |spent| <= |old(spent)| + 1
      ensures r.Ok? ==> reference in old(inFlight) && |spent| == |old(spent)| + 1 && reference in tokens
      // a token is stored for this reference only, and only on success
      ensures tokens - {reference} == old(tokens) - {reference}
      ensures r.Err? ==> tokens == old(tokens)
    {
      hide After, Awaited, Settlement, DeviceOutcome, BrowserOutcome, AnsweredInTurn, IsPolled, DeviceRun, Answers;
      if reference !in inFlight {
        assert inFlight - {reference} == inFlight;
        return Err(Missing);
      }
      var pending := inFlight[reference].0;
      inFlight := inFlight - {reference};
      WaitingSpendsOneCode(tokens, spent, reference, pending, vendor);
      match pending {
        case Device(intervalSecs) =>
          var polls;
          DeviceLogin(tokens, spent, reference, intervalSecs, vendor);
          r, polls := WaitForDevice(reference, intervalSecs, vendor);
        case Browser(state) =>
          r := WaitForBrowser(reference, state, vendor);
      }
    }
  }
}
