/**
  Refresh tokens: the in-memory store, the two handlers that use it, and every interleaving of their requests.
 */

/** The token store and the handlers as single calls. */
module TokenStore {
  import opened Prelude

  datatype UserData = UserData(userId: string, email: string)

  type Tokens = map<string, UserData>

  /** Store: the token now belongs to the user, whatever it was before. */
  function Stored(tokens: Tokens, data: UserData, token: string): Tokens {
    tokens[token := data]
  }

  function Revoked(tokens: Tokens, token: string): Tokens {
    tokens - {token}
  }

  /** What is stored after an exchange that nothing interrupts. */
  function Exchanged(tokens: Tokens, presented: string, generated: Option<string>): Tokens {
    if presented !in tokens then tokens
    else if generated.None? then Revoked(tokens, presented)
    else Stored(Revoked(tokens, presented), tokens[presented], generated.value)
  }

  class InMemoryTokenStore {
    var tokens: Tokens

    constructor ()
      ensures tokens == map[]
    {
      tokens := map[];
    }

    method Store(userId: string, email: string, refreshToken: string)
      modifies this
      ensures tokens == Stored(old(tokens), UserData(userId, email), refreshToken)
    {
      tokens := tokens[refreshToken := UserData(userId, email)];
    }

    /** The user of a stored token, which is deleted; an error and no change for any other string. */
    method ValidateAndRevoke(refreshToken: string) returns (r: Result<UserData>)
      modifies this
      ensures r == if refreshToken in old(tokens) then Ok(old(tokens)[refreshToken]) else Err
      ensures tokens == Revoked(old(tokens), refreshToken)
    {
      if refreshToken !in tokens {
        return Err;
      }
      var data := tokens[refreshToken];
      tokens := tokens - {refreshToken};
      return Ok(data);
    }
  }

  datatype Reply = Granted(refreshToken: string) | Refused(status: int)

  /** The authentication handler. Token generation and signing may each fail; their outcomes are parameters. */
  class Handler {
    const tokenStore: InMemoryTokenStore?

    constructor (store: InMemoryTokenStore?)
      ensures tokenStore == store
    {
      tokenStore := store;
    }

    /** The last steps of a login: the access token is signed before any refresh token exists. */
    method HandleCallback(data: UserData, signed: bool, generated: Option<string>) returns (r: Reply)
      modifies tokenStore
      ensures r == if !signed then Refused(500)
                   else if tokenStore == null then Granted("")
                   else if generated.None? then Refused(500)
                   else Granted(generated.value)
      ensures tokenStore != null ==>
        tokenStore.tokens == if signed && generated.Some? then Stored(old(tokenStore.tokens), data, generated.value)
                             else old(tokenStore.tokens)
    {
      if !signed {
        return Refused(500);
      }
      var refreshToken := "";
      if tokenStore != null {
        if generated.None? {
          return Refused(500);
        }
        tokenStore.Store(data.userId, data.email, generated.value);
        refreshToken := generated.value;
      }
      return Granted(refreshToken);
    }

    /**
      An exchange: the old token is gone once it has been recognised, even when no new one can be generated, and the
      new one is kept even when the access token cannot be signed.
     */
    method HandleRefresh(presented: string, generated: Option<string>, signed: bool) returns (r: Reply)
      modifies tokenStore
      ensures r == if presented == "" then Refused(400)
                   else if tokenStore == null then Refused(500)
                   else if presented !in old(tokenStore.tokens) then Refused(401)
                   else if generated.None? || !signed then Refused(500)
                   else Granted(generated.value)
      ensures tokenStore != null ==>
        tokenStore.tokens == if presented == "" then old(tokenStore.tokens)
          else Exchanged(old(tokenStore.tokens), presented, generated)
    {
      if presented == "" {
        return Refused(400);
      }
      if tokenStore == null {
        return Refused(500);
      }
      var user := tokenStore.ValidateAndRevoke(presented);
      if user.Err? {
        return Refused(401);
      }
      if generated.None? {
        return Refused(500);
      }
      tokenStore.Store(user.value.userId, user.value.email, generated.value);
      if !signed {
        return Refused(500);
      }
      return Granted(generated.value);
    }
  }
}

/** Any number of logins and exchanges at once, interleaved between the steps that touch the store. */
module TokenRotation {
  import opened Prelude
  import opened TokenStore

  /** How far a request has come. A login is listed once its access token is signed. */
  datatype Phase =
    | Signed(data: UserData)
    | Minted(data: UserData, token: string)
    | LoggedIn(token: string)
    | LoginFailed
    | Presenting(presented: string)
    | Rejected
    | Holding(presented: string, data: UserData)
    | Replacing(presented: string, data: UserData, token: string)
    | Rotated(presented: string, token: string)
    | Answered(presented: string, token: string)
    | Unanswered(presented: string, token: string)
    | Lost(presented: string)

  /** Where a stored token came from: the token exchanged for it if any, the number of exchanges, and the request. */
  datatype Origin = Origin(parent: Option<string>, data: UserData, rank: nat, request: nat)

  /** The token store, the requests, and two records kept for the proofs: tokens generated and tokens stored. */
  datatype System = System(tokens: Tokens, flows: seq<Phase>, generated: set<string>, history: map<string, Origin>)

  const INITIAL: System := System(map[], [], {}, map[])

  datatype Step =
    | Login(data: UserData)
    | Present(token: string)
    | Validate(i: nat)
    | Generate(i: nat, outcome: Option<string>)
    | Save(i: nat)
    | Sign(i: nat, ok: bool)

  /** What the random source promises is that a token is never generated twice. */
  predicate Enabled(s: System, step: Step) {
    match step
    case Login(_) => true
    case Present(token) => token != ""
    case Validate(i) => i < |s.flows| && s.flows[i].Presenting?
    case Generate(i, outcome) =>
      i < |s.flows| && (s.flows[i].Signed? || s.flows[i].Holding?) && (outcome.Some? ==> outcome.value !in s.generated)
    case Save(i) => i < |s.flows| && (s.flows[i].Minted? || s.flows[i].Replacing?)
    case Sign(i, _) => i < |s.flows| && s.flows[i].Rotated?
  }

  function Next(s: System, step: Step): System
    requires Enabled(s, step)
  {
    match step
    case Login(data) => s.(flows := s.flows + [Signed(data)])
    case Present(token) => s.(flows := s.flows + [Presenting(token)])
    case Validate(i) =>
      var token := s.flows[i].presented;
      if token !in s.tokens then s.(flows := s.flows[i := Rejected])
      else s.(tokens := Revoked(s.tokens, token), flows := s.flows[i := Holding(token, s.tokens[token])])
    case Generate(i, None) =>
      s.(flows := s.flows[i := if s.flows[i].Signed? then LoginFailed else Lost(s.flows[i].presented)])
    case Generate(i, Some(token)) =>
      s.(generated := s.generated + {token},
         flows := s.flows[i := if s.flows[i].Signed? then Minted(s.flows[i].data, token)
                               else Replacing(s.flows[i].presented, s.flows[i].data, token)])
    case Save(i) =>
      var flow := s.flows[i];
      s.(tokens := Stored(s.tokens, flow.data, flow.token),
         history := s.history[flow.token := OriginOf(s, i)],
         flows := s.flows[i := if flow.Minted? then LoggedIn(flow.token) else Rotated(flow.presented, flow.token)])
    case Sign(i, ok) =>
      var flow := s.flows[i];
      var answer := if ok then Answered(flow.presented, flow.token) else Unanswered(flow.presented, flow.token);
      s.(flows := s.flows[i := answer])
  }

  function OriginOf(s: System, i: nat): Origin
    requires i < |s.flows| && (s.flows[i].Minted? || s.flows[i].Replacing?)
  {
    var flow := s.flows[i];
    if flow.Minted? then Origin(None, flow.data, 0, i)
    else
      var rank := if flow.presented in s.history then s.history[flow.presented].rank + 1 else 0;
      Origin(Some(flow.presented), flow.data, rank, i)
  }

  predicate Legal(s: System, steps: seq<Step>)
    decreases |steps|
  {
    steps == [] || (Enabled(s, steps[0]) && Legal(Next(s, steps[0]), steps[1..]))
  }

  function Run(s: System, steps: seq<Step>): System
    requires Legal(s, steps)
    decreases |steps|
  {
    if steps == [] then s else Run(Next(s, steps[0]), steps[1..])
  }

  /** The steps of one exchange, with nothing in between. */
  function ExchangeSteps(s: System, presented: string, generated: Option<string>, signed: bool): seq<Step> {
    var i := |s.flows|;
    [Present(presented), Validate(i)]
    + if presented !in s.tokens then []
      else if generated.None? then [Generate(i, generated)]
      else [Generate(i, generated), Save(i), Sign(i, signed)]
  }

  lemma RunPrefix(s: System, step: Step, steps: seq<Step>)
    requires Enabled(s, step)
    ensures Legal(s, [step] + steps) <==> Legal(Next(s, step), steps)
    ensures Legal(Next(s, step), steps) ==> Run(s, [step] + steps) == Run(Next(s, step), steps)
  {
  }

  /** The steps of a login, uninterrupted, do to the store what the handler's method does. */
  lemma UninterruptedLogin(s: System, data: UserData, generated: Option<string>)
    requires generated.Some? ==> generated.value !in s.generated
    ensures var i := |s.flows|;
            var steps := [Login(data)] + ([Generate(i, generated)] + if generated.Some? then [Save(i)] else []);
            && Legal(s, steps)
            && Run(s, steps).tokens == if generated.Some? then Stored(s.tokens, data, generated.value) else s.tokens
  {
    var i, save := |s.flows|, if generated.Some? then [Save(|s.flows|)] else [];
    var s1 := Next(s, Login(data));
    var s2 := Next(s1, Generate(i, generated));
    if generated.Some? {
      RunPrefix(s2, Save(i), []);
      assert [Save(i)] + [] == [Save(i)];
    }
    RunPrefix(s1, Generate(i, generated), save);
    RunPrefix(s, Login(data), [Generate(i, generated)] + save);
  }

  /** The steps of an exchange, uninterrupted, do to the store what the handler's method does. */
  lemma UninterruptedExchange(s: System, presented: string, generated: Option<string>, signed: bool)
    requires presented != "" && (generated.Some? ==> generated.value !in s.generated)
    ensures Legal(s, ExchangeSteps(s, presented, generated, signed))
    ensures Run(s, ExchangeSteps(s, presented, generated, signed)).tokens == Exchanged(s.tokens, presented, generated)
  {
    var i, steps := |s.flows|, ExchangeSteps(s, presented, generated, signed);
    var s1 := Next(s, Present(presented));
    var s2 := Next(s1, Validate(i));
    assert steps == [Present(presented)] + ([Validate(i)] + steps[2..]);
    RunPrefix(s, Present(presented), [Validate(i)] + steps[2..]);
    RunPrefix(s1, Validate(i), steps[2..]);
    if presented in s.tokens {
      var s3 := Next(s2, Generate(i, generated));
      RunPrefix(s2, Generate(i, generated), steps[3..]);
      assert steps[2..] == [Generate(i, generated)] + steps[3..];
      if generated.Some? {
        var s4 := Next(s3, Save(i));
        assert steps[3..] == [Save(i)] + [Sign(i, signed)];
        RunPrefix(s3, Save(i), [Sign(i, signed)]);
        RunPrefix(s4, Sign(i, signed), []);
        assert [Sign(i, signed)] + [] == [Sign(i, signed)];
      }
    }
  }

  // ---------------------------------------------------------------- the invariant

  /** The token a request has redeemed. */
  function Redeemed(p: Phase): Option<string> {
    if p.Holding? || p.Replacing? || p.Rotated? || p.Answered? || p.Unanswered? || p.Lost? then
      Some(p.presented)
    else None
  }

  /** The token a request has generated and not stored. */
  function Carried(p: Phase): Option<string> {
    if p.Minted? || p.Replacing? then Some(p.token) else None
  }

  /** The token a request has stored. */
  function Kept(p: Phase): Option<string> {
    if p.LoggedIn? || p.Rotated? || p.Answered? || p.Unanswered? then Some(p.token) else None
  }

  predicate FlowValid(s: System, p: Phase) {
    && (Carried(p).Some? ==> Carried(p).value in s.generated && Carried(p).value !in s.history)
    && (Redeemed(p).Some? ==> Redeemed(p).value in s.history && Redeemed(p).value !in s.tokens)
    && (p.Holding? || p.Replacing? ==> p.presented in s.history && s.history[p.presented].data == p.data)
  }

  predicate Apart(p: Phase, q: Phase) {
    && (Redeemed(p).Some? ==> Redeemed(p) != Redeemed(q))
    && (Carried(p).Some? ==> Carried(p) != Carried(q))
  }

  predicate OriginValid(s: System, token: string)
    requires token in s.history
  {
    var o := s.history[token];
    && token in s.generated
    && o.request < |s.flows| && Kept(s.flows[o.request]) == Some(token) && Redeemed(s.flows[o.request]) == o.parent
    && (o.parent.None? <==> o.rank == 0)
    && (o.parent.Some? ==>
          o.parent.value in s.history && s.history[o.parent.value].rank + 1 == o.rank
            && s.history[o.parent.value].data == o.data)
  }

  predicate TokenValid(s: System, token: string)
    requires token in s.tokens
  {
    token in s.history && s.history[token].data == s.tokens[token]
  }

  ghost predicate FlowsValid(s: System) {
    forall i {:trigger FlowValid(s, s.flows[i])} :: 0 <= i < |s.flows| ==> FlowValid(s, s.flows[i])
  }

  ghost predicate FlowsApart(flows: seq<Phase>) {
    forall i, j {:trigger Apart(flows[i], flows[j])} :: 0 <= i < |flows| && 0 <= j < |flows| && i != j ==>
      Apart(flows[i], flows[j])
  }

  ghost predicate HistoryValid(s: System) {
    forall t {:trigger OriginValid(s, t)} :: t in s.history ==> OriginValid(s, t)
  }

  ghost predicate TokensValid(s: System) {
    forall t {:trigger TokenValid(s, t)} :: t in s.tokens ==> TokenValid(s, t)
  }

  predicate Balanced(s: System) {
    |s.tokens| + Count(s.flows, Interrupted) == Count(s.flows, IsLogin)
  }

  ghost predicate Valid(s: System) {
    FlowsValid(s) && FlowsApart(s.flows) && HistoryValid(s) && TokensValid(s) && Balanced(s)
  }

  predicate IsLogin(p: Phase) {
    p.LoggedIn?
  }

  /** Between revoking and storing, for the time being or, after a failed generation, for good. */
  predicate Interrupted(p: Phase) {
    p.Holding? || p.Replacing? || p.Lost?
  }

  function Count(flows: seq<Phase>, f: Phase -> bool): nat {
    if flows == [] then 0 else Count(flows[..|flows| - 1], f) + if f(flows[|flows| - 1]) then 1 else 0
  }

  lemma CountSnoc(flows: seq<Phase>, p: Phase, f: Phase -> bool)
    ensures Count(flows + [p], f) == Count(flows, f) + if f(p) then 1 else 0
  {
  }

  lemma {:induction false} CountUpdate(flows: seq<Phase>, i: nat, p: Phase, f: Phase -> bool)
    requires i < |flows|
    ensures Count(flows[i := p], f) + (if f(flows[i]) then 1 else 0) == Count(flows, f) + if f(p) then 1 else 0
    decreases |flows|
  {
    var init := flows[..|flows| - 1];
    if i < |init| {
      CountUpdate(init, i, p, f);
      assert flows[i := p][..|flows| - 1] == init[i := p];
    } else {
      assert flows[i := p][..|flows| - 1] == init;
    }
  }

  lemma InitialValid()
    ensures Valid(INITIAL)
  {
  }

  /** How the counts move when one request moves on. */
  lemma BalanceKept(s: System, after: System, i: nat)
    requires Balanced(s) && i < |s.flows| && |after.flows| == |s.flows| && after.flows == s.flows[i := after.flows[i]]
    requires |after.tokens| + (if Interrupted(after.flows[i]) then 1 else 0) + (if IsLogin(s.flows[i]) then 1 else 0)
          == |s.tokens| + (if Interrupted(s.flows[i]) then 1 else 0) + if IsLogin(after.flows[i]) then 1 else 0
    ensures Balanced(after)
  {
    CountUpdate(s.flows, i, after.flows[i], Interrupted);
    CountUpdate(s.flows, i, after.flows[i], IsLogin);
  }

  /** A request redeems only what was live and carries only what is new, so it stays apart from the others. */
  lemma ApartKept(s: System, i: nat, p: Phase)
    requires FlowsValid(s) && FlowsApart(s.flows) && i < |s.flows|
    requires Redeemed(p).Some? ==> Redeemed(p) == Redeemed(s.flows[i]) || Redeemed(p).value in s.tokens
    requires Carried(p).Some? ==> Carried(p) == Carried(s.flows[i]) || Carried(p).value !in s.generated
    ensures FlowsApart(s.flows[i := p])
  {
    var flows := s.flows[i := p];
    forall j, k | 0 <= j < |flows| && 0 <= k < |flows| && j != k ensures Apart(flows[j], flows[k]) {
      assert Apart(s.flows[j], s.flows[k]) && FlowValid(s, s.flows[j]) && FlowValid(s, s.flows[k]);
    }
  }

  lemma HistoryKept(s: System, after: System)
    requires HistoryValid(s) && after.history == s.history && s.generated <= after.generated
        && |s.flows| <= |after.flows|
    requires forall j :: 0 <= j < |s.flows| && Kept(s.flows[j]).Some? ==>
               Kept(after.flows[j]) == Kept(s.flows[j]) && Redeemed(after.flows[j]) == Redeemed(s.flows[j])
    ensures HistoryValid(after)
  {
    forall t | t in s.history ensures OriginValid(after, t) {
      assert OriginValid(s, t);
    }
  }

  lemma TokensKept(s: System, after: System)
    requires TokensValid(s) && after.history == s.history
    requires forall t :: t in after.tokens ==> t in s.tokens && after.tokens[t] == s.tokens[t]
    ensures TokensValid(after)
  {
    forall t | t in after.tokens ensures TokenValid(after, t) {
      assert TokenValid(s, t);
    }
  }

  /** Requests other than the one that moved keep their facts, if no token comes alive that they redeemed. */
  lemma FlowsKept(s: System, after: System, i: nat)
    requires FlowsValid(s) && i < |s.flows| && |after.flows| == |s.flows| && after.flows == s.flows[i := after.flows[i]]
    requires after.history == s.history && s.generated <= after.generated
        && forall t :: t in after.tokens ==> t in s.tokens
    requires FlowValid(after, after.flows[i])
    ensures FlowsValid(after)
  {
    forall j | 0 <= j < |s.flows| ensures FlowValid(after, after.flows[j]) {
      assert FlowValid(s, s.flows[j]);
    }
  }

  lemma NewRequestApart(flows: seq<Phase>, p: Phase)
    requires FlowsApart(flows) && (p.Signed? || p.Presenting?)
    ensures FlowsApart(flows + [p])
  {
  }

  lemma NewRequestValid(s: System, p: Phase)
    requires Valid(s) && (p.Signed? || p.Presenting?)
    ensures Valid(s.(flows := s.flows + [p]))
  {
    var after := s.(flows := s.flows + [p]);
    CountSnoc(s.flows, p, Interrupted);
    CountSnoc(s.flows, p, IsLogin);
    NewRequestApart(s.flows, p);
    HistoryKept(s, after);
    TokensKept(s, after);
    forall j | 0 <= j < |after.flows| ensures FlowValid(after, after.flows[j]) {
      if j < |s.flows| {
        assert FlowValid(s, s.flows[j]);
      }
    }
  }

  lemma ValidateKeepsValid(s: System, i: nat)
    requires Valid(s) && Enabled(s, Validate(i))
    ensures Valid(Next(s, Validate(i)))
  {
    var after, token := Next(s, Validate(i)), s.flows[i].presented;
    if token in s.tokens {
      assert TokenValid(s, token);
      assert s.tokens.Keys == after.tokens.Keys + {token};
    }
    BalanceKept(s, after, i);
    ApartKept(s, i, after.flows[i]);
    HistoryKept(s, after);
    TokensKept(s, after);
    FlowsKept(s, after, i);
  }

  lemma StoredWasGenerated(s: System)
    requires HistoryValid(s)
    ensures s.history.Keys <= s.generated
  {
    forall t | t in s.history ensures t in s.generated {
      assert OriginValid(s, t);
    }
  }

  lemma GenerateKeepsValid(s: System, i: nat, outcome: Option<string>)
    requires Valid(s) && Enabled(s, Generate(i, outcome))
    ensures Valid(Next(s, Generate(i, outcome)))
  {
    var after := Next(s, Generate(i, outcome));
    assert FlowValid(s, s.flows[i]);
    StoredWasGenerated(s);
    BalanceKept(s, after, i);
    ApartKept(s, i, after.flows[i]);
    HistoryKept(s, after);
    TokensKept(s, after);
    FlowsKept(s, after, i);
  }

  lemma SaveKeepsHistory(s: System, i: nat)
    requires Valid(s) && Enabled(s, Save(i))
    ensures HistoryValid(Next(s, Save(i))) && TokensValid(Next(s, Save(i)))
  {
    var after := Next(s, Save(i));
    var flow := s.flows[i];
    assert FlowValid(s, flow);
    forall t | t in after.history ensures OriginValid(after, t) {
      if t != flow.token {
        assert OriginValid(s, t);
      } else if flow.Replacing? {
        assert OriginValid(s, flow.presented);
      }
    }
    forall t | t in after.tokens ensures TokenValid(after, t) {
      assert t != flow.token ==> TokenValid(s, t);
    }
  }

  lemma SaveKeepsFlows(s: System, i: nat)
    requires Valid(s) && Enabled(s, Save(i))
    ensures FlowsValid(Next(s, Save(i)))
  {
    var after := Next(s, Save(i));
    forall j | 0 <= j < |s.flows| ensures FlowValid(after, after.flows[j]) {
      assert FlowValid(s, s.flows[j]) && FlowValid(s, s.flows[i]);
      assert j != i ==> Apart(s.flows[i], s.flows[j]);
    }
  }

  lemma SaveAddsToken(s: System, i: nat)
    requires FlowsValid(s) && TokensValid(s) && Enabled(s, Save(i))
    ensures |Next(s, Save(i)).tokens| == |s.tokens| + 1
  {
    var token := s.flows[i].token;
    assert FlowValid(s, s.flows[i]);
    assert token in s.tokens ==> TokenValid(s, token);
    assert s.tokens[token := s.flows[i].data].Keys == s.tokens.Keys + {token};
  }

  lemma SaveKeepsValid(s: System, i: nat)
    requires Valid(s) && Enabled(s, Save(i))
    ensures Valid(Next(s, Save(i)))
  {
    var after := Next(s, Save(i));
    SaveAddsToken(s, i);
    BalanceKept(s, after, i);
    ApartKept(s, i, after.flows[i]);
    SaveKeepsHistory(s, i);
    SaveKeepsFlows(s, i);
  }

  lemma SignKeepsValid(s: System, i: nat, ok: bool)
    requires Valid(s) && Enabled(s, Sign(i, ok))
    ensures Valid(Next(s, Sign(i, ok)))
  {
    var after := Next(s, Sign(i, ok));
    assert FlowValid(s, s.flows[i]);
    BalanceKept(s, after, i);
    ApartKept(s, i, after.flows[i]);
    HistoryKept(s, after);
    TokensKept(s, after);
    FlowsKept(s, after, i);
  }

  lemma StepKeepsValid(s: System, step: Step)
    requires Valid(s) && Enabled(s, step)
    ensures Valid(Next(s, step))
  {
    match step
    case Login(data) => NewRequestValid(s, Signed(data));
    case Present(token) => NewRequestValid(s, Presenting(token));
    case Validate(i) => ValidateKeepsValid(s, i);
    case Generate(i, outcome) => GenerateKeepsValid(s, i, outcome);
    case Save(i) => SaveKeepsValid(s, i);
    case Sign(i, ok) => SignKeepsValid(s, i, ok);
  }

  lemma {:induction false} RunKeepsValid(s: System, steps: seq<Step>)
    requires Valid(s) && Legal(s, steps)
    ensures Valid(Run(s, steps))
    decreases |steps|
  {
    if steps != [] {
      StepKeepsValid(s, steps[0]);
      RunKeepsValid(Next(s, steps[0]), steps[1..]);
    }
  }

  // ---------------------------------------------------------------- what holds of every run

  /** No token is redeemed by two requests, and a redeemed token is never live again. */
  lemma RedeemedAtMostOnce(steps: seq<Step>, i: nat, j: nat)
    requires Legal(INITIAL, steps) && i < |Run(INITIAL, steps).flows| && j < |Run(INITIAL, steps).flows|
    ensures var s := Run(INITIAL, steps);
            && (Redeemed(s.flows[i]).Some? ==> Redeemed(s.flows[i]).value !in s.tokens)
            && (Redeemed(s.flows[i]).Some? && Redeemed(s.flows[i]) == Redeemed(s.flows[j]) ==> i == j)
  {
    InitialValid();
    RunKeepsValid(INITIAL, steps);
    var s := Run(INITIAL, steps);
    assert FlowValid(s, s.flows[i]);
    assert i != j ==> Apart(s.flows[i], s.flows[j]);
  }

  /** Live tokens are the logins that stored one, less the exchanges between revoking and storing. */
  lemma LiveTokensCounted(steps: seq<Step>)
    requires Legal(INITIAL, steps)
    ensures var s := Run(INITIAL, steps); |s.tokens| == Count(s.flows, IsLogin) - Count(s.flows, Interrupted)
  {
    InitialValid();
    RunKeepsValid(INITIAL, steps);
  }

  /** The token this one descends from after `k` exchanges of the login's own token. */
  function Ancestor(s: System, token: string, k: nat): string
    requires HistoryValid(s) && token in s.history && k <= s.history[token].rank
    ensures Ancestor(s, token, k) in s.history && s.history[Ancestor(s, token, k)].rank == k
    decreases s.history[token].rank
  {
    assert OriginValid(s, token);
    if k == s.history[token].rank then token else Ancestor(s, s.history[token].parent.value, k)
  }

  /** The token stored by the login that began the chain. */
  function FirstToken(s: System, token: string): string
    requires HistoryValid(s) && token in s.history
  {
    Ancestor(s, token, 0)
  }

  lemma {:induction false} SameUser(s: System, token: string)
    requires Valid(s) && token in s.history
    ensures s.history[FirstToken(s, token)].data == s.history[token].data
    decreases s.history[token].rank
  {
    assert OriginValid(s, token);
    if s.history[token].rank > 0 {
      SameUser(s, s.history[token].parent.value);
    }
  }

  /** A live token redeems as the user of the login its chain of exchanges began with. */
  lemma RotationKeepsUser(steps: seq<Step>, token: string)
    requires Legal(INITIAL, steps) && token in Run(INITIAL, steps).tokens
    ensures var s := Run(INITIAL, steps);
            && Valid(s) && token in s.history
            && var first := FirstToken(s, token);
               && first in s.history && s.history[first].request < |s.flows|
                 && s.flows[s.history[first].request] == LoggedIn(first)
               && s.tokens[token] == s.history[first].data
  {
    InitialValid();
    RunKeepsValid(INITIAL, steps);
    var s := Run(INITIAL, steps);
    assert TokenValid(s, token);
    SameUser(s, token);
    assert OriginValid(s, FirstToken(s, token));
  }

  /** Two tokens obtained for the same token are the same. */
  lemma OneSuccessor(s: System, a: string, b: string)
    requires Valid(s) && a in s.history && b in s.history && s.history[a].parent.Some?
    requires s.history[a].parent == s.history[b].parent
    ensures a == b
  {
    assert OriginValid(s, a) && OriginValid(s, b);
    var i, j := s.history[a].request, s.history[b].request;
    assert i != j ==> Apart(s.flows[i], s.flows[j]);
  }

  lemma {:induction false} AncestorStep(s: System, token: string, k: nat)
    requires Valid(s) && token in s.history && k < s.history[token].rank
    ensures s.history[Ancestor(s, token, k + 1)].parent == Some(Ancestor(s, token, k))
    decreases s.history[token].rank
  {
    assert OriginValid(s, token);
    if k + 1 < s.history[token].rank {
      AncestorStep(s, s.history[token].parent.value, k);
    }
  }

  /** Chains that begin with the same login do not part. */
  lemma {:induction false} ChainsAgree(s: System, a: string, b: string, k: nat)
    requires Valid(s) && a in s.history && b in s.history && FirstToken(s, a) == FirstToken(s, b)
    requires k <= s.history[a].rank && k <= s.history[b].rank
    ensures Ancestor(s, a, k) == Ancestor(s, b, k)
  {
    if k > 0 {
      ChainsAgree(s, a, b, k - 1);
      AncestorStep(s, a, k - 1);
      AncestorStep(s, b, k - 1);
      OneSuccessor(s, Ancestor(s, a, k), Ancestor(s, b, k));
    }
  }

  lemma ExchangedIsDead(s: System, successor: string)
    requires Valid(s) && successor in s.history && s.history[successor].parent.Some?
    ensures s.history[successor].parent.value !in s.tokens
  {
    assert OriginValid(s, successor);
    assert FlowValid(s, s.flows[s.history[successor].request]);
  }

  lemma LiveIsLast(s: System, a: string, b: string)
    requires Valid(s) && a in s.tokens && a in s.history && b in s.history && FirstToken(s, a) == FirstToken(s, b)
    ensures s.history[b].rank <= s.history[a].rank
  {
    var k := s.history[a].rank;
    if k < s.history[b].rank {
      ChainsAgree(s, a, b, k);
      AncestorStep(s, b, k);
      ExchangedIsDead(s, Ancestor(s, b, k + 1));
    }
  }

  /** However often it is exchanged, a login has at most one live token at any moment. */
  lemma OneLiveTokenPerLogin(steps: seq<Step>, a: string, b: string)
    requires Legal(INITIAL, steps) && a in Run(INITIAL, steps).tokens && b in Run(INITIAL, steps).tokens
    ensures var s := Run(INITIAL, steps);
            Valid(s) && a in s.history && b in s.history && (FirstToken(s, a) == FirstToken(s, b) ==> a == b)
  {
    InitialValid();
    RunKeepsValid(INITIAL, steps);
    var s := Run(INITIAL, steps);
    assert TokenValid(s, a) && TokenValid(s, b);
    if FirstToken(s, a) == FirstToken(s, b) {
      LiveIsLast(s, a, b);
      LiveIsLast(s, b, a);
      ChainsAgree(s, a, b, s.history[a].rank);
    }
  }
}
