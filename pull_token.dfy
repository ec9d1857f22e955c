/**
 The pull-token cache of the forwarder (`fetch_pull_token`): one bearer token
 shared by every request, fetched from the registry's token endpoint when
 none is held or when it has been handed out more than 100 times since it was
 fetched. The endpoint's answer is an input: the token it grants, or a
 failure (a non-success status).
 */
module PullToken {
  import opened Wrappers

  /** A held token is refreshed once its use counter exceeds this. */
  const MaxUses: nat := 100

  /** What the token endpoint answers when asked. */
  datatype TokenResponse = Granted(token: string) | Failed

  /** The error `raise_for_status` raises when the token request fails. */
  datatype TokenError = AuthFailed

  /** `_PULL_TOKEN` and `_PULL_TOKEN_USES`. */
  datatype CacheState = CacheState(token: Option<string>, uses: nat)

  /** The state after one call, and what the call returned or raised. */
  datatype Outcome = Outcome(state: CacheState, result: Result<string, TokenError>)

  /** The state at process start. */
  const Initial := CacheState(None, 0)

  predicate NeedsRefresh(s: CacheState) {
    s.token.None? || s.uses > MaxUses
  }

  /** The states the cache can be in: empty with no uses, or a token used 1 to 101 times. */
  predicate Consistent(s: CacheState) {
    (s.token.None? && s.uses == 0) || (s.token.Some? && 1 <= s.uses <= MaxUses + 1)
  }

  /**
   One call of `fetch_pull_token`. After a successful call the returned token
   is the one held and its counter is between 1 and 101, whatever the state
   before; a call fails exactly when it had to fetch and the fetch failed, and
   then nothing changes.
   */
  function Call(s: CacheState, response: TokenResponse): (o: Outcome)
    ensures o.result.Ok? ==> o.state.token == Some(o.result.value) && 1 <= o.state.uses <= MaxUses + 1
    ensures o.result.Err? <==> NeedsRefresh(s) && response.Failed?
    ensures o.result.Err? ==> o.state == s
    ensures Consistent(s) ==> Consistent(o.state)
  {
    if NeedsRefresh(s) && response.Failed? then Outcome(s, Err(AuthFailed))
    else
      var held := if NeedsRefresh(s) then CacheState(Some(response.token), 0) else s;
      Outcome(CacheState(held.token, held.uses + 1), Ok(held.token.value))
  }

  /** While the budget lasts, the endpoint is not consulted: same token, counter up by one. */
  lemma CachedTokenReused(s: CacheState, response: TokenResponse)
    requires !NeedsRefresh(s)
    ensures Call(s, response) == Outcome(CacheState(s.token, s.uses + 1), Ok(s.token.value))
  {
  }

  /** A refresh takes the granted token and restarts its count: it has now been used once. */
  lemma RefreshRestartsCount(s: CacheState, token: string)
    requires NeedsRefresh(s)
    ensures Call(s, Granted(token)) == Outcome(CacheState(Some(token), 1), Ok(token))
  {
  }

  /** The final state and the results of consecutive calls answered by `responses` when they fetch. */
  datatype Trace = Trace(state: CacheState, results: seq<Result<string, TokenError>>)

  function Run(s: CacheState, responses: seq<TokenResponse>): (t: Trace)
    ensures |t.results| == |responses|
    // a call fails only at a position where the endpoint's answer is a failure
    ensures forall i :: 0 <= i < |responses| && t.results[i].Err? ==> responses[i].Failed?
    decreases |responses|
  {
    if |responses| == 0 then Trace(s, [])
    else
      var first := Call(s, responses[0]);
      var rest := Run(first.state, responses[1..]);
      assert forall i :: 1 <= i < |responses| ==> responses[i] == responses[1..][i - 1];
      Trace(rest.state, [first.result] + rest.results)
  }

  /**
   A call in a sequence fails only when it had to fetch (the calls before it
   left a state that needs a refresh) and the endpoint refused.
   */
  lemma {:induction false} RunFailsOnlyWhenFetching(s: CacheState, responses: seq<TokenResponse>, i: nat)
    requires i < |responses| && Run(s, responses).results[i].Err?
    ensures NeedsRefresh(Run(s, responses[..i]).state) && responses[i].Failed?
    decreases i
  {
    if i > 0 {
      assert responses[..i][1..] == responses[1..][..i - 1];
      RunFailsOnlyWhenFetching(Call(s, responses[0]).state, responses[1..], i - 1);
    }
  }

  /** Every sequence of calls keeps the cache in a consistent state. */
  lemma {:induction false} RunStaysConsistent(s: CacheState, responses: seq<TokenResponse>)
    requires Consistent(s)
    ensures Consistent(Run(s, responses).state)
    decreases |responses|
  {
    if |responses| > 0 {
      RunStaysConsistent(Call(s, responses[0]).state, responses[1..]);
    }
  }

  /** Calls one after another: running `a` then `b` is running `a + b`. */
  lemma {:induction false} RunAppend(s: CacheState, a: seq<TokenResponse>, b: seq<TokenResponse>)
    ensures Run(s, a + b) ==
              Trace(Run(Run(s, a).state, b).state, Run(s, a).results + Run(Run(s, a).state, b).results)
    decreases |a|
  {
    if |a| == 0 {
      assert a + b == b;
    } else {
      assert (a + b)[1..] == a[1..] + b;
      RunAppend(Call(s, a[0]).state, a[1..], b);
    }
  }

  /** A held token is handed out, unchanged, until its counter reaches 101. */
  lemma {:induction false} HeldTokenServes(s: CacheState, responses: seq<TokenResponse>)
    requires s.token.Some?
    requires s.uses + |responses| <= MaxUses + 1
    ensures Run(s, responses).state == CacheState(s.token, s.uses + |responses|)
    ensures forall i :: 0 <= i < |responses| ==> Run(s, responses).results[i] == Ok(s.token.value)
    decreases |responses|
  {
    if |responses| > 0 {
      var next := Call(s, responses[0]).state;
      assert next == CacheState(s.token, s.uses + 1);
      HeldTokenServes(next, responses[1..]);
    }
  }

  /**
   A freshly fetched token is returned by 101 consecutive calls, whatever the
   endpoint would have answered meanwhile, and the 102nd call fetches again
   and restarts the count at 1 (or fails and leaves the cache as it was).
   */
  lemma TokenLasts101Calls(s: CacheState, token: string, responses: seq<TokenResponse>)
    requires NeedsRefresh(s)
    requires |responses| == MaxUses + 2 && responses[0] == Granted(token)
    ensures forall i :: 0 <= i <= MaxUses ==> Run(s, responses).results[i] == Ok(token)
    ensures var last := responses[MaxUses + 1];
            var spent := CacheState(Some(token), MaxUses + 1);
            NeedsRefresh(spent) &&
            Run(s, responses) == Trace(Call(spent, last).state, Run(s, responses).results) &&
            Run(s, responses).results[MaxUses + 1] == Call(spent, last).result
  {
    var first, middle, last := responses[..1], responses[1..MaxUses + 1], responses[MaxUses + 1..];
    assert responses == first + middle + last;
    var renewed := CacheState(Some(token), 1);
    assert Run(s, first) == Trace(renewed, [Ok(token)]);
    HeldTokenServes(renewed, middle);
    RunAppend(s, first, middle);
    RunAppend(s, first + middle, last);
  }

  /** The cache as the module-level globals that `fetch_pull_token` updates. */
  class PullTokenCache {
    var token: Option<string>
    var uses: nat

    function State(): CacheState
      reads this
    {
      CacheState(token, uses)
    }

    ghost predicate Valid()
      reads this
    {
      Consistent(State())
    }

    constructor ()
      ensures State() == Initial && Valid()
    {
      token := None;
      uses := 0;
    }

    /**
     `fetch_pull_token(channel, subdir, package_name)`. The channel, subdir and
     package name only shape the scope of a token request; they play no part in
     whether the cached token is reused, which is the known limitation of a
     cache not keyed by scope.
     */
    method FetchPullToken(channel: string, subdir: string, packageName: string, response: TokenResponse)
      returns (r: Result<string, TokenError>)
      modifies this
      ensures Outcome(State(), r) == Call(old(State()), response)
      ensures r.Ok? ==> token == Some(r.value) && 1 <= uses <= MaxUses + 1
      ensures r.Err? ==> token == old(token) && uses == old(uses)
      ensures old(Valid()) ==> Valid()
    {
      if token == None || uses > MaxUses {
        match response
        case Failed =>
          return Err(AuthFailed);
        case Granted(t) =>
          token := Some(t);
          uses := 0;
      }
      uses := uses + 1;
      r := Ok(token.value);
    }
  }
}
