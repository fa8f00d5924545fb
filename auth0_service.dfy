/** The management-token cache of the identity provider client: two fields,
    the cached token and the time it stops being used. Time is in integer
    milliseconds; the token endpoint's answer is a parameter, the answer that
    the request would get if it were made. */
module Auth0Service {
  import opened Wrappers
  import opened Errors

  datatype TokenResponse = TokenResponse(accessToken: string, expiresIn: int)

  /** What the token endpoint would answer. */
  datatype Fetch = Fetched(response: TokenResponse) | FetchFailed

  datatype CacheState = CacheState(managementToken: Option<string>, tokenExpiresAt: int)

  datatype TokenStep = TokenStep(result: Result<string, Error>, fetched: bool, after: CacheState)

  const TokenFetchFailed := "Failed to get Auth0 management token"

  /** The cached token is used when it is truthy and has not reached its expiry. */
  predicate Fresh(s: CacheState, now: int) {
    s.managementToken.Some? && s.managementToken.value != "" && now < s.tokenExpiresAt
  }

  /** The expiry set after a fetch: 80% of the stated lifetime, counted from the
      time read before the request. */
  function ExpiryAfterFetch(now: int, expiresIn: int): int {
    now + expiresIn * 800
  }

  /** `getManagementToken` as a function of the cache's state. */
  function GetManagementTokenStep(s: CacheState, now: int, fetch: Fetch): TokenStep {
    if Fresh(s, now) then TokenStep(Success(s.managementToken.value), false, s)
    else
      match fetch
      case FetchFailed => TokenStep(Failure(PlainError(TokenFetchFailed)), true, s)
      case Fetched(resp) =>
        TokenStep(Success(resp.accessToken), true,
                  CacheState(Some(resp.accessToken), ExpiryAfterFetch(now, resp.expiresIn)))
  }

  class ManagementTokenCache {
    var managementToken: Option<string>
    var tokenExpiresAt: int

    function Cache(): CacheState
      reads this
    {
      CacheState(managementToken, tokenExpiresAt)
    }

    constructor ()
      ensures managementToken == None && tokenExpiresAt == 0
    {
      managementToken := None;
      tokenExpiresAt := 0;
    }

    method GetManagementToken(now: int, fetch: Fetch) returns (r: Result<string, Error>, fetched: bool)
      modifies this
      ensures TokenStep(r, fetched, Cache()) == GetManagementTokenStep(old(Cache()), now, fetch)
      ensures r.Success? ==> managementToken == Some(r.value)
      ensures r.Failure? ==> Cache() == old(Cache())
    {
      if managementToken.Some? && managementToken.value != "" && now < tokenExpiresAt {
        return Success(managementToken.value), false;
      }
      fetched := true;
      match fetch
      case FetchFailed =>
        r := Failure(PlainError(TokenFetchFailed));
      case Fetched(resp) =>
        managementToken := Some(resp.accessToken);
        tokenExpiresAt := now + resp.expiresIn * 800;
        r := Success(managementToken.value);
    }
  }

  /** No fetch happens exactly when the cached token is truthy and unexpired. */
  lemma FetchesExactlyWhenStale(s: CacheState, now: int, fetch: Fetch)
    ensures !GetManagementTokenStep(s, now, fetch).fetched <==> Fresh(s, now)
  {
  }

  /** Whatever is returned is what the cache then holds. */
  lemma ReturnsStoredToken(s: CacheState, now: int, fetch: Fetch)
    ensures var step := GetManagementTokenStep(s, now, fetch);
      step.result.Success? ==> step.after.managementToken == Some(step.result.value)
  {
  }

  /** A failed fetch raises the fixed message and leaves the cache as it was. */
  lemma FailedFetchKeepsCache(s: CacheState, now: int)
    requires !Fresh(s, now)
    ensures GetManagementTokenStep(s, now, FetchFailed) ==
      TokenStep(Failure(PlainError(TokenFetchFailed)), true, s)
  {
  }

  /** The first call after start-up always fetches. */
  lemma InitiallyEmpty(now: int, fetch: Fetch)
    ensures GetManagementTokenStep(CacheState(None, 0), now, fetch).fetched
  {
  }

  /** After a successful fetch of a non-empty token, every later call before 80%
      of its lifetime has passed gets that token without fetching, whatever the
      endpoint would say. */
  lemma ReusedUntilExpiry(s: CacheState, now: int, resp: TokenResponse, later: int, fetch: Fetch)
    requires !Fresh(s, now)
    requires resp.accessToken != ""
    requires now <= later < ExpiryAfterFetch(now, resp.expiresIn)
    ensures var s1 := GetManagementTokenStep(s, now, Fetched(resp)).after;
      GetManagementTokenStep(s1, later, fetch) == TokenStep(Success(resp.accessToken), false, s1)
  {
  }

  /** An empty token is never reused: the next call fetches again. */
  lemma EmptyTokenRefetched(s: CacheState, now: int, resp: TokenResponse, later: int, fetch: Fetch)
    requires !Fresh(s, now) && resp.accessToken == ""
    ensures GetManagementTokenStep(GetManagementTokenStep(s, now, Fetched(resp)).after, later, fetch).fetched
  {
  }
}
