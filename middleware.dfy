/**
 * Admission control in front of the contact endpoint: pick a client
 * identifier from the proxy headers, ask the rate limiter about the key
 * `contact:<ip>`, and either pass the request on or answer 429, attaching the
 * limiter's limit, remaining count and reset time as headers. Without a
 * configured limiter every request passes untouched (fail open).
 *
 * The limiter itself (a sliding window kept in a hosted store) is a
 * parameter: a function from the key to its verdict.
 */
module Middleware {
  import opened Wrappers
  import JsLib

  /** Request headers by lower-case name (`Headers.get` is case-insensitive; names here are already folded). */
  type Headers = map<string, string>

  const ForwardedFor := "x-forwarded-for"

  /** The single-address headers, in the order they are consulted. */
  const IpCandidates: seq<string> :=
    ["x-real-ip", "cf-connecting-ip", "x-vercel-forwarded-for", "fastly-client-ip", "true-client-ip"]

  const FallbackIp := "127.0.0.1"

  /** `headers.get(name)` is truthy: present and non-empty. */
  predicate HasValue(h: Headers, name: string) {
    name in h && h[name] != ""
  }

  /** The first entry of `x-forwarded-for`, trimmed; empty when the header is absent or empty. */
  function ForwardedFirst(h: Headers): (r: string)
    ensures ForwardedFor !in h ==> r == ""
  {
    if ForwardedFor in h then JsLib.Trim(JsLib.BeforeFirst(h[ForwardedFor], ',')) else ""
  }

  /** Candidate `k` is the one chosen: it has a value and no earlier candidate does. */
  predicate ChosenCandidate(h: Headers, k: int) {
    && 0 <= k < |IpCandidates|
    && HasValue(h, IpCandidates[k])
    && forall j :: 0 <= j < k ==> !HasValue(h, IpCandidates[j])
  }

  /**
   * `ip` is the client identifier of a request with headers `h`: the trimmed
   * first `x-forwarded-for` entry when it is non-empty; otherwise the first
   * candidate header with a value, untrimmed; otherwise the fallback address.
   */
  predicate IsClientIp(h: Headers, ip: string) {
    && ip != ""
    && (ForwardedFirst(h) != "" ==> ip == ForwardedFirst(h))
    && (ForwardedFirst(h) == "" ==>
          || (exists k :: 0 <= k < |IpCandidates| && ChosenCandidate(h, k) && ip == h[IpCandidates[k]])
          || ((forall k :: 0 <= k < |IpCandidates| ==> !HasValue(h, IpCandidates[k])) && ip == FallbackIp))
  }

  /** At most one candidate is the chosen one. */
  lemma ChosenCandidateUnique(h: Headers, k1: int, k2: int)
    requires ChosenCandidate(h, k1) && ChosenCandidate(h, k2)
    ensures k1 == k2
  {
  }

  /** The headers determine the client identifier. */
  lemma {:induction false} ClientIpUnique(h: Headers, a: string, b: string)
    requires IsClientIp(h, a) && IsClientIp(h, b)
    ensures a == b
  {
    if ForwardedFirst(h) == "" {
      if exists k :: 0 <= k < |IpCandidates| && ChosenCandidate(h, k) {
        var ka :| 0 <= ka < |IpCandidates| && ChosenCandidate(h, ka) && a == h[IpCandidates[ka]];
        var kb :| 0 <= kb < |IpCandidates| && ChosenCandidate(h, kb) && b == h[IpCandidates[kb]];
        ChosenCandidateUnique(h, ka, kb);
      } else {
        assert a == FallbackIp;
        assert b == FallbackIp;
      }
    }
  }

  /** `getClientIp`: a loop over the candidate headers with early return. */
  method GetClientIp(h: Headers) returns (ip: string)
    ensures IsClientIp(h, ip)
  {
    if ForwardedFor in h && h[ForwardedFor] != "" {
      var first := JsLib.Trim(JsLib.BeforeFirst(h[ForwardedFor], ','));
      if first != "" {
        return first;
      }
    }
    assert ForwardedFirst(h) == "";
    for i := 0 to |IpCandidates|
      invariant forall j :: 0 <= j < i ==> !HasValue(h, IpCandidates[j])
    {
      var name := IpCandidates[i];
      if name in h && h[name] != "" {
        assert ChosenCandidate(h, i);
        return h[name];
      }
    }
    ip := FallbackIp;
  }

  /** The limiter's answer for one key (`limit`, `remaining`, `reset` are reported back unchanged). */
  datatype LimitVerdict = LimitVerdict(success: bool, limit: int, remaining: int, reset: int)

  /** What the middleware answers: pass the request on, or a JSON error with a status, plus response headers. */
  datatype Outcome = Pass | JsonError(status: int, error: string)

  datatype Response = Response(outcome: Outcome, headers: map<string, string>)

  const LimitHeader := "X-RateLimit-Limit"
  const RemainingHeader := "X-RateLimit-Remaining"
  const ResetHeader := "X-RateLimit-Reset"

  /** The limiter exists only when both the store URL and its token are configured (non-empty). */
  predicate LimiterConfigured(redisUrl: Option<string>, redisToken: Option<string>) {
    redisUrl.Some? && redisUrl.value != "" && redisToken.Some? && redisToken.value != ""
  }

  /**
   * `middleware`: returns the response and the key the limiter was asked about
   * (`None` when no limiter is configured and nothing was consulted).
   */
  method HandleRequest(redisUrl: Option<string>, redisToken: Option<string>, h: Headers,
                       limiter: string -> LimitVerdict)
    returns (res: Response, key: Option<string>)
    ensures !LimiterConfigured(redisUrl, redisToken) ==> res == Response(Pass, map[]) && key == None
    ensures LimiterConfigured(redisUrl, redisToken) ==>
      && key.Some? && JsLib.StartsWith(key.value, "contact:")
      && IsClientIp(h, key.value[|"contact:"|..])
    ensures key.Some? ==>
      var v := limiter(key.value);
      && res.outcome == (if v.success then Pass else JsonError(429, "Too Many Requests"))
      && res.headers == map[LimitHeader := JsLib.IntToString(v.limit),
                            RemainingHeader := JsLib.IntToString(v.remaining),
                            ResetHeader := JsLib.IntToString(v.reset)]
  {
    if !LimiterConfigured(redisUrl, redisToken) {
      return Response(Pass, map[]), None;
    }
    var ip := GetClientIp(h);
    var k := "contact:" + ip;
    assert k[|"contact:"|..] == ip;
    key := Some(k);
    var verdict := limiter(k);
    res := if verdict.success then Response(Pass, map[]) else Response(JsonError(429, "Too Many Requests"), map[]);
    res := res.(headers := res.headers[LimitHeader := JsLib.IntToString(verdict.limit)]);
    res := res.(headers := res.headers[RemainingHeader := JsLib.IntToString(verdict.remaining)]);
    res := res.(headers := res.headers[ResetHeader := JsLib.IntToString(verdict.reset)]);
  }
}
