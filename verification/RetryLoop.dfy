/** The retry loop of libs/translations/src/providers/deepl.provider.ts. Delays are milliseconds. */
module RetryLoop {
  import opened Collections

  /** The provider's answer to one attempt. A usable Retry-After header gives a positive delay. */
  datatype Response = Translation(text: string) | RateLimited(retryAfter: Option<real>) | OtherError

  datatype Outcome =
    | NotConfigured
    | Translated(text: string)
    | RateLimitError(retries: nat)
    | ProviderError
    | Unreachable

  function Pow2(n: nat): real {
    if n == 0 then 1.0 else 2.0 * Pow2(n - 1)
  }

  /** The world the loop runs in: the answer and the random draw of every attempt. */
  datatype World = World(respond: nat -> Response, random: nat -> real)

  ghost predicate ValidWorld(w: World) {
    && (forall i: nat :: 0.0 <= w.random(i) < 1.0)
    && (forall i: nat :: w.respond(i).RateLimited? && w.respond(i).retryAfter.Some? ==>
        w.respond(i).retryAfter.value > 0.0)
  }

  /** A delay with a random part of `extra` added. */
  function Jittered(delay: real, extra: real, random: real): real {
    delay + random * extra
  }

  function Backoff(base: real, retryCount: nat, retryAfter: Option<real>, random: real): real {
    if retryAfter.Some? then Jittered(retryAfter.value, 0.1 * retryAfter.value, random)
    else
      var delay := base * Pow2(retryCount);
      Jittered(delay, 0.3 * delay, random)
  }

  /** The least and the greatest delay before retry `i`. */
  function LowDelay(base: real, r: Response, i: nat): real
    requires r.RateLimited?
  {
    if r.retryAfter.Some? then r.retryAfter.value else base * Pow2(i)
  }

  function HighDelay(base: real, r: Response, i: nat): real
    requires r.RateLimited?
  {
    if r.retryAfter.Some? then 1.1 * r.retryAfter.value else 1.3 * (base * Pow2(i))
  }

  lemma BackoffBounds(base: real, i: nat, r: Response, random: real)
    requires r.RateLimited? && base >= 0.0 && 0.0 <= random < 1.0 && (r.retryAfter.Some? ==> r.retryAfter.value > 0.0)
    ensures LowDelay(base, r, i) <= Backoff(base, i, r.retryAfter, random) <= HighDelay(base, r, i)
  {
    var delay := LowDelay(base, r, i);
    assert delay >= 0.0 by {
      Pow2Positive(i);
      NonNegativeProduct(base, Pow2(i));
    }
    JitterBounds(delay, if r.retryAfter.Some? then 0.1 * delay else 0.3 * delay, random);
  }

  lemma NonNegativeProduct(a: real, b: real)
    requires a >= 0.0 && b >= 0.0
    ensures a * b >= 0.0
  {
  }

  lemma JitterBounds(delay: real, extra: real, random: real)
    requires extra >= 0.0 && 0.0 <= random < 1.0
    ensures delay <= Jittered(delay, extra, random) <= delay + extra
  {
    NonNegativeProduct(random, extra);
    NonNegativeProduct(1.0 - random, extra);
    assert (1.0 - random) * extra == extra - random * extra;
  }

  lemma {:induction false} Pow2Positive(n: nat)
    ensures Pow2(n) > 0.0
  {
    if n > 0 {
      Pow2Positive(n - 1);
    }
  }

  /** Retry-After plus up to a tenth of it, or else the base doubled with every retry plus up to three tenths. */
  lemma BackoffIs(base: real, i: nat, r: Response, random: real)
    requires r.RateLimited?
    ensures Backoff(base, i, r.retryAfter, random) ==
            if r.retryAfter == None then base * Pow2(i) * (1.0 + random * 0.3)
            else r.retryAfter.value * (1.0 + random * 0.1)
  {
    var delay := base * Pow2(i);
    assert delay + random * (0.3 * delay) == delay * (1.0 + random * 0.3);
    if r.retryAfter.Some? {
      var after := r.retryAfter.value;
      assert after + random * (0.1 * after) == after * (1.0 + random * 0.1);
    }
  }

  /** The least delay is that of the lowest draw, the greatest that of the highest. */
  lemma DelayRange(base: real, r: Response, i: nat)
    requires r.RateLimited?
    ensures LowDelay(base, r, i) == Backoff(base, i, r.retryAfter, 0.0)
    ensures HighDelay(base, r, i) == Backoff(base, i, r.retryAfter, 1.0)
  {
  }

  /** The delays before the first `n` retries. */
  function Slept(w: World, base: real, n: nat): real
    requires AllRateLimited(w, n)
  {
    if n == 0 then 0.0 else Slept(w, base, n - 1) + Backoff(base, n - 1, w.respond(n - 1).retryAfter, w.random(n - 1))
  }

  predicate AllRateLimited(w: World, n: nat) {
    forall i :: 0 <= i < n ==> w.respond(i).RateLimited?
  }

  function SumLow(w: World, base: real, n: nat): real
    requires AllRateLimited(w, n)
  {
    if n == 0 then 0.0 else SumLow(w, base, n - 1) + LowDelay(base, w.respond(n - 1), n - 1)
  }

  function SumHigh(w: World, base: real, n: nat): real
    requires AllRateLimited(w, n)
  {
    if n == 0 then 0.0 else SumHigh(w, base, n - 1) + HighDelay(base, w.respond(n - 1), n - 1)
  }

  /**
   * Without an API key nothing is called. Otherwise the loop makes one call more than it retries and
   * never more than maxRetries + 1; it ends in a rate limit error exactly when that many calls were
   * all rate limited, otherwise with what the first other answer was; its last throw is reached
   * exactly when maxRetries is negative.
   */
  method Translate(w: World, apiKey: Option<string>, maxRetries: int, base: real)
      returns (outcome: Outcome, calls: nat, slept: real)
    requires ValidWorld(w)
    ensures outcome.NotConfigured? <==> apiKey == None || apiKey == Some("")
    ensures outcome.Unreachable? <==> !outcome.NotConfigured? && maxRetries < 0
    ensures calls == 0 <==> outcome.NotConfigured? || maxRetries < 0
    ensures calls == 0 ==> slept == 0.0
    ensures calls > 0 ==> calls <= maxRetries + 1 && AllRateLimited(w, calls - 1)
    ensures calls > 0 ==> (outcome.RateLimitError? <==> AllRateLimited(w, maxRetries + 1))
    ensures outcome.RateLimitError? ==> calls == maxRetries + 1 && outcome.retries == maxRetries
    ensures outcome.Translated? ==> w.respond(calls - 1) == Translation(outcome.text)
    ensures outcome.ProviderError? ==> w.respond(calls - 1) == OtherError
    ensures calls > 0 ==> slept == Slept(w, base, calls - 1)
    ensures base >= 0.0 && calls > 0 ==> SumLow(w, base, calls - 1) <= slept <= SumHigh(w, base, calls - 1)
  {
    if apiKey.None? || apiKey.value == "" {
      return NotConfigured, 0, 0.0;
    }
    var retryCount := 0;
    calls, slept := 0, 0.0;
    while retryCount <= maxRetries
      invariant calls == retryCount && AllRateLimited(w, retryCount)
      invariant slept == Slept(w, base, retryCount)
      invariant base >= 0.0 ==> SumLow(w, base, retryCount) <= slept <= SumHigh(w, base, retryCount)
      invariant maxRetries >= 0 ==> retryCount <= maxRetries
      invariant maxRetries < 0 ==> retryCount == 0 && slept == 0.0
      decreases maxRetries - retryCount
    {
      calls := calls + 1;
      var response := w.respond(retryCount);
      match response {
        case Translation(text) =>
          return Translated(text), calls, slept;
        case RateLimited(retryAfter) =>
          if retryCount < maxRetries {
            if base >= 0.0 {
              BackoffBounds(base, retryCount, response, w.random(retryCount));
            }
            slept := slept + Backoff(base, retryCount, retryAfter, w.random(retryCount));
            retryCount := retryCount + 1;
          } else {
            return RateLimitError(retryCount), calls, slept;
          }
        case OtherError =>
          return ProviderError, calls, slept;
      }
    }
    outcome := Unreachable;
  }

  /** Without Retry-After the bounds are geometric: base * (2^r - 1) up to 1.3 times that. */
  lemma {:induction false} GeometricBounds(w: World, base: real, n: nat)
    requires AllRateLimited(w, n) && forall i :: 0 <= i < n ==> w.respond(i).retryAfter.None?
    ensures SumLow(w, base, n) == base * (Pow2(n) - 1.0)
    ensures SumHigh(w, base, n) == 1.3 * (base * (Pow2(n) - 1.0))
  {
    if n > 0 {
      GeometricBounds(w, base, n - 1);
    }
  }
}
