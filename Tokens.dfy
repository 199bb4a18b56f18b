/** `estimate_tokens`, the four-characters-per-token budget estimate every
    labeller and summariser uses to size its requests. */
module Tokens {

  /** `max(1, n // 4)`: the estimate of a text of `n` characters. */
  function EstimateLength(n: nat): (t: nat)
    ensures t >= 1
    ensures n >= 4 ==> 4 * t <= n < 4 * t + 4
    ensures n < 4 ==> t == 1
  {
    if n / 4 < 1 then 1 else n / 4
  }

  /** `max(1, len(text) // 4)` on a string (a non-string counts 0 tokens, see `EstimateCell`). */
  function EstimateTokens(text: string): (n: nat)
    ensures n >= 1
    ensures |text| >= 4 ==> 4 * n <= |text| < 4 * n + 4
    ensures |text| < 4 ==> n == 1
  {
    EstimateLength(|text|)
  }

  /** The estimate of a dataframe cell: strings as above, anything else 0. */
  function EstimateCell(text: string, isStr: bool): (n: nat)
    ensures isStr <==> n > 0
  {
    if isStr then EstimateTokens(text) else 0
  }

  /** A budget of `k >= 1` tokens admits exactly the strings shorter than `4 * (k + 1)`. */
  lemma EstimateWithin(text: string, k: nat)
    requires k >= 1
    ensures EstimateTokens(text) <= k <==> |text| < 4 * k + 4
  {
  }

  /** A longer text never gets a smaller estimate. */
  lemma EstimateMonotone(a: string, b: string)
    requires |a| <= |b|
    ensures EstimateTokens(a) <= EstimateTokens(b)
  {
  }
}
