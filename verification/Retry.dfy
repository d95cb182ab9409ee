/** The retry policy: saturating exponential backoff with jitter, in 64-bit nanoseconds. */
module Retry {
  import opened Domain

  newtype Int64 = x: int | -0x8000_0000_0000_0000 <= x < 0x8000_0000_0000_0000
  newtype UInt64 = x: int | 0 <= x < 0x1_0000_0000_0000_0000

  const NANOSECOND: Int64 := 1
  const SECOND: Int64 := 1_000_000_000
  const MINUTE: Int64 := 60_000_000_000

  function Min(a: int, b: int): int {
    if a < b then a else b
  }

  function Max(a: int, b: int): int {
    if a > b then a else b
  }

  /** n times the k-th power of two. */
  function Doubled(n: nat, k: nat): nat {
    if k == 0 then n else 2 * Doubled(n, k - 1)
  }

  lemma {:induction false} DoubledMonotone(m: nat, n: nat, j: nat, k: nat)
    requires m <= n && j <= k
    ensures Doubled(m, j) <= Doubled(n, k)
  {
    if j < k {
      DoubledMonotone(m, n, j, k - 1);
    } else if k > 0 {
      DoubledMonotone(m, n, j - 1, k - 1);
    }
  }

  function Pow2(k: nat): (p: nat)
    ensures p >= 1
  {
    if k == 0 then 1 else 2 * Pow2(k - 1)
  }

  lemma TwiceAProduct(n: nat, p: nat)
    ensures n * (2 * p) == 2 * (n * p)
  {
  }

  lemma {:induction false} DoubledIsProduct(n: nat, k: nat)
    ensures Doubled(n, k) == n * Pow2(k)
  {
    if k > 0 {
      DoubledIsProduct(n, k - 1);
      TwiceAProduct(n, Pow2(k - 1));
    }
  }

  lemma TwoTo63()
    ensures Doubled(1, 63) == 0x8000_0000_0000_0000
  {
    assert Doubled(1, 8) == 0x100;
    assert Doubled(1, 16) == 0x1_0000;
    assert Doubled(1, 24) == 0x100_0000;
    assert Doubled(1, 32) == 0x1_0000_0000;
    assert Doubled(1, 40) == 0x100_0000_0000;
    assert Doubled(1, 48) == 0x1_0000_0000_0000;
    assert Doubled(1, 56) == 0x100_0000_0000_0000;
  }

  datatype RetryPolicy = RetryPolicy(initial: Int64, maximum: Int64) {
    /** Fields that are not positive stand for one second and one minute. */
    function Initial(): (delay: nat)
      ensures delay >= 1
    {
      if initial <= 0 then 1_000_000_000 else initial as nat
    }

    function Ceiling(): (ceiling: nat)
      ensures 1 <= ceiling < 0x8000_0000_0000_0000
    {
      if maximum <= 0 then 60_000_000_000 else maximum as nat
    }

    /** The delay before jitter: the first one doubled for each earlier attempt, up to the ceiling. */
    function Exponential(attempt: Int64): (backoff: int)
      ensures 1 <= backoff <= Ceiling()
    {
      var doublings := Max(attempt as int - 1, 0);
      assert Initial() * Pow2(doublings) >= 1;
      Min(Ceiling(), Initial() * Pow2(doublings))
    }
  }

  /** Half of the backoff, and the rest of it spread by the hash; a hint can ask for more, up to the ceiling. */
  predicate Spaced(policy: RetryPolicy, attempt: Int64, hint: int, hash: UInt64, delay: int) {
    var backoff := policy.Exponential(attempt);
    var floor := Max(1, backoff / 2);
    var jittered := floor + hash as int % (backoff - floor + 1);
    && (hint <= floor ==> delay == jittered)
    && (hint <= backoff ==> delay == Max(hint, jittered) <= backoff)
    && (hint > backoff ==> delay == Min(policy.Ceiling(), hint))
  }

  lemma ExponentialIsDoubled(policy: RetryPolicy, attempt: Int64)
    ensures policy.Exponential(attempt)
            == Min(policy.Ceiling(), Doubled(policy.Initial(), Max(attempt as int - 1, 0)))
  {
    DoubledIsProduct(policy.Initial(), Max(attempt as int - 1, 0));
  }

  method Backoff(policy: RetryPolicy, attempt: Int64) returns (backoff: Int64, ghost rounds: nat)
    ensures backoff as int == policy.Exponential(attempt)
    ensures rounds <= 63
  {
    var initial := if policy.initial <= 0 then SECOND else policy.initial;
    var maximum := if policy.maximum <= 0 then MINUTE else policy.maximum;
    backoff, rounds := Saturate(initial, maximum, attempt);
    ExponentialIsDoubled(policy, attempt);
  }

  /** The doubling loop saturates instead of overflowing, and takes at most 63 rounds. */
  method Saturate(initial: Int64, maximum: Int64, attempt: Int64) returns (backoff: Int64, ghost rounds: nat)
    requires initial >= 1 && maximum >= 1
    ensures backoff as int == Min(maximum as int, Doubled(initial as int, Max(attempt as int - 1, 0)))
    ensures rounds <= 63
  {
    backoff := if initial < maximum then initial else maximum;
    var n: Int64 := 1;
    rounds := 0;
    TwoTo63();
    while n < attempt && backoff < maximum
      invariant 1 <= n && rounds == n as int - 1
      invariant if attempt >= 1 then n <= attempt else n == 1
      invariant 1 <= backoff <= maximum
      invariant backoff as int == Min(maximum as int, Doubled(initial as int, rounds))
      invariant rounds <= 63 && (backoff < maximum ==> Doubled(1, rounds) <= backoff as int)
      decreases attempt as int - n as int
    {
      if backoff > maximum / 2 {
        backoff := maximum;
      } else {
        backoff := backoff * 2;
      }
      n := n + 1;
      rounds := rounds + 1;
    }
    DoubledMonotone(initial as int, initial as int, rounds, Max(attempt as int - 1, 0));
  }

  /** `fnv` is the 64-bit hash of the id and the attempt number; nothing else is assumed of it. */
  method Delay(policy: RetryPolicy, id: Id, attempt: Int64, hint: Int64, fnv: (Id, Int64) -> UInt64)
    returns (delay: Int64)
    ensures Max(1, policy.Exponential(attempt) / 2) <= delay as int <= policy.Ceiling()
    ensures Min(policy.Ceiling(), hint as int) <= delay as int
    ensures Spaced(policy, attempt, hint as int, fnv(id, attempt), delay as int)
  {
    var maximum := if policy.maximum <= 0 then MINUTE else policy.maximum;
    var backoff, _ := Backoff(policy, attempt);
    var floor := if backoff / 2 > NANOSECOND then backoff / 2 else NANOSECOND;
    var spread := (backoff - floor + 1) as UInt64;
    delay := floor + (fnv(id, attempt) % spread) as Int64;
    delay := if delay < hint then hint else delay;
    delay := if delay < maximum then delay else maximum;
  }
}
