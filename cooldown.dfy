// The 48-hour rule of `/efsane-birak`: a character may be released only 48
// hours after it was claimed, and an early attempt reports the hours left,
// rounded up.

module Cooldown {

  const HOUR_MS: int := 60 * 60 * 1000
  const COOLDOWN_MS: int := 48 * HOUR_MS

  /** `Math.ceil(a / b)` for a positive divisor: the least `q` with `a <= q * b`. */
  function CeilDiv(a: int, b: int): (q: int)
    requires b > 0
    ensures (q - 1) * b < a <= q * b
  {
    var q := (a + b - 1) / b;
    var r := (a + b - 1) % b;
    assert a + b - 1 == q * b + r && 0 <= r < b;
    assert (q - 1) * b == q * b - b;
    q
  }

  /** The claim made at `claimDate` may not be released yet at `now`. */
  predicate InCooldown(claimDate: int, now: int)
  {
    now - claimDate < COOLDOWN_MS
  }

  /** The hours the refusal message reports. */
  function RemainingHours(claimDate: int, now: int): int
  {
    CeilDiv(claimDate + COOLDOWN_MS - now, HOUR_MS)
  }

  /** While the cooldown runs (and the claim is not dated in the future), the
      reported hours are between 1 and 48, and they are the whole hours that
      cover the time left. */
  lemma RemainingHoursInRange(claimDate: int, now: int)
    requires claimDate <= now && InCooldown(claimDate, now)
    ensures 1 <= RemainingHours(claimDate, now) <= 48
    ensures (RemainingHours(claimDate, now) - 1) * HOUR_MS < claimDate + COOLDOWN_MS - now
            <= RemainingHours(claimDate, now) * HOUR_MS
  {
    var q := RemainingHours(claimDate, now);
    var rem := claimDate + COOLDOWN_MS - now;
    assert 0 < rem <= COOLDOWN_MS;
  }

  /** A claim made exactly one hour ago reports 47 hours left. */
  lemma OneHourAfterClaim(claimDate: int)
    ensures InCooldown(claimDate, claimDate + HOUR_MS)
    ensures RemainingHours(claimDate, claimDate + HOUR_MS) == 47
  {
    var q := RemainingHours(claimDate, claimDate + HOUR_MS);
    assert (q - 1) * HOUR_MS < 47 * HOUR_MS <= q * HOUR_MS;
  }

  /** The cooldown ends exactly 48 hours after the claim: one millisecond before
      it still runs, from that instant on it does not. */
  lemma CooldownBoundary(claimDate: int, now: int)
    ensures InCooldown(claimDate, now) <==> now < claimDate + COOLDOWN_MS
    ensures InCooldown(claimDate, claimDate + COOLDOWN_MS - 1)
    ensures !InCooldown(claimDate, claimDate + COOLDOWN_MS)
  {
  }
}
