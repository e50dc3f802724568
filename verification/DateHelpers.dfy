/** Time arithmetic of `src/common/helpers/date.ts`. Token times are whole seconds, clock times milliseconds. */
module DateHelpers {

  /** Division rounded toward zero, as `Math.trunc` does. */
  function TruncDiv(n: int, d: int): int
    requires d > 0
  {
    if n >= 0 then n / d else -((-n) / d)
  }

  /** Whole seconds from `now` (ms) until `timestamp` (s); the clock is a parameter. */
  function ConvertTimeStampToSeconds(timestamp: int, now: int): int {
    TruncDiv(timestamp * 1000 - now, 1000)
  }

  /** What a time stamp's distance from the clock says about the ttl computed from it, in all three cases. */
  lemma TtlCases(timestamp: int, now: int)
    ensures var ttl := ConvertTimeStampToSeconds(timestamp, now);
            && (ttl < 0 <==> timestamp * 1000 - now <= -1000)
            && (ttl == 0 <==> -1000 < timestamp * 1000 - now < 1000)
            && (ttl > 0 <==> timestamp * 1000 - now >= 1000)
            && (ttl > 0 ==> timestamp * 1000 - 1000 < now + ttl * 1000 <= timestamp * 1000)
  {
  }
}
