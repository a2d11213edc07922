/** The normalized events of internal/event, as far as accounting reads them. */
module Events {
  import opened Clock
  import opened Int64

  /** The five token components of one request. */
  datatype Counters = Counters(miss: int, cacheRead: int, cacheCreate: int, output: int, reasoning: int)

  datatype Quality = Unset | Authoritative | Degraded | Estimated | Absent

  /** Where a row comes from. Every other tag is a local one. */
  datatype Derivation = Local(tag: string) | ProviderApi | Retained

  datatype UsageEvent = UsageEvent(source: string, vendor: string, session: string, request: string, model: string,
                                   ts: int, counters: Counters, quality: Quality, derivation: Derivation,
                                   skipRequest: bool)

  const NO_TOKENS := Counters(0, 0, 0, 0, 0)

  /** Counter number k, counted from zero. */
  function Part(c: Counters, k: nat): int {
    if k == 0 then c.miss else if k == 1 then c.cacheRead else if k == 2 then c.cacheCreate
    else if k == 3 then c.output else c.reasoning
  }

  /** The greater of each counter. */
  function MaxCounters(a: Counters, b: Counters): Counters {
    Counters(Max(a.miss, b.miss), Max(a.cacheRead, b.cacheRead), Max(a.cacheCreate, b.cacheCreate),
             Max(a.output, b.output), Max(a.reasoning, b.reasoning))
  }

  // ---------- time: instants as in Clock, calendar days as day numbers ----------

  const NOON: int := 12 * HOUR

  /** Go's zero time, the start of year 1. */
  const ZERO_TIME: int := -719_162 * DAY

  /** The UTC day of an instant. */
  function DayOf(ts: int): int {
    ts / DAY
  }

  lemma NoonOfDay(day: int)
    ensures DayOf(day * DAY + NOON) == day
    ensures day * DAY + NOON != ZERO_TIME
  {
  }

  function Digits(n: nat): string {
    if n < 10 then [('0' as int + n) as char] else Digits(n / 10) + [('0' as int + n % 10) as char]
  }

  function DayText(day: int): string {
    if day < 0 then "-" + Digits(-day) else Digits(day)
  }
}
