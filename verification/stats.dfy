/** The statistics counters (`createStatsManager` in background/helpers.js and the
    `statsManager` of background.js): named non-negative counters keyed by name.
    Writes to storage are a no-op here. */
module Stats {
  import C = Constants

  type Stats = map<string, nat>

  /** `stats[key] || 0` */
  function Count(s: Stats, key: string): nat {
    if key in s then s[key] else 0
  }

  /** `increment(key)`: unknown keys are ignored; a known counter goes up by exactly
      one and nothing else changes. */
  function Increment(s: Stats, key: string): (r: Stats)
    ensures key !in C.STAT_KEYS ==> r == s
    ensures key in C.STAT_KEYS ==> Count(r, key) == Count(s, key) + 1
    ensures r.Keys == (if key in C.STAT_KEYS then s.Keys + {key} else s.Keys)
    ensures forall k :: k != key && k in r ==> r[k] == s[k]
  {
    if key !in C.STAT_KEYS then s else s[key := Count(s, key) + 1]
  }

  /** `initFrom(data)`: every known counter takes its stored value, or zero;
      stored values under other names are not picked up. */
  function InitFrom(data: map<string, nat>): (r: Stats)
    ensures forall k :: k in r <==> k in C.STAT_KEYS
    ensures forall k :: k in C.STAT_KEYS ==> r[k] == (if k in data then data[k] else 0)
  {
    map k | k in C.STAT_KEYS :: if k in data then data[k] else 0
  }

  /** Incrementing one counter leaves every other counter as it was. */
  lemma IncrementLeavesOthers(s: Stats, key: string, other: string)
    requires other != key
    ensures Count(Increment(s, key), other) == Count(s, other)
  {
  }

  /** Counters never decrease under `increment`. */
  lemma IncrementMonotone(s: Stats, key: string, other: string)
    ensures Count(Increment(s, key), other) >= Count(s, other)
  {
  }
}
