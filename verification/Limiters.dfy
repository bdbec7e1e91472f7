/** The limiter in front of code requests: the sliding log in memory or the counter in Redis. */
module Limiters {
  import opened Basics
  import opened FixedWindow
  import opened SlidingWindow
  import opened Text

  /** What the limiters remember; each of the two uses its own part. */
  datatype Gate = Gate(log: Log, counters: Counters)

  const NOTHING := Gate(map[], map[])

  /** The server's share in one call: whether it answers, and what it does at the very tick of a deadline. */
  datatype Server = Server(reachable: bool, dropped: bool)

  /** A limiter's configuration.  The window and `now` are in nanoseconds, the expiry in milliseconds. */
  datatype Limits = InMemory(window: int, max: int) | InRedis(ttl: int, max: int) {

    /** One call of `Allow`, as a function of the memory. */
    function Admit(g: Gate, key: string, now: int, server: Server): (bool, Gate) {
      match this
      case InMemory(window, max) =>
        var verdict := Decide(EntriesOf(g.log, key), window, max, now);
        (verdict.granted, g.(log := g.log[key := verdict.entries]))
      case InRedis(ttl, max) =>
        var name := ToLower(TrimSpace(key));
        if name == "" then (false, g)
        else if !server.reachable then (true, g)
        else
          var c := Bump(CounterOf(g.counters, KEY_PREFIX + name), now / MILLISECOND, server.dropped, ttl);
          (c.count <= max, g.(counters := g.counters[KEY_PREFIX + name := c]))
    }
  }

  /** An unreachable server admits every address and counts none; a blank one is refused without asking. */
  lemma UnreachableAdmits(limits: Limits, g: Gate, key: string, now: int, server: Server)
    requires limits.InRedis?
    ensures TrimSpace(key) == "" ==> limits.Admit(g, key, now, server) == (false, g)
    ensures TrimSpace(key) != "" && !server.reachable ==> limits.Admit(g, key, now, server) == (true, g)
  {
    hide TrimSpace;
    assert |ToLower(TrimSpace(key))| == |TrimSpace(key)|;
  }

  /** White space around a key and its letter case do not matter to the counter. */
  lemma SameCounter(limits: Limits, g: Gate, key: string, now: int, server: Server)
    requires limits.InRedis?
    ensures limits.Admit(g, key, now, server) == limits.Admit(g, ToLower(TrimSpace(key)), now, server)
  {
    hide TrimSpace, ToLower, Bump;
    LowerTrimTwice(key);
  }

  datatype Limiter = Memory(memory: OtpRateLimiter) | Shared(redis: RedisOtpRateLimiter) {

    /** The objects a call may change. */
    ghost function Parts(): set<object>
      reads if Memory? then {memory} else {}
    { if Memory? then {memory} + memory.Repr else {redis} }

    ghost predicate Valid()
      reads Parts(), if Memory? then {memory} else {}
    { if Memory? then memory.Valid() else redis.Valid() }

    ghost function Limits(): Limits {
      if Memory? then InMemory(memory.window, memory.max) else InRedis(redis.Ttl(), redis.max)
    }

    ghost function Remembers(): Gate
      reads Parts(), if Memory? then {memory} else {}
    { if Memory? then NOTHING.(log := memory.log) else NOTHING.(counters := redis.counters) }

    method Allow(key: string, now: int, server: Server) returns (ok: bool)
      requires Valid()
      modifies Parts()
      ensures Valid() && fresh(Parts() - old(Parts()))
      ensures (ok, Remembers()) == Limits().Admit(old(Remembers()), key, now, server)
    {
      hide TrimSpace, ToLower, Decide, Bump;
      match this
      case Memory(memory) => ok := memory.Allow(key, now);
      case Shared(redis) => ok := redis.Allow(key, now / MILLISECOND, server.reachable, server.dropped);
    }
  }
}
