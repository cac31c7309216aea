/** The limiter middleware over its shared store. */
module RateLimiter {
  import opened RateLimitSpec

  class Limiter {
    const cfg: Config
    var store: Store

    constructor (getBurst: int, mutateBurst: int, ttl: int)
      ensures cfg == Configure(getBurst, mutateBurst, ttl)
      ensures store == StoreAfter(cfg, [])
    {
      var duration := ttl;
      if duration == 0 {
        duration := HOUR;
      }
      cfg := Config(getBurst, mutateBurst, WholeSeconds(duration));
      store := map[];
    }

    /** Pick the burst for the request's verb and run the counter script. */
    method Handle(r: Request) returns (d: Decision)
      modifies this`store
      ensures d == Decide(old(store), cfg, r)
      ensures store == Count(old(store), cfg, r)
    {
      var burst;
      if r.verb != "GET" && r.verb != "HEAD" && r.verb != "OPTIONS" {
        burst := cfg.mutateBurst;
      } else {
        burst := cfg.getBurst;
      }
      var allowed, remaining := CheckLimit(r.key, burst, r.time);
      d := Decision(allowed, remaining);
    }

    /** The script: read the counter, and if it is below the burst increment and re-expire it. */
    method CheckLimit(key: string, burst: int, now: int) returns (allowed: bool, remaining: int)
      modifies this`store
      ensures var current := Current(old(store), key, now);
              && allowed == (current < burst)
              && remaining == (if allowed then burst - current - 1 else 0)
              && store == if !allowed then old(store)
                          else if cfg.ttl > 0 then old(store)[key := Entry(current + 1, now + cfg.ttl)]
                          else old(store) - {key}
    {
      var current := 0;
      if key in store && now < store[key].expires {
        current := store[key].count;
      }
      if current < burst {
        store := store[key := Entry(current + 1, now + cfg.ttl)];
        if cfg.ttl <= 0 {
          store := store - {key};
        }
        return true, burst - current - 1;
      }
      return false, 0;
    }
  }
}
