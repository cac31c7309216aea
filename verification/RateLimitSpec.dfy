/**
 The shared-counter rate limiter. Time is the store's clock in nanoseconds and never runs backward;
 a key is gone once its expiry time is reached.
 */
module RateLimitSpec {

  datatype Entry = Entry(count: nat, expires: int)

  type Store = map<string, Entry>

  /** `ttl` is the expiry the script sets; one of zero or less deletes the key at once. */
  datatype Config = Config(getBurst: int, mutateBurst: int, ttl: int)

  datatype Request = Request(key: string, verb: string, time: int)

  datatype Decision = Decision(allowed: bool, remaining: int)

  const SECOND := 1_000_000_000
  const HOUR := 3600 * SECOND

  /** The script gets whole seconds: a duration loses its fraction, toward zero. */
  function WholeSeconds(d: int): (r: int)
    ensures d >= 0 ==> 0 <= r <= d < r + SECOND
    ensures r == d <==> d % SECOND == 0
  {
    if d >= 0 then d / SECOND * SECOND else -(-d / SECOND * SECOND)
  }

  /** A duration of exactly zero stands for an hour; the test comes before the fraction is lost. */
  function Configure(getBurst: int, mutateBurst: int, ttl: int): Config {
    Config(getBurst, mutateBurst, WholeSeconds(if ttl == 0 then HOUR else ttl))
  }

  predicate Mutating(verb: string) {
    verb != "GET" && verb != "HEAD" && verb != "OPTIONS"
  }

  function Burst(cfg: Config, verb: string): int {
    if Mutating(verb) then cfg.mutateBurst else cfg.getBurst
  }

  /** The counter a read at `now` sees. */
  function Current(s: Store, key: string, now: int): nat {
    if key in s && now < s[key].expires then s[key].count else 0
  }

  /** An accepted request counts and restarts the key's expiry; a rejected one changes nothing. */
  function Count(s: Store, cfg: Config, r: Request): Store {
    var current := Current(s, r.key, r.time);
    if current >= Burst(cfg, r.verb) then s
    else if cfg.ttl > 0 then s[r.key := Entry(current + 1, r.time + cfg.ttl)]
    else s - {r.key}
  }

  function Decide(s: Store, cfg: Config, r: Request): Decision {
    var current, burst := Current(s, r.key, r.time), Burst(cfg, r.verb);
    if current < burst then Decision(true, burst - current - 1) else Decision(false, 0)
  }

  // ----- runs -----

  function StoreAfter(cfg: Config, rs: seq<Request>): Store {
    if rs == [] then map[] else Count(StoreAfter(cfg, rs[..|rs| - 1]), cfg, rs[|rs| - 1])
  }

  /** Times at which the run accepted a request with the key. */
  function Hits(cfg: Config, rs: seq<Request>, key: string): seq<int> {
    if rs == [] then []
    else
      var n := |rs| - 1;
      var hits := Hits(cfg, rs[..n], key);
      if rs[n].key == key && Decide(StoreAfter(cfg, rs[..n]), cfg, rs[n]).allowed
      then hits + [rs[n].time] else hits
  }

  ghost predicate Chronological(rs: seq<Request>) {
    forall i, j :: 0 <= i < j < |rs| ==> rs[i].time <= rs[j].time
  }

  ghost predicate Sorted(ts: seq<int>) {
    forall i, j :: 0 <= i < j < |ts| ==> ts[i] <= ts[j]
  }

  ghost predicate AllBy(ts: seq<int>, now: int) {
    forall i :: 0 <= i < |ts| ==> ts[i] <= now
  }

  lemma {:induction false} HitsSorted(cfg: Config, rs: seq<Request>, key: string, now: int)
    requires Chronological(rs) && forall i :: 0 <= i < |rs| ==> rs[i].time <= now
    ensures Sorted(Hits(cfg, rs, key)) && AllBy(Hits(cfg, rs, key), now)
  {
    if rs != [] {
      var n := |rs| - 1;
      HitsSorted(cfg, rs[..n], key, rs[n].time);
    }
  }

  // ----- the counter as a function of the history -----

  /** How many of the latest hits follow each other, up to `now`, in gaps shorter than `ttl`. */
  function Chain(hits: seq<int>, ttl: int, now: int): nat {
    if hits == [] then 0
    else
      var n := |hits| - 1;
      if now - hits[n] < ttl then 1 + Chain(hits[..n], ttl, hits[n]) else 0
  }

  /** What the store holds for a key, given the key's accepted requests. */
  ghost predicate Reflects(s: Store, key: string, hits: seq<int>, ttl: int) {
    if hits == [] || ttl <= 0 then key !in s
    else
      var n := |hits| - 1;
      key in s && s[key] == Entry(1 + Chain(hits[..n], ttl, hits[n]), hits[n] + ttl)
  }

  lemma ReflectsCurrent(s: Store, key: string, hits: seq<int>, ttl: int, now: int)
    requires Reflects(s, key, hits, ttl) && AllBy(hits, now)
    ensures Current(s, key, now) == Chain(hits, ttl, now)
  {
  }

  lemma ReflectsStep(s: Store, cfg: Config, r: Request, key: string, hits: seq<int>)
    requires Reflects(s, key, hits, cfg.ttl) && AllBy(hits, r.time)
    ensures Reflects(Count(s, cfg, r), key,
                     if r.key == key && Decide(s, cfg, r).allowed then hits + [r.time] else hits, cfg.ttl)
  {
    ReflectsCurrent(s, key, hits, cfg.ttl, r.time);
    assert (hits + [r.time])[..|hits|] == hits;
  }

  lemma {:induction false} StoreReflectsHits(cfg: Config, rs: seq<Request>, key: string)
    requires Chronological(rs)
    ensures Reflects(StoreAfter(cfg, rs), key, Hits(cfg, rs, key), cfg.ttl)
  {
    if rs != [] {
      var n := |rs| - 1;
      StoreReflectsHits(cfg, rs[..n], key);
      HitsSorted(cfg, rs[..n], key, rs[n].time);
      ReflectsStep(StoreAfter(cfg, rs[..n]), cfg, rs[n], key, Hits(cfg, rs[..n], key));
    }
  }

  /**
   The exact decision: a request is accepted if and only if fewer requests with its key than its
   burst, mutating or not, were accepted in gaps shorter than the expiry time up to now.
   */
  lemma DecisionFromHistory(cfg: Config, rs: seq<Request>, r: Request)
    requires Chronological(rs + [r])
    ensures var chain := Chain(Hits(cfg, rs, r.key), cfg.ttl, r.time);
            var reading := r.verb == "GET" || r.verb == "HEAD" || r.verb == "OPTIONS";
            var burst := if reading then cfg.getBurst else cfg.mutateBurst;
            Decide(StoreAfter(cfg, rs), cfg, r)
              == if chain < burst then Decision(true, burst - chain - 1) else Decision(false, 0)
  {
    assert forall i :: 0 <= i < |rs| ==> rs[i] == (rs + [r])[i];
    assert (rs + [r])[|rs|] == r;
    StoreReflectsHits(cfg, rs, r.key);
    HitsSorted(cfg, rs, r.key, r.time);
    ReflectsCurrent(StoreAfter(cfg, rs), r.key, Hits(cfg, rs, r.key), cfg.ttl, r.time);
  }

  // ----- windows -----

  function CountIn(ts: seq<int>, from: int, to: int): nat {
    if ts == [] then 0
    else CountIn(ts[..|ts| - 1], from, to) + if from <= ts[|ts| - 1] < to then 1 else 0
  }

  function MaxBurst(cfg: Config): nat {
    var m := if cfg.getBurst < cfg.mutateBurst then cfg.mutateBurst else cfg.getBurst;
    if m < 0 then 0 else m
  }

  /** A configured expiry is an hour if absent, and otherwise loses its fraction of a second. */
  lemma ConfiguredExactly(getBurst: int, mutateBurst: int, ttl: int)
    ensures var cfg := Configure(getBurst, mutateBurst, ttl);
            && cfg.getBurst == getBurst && cfg.mutateBurst == mutateBurst
            && (ttl == 0 ==> cfg.ttl == 3_600_000_000_000)
            && cfg.ttl % 1_000_000_000 == 0
            && (0 < ttl ==> 0 <= cfg.ttl <= ttl < cfg.ttl + 1_000_000_000)
            && (ttl < 0 ==> cfg.ttl - 1_000_000_000 < ttl <= cfg.ttl <= 0)
  {
  }

  lemma {:induction false} NoneIn(ts: seq<int>, from: int, to: int)
    requires forall i :: 0 <= i < |ts| ==> ts[i] < from
    ensures CountIn(ts, from, to) == 0
  {
    if ts != [] {
      NoneIn(ts[..|ts| - 1], from, to);
    }
  }

  /** Hits less than one expiry time old all belong to the current chain. */
  lemma {:induction false} WindowWithinChain(hits: seq<int>, ttl: int, from: int, now: int)
    requires Sorted(hits) && AllBy(hits, now) && now < from + ttl
    ensures CountIn(hits, from, from + ttl) <= Chain(hits, ttl, now)
  {
    if hits != [] {
      var n := |hits| - 1;
      if hits[n] < from {
        NoneIn(hits, from, from + ttl);
      } else {
        WindowWithinChain(hits[..n], ttl, from, hits[n]);
      }
    }
  }

  lemma CountSnoc(ts: seq<int>, t: int, from: int, to: int)
    ensures CountIn(ts + [t], from, to) == CountIn(ts, from, to) + if from <= t < to then 1 else 0
  {
    assert (ts + [t])[..|ts|] == ts;
  }

  /** A request accepted inside a window finds room in it. */
  lemma {:induction false} RoomInWindow(cfg: Config, rs: seq<Request>, r: Request, from: int)
    requires Chronological(rs + [r]) && Decide(StoreAfter(cfg, rs), cfg, r).allowed
    requires from <= r.time < from + cfg.ttl
    ensures CountIn(Hits(cfg, rs, r.key), from, from + cfg.ttl) < MaxBurst(cfg)
  {
    DecisionFromHistory(cfg, rs, r);
    assert forall i :: 0 <= i < |rs| ==> rs[i] == (rs + [r])[i];
    assert (rs + [r])[|rs|] == r;
    HitsSorted(cfg, rs, r.key, r.time);
    WindowWithinChain(Hits(cfg, rs, r.key), cfg.ttl, from, r.time);
  }

  lemma {:induction false} WindowBounded(cfg: Config, rs: seq<Request>, key: string, from: int)
    requires Chronological(rs)
    ensures CountIn(Hits(cfg, rs, key), from, from + cfg.ttl) <= MaxBurst(cfg)
  {
    if rs != [] {
      var n := |rs| - 1;
      WindowBounded(cfg, rs[..n], key, from);
      CountSnoc(Hits(cfg, rs[..n], key), rs[n].time, from, from + cfg.ttl);
      if rs[n].key == key && from <= rs[n].time < from + cfg.ttl
         && Decide(StoreAfter(cfg, rs[..n]), cfg, rs[n]).allowed {
        assert rs[..n] + [rs[n]] == rs;
        RoomInWindow(cfg, rs[..n], rs[n], from);
      }
    }
  }

  /** Any half-open window as long as the expiry time holds at most the larger burst of accepts. */
  lemma {:induction false} SlidingWindow(cfg: Config, rs: seq<Request>, key: string, from: int)
    requires Chronological(rs)
    ensures var n := CountIn(Hits(cfg, rs, key), from, from + cfg.ttl);
            n <= MaxBurst(cfg) && (n == 0 || n <= cfg.getBurst || n <= cfg.mutateBurst)
  {
    WindowBounded(cfg, rs, key, from);
  }

  /**
   More than that: while accepted requests keep arriving in gaps shorter than the expiry time, the
   key never recovers, so such a series is never longer than the larger burst.
   */
  lemma {:induction false} SeriesNeverExceedsBurst(cfg: Config, rs: seq<Request>, key: string, now: int)
    requires Chronological(rs) && forall i :: 0 <= i < |rs| ==> rs[i].time <= now
    ensures Chain(Hits(cfg, rs, key), cfg.ttl, now) <= MaxBurst(cfg)
  {
    if rs != [] {
      var n := |rs| - 1;
      var hits, r := Hits(cfg, rs[..n], key), rs[n];
      assert (hits + [r.time])[..|hits|] == hits;
      assert rs[..n] + [r] == rs;
      DecisionFromHistory(cfg, rs[..n], r);
      SeriesNeverExceedsBurst(cfg, rs[..n], key, now);
    }
  }

  /** After a pause as long as the expiry time, a key starts afresh. */
  lemma PauseResets(cfg: Config, rs: seq<Request>, r: Request)
    requires Chronological(rs + [r])
    requires var hits := Hits(cfg, rs, r.key); hits == [] || hits[|hits| - 1] + cfg.ttl <= r.time
    ensures Decide(StoreAfter(cfg, rs), cfg, r).allowed <==> 0 < Burst(cfg, r.verb)
  {
    DecisionFromHistory(cfg, rs, r);
  }

  /** An expiry below one second never limits anything. */
  lemma ShortExpiryNeverLimits(getBurst: int, mutateBurst: int, ttl: int, rs: seq<Request>, r: Request)
    requires 0 < ttl < SECOND && Chronological(rs + [r])
    ensures var cfg := Configure(getBurst, mutateBurst, ttl);
            Decide(StoreAfter(cfg, rs), cfg, r).allowed <==> 0 < Burst(cfg, r.verb)
  {
    var cfg := Configure(getBurst, mutateBurst, ttl);
    assert cfg.ttl == 0;
    DecisionFromHistory(cfg, rs, r);
    assert forall i :: 0 <= i < |rs| ==> rs[i] == (rs + [r])[i];
    assert (rs + [r])[|rs|] == r;
    HitsSorted(cfg, rs, r.key, r.time);
  }

  // ----- the configured duration -----

  ghost predicate WindowWithin(cfg: Config, rs: seq<Request>, key: string, from: int, d: int) {
    Chronological(rs) ==> CountIn(Hits(cfg, rs, key), from, from + d) <= MaxBurst(cfg)
  }

  /** No window as long as `d` holds more than the larger burst, in any run. */
  ghost predicate WindowKept(cfg: Config, d: int) {
    forall rs: seq<Request>, key: string, from: int :: WindowWithin(cfg, rs, key, from, d)
  }

  function Repeat(r: Request, n: nat): (rs: seq<Request>)
    ensures |rs| == n && forall i :: 0 <= i < n ==> rs[i] == r
  {
    seq(n, i => r)
  }

  lemma {:induction false} ChainAtMostHits(hits: seq<int>, ttl: int, now: int)
    ensures Chain(hits, ttl, now) <= |hits|
  {
    if hits != [] {
      ChainAtMostHits(hits[..|hits| - 1], ttl, hits[|hits| - 1]);
    }
  }

  lemma HitsSnoc(cfg: Config, rs: seq<Request>, r: Request)
    ensures Hits(cfg, rs + [r], r.key)
            == Hits(cfg, rs, r.key) + if Decide(StoreAfter(cfg, rs), cfg, r).allowed then [r.time] else []
  {
    assert (rs + [r])[..|rs|] == rs;
  }

  lemma RepeatSnoc(r: Request, n: nat)
    ensures Repeat(r, n + 1) == Repeat(r, n) + [r] && Chronological(Repeat(r, n) + [r])
  {
  }

  /** A burst's worth of requests at one moment is accepted. */
  lemma {:induction false} BurstAccepted(cfg: Config, r: Request, n: nat)
    requires n <= Burst(cfg, r.verb)
    ensures var hits := Hits(cfg, Repeat(r, n), r.key);
            |hits| == n && forall i :: 0 <= i < n ==> hits[i] == r.time
  {
    if n > 0 {
      var rs := Repeat(r, n - 1);
      BurstAccepted(cfg, r, n - 1);
      RepeatSnoc(r, n - 1);
      HitsSnoc(cfg, rs, r);
      FewHitsAccepted(cfg, rs, r);
    }
  }

  lemma FewHitsAccepted(cfg: Config, rs: seq<Request>, r: Request)
    requires Chronological(rs + [r]) && |Hits(cfg, rs, r.key)| < Burst(cfg, r.verb)
    ensures Decide(StoreAfter(cfg, rs), cfg, r).allowed
  {
    DecisionFromHistory(cfg, rs, r);
    ChainAtMostHits(Hits(cfg, rs, r.key), cfg.ttl, r.time);
  }

  lemma {:induction false} AllIn(ts: seq<int>, from: int, to: int)
    requires forall i :: 0 <= i < |ts| ==> from <= ts[i] < to
    ensures CountIn(ts, from, to) == |ts|
  {
    if ts != [] {
      AllIn(ts[..|ts| - 1], from, to);
    }
  }

  /** After a burst at time zero, one more request gets through as soon as the expiry is over. */
  lemma OneMoreThanBurst(cfg: Config, d: int, key: string)
    requires 0 <= cfg.ttl < d && 0 < MaxBurst(cfg)
    ensures !WindowKept(cfg, d)
  {
    var verb, n := if cfg.getBurst < cfg.mutateBurst then "POST" else "GET", MaxBurst(cfg);
    var r, last := Request(key, verb, 0), Request(key, verb, cfg.ttl);
    var rs := Repeat(r, n);
    BurstAccepted(cfg, r, n);
    PauseResets(cfg, rs, last);
    HitsSnoc(cfg, rs, last);
    AllIn(Hits(cfg, rs + [last], key), 0, d);
    assert !WindowWithin(cfg, rs + [last], key, 0, d);
  }

  lemma NothingAccepted(cfg: Config, rs: seq<Request>, key: string)
    requires MaxBurst(cfg) == 0
    ensures Hits(cfg, rs, key) == []
  {
  }

  /**
   Windows as long as the configured duration keep the bound in every run if and only if the
   duration is a whole number of seconds, or the limiter accepts nothing at all.
   */
  lemma FullWindowExactly(getBurst: int, mutateBurst: int, ttl: int)
    requires 0 <= ttl
    ensures var cfg := Configure(getBurst, mutateBurst, ttl);
            var d := if ttl == 0 then HOUR else ttl;
            WindowKept(cfg, d) <==> d % SECOND == 0 || MaxBurst(cfg) == 0
  {
    var cfg, d := Configure(getBurst, mutateBurst, ttl), if ttl == 0 then HOUR else ttl;
    if MaxBurst(cfg) == 0 || d % SECOND == 0 {
      forall rs: seq<Request>, key: string, from: int ensures WindowWithin(cfg, rs, key, from, d) {
        if MaxBurst(cfg) == 0 {
          NothingAccepted(cfg, rs, key);
        } else if Chronological(rs) {
          SlidingWindow(cfg, rs, key, from);
        }
      }
    } else {
      OneMoreThanBurst(cfg, d, "");
    }
  }
}
