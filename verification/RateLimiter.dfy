/** The per-client token bucket limiter of the REST API.

    Tokens and seconds are reals and the clock never runs backwards.  The state
    of the limiter is judged by one number per client, the level of its bucket
    at a given time; the guarantees are about whole runs of requests from many
    clients with cleanups at arbitrary points. */
module RateLimiter {

  datatype Config = Config(limit: int, interval: real) {
    predicate Valid() { limit >= 1 && interval > 0.0 }

    function Rate(): real
      requires interval > 0.0
    {
      limit as real / interval
    }

    /** The bucket arithmetic of this configuration. */
    function Rule(): Rule
      requires interval > 0.0
    {
      var rate := Rate();
      MakeRule(limit as real, (t: real) => t * rate, interval * 2.0)
    }
  }

  /** Capacity in tokens, the tokens a bucket would have gained by a given time
      if it never filled up, and how long an idle bucket is kept. */
  datatype Rule = MakeRule(cap: real, gained: real -> real, idle: real) {
    ghost predicate Valid() {
      && cap >= 1.0
      && (forall a, b :: a <= b ==> gained(a) <= gained(b))
      && (forall a, b :: b - a > idle ==> gained(b) - gained(a) >= cap)
    }
  }

  datatype Entry = Entry(tokens: real, lastRefill: real)

  type Entries = map<string, Entry>

  datatype Event = Request(client: string, now: real) | Cleanup(now: real)

  const DEFAULT_LIMIT := 10
  const DEFAULT_INTERVAL := 60.0

  // ------------------------------------------------------------- one operation

  function Min(a: real, b: real): real { if a < b then a else b }

  function Refilled(rule: Rule, e: Entry, now: real): real {
    Min(e.tokens + (rule.gained(now) - rule.gained(e.lastRefill)), rule.cap)
  }

  function AllowStep(rule: Rule, m: Entries, client: string, now: real): (Entries, bool) {
    if client !in m then (m[client := Entry(rule.cap - 1.0, now)], true)
    else
      var tokens := Refilled(rule, m[client], now);
      if tokens < 1.0 then (m[client := Entry(tokens, now)], false)
      else (m[client := Entry(tokens - 1.0, now)], true)
  }

  predicate Expired(rule: Rule, e: Entry, now: real) {
    now - e.lastRefill > rule.idle
  }

  function CleanupStep(rule: Rule, m: Entries, now: real): Entries {
    map c | c in m && !Expired(rule, m[c], now) :: m[c]
  }

  function RetryAfterSeconds(cfg: Config): int
    requires cfg.interval > 0.0
  {
    var refillRate := cfg.limit as real / cfg.interval;
    if refillRate <= 0.0 then 1
    else
      var seconds := (1.0 / refillRate).Floor + 1;
      if seconds < 1 then 1 else seconds
  }

  /** The limiter object: both methods mutate the entries in place. */
  class Limiter {
    var entries: Entries
    const cfg: Config

    constructor (limit: int, interval: real)
      ensures cfg.Valid() && entries == map[]
      ensures cfg.limit == if limit <= 0 then 10 else limit
      ensures cfg.interval == if interval <= 0.0 then 60.0 else interval
    {
      cfg := Config(if limit <= 0 then DEFAULT_LIMIT else limit,
                    if interval <= 0.0 then DEFAULT_INTERVAL else interval);
      entries := map[];
    }

    method Allow(client: string, now: real) returns (allowed: bool)
      requires cfg.Valid()
      modifies this
      ensures entries == AllowStep(cfg.Rule(), old(entries), client, now).0
      ensures allowed == AllowStep(cfg.Rule(), old(entries), client, now).1
    {
      if client !in entries {
        entries := entries[client := Entry(cfg.limit as real - 1.0, now)];
        return true;
      }
      var entry := entries[client];
      var elapsed := now - entry.lastRefill;
      var refillRate := cfg.limit as real / cfg.interval;
      entry := Entry(entry.tokens + elapsed * refillRate, now);
      if entry.tokens > cfg.limit as real {
        entry := entry.(tokens := cfg.limit as real);
      }
      assert elapsed * refillRate == now * refillRate - entries[client].lastRefill * refillRate;
      assert entry.tokens == Refilled(cfg.Rule(), entries[client], now);
      if entry.tokens < 1.0 {
        entries := entries[client := entry];
        return false;
      }
      entry := entry.(tokens := entry.tokens - 1.0);
      entries := entries[client := entry];
      return true;
    }

    method CleanUp(now: real)
      requires cfg.Valid()
      modifies this
      ensures entries == CleanupStep(cfg.Rule(), old(entries), now)
      ensures forall c :: c in entries <==> c in old(entries) && now - old(entries)[c].lastRefill <= 2.0 * cfg.interval
      ensures forall c :: c in entries ==> entries[c] == old(entries)[c]
    {
      var pending := entries.Keys;
      while pending != {}
        invariant pending <= old(entries).Keys
        invariant entries.Keys <= old(entries).Keys
        invariant forall c :: c in old(entries) ==>
          (c in entries <==> c in pending || !Expired(cfg.Rule(), old(entries)[c], now))
        invariant forall c :: c in entries ==> entries[c] == old(entries)[c]
        decreases pending
      {
        var c :| c in pending;
        if now - entries[c].lastRefill > cfg.interval * 2.0 {
          entries := map k | k in entries && k != c :: entries[k];
        }
        pending := pending - {c};
      }
    }
  }

  // --------------------------------------------------------------------- runs

  function Step(rule: Rule, m: Entries, ev: Event): Entries {
    match ev
    case Request(c, now) => AllowStep(rule, m, c, now).0
    case Cleanup(now) => CleanupStep(rule, m, now)
  }

  function StateAt(rule: Rule, run: seq<Event>, k: nat): Entries
    requires k <= |run|
  {
    if k == 0 then map[] else Step(rule, StateAt(rule, run, k - 1), run[k - 1])
  }

  /** Whether event `k` of the run is a request of client `c` that was allowed. */
  predicate AllowedAt(rule: Rule, run: seq<Event>, c: string, k: nat)
    requires k < |run|
  {
    run[k].Request? && run[k].client == c && AllowStep(rule, StateAt(rule, run, k), c, run[k].now).1
  }

  /** How many requests of client `c` were allowed from event `lo` up to event `hi`. */
  function CountAllowed(rule: Rule, run: seq<Event>, c: string, lo: nat, hi: nat): nat
    requires lo <= hi <= |run|
  {
    if lo == hi then 0
    else CountAllowed(rule, run, c, lo, hi - 1) + if AllowedAt(rule, run, c, hi - 1) then 1 else 0
  }

  ghost predicate Monotone(run: seq<Event>) {
    forall i, j :: 0 <= i < j < |run| ==> run[i].now <= run[j].now
  }

  /** The tokens client `c` could use at time `t`; a client without a bucket has a full one. */
  function Level(rule: Rule, m: Entries, c: string, t: real): real {
    if c in m then Refilled(rule, m[c], t) else rule.cap
  }

  /** Every bucket holds between 0 and `cap` tokens and was refilled by time `t`. */
  ghost predicate Bounded(rule: Rule, m: Entries, t: real) {
    forall c :: c in m ==> 0.0 <= m[c].tokens <= rule.cap && m[c].lastRefill <= t
  }

  lemma RuleIsValid(cfg: Config)
    requires cfg.Valid()
    ensures cfg.Rule().Valid()
  {
    forall a, b | a <= b ensures cfg.Rule().gained(a) <= cfg.Rule().gained(b) {
      Scaled(a, b, 0.0, cfg.Rate());
    }
    forall a, b | b - a > cfg.interval * 2.0
      ensures cfg.Rule().gained(b) - cfg.Rule().gained(a) >= cfg.limit as real
    {
      Scaled(a, b, cfg.interval * 2.0, cfg.Rate());
      IdleBucketIsFull(cfg.limit as real, cfg.interval, cfg.Rate());
    }
  }

  lemma IdleBucketIsFull(limit: real, interval: real, rate: real)
    requires interval > 0.0 && limit >= 0.0 && rate == limit / interval
    ensures interval * 2.0 * rate >= limit
  {
    assert rate * interval == limit;
    assert interval * 2.0 * rate == 2.0 * (rate * interval);
  }

  lemma Scaled(a: real, b: real, d: real, r: real)
    requires b - a >= d && r >= 0.0
    ensures b * r - a * r >= d * r
  {
    assert (b - a - d) * r >= 0.0;
  }

  /** The level at a later time is determined by the level at an earlier one. */
  lemma LevelLater(rule: Rule, m: Entries, c: string, t: real, u: real)
    requires rule.Valid() && t <= u && Bounded(rule, m, t)
    ensures 0.0 <= Level(rule, m, c, t) <= rule.cap
    ensures Level(rule, m, c, u) == Min(Level(rule, m, c, t) + (rule.gained(u) - rule.gained(t)), rule.cap)
  {
  }

  /** One event conserves the level of a client, less one token if it allowed a request of that client. */
  lemma StepConserves(rule: Rule, m: Entries, ev: Event, c: string)
    requires rule.Valid() && Bounded(rule, m, ev.now)
    ensures Bounded(rule, Step(rule, m, ev), ev.now)
    ensures Level(rule, Step(rule, m, ev), c, ev.now) ==
            Level(rule, m, c, ev.now)
            - if ev.Request? && ev.client == c && AllowStep(rule, m, c, ev.now).1 then 1.0 else 0.0
    ensures ev.Request? && ev.client == c ==>
              (AllowStep(rule, m, c, ev.now).1 <==> Level(rule, m, c, ev.now) >= 1.0)
  {
    LevelLater(rule, m, c, ev.now, ev.now);
    match ev
    case Request(d, now) =>
      LevelLater(rule, m, d, now, now);
    case Cleanup(now) =>
  }

  /** Tokens stay within 0..limit on every run. */
  lemma {:induction false} RunBounded(rule: Rule, run: seq<Event>, k: nat, t: real)
    requires rule.Valid() && Monotone(run) && k <= |run|
    requires k > 0 ==> run[k - 1].now <= t
    ensures Bounded(rule, StateAt(rule, run, k), t)
  {
    if k > 0 {
      RunBounded(rule, run, k - 1, run[k - 1].now);
      StepConserves(rule, StateAt(rule, run, k - 1), run[k - 1], "");
    }
  }

  lemma {:induction false} WindowPotential(rule: Rule, run: seq<Event>, c: string, lo: nat, hi: nat, s: real, e: real)
    requires rule.Valid() && Monotone(run) && lo <= hi <= |run| && s <= e
    requires forall i :: lo <= i < hi ==> s <= run[i].now <= e
    requires hi > 0 ==> run[hi - 1].now <= e
    ensures CountAllowed(rule, run, c, lo, hi) as real + Level(rule, StateAt(rule, run, hi), c, e)
            <= rule.cap + (rule.gained(e) - rule.gained(s))
  {
    RunBounded(rule, run, hi, e);
    LevelLater(rule, StateAt(rule, run, hi), c, e, e);
    if lo < hi {
      var now := run[hi - 1].now;
      WindowPotential(rule, run, c, lo, hi - 1, s, now);
      RunBounded(rule, run, hi - 1, now);
      RunBounded(rule, run, hi, now);
      StepConserves(rule, StateAt(rule, run, hi - 1), run[hi - 1], c);
      LevelLater(rule, StateAt(rule, run, hi), c, now, e);
    }
  }

  /** In every run, a client is allowed at most limit + limit * T / interval
      requests in every time window of length T, whatever other clients and
      cleanups do. */
  lemma WindowBound(cfg: Config, run: seq<Event>, c: string, lo: nat, hi: nat, s: real, T: real)
    requires cfg.Valid() && Monotone(run) && lo <= hi <= |run| && T >= 0.0
    requires forall i :: lo <= i < hi ==> s <= run[i].now <= s + T
    ensures CountAllowed(cfg.Rule(), run, c, lo, hi) as real
            <= cfg.limit as real + cfg.limit as real * T / cfg.interval
  {
    assert CountAllowed(cfg.Rule(), run, c, lo, hi) as real
           <= cfg.limit as real + (cfg.Rule().gained(s + T) - cfg.Rule().gained(s)) by {
      RuleIsValid(cfg);
      WindowBoundByRule(cfg.Rule(), run, c, lo, hi, s, s + T);
    }
    GainedInWindow(cfg, s, T);
  }

  lemma GainedInWindow(cfg: Config, s: real, T: real)
    requires cfg.Valid()
    ensures cfg.Rule().gained(s + T) - cfg.Rule().gained(s) == cfg.limit as real * T / cfg.interval
  {
    GainedBetween(cfg, s, s + T);
    assert s + T - s == T;
    RateTimes(cfg.limit as real, cfg.interval, T);
  }

  lemma WindowBoundByRule(rule: Rule, run: seq<Event>, c: string, lo: nat, hi: nat, s: real, e: real)
    requires rule.Valid() && Monotone(run) && lo <= hi <= |run| && s <= e
    requires forall i :: lo <= i < hi ==> s <= run[i].now <= e
    ensures CountAllowed(rule, run, c, lo, hi) as real <= rule.cap + (rule.gained(e) - rule.gained(s))
  {
    if lo < hi {
      WindowPotential(rule, run, c, lo, hi, s, e);
      RunBounded(rule, run, hi, e);
      LevelLater(rule, StateAt(rule, run, hi), c, e, e);
    }
  }

  lemma GainedBetween(cfg: Config, a: real, b: real)
    requires cfg.Valid()
    ensures cfg.Rule().gained(b) - cfg.Rule().gained(a) == (b - a) * cfg.Rate()
  {
    var rate := cfg.Rate();
    assert b * rate - a * rate == (b - a) * rate;
  }

  lemma RateTimes(l: real, i: real, T: real)
    requires i > 0.0
    ensures T * (l / i) == l * T / i
  {
    assert (l / i) * i == l;
    assert T * (l / i) * i == l * T;
  }

  // ------------------------------------------------- what a client can observe

  /** The answers to the requests of the clients in `who`, in order. */
  function Answers(rule: Rule, m: Entries, run: seq<Event>, who: set<string>): seq<bool>
    decreases |run|
  {
    if run == [] then []
    else
      var rest := Answers(rule, Step(rule, m, run[0]), run[1..], who);
      if run[0].Request? && run[0].client in who
      then [AllowStep(rule, m, run[0].client, run[0].now).1] + rest
      else rest
  }

  /** The run without its cleanups and without the requests of clients outside `who`. */
  function OnlyRequestsOf(run: seq<Event>, who: set<string>): seq<Event> {
    if run == [] then []
    else if run[0].Request? && run[0].client in who then [run[0]] + OnlyRequestsOf(run[1..], who)
    else OnlyRequestsOf(run[1..], who)
  }

  ghost predicate SameLevels(rule: Rule, m: Entries, m': Entries, who: set<string>, t: real) {
    forall c :: c in who ==> Level(rule, m, c, t) == Level(rule, m', c, t)
  }

  lemma SameLevelsLater(rule: Rule, m: Entries, m': Entries, who: set<string>, t: real, u: real)
    requires rule.Valid() && t <= u
    requires Bounded(rule, m, t) && Bounded(rule, m', t) && SameLevels(rule, m, m', who, t)
    ensures SameLevels(rule, m, m', who, u)
  {
    forall c | c in who ensures Level(rule, m, c, u) == Level(rule, m', c, u) {
      LevelLater(rule, m, c, t, u);
      LevelLater(rule, m', c, t, u);
    }
  }

  lemma {:induction false} AnswersDependOnLevels(
    rule: Rule, m: Entries, m': Entries, run: seq<Event>, who: set<string>, t: real)
    requires rule.Valid() && Monotone(run)
    requires run != [] ==> t <= run[0].now
    requires Bounded(rule, m, t) && Bounded(rule, m', t) && SameLevels(rule, m, m', who, t)
    ensures Answers(rule, m, run, who) == Answers(rule, m', OnlyRequestsOf(run, who), who)
    decreases |run|
  {
    if run != [] {
      var ev, rest := run[0], run[1..];
      SameLevelsLater(rule, m, m', who, t, ev.now);
      var kept := ev.Request? && ev.client in who;
      var n, n' := Step(rule, m, ev), if kept then Step(rule, m', ev) else m';
      StepConserves(rule, m, ev, "");
      StepConserves(rule, m', ev, "");
      forall c | c in who ensures Level(rule, n, c, ev.now) == Level(rule, n', c, ev.now) {
        StepConserves(rule, m, ev, c);
        StepConserves(rule, m', ev, c);
      }
      AnswersDependOnLevels(rule, n, n', rest, who, ev.now);
      if kept {
        StepConserves(rule, m, ev, ev.client);
        StepConserves(rule, m', ev, ev.client);
        var only := OnlyRequestsOf(rest, who);
        assert ([ev] + only)[1..] == only;
      }
    }
  }

  /** Cleanup and other clients are unobservable: on every run, the clients of
      `who` get the answers they would get if nobody else had asked anything and
      no cleanup had ever run. */
  lemma CleanupAndOthersUnobservable(cfg: Config, run: seq<Event>, who: set<string>)
    requires cfg.Valid() && Monotone(run)
    ensures Answers(cfg.Rule(), map[], run, who) == Answers(cfg.Rule(), map[], OnlyRequestsOf(run, who), who)
  {
    RuleIsValid(cfg);
    AnswersDependOnLevels(cfg.Rule(), map[], map[], run, who, if run == [] then 0.0 else run[0].now);
  }

  // ------------------------------------------------------------- in plain numbers

  /** A bucket that was emptied at time `t` allows the next request exactly when one token has come in since: when
      the time waited, times the limit, is at least the interval. */
  lemma EmptyBucketWaits(cfg: Config, m: Entries, c: string, t: real, now: real)
    requires cfg.Valid() && c in m && m[c] == Entry(0.0, t) && now >= t
    ensures AllowStep(cfg.Rule(), m, c, now).1 <==> (now - t) * cfg.limit as real >= cfg.interval
  {
    GainedBetween(cfg, t, now);
    OneToken(now - t, cfg.limit as real, cfg.interval, cfg.Rate());
  }

  lemma OneToken(d: real, limit: real, interval: real, rate: real)
    requires interval > 0.0 && rate == limit / interval
    ensures d * rate >= 1.0 <==> d * limit >= interval
  {
    assert rate * interval == limit;
    assert d * limit == d * rate * interval;
    if d * rate >= 1.0 { assert (d * rate - 1.0) * interval >= 0.0; }
    if d * rate < 1.0 { assert (1.0 - d * rate) * interval > 0.0; }
  }

  /** A client that has not been seen has the whole limit to spend: that many requests at once, and no more. */
  lemma {:induction false} BurstExactly(cfg: Config, run: seq<Event>, c: string, now: real, k: nat)
    requires cfg.Valid() && k < |run| && forall i :: 0 <= i <= k ==> run[i] == Request(c, now)
    ensures AllowedAt(cfg.Rule(), run, c, k) <==> k < cfg.limit
    ensures c in StateAt(cfg.Rule(), run, k + 1) && StateAt(cfg.Rule(), run, k + 1)[c].lastRefill == now
    ensures StateAt(cfg.Rule(), run, k + 1)[c].tokens == if k < cfg.limit then (cfg.limit - 1 - k) as real else 0.0
  {
    if k > 0 { BurstExactly(cfg, run, c, now, k - 1); }
    assert cfg.Rule().gained(now) - cfg.Rule().gained(now) == 0.0;
  }

  /** The advertised wait is the first whole number of seconds in which more than a token comes in. */
  lemma RetryAfterIsTight(cfg: Config)
    requires cfg.Valid()
    ensures RetryAfterSeconds(cfg) >= 1
    ensures (RetryAfterSeconds(cfg) - 1) as real * (cfg.limit as real) <= cfg.interval
    ensures RetryAfterSeconds(cfg) as real * (cfg.limit as real) > cfg.interval
  {
    var wait := OneTokenWait(cfg);
    NextWhole(wait, RetryAfterSeconds(cfg), cfg.limit, cfg.interval);
  }

  lemma OneTokenWait(cfg: Config) returns (wait: real)
    requires cfg.Valid()
    ensures wait > 0.0 && wait * (cfg.limit as real) == cfg.interval && RetryAfterSeconds(cfg) == wait.Floor + 1
  {
    var rate := cfg.Rate();
    wait := 1.0 / rate;
    assert rate > 0.0 && wait * rate == 1.0;
    WaitTimesLimit(cfg.limit as real, cfg.interval, rate, wait);
  }

  lemma NextWhole(wait: real, r: int, limit: int, interval: real)
    requires (r - 1) as real <= wait < r as real && limit > 0 && wait * (limit as real) == interval
    ensures (r - 1) as real * (limit as real) <= interval < r as real * (limit as real)
  {
    TimesLimit((r - 1) as real, wait, limit as real);
    TimesLimit(wait, r as real, limit as real);
  }

  lemma WaitTimesLimit(limit: real, interval: real, rate: real, wait: real)
    requires interval > 0.0 && rate == limit / interval && wait * rate == 1.0
    ensures wait * limit == interval
  {
    assert rate * interval == limit;
    assert wait * limit == wait * rate * interval;
  }

  lemma TimesLimit(a: real, b: real, limit: real)
    requires a <= b && limit > 0.0
    ensures a * limit <= b * limit && (a < b ==> a * limit < b * limit)
  {
    assert (b - a) * limit >= 0.0;
    if a < b { assert (b - a) * limit > 0.0; }
  }

  // -------------------------------------------------------------- Retry-After

  lemma {:induction false} LevelGrows(rule: Rule, run: seq<Event>, c: string, i: nat, k: nat, t: real)
    requires rule.Valid() && Monotone(run) && i < k <= |run| && run[k - 1].now <= t
    requires forall j :: i < j < k ==> !AllowedAt(rule, run, c, j)
    ensures Level(rule, StateAt(rule, run, k), c, t) >= Min(rule.gained(t) - rule.gained(run[i].now), rule.cap)
  {
    var now := run[k - 1].now;
    RunBounded(rule, run, k - 1, now);
    RunBounded(rule, run, k, now);
    StepConserves(rule, StateAt(rule, run, k - 1), run[k - 1], c);
    LevelLater(rule, StateAt(rule, run, k), c, now, t);
    if k > i + 1 {
      assert !AllowedAt(rule, run, c, k - 1);
      LevelGrows(rule, run, c, i, k - 1, now);
    }
  }

  lemma WaitSuffices(rule: Rule, run: seq<Event>, c: string, i: nat, k: nat)
    requires rule.Valid() && Monotone(run) && i < k < |run|
    requires run[k].Request? && run[k].client == c
    requires forall j :: i < j < k ==> !AllowedAt(rule, run, c, j)
    requires rule.gained(run[k].now) - rule.gained(run[i].now) >= 1.0
    ensures AllowedAt(rule, run, c, k)
  {
    LevelGrows(rule, run, c, i, k, run[k].now);
    RunBounded(rule, run, k, run[k].now);
    StepConserves(rule, StateAt(rule, run, k), run[k], c);
  }

  lemma RetryAfterRefillsOneToken(cfg: Config)
    requires cfg.Valid()
    ensures RetryAfterSeconds(cfg) as real * cfg.Rate() >= 1.0
  {
    var r := cfg.Rate();
    var inv := 1.0 / r;
    assert inv * r == 1.0;
    Scaled(0.0, (inv.Floor + 1) as real, inv, r);
  }

  lemma GainedWhileWaiting(cfg: Config, a: real, b: real)
    requires cfg.Valid() && b >= a + RetryAfterSeconds(cfg) as real
    ensures cfg.Rule().gained(b) - cfg.Rule().gained(a) >= 1.0
  {
    RetryAfterRefillsOneToken(cfg);
    Scaled(0.0, b - a, RetryAfterSeconds(cfg) as real, cfg.Rate());
    GainedBetween(cfg, a, b);
  }

  /** A client that waits RetryAfterSeconds after any of its requests, rejected
      or not, without being allowed one in between, is allowed the next one. */
  lemma RetryAfterSuffices(cfg: Config, run: seq<Event>, c: string, i: nat, k: nat)
    requires cfg.Valid() && Monotone(run) && i < k < |run|
    requires run[i].Request? && run[i].client == c && run[k].Request? && run[k].client == c
    requires forall j :: i < j < k ==> !AllowedAt(cfg.Rule(), run, c, j)
    requires run[k].now >= run[i].now + RetryAfterSeconds(cfg) as real
    ensures AllowedAt(cfg.Rule(), run, c, k)
  {
    assert cfg.Rule().gained(run[k].now) - cfg.Rule().gained(run[i].now) >= 1.0 by {
      GainedWhileWaiting(cfg, run[i].now, run[k].now);
    }
    RuleIsValid(cfg);
    WaitSuffices(cfg.Rule(), run, c, i, k);
  }
}
