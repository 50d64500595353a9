/** The per-source handshake limiter and its lazy forgetting of idle sources
    (crates/sidevers-net/src/handshake_limit.rs). */
module HandshakeLimits {
  import opened TokenBuckets

  const HANDSHAKE_BURST := 8.0
  const HANDSHAKE_REFILL_PER_SEC := 2.0
  const HANDSHAKE_IDLE_FORGET_SECS := 3600.0

  /** Source addresses are told apart by number. */
  type Ip = nat

  type Table = map<Ip, Bucket>

  function Greatest(x: real, y: real): real {
    if x >= y then x else y
  }

  /** The constructor's clamping of its arguments. */
  function Limits(burst: real, refillPerSec: real): Rule {
    Rule(Greatest(burst, 1.0), Greatest(refillPerSec, 0.01))
  }

  predicate Clamped(rule: Rule) {
    rule.capacity >= 1.0 && rule.refill >= 0.01
  }

  function Retained(t: Table, now: real): Table {
    map ip | ip in t && now - t[ip].lastRefillAt < HANDSHAKE_IDLE_FORGET_SECS :: t[ip]
  }

  /** A clock that went back gains nothing. */
  function Refreshed(rule: Rule, b: Bucket, now: real): Bucket {
    Bucket(Least(b.tokens + Gained(rule, Greatest(now - b.lastRefillAt, 0.0)), rule.capacity), now)
  }

  function Found(rule: Rule, t: Table, ip: Ip, now: real): Bucket {
    if ip in t then t[ip] else Bucket(rule.capacity, now)
  }

  /** One call on a limiter that forgets idle sources, or on one that never does. */
  function Acquired(rule: Rule, forget: bool, t: Table, ip: Ip, now: real): (Table, bool) {
    var kept := if forget then Retained(t, now) else t;
    var b := Refreshed(rule, Found(rule, kept, ip, now), now);
    if b.tokens >= 1.0 then (kept[ip := b.(tokens := b.tokens - 1.0)], true) else (kept[ip := b], false)
  }

  /** The tokens a source has at `now`: a full burst if it is unknown or an hour idle, otherwise
      what it had and what refilled since, at most a burst. */
  function AtHand(rule: Rule, t: Table, ip: Ip, now: real): real {
    if ip !in t || now - t[ip].lastRefillAt >= 3600.0 then rule.capacity
    else
      var idle := now - t[ip].lastRefillAt;
      var level := t[ip].tokens + (if idle >= 0.0 then idle else 0.0) * rule.refill;
      if level <= rule.capacity then level else rule.capacity
  }

  lemma RefreshedIsAtHand(rule: Rule, t: Table, ip: Ip, now: real)
    ensures Refreshed(rule, Found(rule, Retained(t, now), ip, now), now)
         == Bucket(AtHand(rule, t, ip, now), now)
  {
    assert 0.0 * rule.refill == 0.0;
  }

  /** What a call leaves and answers, source by source. */
  lemma AcquiredExactly(rule: Rule, t: Table, ip: Ip, now: real)
    ensures var (after, accepted) := Acquired(rule, true, t, ip, now);
            && accepted == (AtHand(rule, t, ip, now) >= 1.0)
            && ip in after && after[ip] == Bucket(AtHand(rule, t, ip, now) - if accepted then 1.0 else 0.0, now)
            && forall other :: other != ip ==>
                 && (other in after <==> other in t && now - t[other].lastRefillAt < 3600.0)
                 && (other in after ==> after[other] == t[other])
  {
    RefreshedIsAtHand(rule, t, ip, now);
    hide Refreshed, Found, AtHand;
  }

  class HandshakeLimiter {
    var buckets: Table
    const rule: Rule

    constructor (burst: real, refillPerSec: real)
      ensures buckets == map[] && rule == Limits(burst, refillPerSec) && Clamped(rule)
      ensures rule.capacity == if burst >= 1.0 then burst else 1.0
      ensures rule.refill == if refillPerSec >= 0.01 then refillPerSec else 0.01
    {
      buckets := map[];
      rule := Rule(Greatest(burst, 1.0), Greatest(refillPerSec, 0.01));
    }

    method TryAcquire(ip: Ip, now: real) returns (accepted: bool)
      modifies this
      ensures (buckets, accepted) == Acquired(rule, true, old(buckets), ip, now)
      ensures ip in buckets && forall other :: other != ip ==>
                && (other in buckets <==> other in old(buckets) && now - old(buckets)[other].lastRefillAt < 3600.0)
                && (other in buckets ==> buckets[other] == old(buckets)[other])
      ensures buckets[ip].lastRefillAt == now && accepted == (AtHand(rule, old(buckets), ip, now) >= 1.0)
      ensures buckets[ip].tokens == AtHand(rule, old(buckets), ip, now) - if accepted then 1.0 else 0.0
    {
      hide AtHand;
      buckets := map other | other in buckets && now - buckets[other].lastRefillAt < HANDSHAKE_IDLE_FORGET_SECS
                   :: buckets[other];
      ghost var kept := buckets;
      if ip !in buckets {
        buckets := buckets[ip := Bucket(rule.capacity, now)];
      }
      var bucket := buckets[ip];
      var elapsed := Greatest(now - bucket.lastRefillAt, 0.0);
      bucket := bucket.(tokens := Least(bucket.tokens + Gained(rule, elapsed), rule.capacity));
      bucket := bucket.(lastRefillAt := now);
      if bucket.tokens >= 1.0 {
        bucket := bucket.(tokens := bucket.tokens - 1.0);
        accepted := true;
      } else {
        accepted := false;
      }
      buckets := buckets[ip := bucket];
      assert buckets == kept[ip := bucket];
      AcquiredExactly(rule, old(buckets), ip, now);
    }
  }

  // ---------------------------------------------------------------------
  // Runs over every source
  // ---------------------------------------------------------------------

  datatype Call = Call(ip: Ip, now: real)

  /** The clock never goes back, starting from `from`. */
  predicate Timely(from: real, calls: seq<Call>)
    decreases |calls|
  {
    calls == [] || (from <= calls[0].now && Timely(calls[0].now, calls[1..]))
  }

  function Verdicts(rule: Rule, forget: bool, t: Table, calls: seq<Call>): seq<bool>
    decreases |calls|
  {
    if calls == [] then []
    else
      var (after, accepted) := Acquired(rule, forget, t, calls[0].ip, calls[0].now);
      [accepted] + Verdicts(rule, forget, after, calls[1..])
  }

  /** What a forgotten source had is full again by now. */
  predicate Recovered(rule: Rule, b: Bucket, now: real) {
    b.tokens + Gained(rule, now - b.lastRefillAt) >= rule.capacity
  }

  ghost predicate Sound(rule: Rule, t: Table, now: real) {
    forall ip :: ip in t ==> 0.0 <= t[ip].tokens <= rule.capacity && t[ip].lastRefillAt <= now
  }

  /** The forgetting table is the other one less some recovered sources. */
  ghost predicate Forgets(rule: Rule, few: Table, all: Table, now: real) {
    && (forall ip :: ip in few ==> ip in all && few[ip] == all[ip])
    && (forall ip :: ip in all && ip !in few ==> Recovered(rule, all[ip], now))
  }

  lemma StaysRecovered(rule: Rule, b: Bucket, now: real, later: real)
    requires rule.refill >= 0.0 && now <= later && Recovered(rule, b, now)
    ensures Recovered(rule, b, later)
  {
    GainedGrows(rule, now - b.lastRefillAt, later - b.lastRefillAt);
  }

  /** An hour's idleness recovers a source when an hour's refill is a full burst. */
  lemma IdleRecovers(rule: Rule, b: Bucket, now: real)
    requires rule.refill >= 0.0 && b.tokens >= 0.0
    requires Gained(rule, HANDSHAKE_IDLE_FORGET_SECS) >= rule.capacity
    requires now - b.lastRefillAt >= HANDSHAKE_IDLE_FORGET_SECS
    ensures Recovered(rule, b, now)
  {
    GainedGrows(rule, HANDSHAKE_IDLE_FORGET_SECS, now - b.lastRefillAt);
  }

  lemma RetainedForgets(rule: Rule, few: Table, all: Table, from: real, now: real)
    requires rule.refill >= 0.0 && Gained(rule, HANDSHAKE_IDLE_FORGET_SECS) >= rule.capacity
    requires Sound(rule, all, from) && Forgets(rule, few, all, from) && from <= now
    ensures Forgets(rule, Retained(few, now), all, now)
  {
    hide Gained, Recovered;
    forall ip | ip in all && ip !in Retained(few, now) ensures Recovered(rule, all[ip], now) {
      if ip in few {
        IdleRecovers(rule, all[ip], now);
      } else {
        StaysRecovered(rule, all[ip], from, now);
      }
    }
  }

  lemma RecoveredIsFull(rule: Rule, b: Bucket, now: real)
    requires b.lastRefillAt <= now && Recovered(rule, b, now)
    ensures Refreshed(rule, b, now).tokens == rule.capacity
  {
  }

  lemma SameBucket(rule: Rule, few: Table, all: Table, ip: Ip, now: real)
    requires rule.refill >= 0.0 && Sound(rule, all, now) && Forgets(rule, few, all, now)
    ensures Refreshed(rule, Found(rule, few, ip, now), now) == Refreshed(rule, Found(rule, all, ip, now), now)
  {
    hide Gained;
    GainedAdds(rule, 0.0, 0.0);
    if ip !in few && ip in all {
      RecoveredIsFull(rule, all[ip], now);
    }
  }

  lemma RefreshedIsSound(rule: Rule, all: Table, ip: Ip, now: real)
    requires Clamped(rule) && Sound(rule, all, now)
    ensures 0.0 <= Refreshed(rule, Found(rule, all, ip, now), now).tokens <= rule.capacity
  {
    hide Gained;
    GainedAdds(rule, 0.0, 0.0);
    GainedGrows(rule, 0.0, Greatest(now - Found(rule, all, ip, now).lastRefillAt, 0.0));
  }

  lemma SoundLater(rule: Rule, all: Table, from: real, now: real)
    requires Sound(rule, all, from) && from <= now
    ensures Sound(rule, all, now)
  {
  }

  lemma SameVerdict(rule: Rule, few: Table, all: Table, from: real, ip: Ip, now: real)
    requires Clamped(rule) && Gained(rule, HANDSHAKE_IDLE_FORGET_SECS) >= rule.capacity
    requires Sound(rule, all, from) && Forgets(rule, few, all, from) && from <= now
    ensures Acquired(rule, true, few, ip, now).1 == Acquired(rule, false, all, ip, now).1
    ensures Forgets(rule, Acquired(rule, true, few, ip, now).0, Acquired(rule, false, all, ip, now).0, now)
    ensures Sound(rule, Acquired(rule, false, all, ip, now).0, now)
  {
    hide Gained, Retained, Recovered, Refreshed, Found;
    RetainedForgets(rule, few, all, from, now);
    SoundLater(rule, all, from, now);
    SameBucket(rule, Retained(few, now), all, ip, now);
    RefreshedIsSound(rule, all, ip, now);
    assert Refreshed(rule, Found(rule, all, ip, now), now).lastRefillAt == now by {
      LastRefill(rule, Found(rule, all, ip, now), now);
    }
  }

  lemma LastRefill(rule: Rule, b: Bucket, now: real)
    ensures Refreshed(rule, b, now).lastRefillAt == now
  {
  }

  lemma {:induction false} ForgettingIsUnseen(rule: Rule, few: Table, all: Table, from: real, calls: seq<Call>)
    requires Clamped(rule) && Gained(rule, HANDSHAKE_IDLE_FORGET_SECS) >= rule.capacity
    requires Sound(rule, all, from) && Forgets(rule, few, all, from) && Timely(from, calls)
    ensures Verdicts(rule, true, few, calls) == Verdicts(rule, false, all, calls)
    decreases |calls|
  {
    hide Gained, Acquired, Forgets, Sound;
    if calls != [] {
      var ip, now := calls[0].ip, calls[0].now;
      SameVerdict(rule, few, all, from, ip, now);
      ForgettingIsUnseen(rule, Acquired(rule, true, few, ip, now).0, Acquired(rule, false, all, ip, now).0, now, calls[1..]);
    }
  }

  // ---------------------------------------------------------------------
  // When forgetting shows
  // ---------------------------------------------------------------------

  function Only(tokens: real, at: real): Table {
    map[0 := Bucket(tokens, at)]
  }

  /** A call soon enough that neither limiter has forgotten. */
  lemma SoonAcquired(rule: Rule, forget: bool, x: real, at: real, now: real)
    requires at <= now && now - at < HANDSHAKE_IDLE_FORGET_SECS
    ensures var level := Level(rule, Bucket(x, at), now);
            Acquired(rule, forget, Only(x, at), 0, now)
            == if level >= 1.0 then (Only(level - 1.0, now), true) else (Only(level, now), false)
  {
    assert Retained(Only(x, at), now) == Only(x, at);
    assert forall b :: Only(x, at)[0 := b] == map[0 := b];
  }

  lemma DivergeLater(rule: Rule, few: Table, all: Table, c: Call, rest: seq<Call>)
    requires Verdicts(rule, true, Acquired(rule, true, few, c.ip, c.now).0, rest)
          != Verdicts(rule, false, Acquired(rule, false, all, c.ip, c.now).0, rest)
    ensures Verdicts(rule, true, few, [c] + rest) != Verdicts(rule, false, all, [c] + rest)
  {
    hide Acquired;
    assert ([c] + rest)[1..] == rest;
    var v, w := Verdicts(rule, true, few, [c] + rest), Verdicts(rule, false, all, [c] + rest);
    assert v[1..] == Verdicts(rule, true, Acquired(rule, true, few, c.ip, c.now).0, rest);
    assert w[1..] == Verdicts(rule, false, Acquired(rule, false, all, c.ip, c.now).0, rest);
  }

  lemma DivergeNow(rule: Rule, few: Table, all: Table, c: Call)
    requires Acquired(rule, true, few, c.ip, c.now).1 != Acquired(rule, false, all, c.ip, c.now).1
    ensures Verdicts(rule, true, few, [c]) != Verdicts(rule, false, all, [c])
  {
    hide Acquired;
    assert Verdicts(rule, true, few, [c])[0] == Acquired(rule, true, few, c.ip, c.now).1;
    assert Verdicts(rule, false, all, [c])[0] == Acquired(rule, false, all, c.ip, c.now).1;
  }

  /** How long a bucket holding x < 1 waits for its next token. */
  lemma NextToken(rule: Rule, x: real) returns (wait: real)
    requires Clamped(rule) && 0.0 <= x < 1.0
    ensures 0.0 < wait <= 100.0 && x + Gained(rule, wait) == 1.0
  {
    wait := (1.0 - x) / rule.refill;
    assert wait * rule.refill == 1.0 - x;
    if wait > 100.0 {
      GainedGrows(rule, 100.0, wait);
    }
  }

  lemma NothingGained(rule: Rule)
    ensures Gained(rule, 0.0) == 0.0
  {
  }

  /** Two buckets with different tokens come to answer differently. */
  lemma {:induction false} UnequalDiverge(rule: Rule, y: real, z: real, now: real) returns (calls: seq<Call>)
    requires Clamped(rule) && 0.0 <= y < z <= rule.capacity
    ensures Timely(now, calls)
    ensures Verdicts(rule, true, Only(z, now), calls) != Verdicts(rule, false, Only(y, now), calls)
    decreases y.Floor
  {
    hide Acquired, Verdicts, Gained, Only;
    NothingGained(rule);
    var at := now;
    if z < 1.0 {
      var wait := NextToken(rule, z);
      at := now + wait;
    }
    SoonAcquired(rule, true, z, now, at);
    SoonAcquired(rule, false, y, now, at);
    if y >= 1.0 {
      var rest := UnequalDiverge(rule, y - 1.0, z - 1.0, now);
      calls := [Call(0, now)] + rest;
      assert calls[1..] == rest;
      DivergeLater(rule, Only(z, now), Only(y, now), Call(0, now), rest);
    } else {
      calls := [Call(0, at)];
      DivergeNow(rule, Only(z, now), Only(y, now), Call(0, at));
    }
  }

  /** An hour idle: one limiter starts over with a full burst, the other has an hour's refill. */
  lemma HourIdleDiverges(rule: Rule, at: real) returns (calls: seq<Call>)
    requires Clamped(rule) && Gained(rule, HANDSHAKE_IDLE_FORGET_SECS) < rule.capacity
    ensures Timely(at, calls)
    ensures Verdicts(rule, true, Only(0.0, at), calls) != Verdicts(rule, false, Only(0.0, at), calls)
  {
    hide Verdicts, Gained;
    NothingGained(rule);
    GainedGrows(rule, 0.0, HANDSHAKE_IDLE_FORGET_SECS);
    var now := at + HANDSHAKE_IDLE_FORGET_SECS;
    var c := Call(0, now);
    var y := Gained(rule, HANDSHAKE_IDLE_FORGET_SECS);
    assert Greatest(now - at, 0.0) == HANDSHAKE_IDLE_FORGET_SECS;
    assert forall b :: Only(0.0, at)[0 := b] == map[0 := b];
    assert Retained(Only(0.0, at), now) == map[];
    assert Acquired(rule, true, Only(0.0, at), 0, now) == (Only(rule.capacity - 1.0, now), true);
    if y >= 1.0 {
      assert Acquired(rule, false, Only(0.0, at), 0, now) == (Only(y - 1.0, now), true);
      var rest := UnequalDiverge(rule, y - 1.0, rule.capacity - 1.0, now);
      calls := [c] + rest;
      assert calls[1..] == rest;
      DivergeLater(rule, Only(0.0, at), Only(0.0, at), c, rest);
    } else {
      calls := [c];
      DivergeNow(rule, Only(0.0, at), Only(0.0, at), c);
    }
  }

  /** Drained to nothing and left idle for an hour, a source shows the difference. */
  lemma {:induction false} DrainedDiverges(rule: Rule, x: real, now: real) returns (calls: seq<Call>)
    requires Clamped(rule) && Gained(rule, HANDSHAKE_IDLE_FORGET_SECS) < rule.capacity && 0.0 <= x <= rule.capacity
    ensures Timely(now, calls)
    ensures Verdicts(rule, true, Only(x, now), calls) != Verdicts(rule, false, Only(x, now), calls)
    decreases x.Floor, if x == 0.0 then 0 else 1
  {
    hide Acquired, Verdicts, Gained, Only;
    if x == 0.0 {
      calls := HourIdleDiverges(rule, now);
    } else {
      NothingGained(rule);
      var at := now;
      if x < 1.0 {
        var wait := NextToken(rule, x);
        at := now + wait;
      }
      SoonAcquired(rule, true, x, now, at);
      SoonAcquired(rule, false, x, now, at);
      var rest := DrainedDiverges(rule, if x < 1.0 then 0.0 else x - 1.0, at);
      calls := [Call(0, at)] + rest;
      assert calls[1..] == rest;
      DivergeLater(rule, Only(x, now), Only(x, now), Call(0, at), rest);
    }
  }

  /** Forgetting idle sources never changes a verdict, over any run of any sources, exactly when
      an hour refills a whole burst. */
  lemma ForgettingIsUnseenExactly(rule: Rule)
    requires Clamped(rule)
    ensures (forall from, calls :: Timely(from, calls) ==>
               Verdicts(rule, true, map[], calls) == Verdicts(rule, false, map[], calls))
            <==> rule.refill * 3600.0 >= rule.capacity
  {
    assert Gained(rule, HANDSHAKE_IDLE_FORGET_SECS) == rule.refill * HANDSHAKE_IDLE_FORGET_SECS;
    hide Gained, Verdicts, Acquired, Timely;
    if Gained(rule, HANDSHAKE_IDLE_FORGET_SECS) >= rule.capacity {
      forall from, calls | Timely(from, calls)
        ensures Verdicts(rule, true, map[], calls) == Verdicts(rule, false, map[], calls)
      {
        ForgettingIsUnseen(rule, map[], map[], from, calls);
      }
    } else {
      var calls := FirstCallDiverges(rule);
      assert Timely(0.0, calls);
    }
  }

  lemma FirstCallDiverges(rule: Rule) returns (calls: seq<Call>)
    requires Clamped(rule) && Gained(rule, HANDSHAKE_IDLE_FORGET_SECS) < rule.capacity
    ensures Timely(0.0, calls)
    ensures Verdicts(rule, true, map[], calls) != Verdicts(rule, false, map[], calls)
  {
    hide Verdicts, Gained;
    NothingGained(rule);
    var rest := DrainedDiverges(rule, rule.capacity - 1.0, 0.0);
    calls := [Call(0, 0.0)] + rest;
    assert calls[1..] == rest;
    assert Retained(map[], 0.0) == map[];
    assert forall forget :: Acquired(rule, forget, map[], 0, 0.0).0 == Only(rule.capacity - 1.0, 0.0);
    DivergeLater(rule, map[], map[], Call(0, 0.0), rest);
  }

  // ---------------------------------------------------------------------
  // What the verdicts mean
  // ---------------------------------------------------------------------

  function VisitsOf(ip: Ip, calls: seq<Call>, verdicts: seq<bool>): seq<Visit>
    requires |verdicts| == |calls|
    decreases |calls|
  {
    if calls == [] then []
    else (if calls[0].ip == ip then [Visit(calls[0].now, verdicts[0])] else []) + VisitsOf(ip, calls[1..], verdicts[1..])
  }

  lemma {:induction false} VerdictPerCall(rule: Rule, forget: bool, t: Table, calls: seq<Call>)
    ensures |Verdicts(rule, forget, t, calls)| == |calls|
    decreases |calls|
  {
    hide Acquired;
    if calls != [] {
      VerdictPerCall(rule, forget, Acquired(rule, forget, t, calls[0].ip, calls[0].now).0, calls[1..]);
    }
  }

  /** The bucket of `ip` stands for the visits `h` so far. */
  ghost predicate Stands(rule: Rule, t: Table, h: seq<Visit>, ip: Ip) {
    if ip in t then KeepsLeast(rule, h, t[ip]) else h == []
  }

  lemma VisitFits(rule: Rule, t: Table, h: seq<Visit>, from: real, ip: Ip, now: real)
    requires Clamped(rule) && Sound(rule, t, from) && from <= now && Stands(rule, t, h, ip)
    ensures var (after, accepted) := Acquired(rule, false, t, ip, now);
            && (accepted <==> Fits(rule, h, now))
            && Stands(rule, after, h + [Visit(now, accepted)], ip)
  {
    hide KeepsLeast, Fits, Gained;
    var b := Found(rule, t, ip, now);
    assert KeepsLeast(rule, h, b) by {
      if ip !in t {
        FullBucketStands(rule, b);
      }
    }
    assert Acquired(rule, false, t, ip, now) == (t[ip := Attempt(rule, b, now).0], Attempt(rule, b, now).1);
    AttemptFits(rule, h, b, now);
  }

  lemma FullBucketStands(rule: Rule, b: Bucket)
    requires b.tokens == rule.capacity
    ensures KeepsLeast(rule, [], b)
  {
  }

  lemma {:induction false} MinPlusOn(rule: Rule, t: Table, h: seq<Visit>, from: real, ip: Ip, calls: seq<Call>)
    requires Clamped(rule) && Sound(rule, t, from) && Stands(rule, t, h, ip) && Timely(from, calls)
    requires FitsExactly(rule, h) && InOrder(h) && NotAfter(h, from)
    ensures var verdicts := Verdicts(rule, false, t, calls);
            && |verdicts| == |calls|
            && FitsExactly(rule, h + VisitsOf(ip, calls, verdicts))
            && InOrder(h + VisitsOf(ip, calls, verdicts))
    decreases |calls|
  {
    hide KeepsLeast, Fits, FitsExactly, Acquired, Stands;
    VerdictPerCall(rule, false, t, calls);
    if calls == [] {
      assert h + [] == h;
    } else {
      var c := calls[0];
      var (after, accepted) := Acquired(rule, false, t, c.ip, c.now);
      AcquiredStaysSound(rule, t, from, c.ip, c.now);
      var verdicts := Verdicts(rule, false, t, calls);
      assert verdicts[1..] == Verdicts(rule, false, after, calls[1..]);
      if c.ip == ip {
        VisitFits(rule, t, h, from, ip, c.now);
        var v := Visit(c.now, accepted);
        FitsExactlyOn(rule, h, v);
        MinPlusOn(rule, after, h + [v], c.now, ip, calls[1..]);
        assert h + VisitsOf(ip, calls, verdicts) == (h + [v]) + VisitsOf(ip, calls[1..], verdicts[1..]);
      } else {
        OthersStand(rule, t, h, ip, c);
        MinPlusOn(rule, after, h, c.now, ip, calls[1..]);
        assert h + VisitsOf(ip, calls, verdicts) == h + VisitsOf(ip, calls[1..], verdicts[1..]);
      }
    }
  }

  lemma OthersStand(rule: Rule, t: Table, h: seq<Visit>, ip: Ip, c: Call)
    requires Stands(rule, t, h, ip) && c.ip != ip
    ensures Stands(rule, Acquired(rule, false, t, c.ip, c.now).0, h, ip)
  {
    hide KeepsLeast;
  }

  lemma AcquiredStaysSound(rule: Rule, t: Table, from: real, ip: Ip, now: real)
    requires Clamped(rule) && Sound(rule, t, from) && from <= now
    ensures Sound(rule, Acquired(rule, false, t, ip, now).0, now)
  {
    hide Refreshed, Found;
    SoundLater(rule, t, from, now);
    RefreshedIsSound(rule, t, ip, now);
    LastRefill(rule, Found(rule, t, ip, now), now);
  }

  /** With forgetting unseen, a source's handshake is accepted exactly when it keeps every window
      within burst + refill x length, over any run of any sources; so no window exceeds that. */
  lemma HandshakesAreMinPlus(rule: Rule, start: real, calls: seq<Call>, ip: Ip, from: real, to: real)
    requires rule.capacity >= 1.0 && rule.refill >= 0.01 && rule.refill * 3600.0 >= rule.capacity
    requires Timely(start, calls) && from <= to
    ensures var verdicts := Verdicts(rule, true, map[], calls);
            && |verdicts| == |calls|
            && FitsExactly(rule, VisitsOf(ip, calls, verdicts))
            && AdmissionsIn(VisitsOf(ip, calls, verdicts), from, to) as real
               <= rule.capacity + (to - from) * rule.refill
  {
    assert Gained(rule, HANDSHAKE_IDLE_FORGET_SECS) == rule.refill * HANDSHAKE_IDLE_FORGET_SECS;
    assert Gained(rule, to - from) == (to - from) * rule.refill;
    hide Gained, Verdicts, Fits;
    ForgettingIsUnseen(rule, map[], map[], start, calls);
    VerdictPerCall(rule, true, map[], calls);
    MinPlusOn(rule, map[], [], start, ip, calls);
    var h := VisitsOf(ip, calls, Verdicts(rule, false, map[], calls));
    assert [] + h == h;
    WindowBound(rule, h, from, to);
  }

  /** With the shipped limits forgetting is unseen, and no window of any source accepts more than
      8 handshakes and 2 a second. */
  lemma ShippedLimits(start: real, calls: seq<Call>, ip: Ip, from: real, to: real)
    requires Timely(start, calls) && from <= to
    ensures var rule := Limits(HANDSHAKE_BURST, HANDSHAKE_REFILL_PER_SEC);
            var verdicts := Verdicts(rule, true, map[], calls);
            && verdicts == Verdicts(rule, false, map[], calls)
            && |verdicts| == |calls|
            && AdmissionsIn(VisitsOf(ip, calls, verdicts), from, to) as real <= 8.0 + 2.0 * (to - from)
  {
    var rule := Limits(HANDSHAKE_BURST, HANDSHAKE_REFILL_PER_SEC);
    assert rule == Rule(8.0, 2.0);
    hide Verdicts, VisitsOf, AdmissionsIn, Limits;
    HandshakesAreMinPlus(rule, start, calls, ip, from, to);
    ForgettingIsUnseen(rule, map[], map[], start, calls);
  }
}
