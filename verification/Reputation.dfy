/** Per-peer reputation (crates/sidevers-net/src/reputation.rs): a token bucket and two
    misbehaviour counters behind one gate. */
module Reputations {
  import opened Wrappers
  import opened Bytes
  import opened Keys
  import opened TokenBuckets

  /** Tokens are whole in the source's floating-point field; here they are exact. */
  datatype PeerReputation = PeerReputation(
    envelopesSeen: u32,
    sigFailures: u32,
    malformedPayloads: u32,
    rateLimitHits: u32,
    lastSeenAt: u64,
    lastMisbehaviorAt: Option<u64>,
    tokens: real,
    lastRefillAt: u64,
    refused: bool)

  datatype Policy = Policy(bucketCapacity: u32, refillPerSec: u32, maxSigFailures: u32, maxMalformed: u32)

  const DEFAULT_POLICY := Policy(100, 10, 10, 25)

  type Table = map<PublicKey, PeerReputation>

  function RuleOf(p: Policy): Rule {
    Rule(p.bucketCapacity as real, p.refillPerSec as real)
  }

  function Fresh(p: Policy, now: u64): PeerReputation {
    PeerReputation(0, 0, 0, 0, now, None, p.bucketCapacity as real, now, false)
  }

  function Entry(p: Policy, t: Table, peer: PublicKey, now: u64): PeerReputation {
    if peer in t then t[peer] else Fresh(p, now)
  }

  // ---------------------------------------------------------------------
  // Operations on one entry
  // ---------------------------------------------------------------------

  /** A clock that has not advanced refills nothing. */
  function Refilled(p: Policy, r: PeerReputation, now: u64): PeerReputation {
    if now <= r.lastRefillAt then r
    else r.(tokens := Least(r.tokens + Gained(RuleOf(p), (now - r.lastRefillAt) as real), p.bucketCapacity as real),
            lastRefillAt := now)
  }

  function Observed(p: Policy, r: PeerReputation, now: u64): (PeerReputation, bool) {
    var seen := r.(envelopesSeen := SaturatingIncrement(r.envelopesSeen), lastSeenAt := now);
    if seen.refused then (seen, false)
    else
      var full := Refilled(p, seen, now);
      if full.tokens >= 1.0 then (full.(tokens := full.tokens - 1.0), true)
      else (full.(rateLimitHits := SaturatingIncrement(full.rateLimitHits)), false)
  }

  /** In plain arithmetic, whichever way the clock went: a peer that is refused is only counted; any
      other has what it had and what refilled since, at most a burst, and passes if that is one. */
  lemma ObservedExactly(p: Policy, r: PeerReputation, now: u64)
    ensures var (after, pass) := Observed(p, r, now);
            var gained := if now <= r.lastRefillAt then 0.0 else (now - r.lastRefillAt) as real * p.refillPerSec as real;
            var level := if now > r.lastRefillAt && r.tokens + gained > p.bucketCapacity as real
                         then p.bucketCapacity as real else r.tokens + gained;
            && (pass <==> !r.refused && level >= 1.0)
            && after.tokens == (if r.refused then r.tokens else if pass then level - 1.0 else level)
            && after.lastRefillAt == (if r.refused || now <= r.lastRefillAt then r.lastRefillAt else now)
            && after.sigFailures == r.sigFailures && after.malformedPayloads == r.malformedPayloads
            && after.refused == r.refused
  {
  }

  function SigFailed(p: Policy, r: PeerReputation, now: u64): PeerReputation {
    var failures := SaturatingIncrement(r.sigFailures);
    r.(sigFailures := failures, lastMisbehaviorAt := Some(now), refused := r.refused || failures >= p.maxSigFailures)
  }

  function SentMalformed(p: Policy, r: PeerReputation, now: u64): PeerReputation {
    var malformed := SaturatingIncrement(r.malformedPayloads);
    r.(malformedPayloads := malformed, lastMisbehaviorAt := Some(now),
       refused := r.refused || malformed >= p.maxMalformed)
  }

  function Reinstated(r: PeerReputation): PeerReputation {
    r.(refused := false, sigFailures := 0, malformedPayloads := 0, lastMisbehaviorAt := None)
  }

  class ReputationTable {
    var peers: Table
    const policy: Policy

    constructor (policy: Policy)
      ensures peers == map[] && this.policy == policy
    {
      peers, this.policy := map[], policy;
    }

    method ObserveEnvelope(peer: PublicKey, now: u64) returns (pass: bool)
      modifies this
      ensures peers == old(peers)[peer := Observed(policy, Entry(policy, old(peers), peer, now), now).0]
      ensures pass == Observed(policy, Entry(policy, old(peers), peer, now), now).1
    {
      var rep := Entry(policy, peers, peer, now);
      rep := rep.(envelopesSeen := SaturatingIncrement(rep.envelopesSeen));
      rep := rep.(lastSeenAt := now);
      if rep.refused {
        peers := peers[peer := rep];
        return false;
      }
      if now > rep.lastRefillAt {
        var elapsed := (now - rep.lastRefillAt) as real;
        rep := rep.(tokens := Least(rep.tokens + Gained(RuleOf(policy), elapsed), policy.bucketCapacity as real));
        rep := rep.(lastRefillAt := now);
      }
      if rep.tokens >= 1.0 {
        rep := rep.(tokens := rep.tokens - 1.0);
        pass := true;
      } else {
        rep := rep.(rateLimitHits := SaturatingIncrement(rep.rateLimitHits));
        pass := false;
      }
      peers := peers[peer := rep];
    }

    method RecordSigFailure(peer: PublicKey, now: u64) returns (refused: bool)
      modifies this
      ensures peers == old(peers)[peer := SigFailed(policy, Entry(policy, old(peers), peer, now), now)]
      ensures refused == peers[peer].refused
    {
      var rep := Entry(policy, peers, peer, now);
      rep := rep.(sigFailures := SaturatingIncrement(rep.sigFailures));
      rep := rep.(lastMisbehaviorAt := Some(now));
      if rep.sigFailures >= policy.maxSigFailures {
        rep := rep.(refused := true);
      }
      peers := peers[peer := rep];
      refused := rep.refused;
    }

    method RecordMalformed(peer: PublicKey, now: u64) returns (refused: bool)
      modifies this
      ensures peers == old(peers)[peer := SentMalformed(policy, Entry(policy, old(peers), peer, now), now)]
      ensures refused == peers[peer].refused
    {
      var rep := Entry(policy, peers, peer, now);
      rep := rep.(malformedPayloads := SaturatingIncrement(rep.malformedPayloads));
      rep := rep.(lastMisbehaviorAt := Some(now));
      if rep.malformedPayloads >= policy.maxMalformed {
        rep := rep.(refused := true);
      }
      peers := peers[peer := rep];
      refused := rep.refused;
    }

    method Refuse(peer: PublicKey, now: u64)
      modifies this
      ensures peers == old(peers)[peer := Entry(policy, old(peers), peer, now).(refused := true)]
    {
      var rep := Entry(policy, peers, peer, now);
      rep := rep.(refused := true);
      peers := peers[peer := rep];
    }

    method Reinstate(peer: PublicKey)
      modifies this
      ensures peers == if peer in old(peers) then old(peers)[peer := Reinstated(old(peers)[peer])] else old(peers)
    {
      if peer in peers {
        var rep := peers[peer];
        rep := rep.(refused := false);
        rep := rep.(sigFailures := 0);
        rep := rep.(malformedPayloads := 0);
        rep := rep.(lastMisbehaviorAt := None);
        peers := peers[peer := rep];
      }
    }
  }

  // ---------------------------------------------------------------------
  // Runs over every peer
  // ---------------------------------------------------------------------

  datatype Op =
    | Observe(peer: PublicKey, now: u64)
    | SigFailure(peer: PublicKey, now: u64)
    | Malformed(peer: PublicKey, now: u64)
    | Refuse(peer: PublicKey, now: u64)
    | Reinstate(peer: PublicKey)

  /** The table after `op`, and whether an envelope passed. */
  function Step(p: Policy, t: Table, op: Op): (Table, bool) {
    match op
    case Observe(peer, now) =>
      var (r, pass) := Observed(p, Entry(p, t, peer, now), now);
      (t[peer := r], pass)
    case SigFailure(peer, now) => (t[peer := SigFailed(p, Entry(p, t, peer, now), now)], false)
    case Malformed(peer, now) => (t[peer := SentMalformed(p, Entry(p, t, peer, now), now)], false)
    case Refuse(peer, now) => (t[peer := Entry(p, t, peer, now).(refused := true)], false)
    case Reinstate(peer) => (if peer in t then t[peer := Reinstated(t[peer])] else t, false)
  }

  function Run(p: Policy, ops: seq<Op>): Table {
    if ops == [] then map[] else Step(p, Run(p, ops[..|ops| - 1]), ops[|ops| - 1]).0
  }

  /** The latest clock reading. */
  function Clock(ops: seq<Op>): u64 {
    if ops == [] then 0
    else
      var last := ops[|ops| - 1];
      if last.Reinstate? then Clock(ops[..|ops| - 1]) else last.now
  }

  /** The clock never goes back. */
  predicate Timely(ops: seq<Op>) {
    ops == [] || (Timely(ops[..|ops| - 1]) && Clock(ops[..|ops| - 1]) <= Clock(ops))
  }

  /** Envelopes of `peer` that passed in [from, to]. */
  function Passed(p: Policy, ops: seq<Op>, peer: PublicKey, from: real, to: real): nat {
    if ops == [] then 0
    else
      var before := ops[..|ops| - 1];
      var last := ops[|ops| - 1];
      Passed(p, before, peer, from, to)
      + if last.Observe? && last.peer == peer && from <= last.now as real <= to && Step(p, Run(p, before), last).1
        then 1 else 0
  }

  // ---------------------------------------------------------------------
  // The reference: no table, no bucket, only what happened
  // ---------------------------------------------------------------------

  /** Failures of the kind `sig` since the peer was last reinstated. */
  function FailuresSince(ops: seq<Op>, peer: PublicKey, sig: bool): nat {
    if ops == [] then 0
    else
      var last := ops[|ops| - 1];
      if last == Reinstate(peer) then 0
      else FailuresSince(ops[..|ops| - 1], peer, sig)
           + if last.peer == peer && (if sig then last.SigFailure? else last.Malformed?) then 1 else 0
  }

  /** Refused by hand, or by reaching a threshold, and not reinstated since. */
  predicate IsRefused(p: Policy, ops: seq<Op>, peer: PublicKey) {
    if ops == [] then false
    else
      var last := ops[|ops| - 1];
      if last.peer != peer then IsRefused(p, ops[..|ops| - 1], peer)
      else if last.Reinstate? then false
      else
        || last.Refuse?
        || (last.SigFailure? && FailuresSince(ops, peer, true) >= p.maxSigFailures)
        || (last.Malformed? && FailuresSince(ops, peer, false) >= p.maxMalformed)
        || IsRefused(p, ops[..|ops| - 1], peer)
  }

  /** One more at `now` leaves no window over its burst and what the policy refills meanwhile. */
  ghost predicate Allowed(p: Policy, h: seq<Visit>, now: real) {
    && p.bucketCapacity >= 1
    && forall j :: 0 <= j < |h| ==>
         p.bucketCapacity as real + (now - h[j].at) * p.refillPerSec as real - Admissions(h[j..]) as real >= 1.0
  }

  lemma AllowedIsFits(p: Policy, h: seq<Visit>, now: real)
    ensures Allowed(p, h, now) == Fits(RuleOf(p), h, now)
  {
    hide Fits, Admissions;
    FitsMeans(RuleOf(p), h, now);
  }

  /** The envelopes that met the limiter, each admitted when every window allows it. */
  ghost function Visits(p: Policy, ops: seq<Op>, peer: PublicKey): seq<Visit> {
    if ops == [] then []
    else
      var before := ops[..|ops| - 1];
      var last := ops[|ops| - 1];
      if last.Observe? && last.peer == peer && !IsRefused(p, before, peer)
      then Visits(p, before, peer)
           + [Visit(last.now as real, Allowed(p, Visits(p, before, peer), last.now as real))]
      else Visits(p, before, peer)
  }

  // ---------------------------------------------------------------------
  // The table refines the reference
  // ---------------------------------------------------------------------

  function Saturated(n: nat): u32 {
    if n <= 0xFFFF_FFFF then n else 0xFFFF_FFFF
  }

  ghost predicate EntryMatches(p: Policy, ops: seq<Op>, r: PeerReputation, peer: PublicKey) {
    && r.lastRefillAt <= Clock(ops)
    && KeepsLeast(RuleOf(p), Visits(p, ops, peer), Bucket(r.tokens, r.lastRefillAt as real))
    && r.refused == IsRefused(p, ops, peer)
    && r.sigFailures == Saturated(FailuresSince(ops, peer, true))
    && r.malformedPayloads == Saturated(FailuresSince(ops, peer, false))
  }

  ghost predicate Unknown(p: Policy, ops: seq<Op>, peer: PublicKey) {
    && Visits(p, ops, peer) == [] && !IsRefused(p, ops, peer)
    && FailuresSince(ops, peer, true) == FailuresSince(ops, peer, false) == 0
  }

  ghost predicate Matches(p: Policy, ops: seq<Op>, t: Table, peer: PublicKey) {
    if peer in t then EntryMatches(p, ops, t[peer], peer) else Unknown(p, ops, peer)
  }

  /** An observation of an entry is an attempt on its bucket. */
  lemma ObservedIsAttempt(p: Policy, r: PeerReputation, now: u64)
    requires !r.refused && r.lastRefillAt <= now && r.tokens <= p.bucketCapacity as real
    ensures var (after, pass) := Observed(p, r, now);
            && Attempt(RuleOf(p), Bucket(r.tokens, r.lastRefillAt as real), now as real)
               == (Bucket(after.tokens, after.lastRefillAt as real), pass)
            && !after.refused && after.lastRefillAt == now
  {
    assert (now - r.lastRefillAt) as real == now as real - r.lastRefillAt as real;
    if now == r.lastRefillAt {
      assert Gained(RuleOf(p), 0.0) == 0.0;
    }
    hide Gained;
  }

  /** An entry made now stands for a peer never heard of. */
  lemma EntryStands(p: Policy, ops: seq<Op>, t: Table, peer: PublicKey, now: u64)
    requires Matches(p, ops, t, peer) && Clock(ops) <= now
    ensures var r := Entry(p, t, peer, now);
            && r.lastRefillAt <= now
            && KeepsLeast(RuleOf(p), Visits(p, ops, peer), Bucket(r.tokens, r.lastRefillAt as real))
            && r.refused == IsRefused(p, ops, peer)
            && r.sigFailures == Saturated(FailuresSince(ops, peer, true))
            && r.malformedPayloads == Saturated(FailuresSince(ops, peer, false))
  {
  }

  /** What an observation adds to the reference. */
  lemma ObserveRecorded(p: Policy, ops: seq<Op>, peer: PublicKey, now: u64)
    ensures var all := ops + [Observe(peer, now)]; var h := Visits(p, ops, peer);
            && Clock(all) == now
            && IsRefused(p, all, peer) == IsRefused(p, ops, peer)
            && FailuresSince(all, peer, true) == FailuresSince(ops, peer, true)
            && FailuresSince(all, peer, false) == FailuresSince(ops, peer, false)
            && Visits(p, all, peer)
               == (if IsRefused(p, ops, peer) then h
                   else h + [Visit(now as real, Fits(RuleOf(p), h, now as real))])
  {
    AllowedIsFits(p, Visits(p, ops, peer), now as real);
    hide Fits, Allowed;
    var all := ops + [Observe(peer, now)];
    assert all[..|all| - 1] == ops;
  }

  lemma GateStep(p: Policy, ops: seq<Op>, t: Table, peer: PublicKey, now: u64)
    requires Matches(p, ops, t, peer) && Clock(ops) <= now
    ensures Step(p, t, Observe(peer, now)).1
            <==> !IsRefused(p, ops, peer) && Fits(RuleOf(p), Visits(p, ops, peer), now as real)
    ensures Matches(p, ops + [Observe(peer, now)], Step(p, t, Observe(peer, now)).0, peer)
  {
    EntryStands(p, ops, t, peer, now);
    ObserveRecorded(p, ops, peer, now);
    hide KeepsLeast, Fits, Attempt, Visits, IsRefused, FailuresSince, Clock, Entry, Refilled, RuleOf;
    var r := Entry(p, t, peer, now);
    if !r.refused {
      var b := Bucket(r.tokens, r.lastRefillAt as real);
      assert r.tokens <= p.bucketCapacity as real by {
        TokensWithin(RuleOf(p), Visits(p, ops, peer), b);
        RuleCapacity(p);
      }
      ObservedIsAttempt(p, r, now);
      RuleCapacity(p);
      AttemptFits(RuleOf(p), Visits(p, ops, peer), b, now as real);
    }
  }

  lemma RuleCapacity(p: Policy)
    ensures RuleOf(p).capacity == p.bucketCapacity as real && RuleOf(p).refill >= 0.0
  {
  }

  lemma TokensWithin(rule: Rule, h: seq<Visit>, b: Bucket)
    requires KeepsLeast(rule, h, b)
    ensures b.tokens <= rule.capacity
  {
  }

  lemma MatchesStep(p: Policy, ops: seq<Op>, t: Table, op: Op, peer: PublicKey)
    requires Matches(p, ops, t, peer) && Timely(ops + [op])
    ensures Matches(p, ops + [op], Step(p, t, op).0, peer)
  {
    hide KeepsLeast, Fits, Observed, Allowed, Refilled;
    var all := ops + [op];
    assert all[..|all| - 1] == ops;
    if op.peer == peer {
      if op.Observe? {
        GateStep(p, ops, t, peer, op.now);
      } else if !op.Reinstate? {
        EntryStands(p, ops, t, peer, op.now);
      }
    }
  }

  lemma {:induction false} RunMatches(p: Policy, ops: seq<Op>, peer: PublicKey)
    requires Timely(ops)
    ensures Matches(p, ops, Run(p, ops), peer)
  {
    hide Step, KeepsLeast;
    if ops == [] {
    } else {
      var before := ops[..|ops| - 1];
      assert ops == before + [ops[|ops| - 1]];
      RunMatches(p, before, peer);
      MatchesStep(p, before, Run(p, before), ops[|ops| - 1], peer);
    }
  }

  /** After any run over any peers, an envelope passes exactly when its peer is not refused and
      admitting it keeps every window since an earlier gate event within
      capacity + refill x length. */
  lemma GateIsMinPlus(p: Policy, ops: seq<Op>, peer: PublicKey, now: u64)
    requires Timely(ops) && Clock(ops) <= now
    ensures Step(p, Run(p, ops), Observe(peer, now)).1
            <==> var h := Visits(p, ops, peer);
                 && !IsRefused(p, ops, peer) && p.bucketCapacity >= 1
                 && forall j :: 0 <= j < |h| ==>
                      p.bucketCapacity as real + (now as real - h[j].at) * p.refillPerSec as real
                      - Admissions(h[j..]) as real >= 1.0
  {
    hide Fits, Visits, IsRefused, Step, Admissions, Run, RuleOf, Timely, Clock;
    GateFits(p, ops, peer, now);
    AllowedIsFits(p, Visits(p, ops, peer), now as real);
  }

  lemma GateFits(p: Policy, ops: seq<Op>, peer: PublicKey, now: u64)
    requires Timely(ops) && Clock(ops) <= now
    ensures Step(p, Run(p, ops), Observe(peer, now)).1
            <==> !IsRefused(p, ops, peer) && Fits(RuleOf(p), Visits(p, ops, peer), now as real)
  {
    RunMatches(p, ops, peer);
    GateStep(p, ops, Run(p, ops), peer, now);
  }

  /** A peer that is not refused and was silent for a second passes, under any policy that allows
      an envelope and refills one a second. */
  lemma IdlePeerPasses(p: Policy, ops: seq<Op>, peer: PublicKey, now: u64)
    requires Timely(ops) && Clock(ops) <= now && p.refillPerSec >= 1 && p.bucketCapacity >= 1
    requires forall op :: op in ops && op.Observe? && op.peer == peer ==> op.now + 1 <= now
    ensures Step(p, Run(p, ops), Observe(peer, now)).1 <==> !IsRefused(p, ops, peer)
  {
    VisitsAreOrdered(p, ops, peer);
    VisitsAreObserved(p, ops, peer, now as real - 1.0);
    hide Fits, FitsExactly, Visits, NotAfter, InOrder, Step, Timely, IsRefused;
    IdleFits(RuleOf(p), Visits(p, ops, peer), now as real);
    GateFits(p, ops, peer, now);
  }

  lemma {:induction false} VisitsAreObserved(p: Policy, ops: seq<Op>, peer: PublicKey, now: real)
    requires forall op :: op in ops && op.Observe? && op.peer == peer ==> op.now as real <= now
    ensures NotAfter(Visits(p, ops, peer), now)
  {
    hide Allowed, IsRefused;
    if ops != [] {
      var before := ops[..|ops| - 1];
      assert ops[|ops| - 1] in ops && forall op :: op in before ==> op in ops;
      VisitsAreObserved(p, before, peer, now);
    }
  }

  /** The table's own flag says whether the peer is refused. */
  lemma RefusedExactly(p: Policy, ops: seq<Op>, peer: PublicKey)
    requires Timely(ops)
    ensures (peer in Run(p, ops) && Run(p, ops)[peer].refused) <==> IsRefused(p, ops, peer)
  {
    RunMatches(p, ops, peer);
  }

  lemma {:induction false} VisitsAreOrdered(p: Policy, ops: seq<Op>, peer: PublicKey)
    requires Timely(ops)
    ensures InOrder(Visits(p, ops, peer)) && NotAfter(Visits(p, ops, peer), Clock(ops) as real)
    ensures FitsExactly(RuleOf(p), Visits(p, ops, peer))
  {
    hide Fits, Allowed, IsRefused;
    if ops == [] {
    } else {
      var before := ops[..|ops| - 1];
      VisitsAreOrdered(p, before, peer);
      var last := ops[|ops| - 1];
      if last.Observe? && last.peer == peer {
        var h := Visits(p, before, peer);
        AllowedIsFits(p, h, last.now as real);
        FitsExactlyOn(RuleOf(p), h, Visit(last.now as real, Fits(RuleOf(p), h, last.now as real)));
      }
    }
  }

  lemma {:induction false} PassedAreVisits(p: Policy, ops: seq<Op>, peer: PublicKey, from: real, to: real)
    requires Timely(ops)
    ensures Passed(p, ops, peer, from, to) == AdmissionsIn(Visits(p, ops, peer), from, to)
  {
    hide Fits, Allowed, IsRefused, Step;
    if ops == [] {
    } else {
      var before := ops[..|ops| - 1];
      var last := ops[|ops| - 1];
      PassedAreVisits(p, before, peer, from, to);
      if last.Observe? && last.peer == peer {
        GateFits(p, before, peer, last.now);
        AllowedIsFits(p, Visits(p, before, peer), last.now as real);
        var h := Visits(p, before, peer);
        assert forall v :: (h + [v])[..|h|] == h;
      }
    }
  }

  /** Over any run, refusals and reinstatements included, no window passes more envelopes of one
      peer than its burst and what refilled meanwhile. */
  lemma PassedBound(p: Policy, ops: seq<Op>, peer: PublicKey, from: real, to: real)
    requires Timely(ops) && from <= to
    ensures Passed(p, ops, peer, from, to) as real
         <= p.bucketCapacity as real + (to - from) * p.refillPerSec as real
  {
    hide AdmissionsIn, Passed, Visits, NotAfter, FitsExactly, Timely;
    VisitsAreOrdered(p, ops, peer);
    PassedAreVisits(p, ops, peer, from, to);
    WindowBound(RuleOf(p), Visits(p, ops, peer), from, to);
  }

  /** With the shipped policy: a burst of 100, and 10 a second. */
  lemma ShippedGate(ops: seq<Op>, peer: PublicKey, now: u64)
    requires Timely(ops) && Clock(ops) <= now
    ensures Step(DEFAULT_POLICY, Run(DEFAULT_POLICY, ops), Observe(peer, now)).1
            <==> var h := Visits(DEFAULT_POLICY, ops, peer);
                 && !IsRefused(DEFAULT_POLICY, ops, peer)
                 && forall j :: 0 <= j < |h| ==>
                      100.0 + (now as real - h[j].at) * 10.0 - Admissions(h[j..]) as real >= 1.0
  {
    assert DEFAULT_POLICY.bucketCapacity == 100 && DEFAULT_POLICY.refillPerSec == 10;
    hide Visits, IsRefused, Step, Admissions, Run, Timely, Clock;
    GateIsMinPlus(DEFAULT_POLICY, ops, peer, now);
  }

  /** With the shipped policy: 100 envelopes and 10 a second. */
  lemma ShippedPassedBound(ops: seq<Op>, peer: PublicKey, from: real, to: real)
    requires Timely(ops) && from <= to
    ensures Passed(DEFAULT_POLICY, ops, peer, from, to) as real <= 100.0 + 10.0 * (to - from)
  {
    hide Passed;
    PassedBound(DEFAULT_POLICY, ops, peer, from, to);
  }

  // ---------------------------------------------------------------------
  // Bursts, thresholds and counters
  // ---------------------------------------------------------------------

  function Burst(peer: PublicKey, now: u64, n: nat): seq<Op> {
    if n == 0 then [] else Burst(peer, now, n - 1) + [Observe(peer, now)]
  }

  /** Of `n` envelopes a new peer sends in one second, exactly the burst passes. */
  lemma {:induction false} BurstExactly(p: Policy, peer: PublicKey, now: u64, n: nat)
    ensures Passed(p, Burst(peer, now, n), peer, now as real, now as real)
         == if n <= p.bucketCapacity then n else p.bucketCapacity
    ensures n > 0 ==>
              var t := Run(p, Burst(peer, now, n));
              && peer in t && !t[peer].refused && t[peer].lastRefillAt == now
              && t[peer].tokens == p.bucketCapacity as real - (if n <= p.bucketCapacity then n else p.bucketCapacity) as real
              && t[peer].envelopesSeen == Saturated(n)
              && t[peer].rateLimitHits == Saturated(if n <= p.bucketCapacity then 0 else n - p.bucketCapacity)
  {
    if n > 0 {
      BurstExactly(p, peer, now, n - 1);
      var all := Burst(peer, now, n);
      assert all[..|all| - 1] == Burst(peer, now, n - 1);
    }
  }

  /** With the shipped policy: the first 100 of a new peer's envelopes in a second. */
  lemma ShippedBurst(peer: PublicKey, now: u64)
    ensures Passed(DEFAULT_POLICY, Burst(peer, now, 100), peer, now as real, now as real) == 100
    ensures Passed(DEFAULT_POLICY, Burst(peer, now, 101), peer, now as real, now as real) == 100
  {
    hide Passed, Burst;
    BurstExactly(DEFAULT_POLICY, peer, now, 100);
    BurstExactly(DEFAULT_POLICY, peer, now, 101);
  }

  /** Never refused by hand, a peer is refused exactly when its failures since it was last
      reinstated reach a threshold. */
  lemma {:induction false} RefusedByCountExactly(p: Policy, ops: seq<Op>, peer: PublicKey)
    requires forall op :: op in ops && op.Refuse? ==> op.peer != peer
    requires p.maxSigFailures >= 1 && p.maxMalformed >= 1
    ensures IsRefused(p, ops, peer)
       <==> FailuresSince(ops, peer, true) >= p.maxSigFailures || FailuresSince(ops, peer, false) >= p.maxMalformed
  {
    if ops != [] {
      var before := ops[..|ops| - 1];
      assert ops[|ops| - 1] in ops && forall op :: op in before ==> op in ops;
      RefusedByCountExactly(p, before, peer);
    }
  }

  /** With the shipped policy: 10 failed signatures or 25 malformed payloads. */
  lemma ShippedThresholds(ops: seq<Op>, peer: PublicKey)
    requires Timely(ops) && forall op :: op in ops && op.Refuse? ==> op.peer != peer
    ensures var t := Run(DEFAULT_POLICY, ops);
            (peer in t && t[peer].refused)
            <==> FailuresSince(ops, peer, true) >= 10 || FailuresSince(ops, peer, false) >= 25
  {
    hide Run, IsRefused, FailuresSince, Timely;
    RefusedExactly(DEFAULT_POLICY, ops, peer);
    RefusedByCountExactly(DEFAULT_POLICY, ops, peer);
  }

  /** Envelopes of the peer, whether they passed or not. */
  function Heard(ops: seq<Op>, peer: PublicKey): nat {
    if ops == [] then 0
    else Heard(ops[..|ops| - 1], peer)
         + if ops[|ops| - 1].Observe? && ops[|ops| - 1].peer == peer then 1 else 0
  }

  /** The reference's time of the latest misbehaviour since the peer was last reinstated. */
  function Misbehaved(ops: seq<Op>, peer: PublicKey): Option<u64> {
    if ops == [] then None
    else
      var last := ops[|ops| - 1];
      if last.peer != peer then Misbehaved(ops[..|ops| - 1], peer)
      else if last.Reinstate? then None
      else if last.SigFailure? || last.Malformed? then Some(last.now)
      else Misbehaved(ops[..|ops| - 1], peer)
  }

  /** The latest envelope, or, before the first, whatever else made the entry. */
  function LastHeard(ops: seq<Op>, peer: PublicKey): Option<u64> {
    if ops == [] then None
    else
      var before := LastHeard(ops[..|ops| - 1], peer);
      var last := ops[|ops| - 1];
      if last.peer != peer || last.Reinstate? then before
      else if last.Observe? || before.None? then Some(last.now)
      else before
  }

  /** Visits turned away. */
  function Refusals(h: seq<Visit>): nat {
    if h == [] then 0 else Refusals(h[..|h| - 1]) + if h[|h| - 1].admitted then 0 else 1
  }

  ghost predicate Counted(p: Policy, ops: seq<Op>, t: Table, peer: PublicKey) {
    if peer in t then
      && t[peer].envelopesSeen == Saturated(Heard(ops, peer))
      && Some(t[peer].lastSeenAt) == LastHeard(ops, peer)
      && t[peer].lastMisbehaviorAt == Misbehaved(ops, peer)
      && t[peer].rateLimitHits == Saturated(Refusals(Visits(p, ops, peer)))
    else
      && Heard(ops, peer) == 0 && LastHeard(ops, peer) == None && Misbehaved(ops, peer) == None
      && Visits(p, ops, peer) == []
  }

  lemma CountedObserve(p: Policy, ops: seq<Op>, peer: PublicKey, now: u64)
    requires Timely(ops) && Clock(ops) <= now && Counted(p, ops, Run(p, ops), peer)
    ensures Counted(p, ops + [Observe(peer, now)], Step(p, Run(p, ops), Observe(peer, now)).0, peer)
  {
    var all, h := ops + [Observe(peer, now)], Visits(p, ops, peer);
    assert all[..|all| - 1] == ops;
    GateFits(p, ops, peer, now);
    RefusedExactly(p, ops, peer);
    ObserveRecorded(p, ops, peer, now);
    ObservedCounts(p, Entry(p, Run(p, ops), peer, now), now);
    hide Visits, IsRefused, Fits, Timely, Run, Observed;
    var pass := Fits(RuleOf(p), h, now as real);
    assert (h + [Visit(now as real, pass)])[..|h|] == h;
    assert Refusals(h + [Visit(now as real, pass)]) == Refusals(h) + if pass then 0 else 1;
    assert Heard(all, peer) == Heard(ops, peer) + 1;
    assert LastHeard(all, peer) == Some(now);
    assert Misbehaved(all, peer) == Misbehaved(ops, peer);
  }

  lemma ObservedCounts(p: Policy, r: PeerReputation, now: u64)
    ensures var (after, pass) := Observed(p, r, now);
            && after.envelopesSeen == SaturatingIncrement(r.envelopesSeen)
            && after.lastSeenAt == now
            && after.lastMisbehaviorAt == r.lastMisbehaviorAt
            && after.rateLimitHits == if r.refused || pass then r.rateLimitHits else SaturatingIncrement(r.rateLimitHits)
  {
    hide Gained;
  }

  lemma CountedOther(p: Policy, ops: seq<Op>, t: Table, op: Op, peer: PublicKey)
    requires Counted(p, ops, t, peer) && !(op.Observe? && op.peer == peer)
    ensures Counted(p, ops + [op], Step(p, t, op).0, peer)
  {
    hide Observed, IsRefused, Allowed;
    var all := ops + [op];
    assert all[..|all| - 1] == ops && all[|all| - 1] == op;
    assert Visits(p, all, peer) == Visits(p, ops, peer);
    assert Heard(all, peer) == Heard(ops, peer);
    if op.peer != peer {
      assert LastHeard(all, peer) == LastHeard(ops, peer);
      assert Misbehaved(all, peer) == Misbehaved(ops, peer);
    }
  }

  /** What the table counts is what happened; an entry is made by the first thing heard. */
  lemma {:induction false} CountersExactly(p: Policy, ops: seq<Op>, peer: PublicKey)
    requires Timely(ops)
    ensures Counted(p, ops, Run(p, ops), peer)
  {
    if ops != [] {
      hide Counted, Step;
      var before, last := ops[..|ops| - 1], ops[|ops| - 1];
      assert ops == before + [last];
      CountersExactly(p, before, peer);
      if last.Observe? && last.peer == peer {
        CountedObserve(p, before, peer, last.now);
      } else {
        CountedOther(p, before, Run(p, before), last, peer);
      }
    }
  }
}
