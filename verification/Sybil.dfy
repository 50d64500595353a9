/** Counting fresh identities per source address (crates/sidevers-net/src/reputation.rs,
    `IpSybilTracker`): windows tumble, the promise is about any stretch of time. */
module Sybil {
  import opened Bytes
  import opened Keys

  /** Source addresses are told apart by number. */
  type Ip = nat

  datatype IpState = IpState(pubkeys: set<PublicKey>, windowStartAt: u64, overQuotaCount: u32)

  datatype Policy = Policy(windowSecs: u64, maxNewPubkeysPerIp: u64)

  const DEFAULT_POLICY := Policy.Policy(3600, 16)

  type Table = map<Ip, IpState>

  datatype Decision = Allow | OverQuota

  function Entry(t: Table, ip: Ip, now: u64): IpState {
    if ip in t then t[ip] else IpState({}, now, 0)
  }

  /** Subtraction saturates: a clock that went back has an age of zero. */
  function Age(s: IpState, now: u64): u64 {
    if now >= s.windowStartAt then now - s.windowStartAt else 0
  }

  function Rolled(p: Policy, s: IpState, now: u64): IpState {
    if Age(s, now) >= p.windowSecs then s.(pubkeys := {}, windowStartAt := now) else s
  }

  function Observed(p: Policy, s: IpState, peer: PublicKey, now: u64): (IpState, Decision) {
    var r := Rolled(p, s, now);
    if peer in r.pubkeys then (r, Allow)
    else if |r.pubkeys| >= p.maxNewPubkeysPerIp
    then (r.(overQuotaCount := SaturatingIncrement(r.overQuotaCount)), OverQuota)
    else (r.(pubkeys := r.pubkeys + {peer}), Allow)
  }

  class IpSybilTracker {
    var states: Table
    const policy: Policy

    constructor (policy: Policy)
      ensures states == map[] && this.policy == policy
    {
      states, this.policy := map[], policy;
    }

    method Observe(peer: PublicKey, ip: Ip, now: u64) returns (decision: Decision)
      modifies this
      ensures states == old(states)[ip := Observed(policy, Entry(old(states), ip, now), peer, now).0]
      ensures decision == Observed(policy, Entry(old(states), ip, now), peer, now).1
    {
      var state := Entry(states, ip, now);
      if Age(state, now) >= policy.windowSecs {
        state := state.(pubkeys := {});
        state := state.(windowStartAt := now);
      }
      states := states[ip := state];
      if peer in state.pubkeys {
        return Allow;
      }
      if |state.pubkeys| >= policy.maxNewPubkeysPerIp {
        states := states[ip := state.(overQuotaCount := SaturatingIncrement(state.overQuotaCount))];
        return OverQuota;
      }
      states := states[ip := state.(pubkeys := state.pubkeys + {peer})];
      decision := Allow;
    }
  }

  // ---------------------------------------------------------------------
  // Runs over every source
  // ---------------------------------------------------------------------

  datatype Call = Call(peer: PublicKey, ip: Ip, now: u64)

  predicate Timely(calls: seq<Call>) {
    forall i, j :: 0 <= i <= j < |calls| ==> calls[i].now <= calls[j].now
  }

  function Step(p: Policy, t: Table, c: Call): (Table, Decision) {
    var (s, d) := Observed(p, Entry(t, c.ip, c.now), c.peer, c.now);
    (t[c.ip := s], d)
  }

  function Run(p: Policy, calls: seq<Call>): Table {
    if calls == [] then map[] else Step(p, Run(p, calls[..|calls| - 1]), calls[|calls| - 1]).0
  }

  /** The distinct keys answered `Allow` from `ip` at a time in [from, to]. */
  function Allowed(p: Policy, calls: seq<Call>, ip: Ip, from: int, to: int): set<PublicKey> {
    if calls == [] then {}
    else
      var before := calls[..|calls| - 1];
      var last := calls[|calls| - 1];
      Allowed(p, before, ip, from, to)
      + if last.ip == ip && from <= last.now <= to && Step(p, Run(p, before), last).1.Allow? then {last.peer} else {}
  }

  lemma {:induction false} AllowedWithin(p: Policy, calls: seq<Call>, ip: Ip, from: int, to: int, lo: int, hi: int)
    requires lo <= from && to <= hi
    ensures Allowed(p, calls, ip, from, to) <= Allowed(p, calls, ip, lo, hi)
  {
    hide Step;
    if calls != [] {
      AllowedWithin(p, calls[..|calls| - 1], ip, from, to, lo, hi);
    }
  }

  lemma {:induction false} AllowedSplits(p: Policy, calls: seq<Call>, ip: Ip, from: int, mid: int, to: int)
    ensures Allowed(p, calls, ip, from, to) <= Allowed(p, calls, ip, from, mid - 1) + Allowed(p, calls, ip, mid, to)
  {
    hide Step;
    if calls != [] {
      AllowedSplits(p, calls[..|calls| - 1], ip, from, mid, to);
    }
  }

  // ---------------------------------------------------------------------
  // Two windows cover any stretch of one window's length
  // ---------------------------------------------------------------------

  /** What the current window's keys stand for: every key allowed since it started, none of them
      past its end; and the stretch just before it let in no more than one quota. */
  ghost predicate WindowHolds(p: Policy, calls: seq<Call>, ip: Ip, s: IpState) {
    && |s.pubkeys| <= p.maxNewPubkeysPerIp
    && Allowed(p, calls, ip, s.windowStartAt, U64_LIMIT) <= s.pubkeys
    && Allowed(p, calls, ip, s.windowStartAt + p.windowSecs, U64_LIMIT) == {}
    && |Allowed(p, calls, ip, s.windowStartAt - p.windowSecs, s.windowStartAt - 1)| <= p.maxNewPubkeysPerIp
  }

  ghost predicate NeverAllowed(p: Policy, calls: seq<Call>, ip: Ip) {
    forall from, to :: Allowed(p, calls, ip, from, to) == {}
  }

  ghost predicate Holds(p: Policy, calls: seq<Call>, ip: Ip, t: Table, now: int) {
    if ip in t then t[ip].windowStartAt <= now && WindowHolds(p, calls, ip, t[ip]) else NeverAllowed(p, calls, ip)
  }

  /** Rolling the window keeps what it stands for, and leaves `now` inside it. */
  lemma RollHolds(p: Policy, calls: seq<Call>, ip: Ip, s: IpState, now: u64)
    requires p.windowSecs > 0 && WindowHolds(p, calls, ip, s) && s.windowStartAt <= now
    ensures WindowHolds(p, calls, ip, Rolled(p, s, now))
    ensures Rolled(p, s, now).windowStartAt <= now < Rolled(p, s, now).windowStartAt + p.windowSecs
  {
    hide Allowed;
    if Age(s, now) >= p.windowSecs {
      var end := s.windowStartAt + p.windowSecs;
      AllowedWithin(p, calls, ip, now, U64_LIMIT, end, U64_LIMIT);
      AllowedWithin(p, calls, ip, now + p.windowSecs, U64_LIMIT, end, U64_LIMIT);
      AllowedWithin(p, calls, ip, now - p.windowSecs, now - 1, s.windowStartAt, U64_LIMIT);
      SubsetSize(Allowed(p, calls, ip, now - p.windowSecs, now - 1), s.pubkeys);
    }
  }

  lemma FoundHolds(p: Policy, calls: seq<Call>, ip: Ip, t: Table, seen: int, now: u64)
    requires Holds(p, calls, ip, t, seen) && seen <= now
    ensures WindowHolds(p, calls, ip, Entry(t, ip, now)) && Entry(t, ip, now).windowStartAt <= now
  {
    hide Allowed;
  }

  lemma StepHolds(p: Policy, calls: seq<Call>, c: Call, seen: int)
    requires p.windowSecs > 0 && seen <= c.now
    requires Holds(p, calls, c.ip, Run(p, calls), seen)
    ensures Holds(p, calls + [c], c.ip, Run(p, calls + [c]), c.now)
  {
    hide WindowHolds, Rolled;
    var t := Run(p, calls);
    FoundHolds(p, calls, c.ip, t, seen, c.now);
    RollHolds(p, calls, c.ip, Entry(t, c.ip, c.now), c.now);
    var r := Rolled(p, Entry(t, c.ip, c.now), c.now);
    var all := calls + [c];
    assert all[..|all| - 1] == calls;
    AddHolds(p, calls, c, r, Step(p, t, c).0[c.ip]);
  }

  lemma AllowedOn(p: Policy, calls: seq<Call>, c: Call, ip: Ip, from: int, to: int)
    ensures Allowed(p, calls + [c], ip, from, to)
         == Allowed(p, calls, ip, from, to)
            + if c.ip == ip && from <= c.now <= to && Step(p, Run(p, calls), c).1.Allow? then {c.peer} else {}
  {
    hide Step;
    var all := calls + [c];
    assert all[..|all| - 1] == calls;
  }

  lemma RunOn(p: Policy, calls: seq<Call>, c: Call)
    ensures Run(p, calls + [c]) == Step(p, Run(p, calls), c).0
  {
    hide Step;
    var all := calls + [c];
    assert all[..|all| - 1] == calls;
  }

  /** The window after the call: one key more, if it was let in. */
  lemma AddHolds(p: Policy, calls: seq<Call>, c: Call, r: IpState, s: IpState)
    requires WindowHolds(p, calls, c.ip, r) && r.windowStartAt <= c.now < r.windowStartAt + p.windowSecs
    requires r == Rolled(p, Entry(Run(p, calls), c.ip, c.now), c.now)
    requires s == Step(p, Run(p, calls), c).0[c.ip]
    ensures WindowHolds(p, calls + [c], c.ip, s) && s.windowStartAt <= c.now
    ensures c.ip in Run(p, calls + [c]) && Run(p, calls + [c])[c.ip] == s
  {
    hide Rolled, Allowed, Run;
    RunOn(p, calls, c);
    var start := r.windowStartAt;
    AllowedOn(p, calls, c, c.ip, start, U64_LIMIT);
    AllowedOn(p, calls, c, c.ip, start + p.windowSecs, U64_LIMIT);
    AllowedOn(p, calls, c, c.ip, start - p.windowSecs, start - 1);
  }

  lemma OthersHold(p: Policy, calls: seq<Call>, c: Call, ip: Ip, seen: int)
    requires c.ip != ip && Holds(p, calls, ip, Run(p, calls), seen) && seen <= c.now
    ensures Holds(p, calls + [c], ip, Run(p, calls + [c]), c.now)
  {
    hide Allowed, Run;
    RunOn(p, calls, c);
    assert forall from, to :: Allowed(p, calls + [c], ip, from, to) == Allowed(p, calls, ip, from, to) by {
      forall from, to ensures Allowed(p, calls + [c], ip, from, to) == Allowed(p, calls, ip, from, to) {
        AllowedOn(p, calls, c, ip, from, to);
      }
    }
  }

  function Last(calls: seq<Call>): int {
    if calls == [] then 0 else calls[|calls| - 1].now
  }

  lemma {:induction false} RunHolds(p: Policy, calls: seq<Call>, ip: Ip)
    requires p.windowSecs > 0 && Timely(calls)
    ensures Holds(p, calls, ip, Run(p, calls), Last(calls))
  {
    hide WindowHolds;
    if calls != [] {
      var before := calls[..|calls| - 1];
      var c := calls[|calls| - 1];
      assert before + [c] == calls;
      RunHolds(p, before, ip);
      if c.ip == ip {
        StepHolds(p, before, c, Last(before));
      } else {
        OthersHold(p, before, c, ip, Last(before));
      }
    }
  }

  ghost predicate WithinTwoQuotas(p: Policy, calls: seq<Call>, ip: Ip, from: int) {
    |Allowed(p, calls, ip, from, from + p.windowSecs)| <= 2 * p.maxNewPubkeysPerIp
  }

  /** Any stretch of one window's length lets in at most two quotas of keys. */
  lemma {:induction false} TwoQuotas(p: Policy, calls: seq<Call>, ip: Ip, from: int)
    requires p.windowSecs > 0 && Timely(calls)
    ensures WithinTwoQuotas(p, calls, ip, from)
  {
    hide Run, Step;
    var to := from + p.windowSecs;
    if calls != [] {
      var before := calls[..|calls| - 1];
      var c := calls[|calls| - 1];
      TwoQuotas(p, before, ip, from);
      if c.ip == ip && from <= c.now <= to {
        RunHolds(p, calls, ip);
        LastCallKnown(p, calls);
        LatestStretch(p, calls, ip, Run(p, calls)[ip], from);
      }
    }
  }

  lemma LastCallKnown(p: Policy, calls: seq<Call>)
    requires calls != []
    ensures calls[|calls| - 1].ip in Run(p, calls)
  {
  }

  /** The stretch meets only the current window and the one before. */
  lemma LatestStretch(p: Policy, calls: seq<Call>, ip: Ip, s: IpState, from: int)
    requires WindowHolds(p, calls, ip, s) && s.windowStartAt <= from + p.windowSecs
    ensures |Allowed(p, calls, ip, from, from + p.windowSecs)| <= 2 * p.maxNewPubkeysPerIp
  {
    hide Allowed;
    var to, start := from + p.windowSecs, s.windowStartAt;
    var early, late := Allowed(p, calls, ip, from, start - 1), Allowed(p, calls, ip, start, to);
    AllowedSplits(p, calls, ip, from, start, to);
    AllowedWithin(p, calls, ip, from, start - 1, start - p.windowSecs, start - 1);
    SubsetSize(early, Allowed(p, calls, ip, start - p.windowSecs, start - 1));
    LateWithin(p, calls, ip, start, to);
    SubsetSize(late, s.pubkeys);
    SubsetSize(Allowed(p, calls, ip, from, to), early + late);
  }

  /** Clock readings are below the limit. */
  lemma {:induction false} LateWithin(p: Policy, calls: seq<Call>, ip: Ip, from: int, to: int)
    ensures Allowed(p, calls, ip, from, to) <= Allowed(p, calls, ip, from, U64_LIMIT)
  {
    hide Step;
    if calls != [] {
      LateWithin(p, calls[..|calls| - 1], ip, from, to);
    }
  }

  // ---------------------------------------------------------------------
  // The one policy that breaks the promise: windows of no length
  // ---------------------------------------------------------------------

  /** Different keys for different numbers. */
  function Key(i: nat): PublicKey
    requires i < 4 * U64_LIMIT
  {
    Pow256Values();
    ToBigEndian(i / 4, 8) + [i % 4] + Zeros(23)
  }

  lemma KeysDiffer(i: nat, j: nat)
    requires i < 4 * U64_LIMIT && j < 4 * U64_LIMIT && Key(i) == Key(j)
    ensures i == j
  {
    var a, b := Key(i), Key(j);
    Pow256Values();
    assert a[..8] == ToBigEndian(i / 4, 8) && b[..8] == ToBigEndian(j / 4, 8);
    assert a[8] == i % 4 && b[8] == j % 4;
    BigEndianRoundTrip(i / 4, 8);
    BigEndianRoundTrip(j / 4, 8);
  }

  /** `n` fresh keys from one source in one second. */
  function Flood(n: nat): seq<Call>
    requires n < 4 * U64_LIMIT
  {
    if n == 0 then [] else Flood(n - 1) + [Call(Key(n - 1), 0, 0)]
  }

  lemma NoWindowDecides(p: Policy, t: Table, c: Call)
    requires p.windowSecs == 0
    ensures Step(p, t, c).1.Allow? <==> p.maxNewPubkeysPerIp > 0
  {
  }

  lemma {:induction false} FloodPasses(p: Policy, n: nat)
    requires p.windowSecs == 0 && p.maxNewPubkeysPerIp > 0 && n < 4 * U64_LIMIT
    ensures |Allowed(p, Flood(n), 0, 0, 0)| == n
    ensures forall k :: k in Allowed(p, Flood(n), 0, 0, 0) ==> exists i: nat :: i < n && k == Key(i)
    ensures forall c :: c in Flood(n) ==> c.now == 0
  {
    hide Step, Run, Key;
    if n > 0 {
      FloodPasses(p, n - 1);
      var c := Call(Key(n - 1), 0, 0);
      AllowedOn(p, Flood(n - 1), c, 0, 0, 0);
      NoWindowDecides(p, Run(p, Flood(n - 1)), c);
      assert Flood(n) == Flood(n - 1) + [c];
      hide Allowed, Flood;
      var earlier := Allowed(p, Flood(n - 1), 0, 0, 0);
      if Key(n - 1) in earlier {
        var i: nat :| i < n - 1 && Key(n - 1) == Key(i);
        KeysDiffer(n - 1, i);
        assert false;
      }
    }
  }

  lemma {:induction false} NoQuotaLetsNoneIn(p: Policy, calls: seq<Call>, ip: Ip, from: int, to: int)
    requires p.windowSecs == 0 && p.maxNewPubkeysPerIp == 0
    ensures Allowed(p, calls, ip, from, to) == {}
  {
    hide Step, Run;
    if calls != [] {
      NoQuotaLetsNoneIn(p, calls[..|calls| - 1], ip, from, to);
      NoWindowDecides(p, Run(p, calls[..|calls| - 1]), calls[|calls| - 1]);
    }
  }

  /** Every stretch of one window's length lets in at most two quotas, over every run of every
      source, exactly when windows have a length or nothing is ever let in. */
  lemma TwoQuotasExactly(p: Policy)
    ensures (forall calls, ip, from :: Timely(calls) ==> WithinTwoQuotas(p, calls, ip, from))
            <==> p.windowSecs > 0 || p.maxNewPubkeysPerIp == 0
  {
    hide Allowed, Flood;
    if p.windowSecs > 0 || p.maxNewPubkeysPerIp == 0 {
      forall calls, ip, from | Timely(calls)
        ensures WithinTwoQuotas(p, calls, ip, from)
      {
        if p.windowSecs > 0 {
          TwoQuotas(p, calls, ip, from);
        } else {
          NoQuotaLetsNoneIn(p, calls, ip, from, from);
        }
      }
    } else {
      var n := 2 * p.maxNewPubkeysPerIp + 1;
      FloodPasses(p, n);
      assert Timely(Flood(n)) && !WithinTwoQuotas(p, Flood(n), 0, 0);
    }
  }

  /** With the shipped policy: 32 keys of one source in any hour. */
  lemma ShippedQuota(calls: seq<Call>, ip: Ip, from: int)
    requires Timely(calls)
    ensures |Allowed(DEFAULT_POLICY, calls, ip, from, from + 3600)| <= 32
  {
    hide Allowed;
    TwoQuotas(DEFAULT_POLICY, calls, ip, from);
  }

  // ---------------------------------------------------------------------
  // The decision, from the history alone
  // ---------------------------------------------------------------------

  /** The call that opened the window in force: the first of a source, or the first a whole window
      or more after the one that opened the last. A clock that went back opens none, unless windows
      have no length. */
  function Opened(p: Policy, calls: seq<Call>, ip: Ip): (i: int)
    ensures -1 <= i < |calls|
  {
    if calls == [] then -1
    else
      var n := |calls| - 1;
      var i := Opened(p, calls[..n], ip);
      if calls[n].ip == ip && (i == -1 || p.windowSecs == 0 || calls[n].now - calls[i].now >= p.windowSecs) then n else i
  }

  /** The distinct keys let in by the calls of `ip` from the one at `from` on. */
  function LetIn(p: Policy, calls: seq<Call>, ip: Ip, from: int): set<PublicKey> {
    if calls == [] || |calls| <= from then {}
    else
      var n := |calls| - 1;
      LetIn(p, calls[..n], ip, from)
      + if calls[n].ip == ip && Step(p, Run(p, calls[..n]), calls[n]).1.Allow? then {calls[n].peer} else {}
  }

  function TurnedAway(p: Policy, calls: seq<Call>, ip: Ip): nat {
    if calls == [] then 0
    else
      var n := |calls| - 1;
      TurnedAway(p, calls[..n], ip)
      + if calls[n].ip == ip && Step(p, Run(p, calls[..n]), calls[n]).1.OverQuota? then 1 else 0
  }

  /** The state of a source is its window's opening, whom it let in since, and how many it ever
      turned away. */
  ghost predicate Told(p: Policy, calls: seq<Call>, ip: Ip, t: Table) {
    var i := Opened(p, calls, ip);
    if ip in t then
      && i >= 0
      && t[ip].windowStartAt == calls[i].now
      && t[ip].pubkeys == LetIn(p, calls, ip, i)
      && t[ip].overQuotaCount == Saturated(TurnedAway(p, calls, ip))
    else i == -1 && TurnedAway(p, calls, ip) == 0
  }

  function Saturated(n: nat): u32 {
    if n <= 0xFFFF_FFFF then n else 0xFFFF_FFFF
  }

  lemma HistoryOn(p: Policy, calls: seq<Call>, c: Call, ip: Ip, from: int)
    requires from <= |calls|
    ensures var i := Opened(p, calls, ip);
            var d := Step(p, Run(p, calls), c).1;
            && Opened(p, calls + [c], ip)
               == (if c.ip == ip && (i == -1 || p.windowSecs == 0 || c.now - calls[i].now >= p.windowSecs) then |calls| else i)
            && LetIn(p, calls + [c], ip, from)
               == LetIn(p, calls, ip, from) + (if c.ip == ip && d.Allow? then {c.peer} else {})
            && TurnedAway(p, calls + [c], ip)
               == TurnedAway(p, calls, ip) + if c.ip == ip && d.OverQuota? then 1 else 0
  {
    hide Step;
    assert (calls + [c])[..|calls + [c]| - 1] == calls;
  }

  lemma NoneYet(p: Policy, calls: seq<Call>, ip: Ip)
    ensures LetIn(p, calls, ip, |calls|) == {}
  {
  }

  /** Rolled to the call's time, the state tells of the window the call falls in. */
  lemma RolledTells(p: Policy, calls: seq<Call>, c: Call)
    requires Told(p, calls, c.ip, Run(p, calls))
    ensures var r := Rolled(p, Entry(Run(p, calls), c.ip, c.now), c.now);
            var i := Opened(p, calls + [c], c.ip);
            && i >= 0 && r.windowStartAt == (calls + [c])[i].now
            && r.pubkeys == LetIn(p, calls, c.ip, i)
            && r.overQuotaCount == Saturated(TurnedAway(p, calls, c.ip))
  {
    var all, i := calls + [c], Opened(p, calls, c.ip);
    HistoryOn(p, calls, c, c.ip, 0);
    NoneYet(p, calls, c.ip);
    assert i >= 0 ==> all[i] == calls[i];
    hide Opened, LetIn, TurnedAway, Run;
  }

  lemma ToldStep(p: Policy, calls: seq<Call>, c: Call)
    requires Told(p, calls, c.ip, Run(p, calls))
    ensures Told(p, calls + [c], c.ip, Step(p, Run(p, calls), c).0)
  {
    RolledTells(p, calls, c);
    ObservedAdds(p, Entry(Run(p, calls), c.ip, c.now), c.peer, c.now);
    hide Opened, LetIn, TurnedAway, Run, Rolled, Entry, Observed;
    HistoryOn(p, calls, c, c.ip, Opened(p, calls + [c], c.ip));
  }

  lemma ObservedAdds(p: Policy, s: IpState, peer: PublicKey, now: u64)
    ensures var (after, d) := Observed(p, s, peer, now);
            var r := Rolled(p, s, now);
            && after.windowStartAt == r.windowStartAt
            && after.pubkeys == (if d.Allow? then r.pubkeys + {peer} else r.pubkeys)
            && after.overQuotaCount == if d.Allow? then r.overQuotaCount else SaturatingIncrement(r.overQuotaCount)
  {
    hide Rolled;
  }

  lemma ToldDecides(p: Policy, calls: seq<Call>, c: Call)
    requires Told(p, calls, c.ip, Run(p, calls))
    ensures var i := Opened(p, calls + [c], c.ip);
            var known := LetIn(p, calls, c.ip, i);
            && i >= 0
            && (Step(p, Run(p, calls), c).1.Allow? <==> c.peer in known || |known| < p.maxNewPubkeysPerIp)
  {
    RolledTells(p, calls, c);
    hide Opened, LetIn, TurnedAway, Run, Rolled, Entry;
  }

  lemma ToldOfOthers(p: Policy, calls: seq<Call>, c: Call, ip: Ip)
    requires c.ip != ip && Told(p, calls, ip, Run(p, calls))
    ensures Told(p, calls + [c], ip, Step(p, Run(p, calls), c).0)
  {
    var i := Opened(p, calls, ip);
    HistoryOn(p, calls, c, ip, i);
    hide Opened, LetIn, TurnedAway, Run, Observed;
  }

  lemma {:induction false} RunTold(p: Policy, calls: seq<Call>, ip: Ip)
    ensures Told(p, calls, ip, Run(p, calls))
  {
    hide Told, Step;
    if calls == [] {
      NothingTold(p, ip);
    } else {
      var before, c := calls[..|calls| - 1], calls[|calls| - 1];
      assert before + [c] == calls;
      RunTold(p, before, ip);
      if c.ip == ip {
        ToldStep(p, before, c);
      } else {
        ToldOfOthers(p, before, c, ip);
      }
    }
  }

  lemma NothingTold(p: Policy, ip: Ip)
    ensures Told(p, [], ip, map[])
  {
  }

  /** After any run over any sources, a key is let in exactly when it was let in since the call
      that opened its source's window, or fewer keys than the quota were. */
  lemma DecidedExactly(p: Policy, calls: seq<Call>, c: Call)
    ensures var i := Opened(p, calls + [c], c.ip);
            var known := LetIn(p, calls, c.ip, i);
            && i >= 0
            && (Step(p, Run(p, calls), c).1.Allow? <==> c.peer in known || |known| < p.maxNewPubkeysPerIp)
  {
    hide Told, Step, Opened, LetIn;
    RunTold(p, calls, c.ip);
    ToldDecides(p, calls, c);
  }

  /** With the shipped policy: 16 keys, in windows of an hour or more. */
  lemma ShippedDecision(calls: seq<Call>, c: Call)
    ensures var i := Opened(DEFAULT_POLICY, calls, c.ip);
            var start := if i == -1 || c.now - calls[i].now >= 3600 then |calls| else i;
            var known := LetIn(DEFAULT_POLICY, calls, c.ip, start);
            Step(DEFAULT_POLICY, Run(DEFAULT_POLICY, calls), c).1.Allow? <==> c.peer in known || |known| < 16
  {
    DecidedExactly(DEFAULT_POLICY, calls, c);
    HistoryOn(DEFAULT_POLICY, calls, c, c.ip, 0);
    hide Step, Opened, LetIn, Run;
  }
}
