/** The store-and-forward mailbox (crates/sidevers-net/src/forward.rs) and its redelivery on
    reconnect (crates/sidevers-net/src/node.rs). */
module Mailboxes {
  import opened Bytes
  import opened Keys

  const DEFAULT_TTL_SECS := 7 * 24 * 60 * 60

  datatype Held = Held(envelope: seq<byte>, storedAt: nat, expiresAt: nat)

  type Queues = map<PublicKey, seq<Held>>

  function Queue(q: Queues, recipient: PublicKey): seq<Held> {
    if recipient in q then q[recipient] else []
  }

  /** A longer life than the default is cut to it. */
  function Hold(envelope: seq<byte>, ttlSecs: nat, now: nat): Held {
    Held(envelope, now, now + if ttlSecs < DEFAULT_TTL_SECS then ttlSecs else DEFAULT_TTL_SECS)
  }

  function Unexpired(ms: seq<Held>, now: nat): seq<Held> {
    if ms == [] then []
    else Unexpired(ms[..|ms| - 1], now) + if ms[|ms| - 1].expiresAt > now then [ms[|ms| - 1]] else []
  }

  /** Queues that empty are forgotten. */
  function Swept(q: Queues, now: nat): Queues {
    map r | r in q && Unexpired(q[r], now) != [] :: Unexpired(q[r], now)
  }

  // ---------------------------------------------------------------------
  // Some of a list, in order
  // ---------------------------------------------------------------------

  /** The indices in `keep`, ascending. */
  ghost predicate Lists(at: seq<nat>, keep: set<nat>) {
    && (forall j, k :: 0 <= j < k < |at| ==> at[j] < at[k])
    && (forall i :: i in keep <==> i in at)
  }

  /** `picked` is what `all` holds at the indices in `keep`, and nothing else, in the order of `all`. */
  ghost predicate Picks<T>(all: seq<T>, keep: set<nat>, picked: seq<T>) {
    exists at: seq<nat> ::
      && Lists(at, keep) && |at| == |picked|
      && forall j :: 0 <= j < |at| ==> at[j] < |all| && picked[j] == all[at[j]]
  }

  lemma ListsNone()
    ensures Lists([], {})
  {
  }

  lemma ListsOn(at: seq<nat>, keep: set<nat>, n: nat)
    requires Lists(at, keep) && forall i :: i in keep ==> i < n
    ensures Lists(at + [n], keep + {n})
  {
    assert forall j :: 0 <= j < |at| ==> at[j] in keep;
  }

  lemma PicksOn<T>(all: seq<T>, keep: set<nat>, picked: seq<T>, x: T)
    requires Picks(all, keep, picked)
    ensures Picks(all + [x], keep, picked)
    ensures Picks(all + [x], keep + {|all|}, picked + [x])
  {
    var at: seq<nat> :| Lists(at, keep) && |at| == |picked|
                        && forall j :: 0 <= j < |at| ==> at[j] < |all| && picked[j] == all[at[j]];
    assert forall i :: i in keep ==> i in at && i < |all|;
    ListsOn(at, keep, |all|);
    var more := at + [|all|];
    assert forall j :: 0 <= j < |more| ==> more[j] < |all + [x]| && (picked + [x])[j] == (all + [x])[more[j]];
  }

  lemma PicksNone<T>(all: seq<T>)
    ensures Picks(all, {}, [])
  {
    var at: seq<nat> := [];
    assert Lists(at, {});
  }

  lemma {:induction false} ListsCount(at: seq<nat>, keep: set<nat>)
    requires Lists(at, keep)
    ensures |at| == |keep|
  {
    if at == [] {
      assert keep == {};
    } else {
      var n := |at| - 1;
      assert forall j :: 0 <= j < n ==> at[..n][j] == at[j];
      assert at == at[..n] + [at[n]];
      assert Lists(at[..n], keep - {at[n]});
      ListsCount(at[..n], keep - {at[n]});
    }
  }

  /** As many are picked as are kept. */
  lemma PicksCount<T>(all: seq<T>, keep: set<nat>, picked: seq<T>)
    requires Picks(all, keep, picked)
    ensures |picked| == |keep|
  {
    var at: seq<nat> :| Lists(at, keep) && |at| == |picked|
                        && forall j :: 0 <= j < |at| ==> at[j] < |all| && picked[j] == all[at[j]];
    ListsCount(at, keep);
  }

  lemma {:induction false} UnexpiredExactly(ms: seq<Held>, now: nat)
    ensures Picks(ms, (set i | 0 <= i < |ms| && ms[i].expiresAt > now), Unexpired(ms, now))
  {
    hide Picks;
    var live := set i | 0 <= i < |ms| && ms[i].expiresAt > now;
    if ms == [] {
      PicksNone(ms);
      assert live == {};
    } else {
      var n := |ms| - 1;
      var before := set i | 0 <= i < n && ms[..n][i].expiresAt > now;
      UnexpiredExactly(ms[..n], now);
      PicksOn(ms[..n], before, Unexpired(ms[..n], now), ms[n]);
      assert ms == ms[..n] + [ms[n]];
      if ms[n].expiresAt > now {
        assert live == before + {n};
      } else {
        assert live == before && Unexpired(ms[..n], now) + [] == Unexpired(ms[..n], now);
      }
    }
  }

  lemma {:induction false} UnexpiredNoneExactly(ms: seq<Held>, now: nat)
    ensures Unexpired(ms, now) != [] <==> exists i :: 0 <= i < |ms| && ms[i].expiresAt > now
  {
    if ms != [] {
      var n := |ms| - 1;
      UnexpiredNoneExactly(ms[..n], now);
      assert forall i :: 0 <= i < n ==> ms[..n][i] == ms[i];
    }
  }

  class Mailbox {
    var queues: Queues

    constructor ()
      ensures queues == map[]
    {
      queues := map[];
    }

    method Store(recipient: PublicKey, envelope: seq<byte>, ttlSecs: nat, now: nat)
      modifies this
      ensures queues == old(queues)[recipient := Queue(old(queues), recipient) + [Hold(envelope, ttlSecs, now)]]
      ensures Hold(envelope, ttlSecs, now) == Held(envelope, now, now + if ttlSecs <= 604_800 then ttlSecs else 604_800)
    {
      var ttl := if ttlSecs < DEFAULT_TTL_SECS then ttlSecs else DEFAULT_TTL_SECS;
      var held := Held(envelope, now, now + ttl);
      if recipient !in queues {
        queues := queues[recipient := []];
      }
      queues := queues[recipient := queues[recipient] + [held]];
    }

    method Drain(recipient: PublicKey, now: nat) returns (held: seq<Held>)
      modifies this
      ensures queues == old(queues) - {recipient}
      ensures held == Unexpired(Queue(old(queues), recipient), now)
      ensures recipient !in old(queues) ==> held == []
      ensures recipient in old(queues) ==>
                var queue := old(queues)[recipient];
                Picks(queue, (set i | 0 <= i < |queue| && queue[i].expiresAt > now), held)
    {
      var queue := if recipient in queues then queues[recipient] else [];
      queues := queues - {recipient};
      held := [];
      for i := 0 to |queue|
        invariant held == Unexpired(queue[..i], now)
      {
        assert queue[..i + 1][..|queue[..i + 1]| - 1] == queue[..i];
        if queue[i].expiresAt > now {
          held := held + [queue[i]];
        }
      }
      assert queue[..|queue|] == queue;
      UnexpiredExactly(queue, now);
    }

    method Sweep(now: nat)
      modifies this
      ensures queues == Swept(old(queues), now)
      ensures forall r :: r in queues <==>
                r in old(queues) && exists i :: 0 <= i < |old(queues)[r]| && old(queues)[r][i].expiresAt > now
      ensures forall r | r in queues ::
                var queue := old(queues)[r];
                Picks(queue, (set i | 0 <= i < |queue| && queue[i].expiresAt > now), queues[r])
    {
      var rest := queues.Keys;
      var kept: Queues := map[];
      while rest != {}
        invariant rest <= queues.Keys && queues == old(queues)
        invariant forall r :: r in kept <==> r in queues && r !in rest && Unexpired(queues[r], now) != []
        invariant forall r :: r in kept ==> kept[r] == Unexpired(queues[r], now)
        decreases rest
      {
        var r :| r in rest;
        rest := rest - {r};
        var queue := Unexpired(queues[r], now);
        if queue != [] {
          kept := kept[r := queue];
        }
      }
      queues := kept;
      forall r | r in old(queues)
        ensures r in queues <==> exists i :: 0 <= i < |old(queues)[r]| && old(queues)[r][i].expiresAt > now
        ensures var queue := old(queues)[r];
                r in queues ==> Picks(queue, (set i | 0 <= i < |queue| && queue[i].expiresAt > now), queues[r])
      {
        UnexpiredExactly(old(queues)[r], now);
        UnexpiredNoneExactly(old(queues)[r], now);
      }
    }

    /** What other tasks do to the mailbox, one lock at a time. */
    method PerformAll(ops: seq<Op>)
      modifies this
      ensures queues == Steps(old(queues), ops)
    {
      for i := 0 to |ops|
        invariant queues == Steps(old(queues), ops[..i])
      {
        assert ops[..i + 1][..i] == ops[..i];
        match ops[i]
        case Store(r, envelope, ttl, now) => Store(r, envelope, ttl, now);
        case Drain(r, now) => var _ := Drain(r, now);
        case Sweep(now) => Sweep(now);
      }
      assert ops[..|ops|] == ops;
    }
  }

  // ---------------------------------------------------------------------
  // Runs
  // ---------------------------------------------------------------------

  datatype Op =
    | Store(recipient: PublicKey, envelope: seq<byte>, ttlSecs: nat, now: nat)
    | Drain(recipient: PublicKey, now: nat)
    | Sweep(now: nat)

  function Steps(q: Queues, ops: seq<Op>): Queues {
    if ops == [] then q else After(Steps(q, ops[..|ops| - 1]), ops[|ops| - 1])
  }

  function After(q: Queues, op: Op): Queues {
    match op
    case Store(r, envelope, ttl, now) => q[r := Queue(q, r) + [Hold(envelope, ttl, now)]]
    case Drain(r, _) => q - {r}
    case Sweep(now) => Swept(q, now)
  }

  function Run(ops: seq<Op>): Queues {
    Steps(map[], ops)
  }

  function Clock(ops: seq<Op>): nat {
    if ops == [] then 0 else ops[|ops| - 1].now
  }

  /** The clock never goes back. */
  predicate Timely(ops: seq<Op>) {
    ops == [] || (Timely(ops[..|ops| - 1]) && Clock(ops[..|ops| - 1]) <= Clock(ops))
  }

  /** The reference: everything stored for `r` since it was last drained, in store order. */
  function Pending(ops: seq<Op>, r: PublicKey): seq<Held> {
    if ops == [] then []
    else
      var before := Pending(ops[..|ops| - 1], r);
      match ops[|ops| - 1]
      case Store(to, envelope, ttl, now) => if to == r then before + [Hold(envelope, ttl, now)] else before
      case Drain(of, _) => if of == r then [] else before
      case Sweep(_) => before
  }

  function WithoutSweeps(ops: seq<Op>): seq<Op> {
    if ops == [] then []
    else WithoutSweeps(ops[..|ops| - 1]) + if ops[|ops| - 1].Sweep? then [] else [ops[|ops| - 1]]
  }

  // ---------------------------------------------------------------------
  // What a drain returns
  // ---------------------------------------------------------------------

  lemma UnexpiredOn(ms: seq<Held>, m: Held, now: nat)
    ensures Unexpired(ms + [m], now) == Unexpired(ms, now) + if m.expiresAt > now then [m] else []
  {
    assert (ms + [m])[..|ms + [m]| - 1] == ms;
  }

  lemma {:induction false} UnexpiredLater(ms: seq<Held>, now: nat, later: nat)
    requires now <= later
    ensures Unexpired(Unexpired(ms, now), later) == Unexpired(ms, later)
  {
    if ms != [] {
      var before, m := ms[..|ms| - 1], ms[|ms| - 1];
      UnexpiredLater(before, now, later);
      if m.expiresAt > now {
        UnexpiredOn(Unexpired(before, now), m, later);
      } else {
        assert Unexpired(ms, now) == Unexpired(before, now);
      }
    }
  }

  /** At any later time the queue and the reference hold the same live messages. */
  lemma {:induction false} QueueIsPending(ops: seq<Op>, r: PublicKey, now: nat)
    requires Timely(ops) && Clock(ops) <= now
    ensures Unexpired(Queue(Run(ops), r), now) == Unexpired(Pending(ops, r), now)
  {
    hide Unexpired;
    if ops != [] {
      var before, op := ops[..|ops| - 1], ops[|ops| - 1];
      QueueIsPending(before, r, now);
      var q := Run(before);
      match op
      case Store(to, envelope, ttl, at) =>
        if to == r {
          UnexpiredOn(Queue(q, r), Hold(envelope, ttl, at), now);
          UnexpiredOn(Pending(before, r), Hold(envelope, ttl, at), now);
        }
      case Drain(of, _) =>
      case Sweep(at) =>
        SweptQueue(q, r, at);
        UnexpiredLater(Queue(q, r), at, now);
    }
  }

  lemma SweptQueue(q: Queues, r: PublicKey, now: nat)
    ensures Queue(Swept(q, now), r) == Unexpired(Queue(q, r), now)
  {
  }

  lemma {:induction false} SweepsLeavePending(ops: seq<Op>, r: PublicKey)
    ensures Pending(WithoutSweeps(ops), r) == Pending(ops, r)
  {
    if ops != [] {
      var before, op := ops[..|ops| - 1], ops[|ops| - 1];
      SweepsLeavePending(before, r);
      if !op.Sweep? {
        var rest := WithoutSweeps(before);
        assert (rest + [op])[..|rest + [op]| - 1] == rest;
      } else {
        assert WithoutSweeps(ops) == WithoutSweeps(before);
      }
    }
  }

  lemma {:induction false} WithoutSweepsTimely(ops: seq<Op>)
    requires Timely(ops)
    ensures Timely(WithoutSweeps(ops)) && Clock(WithoutSweeps(ops)) <= Clock(ops)
  {
    if ops != [] {
      var before, op := ops[..|ops| - 1], ops[|ops| - 1];
      WithoutSweepsTimely(before);
      if !op.Sweep? {
        var rest := WithoutSweeps(before);
        assert (rest + [op])[..|rest + [op]| - 1] == rest;
      } else {
        assert WithoutSweeps(ops) == WithoutSweeps(before);
      }
    }
  }

  /** After any run, a drain returns exactly the live messages stored since the recipient's last
      drain, in store order; and sweeps anywhere in the run make no difference to it. */
  lemma DrainReturnsPending(ops: seq<Op>, r: PublicKey, now: nat)
    requires Timely(ops) && Clock(ops) <= now
    ensures Unexpired(Queue(Run(ops), r), now) == Unexpired(Pending(ops, r), now)
    ensures Unexpired(Queue(Run(WithoutSweeps(ops)), r), now) == Unexpired(Queue(Run(ops), r), now)
  {
    hide Unexpired, Run;
    QueueIsPending(ops, r, now);
    WithoutSweepsTimely(ops);
    QueueIsPending(WithoutSweeps(ops), r, now);
    SweepsLeavePending(ops, r);
  }

  // ---------------------------------------------------------------------
  // Redelivery on reconnect
  // ---------------------------------------------------------------------

  /** How one attempt ends; a failed one is stored again at the clock the store then reads. */
  datatype Fate = Sent | Failed(at: nat)

  datatype Outcome = Delivered | Expired | Restored(held: Held)

  function OutcomeOf(m: Held, now: nat, fate: Fate): Outcome {
    if m.expiresAt <= now then Expired
    else
      match fate
      case Sent => Delivered
      case Failed(at) => Restored(Hold(m.envelope, m.expiresAt - now, at))
  }

  /** The messages with one kind of outcome, in order. */
  function Sendings(ms: seq<Held>, now: nat, fates: nat -> Fate): seq<Held> {
    if ms == [] then []
    else
      var n := |ms| - 1;
      Sendings(ms[..n], now, fates) + if OutcomeOf(ms[n], now, fates(n)).Delivered? then [ms[n]] else []
  }

  /** Dead already when the loop read the clock, whatever would have become of them. */
  function Expiries(ms: seq<Held>, now: nat): seq<Held> {
    if ms == [] then []
    else
      var n := |ms| - 1;
      Expiries(ms[..n], now) + if ms[n].expiresAt <= now then [ms[n]] else []
  }

  function Failures(ms: seq<Held>, now: nat, fates: nat -> Fate): seq<Held> {
    if ms == [] then []
    else
      var n := |ms| - 1;
      Failures(ms[..n], now, fates) + if OutcomeOf(ms[n], now, fates(n)).Restored? then [ms[n]] else []
  }

  /** What the failures put back. */
  function Restores(ms: seq<Held>, now: nat, fates: nat -> Fate): seq<Held> {
    if ms == [] then []
    else
      var n := |ms| - 1;
      var o := OutcomeOf(ms[n], now, fates(n));
      Restores(ms[..n], now, fates) + if o.Restored? then [o.held] else []
  }

  /** The locks taken on the mailbox after the drain: before each message, whatever other tasks
      do, then its store if the attempt fails. */
  function Trace(ms: seq<Held>, peer: PublicKey, now: nat, fates: nat -> Fate, others: nat -> seq<Op>): seq<Op> {
    if ms == [] then []
    else
      var n := |ms| - 1;
      Trace(ms[..n], peer, now, fates, others) + others(n) + StoreOf(ms[n], peer, now, fates(n))
  }

  function StoreOf(m: Held, peer: PublicKey, now: nat, fate: Fate): seq<Op> {
    if OutcomeOf(m, now, fate).Restored? then [Store(peer, m.envelope, m.expiresAt - now, fate.at)] else []
  }

  /** The live messages whose attempt succeeds, those whose attempt fails, and the dead ones. */
  ghost function SentAt(ms: seq<Held>, now: nat, fates: nat -> Fate): set<nat> {
    set i | 0 <= i < |ms| && ms[i].expiresAt > now && fates(i).Sent?
  }

  ghost function FailedAt(ms: seq<Held>, now: nat, fates: nat -> Fate): set<nat> {
    set i | 0 <= i < |ms| && ms[i].expiresAt > now && fates(i).Failed?
  }

  ghost function DeadAt(ms: seq<Held>, now: nat): set<nat> {
    set i | 0 <= i < |ms| && ms[i].expiresAt <= now
  }

  lemma LastTurn(ms: seq<Held>, now: nat, fates: nat -> Fate)
    requires ms != []
    ensures var n := |ms| - 1;
            var dead := ms[n].expiresAt <= now;
            && SentAt(ms, now, fates) == SentAt(ms[..n], now, fates) + (if !dead && fates(n).Sent? then {n} else {})
            && FailedAt(ms, now, fates) == FailedAt(ms[..n], now, fates) + (if !dead && fates(n).Failed? then {n} else {})
            && DeadAt(ms, now) == DeadAt(ms[..n], now) + (if dead then {n} else {})
  {
  }

  lemma PicksNext<T>(all: seq<T>, keep: set<nat>, picked: seq<T>, kept: bool)
    requires all != [] && Picks(all[..|all| - 1], keep, picked)
    ensures var n := |all| - 1;
            Picks(all, keep + (if kept then {n} else {}), picked + (if kept then [all[n]] else []))
  {
    hide Picks;
    var n := |all| - 1;
    PicksOn(all[..n], keep, picked, all[n]);
    assert all == all[..n] + [all[n]] && keep + {} == keep && picked + [] == picked;
  }

  lemma {:induction false} OutcomesPicked(ms: seq<Held>, now: nat, fates: nat -> Fate)
    ensures Picks(ms, SentAt(ms, now, fates), Sendings(ms, now, fates))
    ensures Picks(ms, FailedAt(ms, now, fates), Failures(ms, now, fates))
    ensures Picks(ms, DeadAt(ms, now), Expiries(ms, now))
  {
    hide Picks, SentAt, FailedAt, DeadAt;
    if ms == [] {
      PicksNone(ms);
      NoTurns(now, fates);
    } else {
      var n := |ms| - 1;
      var dead := ms[n].expiresAt <= now;
      OutcomesPicked(ms[..n], now, fates);
      LastTurn(ms, now, fates);
      PicksNext(ms, SentAt(ms[..n], now, fates), Sendings(ms[..n], now, fates), !dead && fates(n).Sent?);
      PicksNext(ms, FailedAt(ms[..n], now, fates), Failures(ms[..n], now, fates), !dead && fates(n).Failed?);
      PicksNext(ms, DeadAt(ms[..n], now), Expiries(ms[..n], now), dead);
    }
  }

  lemma NoTurns(now: nat, fates: nat -> Fate)
    ensures SentAt([], now, fates) == {} && FailedAt([], now, fates) == {} && DeadAt([], now) == {}
  {
  }

  /** Message by message: a live one is sent exactly when its attempt succeeds and is a failure
      exactly when it fails; a dead one is neither. */
  lemma OutcomesExactly(ms: seq<Held>, now: nat, fates: nat -> Fate)
    ensures Picks(ms, (set i | 0 <= i < |ms| && ms[i].expiresAt > now && fates(i).Sent?), Sendings(ms, now, fates))
    ensures Picks(ms, (set i | 0 <= i < |ms| && ms[i].expiresAt > now && fates(i).Failed?), Failures(ms, now, fates))
    ensures Picks(ms, (set i | 0 <= i < |ms| && ms[i].expiresAt <= now), Expiries(ms, now))
  {
    hide Picks, Sendings, Failures, Expiries;
    OutcomesPicked(ms, now, fates);
  }

  /** What a failure puts back: the same envelope, its life counted from the store's clock, for
      what the loop's clock left of it, at most a week. */
  predicate PutBackAs(m: Held, now: nat, at: nat, back: Held) {
    var left := m.expiresAt - now;
    && back.envelope == m.envelope && back.storedAt == at
    && back.expiresAt == at + if left <= 604_800 then left else 604_800
  }

  lemma {:induction false} FailuresPutBack(ms: seq<Held>, now: nat, fates: nat -> Fate) returns (at: seq<nat>)
    ensures Lists(at, FailedAt(ms, now, fates))
    ensures |at| == |Failures(ms, now, fates)| == |Restores(ms, now, fates)| == |Delays(ms, now, fates)|
    ensures forall j :: 0 <= j < |at| ==>
              && at[j] < |ms| && ms[at[j]].expiresAt > now && fates(at[j]).Failed?
              && Failures(ms, now, fates)[j] == ms[at[j]]
              && Delays(ms, now, fates)[j] == fates(at[j]).at - now
              && PutBackAs(ms[at[j]], now, fates(at[j]).at, Restores(ms, now, fates)[j])
  {
    hide Lists, FailedAt;
    at := [];
    NoTurns(now, fates);
    ListsNone();
    if ms != [] {
      var n := |ms| - 1;
      at := FailuresPutBack(ms[..n], now, fates);
      LastTurn(ms, now, fates);
      if ms[n].expiresAt > now && fates(n).Failed? {
        FailedBelow(ms[..n], now, fates);
        ListsOn(at, FailedAt(ms[..n], now, fates), n);
        at := at + [n];
      } else {
        assert FailedAt(ms[..n], now, fates) + {} == FailedAt(ms[..n], now, fates);
      }
    }
  }

  lemma FailedBelow(ms: seq<Held>, now: nat, fates: nat -> Fate)
    ensures forall i :: i in FailedAt(ms, now, fates) ==> i < |ms|
  {
  }

  function Joined<T>(parts: seq<seq<T>>): seq<T> {
    if parts == [] then [] else Joined(parts[..|parts| - 1]) + parts[|parts| - 1]
  }

  lemma {:induction false} JoinedHas<T>(parts: seq<seq<T>>, i: nat, x: T)
    requires i < |parts| && x in parts[i]
    ensures x in Joined(parts)
  {
    if i < |parts| - 1 {
      JoinedHas(parts[..|parts| - 1], i, x);
    }
  }

  /** The locks of a redelivery, turn by turn. */
  ghost function Turns(ms: seq<Held>, peer: PublicKey, now: nat, fates: nat -> Fate, others: nat -> seq<Op>): seq<seq<Op>> {
    seq(|ms|, i requires 0 <= i < |ms| =>
      others(i) + if ms[i].expiresAt > now && fates(i).Failed?
                  then [Store(peer, ms[i].envelope, ms[i].expiresAt - now, fates(i).at)] else [])
  }

  lemma {:induction false} TraceExactly(ms: seq<Held>, peer: PublicKey, now: nat, fates: nat -> Fate, others: nat -> seq<Op>)
    ensures Trace(ms, peer, now, fates, others) == Joined(Turns(ms, peer, now, fates, others))
  {
    if ms != [] {
      hide Joined, Turns, StoreOf;
      var n := |ms| - 1;
      TraceExactly(ms[..n], peer, now, fates, others);
      TurnsLast(ms, peer, now, fates, others);
      JoinedOn(Turns(ms[..n], peer, now, fates, others), others(n) + StoreOf(ms[n], peer, now, fates(n)));
      Concatenated(Trace(ms[..n], peer, now, fates, others), others(n), StoreOf(ms[n], peer, now, fates(n)));
    }
  }

  lemma Concatenated<T>(a: seq<T>, b: seq<T>, c: seq<T>)
    ensures a + b + c == a + (b + c)
  {
  }

  lemma TurnsLast(ms: seq<Held>, peer: PublicKey, now: nat, fates: nat -> Fate, others: nat -> seq<Op>)
    requires ms != []
    ensures var n := |ms| - 1;
            Turns(ms, peer, now, fates, others)
            == Turns(ms[..n], peer, now, fates, others) + [others(n) + StoreOf(ms[n], peer, now, fates(n))]
  {
  }

  lemma JoinedOn<T>(parts: seq<seq<T>>, last: seq<T>)
    ensures Joined(parts + [last]) == Joined(parts) + last
  {
    assert (parts + [last])[..|parts + [last]| - 1] == parts;
  }

  lemma FailureIsStored(ms: seq<Held>, i: nat, peer: PublicKey, now: nat, fates: nat -> Fate, others: nat -> seq<Op>)
    requires i < |ms| && ms[i].expiresAt > now && fates(i).Failed?
    ensures Store(peer, ms[i].envelope, ms[i].expiresAt - now, fates(i).at) in Trace(ms, peer, now, fates, others)
  {
    hide Trace, Joined;
    TraceExactly(ms, peer, now, fates, others);
    JoinedHas(Turns(ms, peer, now, fates, others), i, Store(peer, ms[i].envelope, ms[i].expiresAt - now, fates(i).at));
  }

  /** How many locks other tasks take before each of `turns` messages. */
  function LocksOf(others: nat -> seq<Op>, turns: nat): nat {
    if turns == 0 then 0 else LocksOf(others, turns - 1) + |others(turns - 1)|
  }

  /** Beside what other tasks do, one store for every live message whose attempt fails. */
  lemma {:induction false} StoresCounted(ms: seq<Held>, peer: PublicKey, now: nat, fates: nat -> Fate, others: nat -> seq<Op>)
    ensures |Trace(ms, peer, now, fates, others)|
         == LocksOf(others, |ms|) + |Failures(ms, now, fates)|
  {
    if ms != [] {
      var n := |ms| - 1;
      StoresCounted(ms[..n], peer, now, fates, others);
    }
  }

  /** One message's turn. */
  lemma OneTurn(q: Queues, ms: seq<Held>, i: nat, peer: PublicKey, now: nat, fates: nat -> Fate, others: nat -> seq<Op>)
    requires i < |ms|
    ensures var o := OutcomeOf(ms[i], now, fates(i));
            var meanwhile := Steps(Steps(q, Trace(ms[..i], peer, now, fates, others)), others(i));
            && Sendings(ms[..i + 1], now, fates)
               == Sendings(ms[..i], now, fates) + (if o.Delivered? then [ms[i]] else [])
            && Steps(q, Trace(ms[..i + 1], peer, now, fates, others))
               == if o.Restored? then After(meanwhile, Store(peer, ms[i].envelope, ms[i].expiresAt - now, fates(i).at))
                  else meanwhile
  {
    hide OutcomeOf, After;
    assert ms[..i + 1][..|ms[..i + 1]| - 1] == ms[..i];
    var before := Trace(ms[..i], peer, now, fates, others);
    StepsThen(q, before, others(i));
    OneStore(Steps(q, before + others(i)), ms[i], peer, now, fates(i));
    StepsThen(q, before + others(i), StoreOf(ms[i], peer, now, fates(i)));
  }

  lemma OneStore(q: Queues, m: Held, peer: PublicKey, now: nat, fate: Fate)
    ensures Steps(q, StoreOf(m, peer, now, fate))
         == if OutcomeOf(m, now, fate).Restored? then After(q, Store(peer, m.envelope, m.expiresAt - now, fate.at)) else q
  {
    hide After;
    var store := StoreOf(m, peer, now, fate);
    if store != [] {
      assert store[..0] == [];
    }
  }

  /** Drain, then try each message: the clock is read once for the drain, once for the loop, and
      again by every store. Other tasks use the mailbox between its locks. */
  method Redeliver(box: Mailbox, peer: PublicKey, drainedAt: nat, now: nat, fates: nat -> Fate, others: nat -> seq<Op>)
    returns (delivered: seq<Held>)
    modifies box
    ensures var held := Unexpired(Queue(old(box.queues), peer), drainedAt);
            && delivered == Sendings(held, now, fates)
            && box.queues == Steps(old(box.queues) - {peer}, Trace(held, peer, now, fates, others))
    ensures var held := Unexpired(Queue(old(box.queues), peer), drainedAt);
            var sent := set i | 0 <= i < |held| && held[i].expiresAt > now && fates(i).Sent?;
            var failed := set i | 0 <= i < |held| && held[i].expiresAt > now && fates(i).Failed?;
            var trace := Trace(held, peer, now, fates, others);
            && Picks(held, sent, delivered) && |delivered| == |sent|
            && (forall i :: i in failed ==> Store(peer, held[i].envelope, held[i].expiresAt - now, fates(i).at) in trace)
            && |trace| == LocksOf(others, |held|) + |failed|
            && ((forall i :: 0 <= i < |held| ==> others(i) == []) ==>
                  RestoredAt(held, now, fates, failed, Queue(box.queues, peer)))
  {
    hide Trace, Sendings, Steps, Unexpired, Restores, Picks, Joined, Queue, RestoredAt;
    var held := box.Drain(peer, drainedAt);
    ghost var start := box.queues;
    delivered := [];
    Untouched(start, peer, now, fates, others);
    assert held[..0] == [];
    for i := 0 to |held|
      invariant delivered == Sendings(held[..i], now, fates)
      invariant box.queues == Steps(start, Trace(held[..i], peer, now, fates, others))
    {
      var msg := held[i];
      OneTurn(start, held, i, peer, now, fates, others);
      box.PerformAll(others(i));
      if msg.expiresAt <= now {
        continue;
      }
      match fates(i)
      case Sent => delivered := delivered + [msg];
      case Failed(at) =>
        var remaining := msg.expiresAt - now;
        box.Store(peer, msg.envelope, remaining, at);
    }
    assert held[..|held|] == held;
    Redelivered(start, held, peer, now, fates, others);
  }

  /** What the failed turns put back, in order. */
  ghost predicate RestoredAt(ms: seq<Held>, now: nat, fates: nat -> Fate, failed: set<nat>, back: seq<Held>) {
    exists at: seq<nat> ::
      && Lists(at, failed) && |at| == |back|
      && forall j :: 0 <= j < |at| ==>
           && at[j] < |ms| && ms[at[j]].expiresAt > now && fates(at[j]).Failed?
           && PutBackAs(ms[at[j]], now, fates(at[j]).at, back[j])
  }

  lemma RestoresExactly(ms: seq<Held>, now: nat, fates: nat -> Fate)
    ensures var failed := set i | 0 <= i < |ms| && ms[i].expiresAt > now && fates(i).Failed?;
            && RestoredAt(ms, now, fates, failed, Restores(ms, now, fates))
            && |Failures(ms, now, fates)| == |failed|
  {
    hide Restores, Failures, Delays, Lists, PutBackAs;
    var at := FailuresPutBack(ms, now, fates);
    ListsCount(at, FailedAt(ms, now, fates));
  }

  lemma Redelivered(q: Queues, ms: seq<Held>, peer: PublicKey, now: nat, fates: nat -> Fate, others: nat -> seq<Op>)
    requires peer !in q
    ensures var sent := set i | 0 <= i < |ms| && ms[i].expiresAt > now && fates(i).Sent?;
            var failed := set i | 0 <= i < |ms| && ms[i].expiresAt > now && fates(i).Failed?;
            var trace := Trace(ms, peer, now, fates, others);
            && Picks(ms, sent, Sendings(ms, now, fates)) && |Sendings(ms, now, fates)| == |sent|
            && (forall i :: i in failed ==> Store(peer, ms[i].envelope, ms[i].expiresAt - now, fates(i).at) in trace)
            && |trace| == LocksOf(others, |ms|) + |failed|
            && ((forall i :: 0 <= i < |ms| ==> others(i) == []) ==>
                  RestoredAt(ms, now, fates, failed, Queue(Steps(q, trace), peer)))
  {
    hide Trace, Sendings, Failures, Steps, Restores, Picks, Joined, Queue, RestoredAt;
    OutcomesExactly(ms, now, fates);
    PicksCount(ms, (set i | 0 <= i < |ms| && ms[i].expiresAt > now && fates(i).Sent?), Sendings(ms, now, fates));
    forall i | 0 <= i < |ms| && ms[i].expiresAt > now && fates(i).Failed?
      ensures Store(peer, ms[i].envelope, ms[i].expiresAt - now, fates(i).at) in Trace(ms, peer, now, fates, others)
    {
      FailureIsStored(ms, i, peer, now, fates, others);
    }
    StoresCounted(ms, peer, now, fates, others);
    RestoresExactly(ms, now, fates);
    if forall i :: 0 <= i < |ms| ==> others(i) == [] {
      AloneLeavesRestores(q, ms, peer, now, fates, others);
    }
  }

  lemma Untouched(q: Queues, peer: PublicKey, now: nat, fates: nat -> Fate, others: nat -> seq<Op>)
    ensures Steps(q, Trace([], peer, now, fates, others)) == q && Sendings([], now, fates) == []
  {
  }

  lemma {:induction false} StepsThen(q: Queues, ops: seq<Op>, more: seq<Op>)
    ensures Steps(q, ops + more) == Steps(Steps(q, ops), more)
  {
    if more == [] {
      assert ops + more == ops;
    } else {
      StepsThen(q, ops, more[..|more| - 1]);
      assert (ops + more)[..|ops + more| - 1] == ops + more[..|more| - 1];
    }
  }

  ghost predicate Partition<T>(all: seq<T>, x: seq<T>, y: seq<T>, z: seq<T>) {
    multiset(all) == multiset(x) + multiset(y) + multiset(z)
  }

  lemma PartitionOn<T>(all: seq<T>, x: seq<T>, y: seq<T>, z: seq<T>, m: T)
    requires Partition(all, x, y, z)
    ensures Partition(all + [m], x + [m], y, z)
    ensures Partition(all + [m], x, y + [m], z)
    ensures Partition(all + [m], x, y, z + [m])
  {
  }

  /** `m` goes on exactly one of three lists. */
  predicate GoesOnOne<T(==)>(x: seq<T>, y: seq<T>, z: seq<T>, m: T, x1: seq<T>, y1: seq<T>, z1: seq<T>) {
    || (x1 == x + [m] && y1 == y && z1 == z)
    || (x1 == x && y1 == y + [m] && z1 == z)
    || (x1 == x && y1 == y && z1 == z + [m])
  }

  lemma PartitionGrows<T>(all: seq<T>, x: seq<T>, y: seq<T>, z: seq<T>, m: T, x1: seq<T>, y1: seq<T>, z1: seq<T>)
    requires Partition(all, x, y, z) && GoesOnOne(x, y, z, m, x1, y1, z1)
    ensures Partition(all + [m], x1, y1, z1)
  {
    hide Partition;
    PartitionOn(all, x, y, z, m);
  }

  function Envelopes(ms: seq<Held>): seq<seq<byte>> {
    if ms == [] then [] else Envelopes(ms[..|ms| - 1]) + [ms[|ms| - 1].envelope]
  }

  lemma EnvelopesOn(ms: seq<Held>, m: Held)
    ensures Envelopes(ms + [m]) == Envelopes(ms) + [m.envelope]
  {
    assert (ms + [m])[..|ms + [m]| - 1] == ms;
  }

  lemma OneOutcome(ms: seq<Held>, now: nat, fates: nat -> Fate)
    requires ms != []
    ensures var before := ms[..|ms| - 1];
            GoesOnOne(Envelopes(Sendings(before, now, fates)), Envelopes(Expiries(before, now)),
                      Envelopes(Restores(before, now, fates)), ms[|ms| - 1].envelope,
                      Envelopes(Sendings(ms, now, fates)), Envelopes(Expiries(ms, now)), Envelopes(Restores(ms, now, fates)))
  {
    hide Envelopes;
    var before, m := ms[..|ms| - 1], ms[|ms| - 1];
    EnvelopesOn(Sendings(before, now, fates), m);
    EnvelopesOn(Expiries(before, now), m);
    var sent, dead, back := Sendings(before, now, fates), Expiries(before, now), Restores(before, now, fates);
    assert sent + [] == sent && dead + [] == dead && back + [] == back;
    if OutcomeOf(m, now, fates(|ms| - 1)).Restored? {
      EnvelopesOn(back, OutcomeOf(m, now, fates(|ms| - 1)).held);
    }
  }

  /** Every envelope of the messages drained is sent, was dead, or is put back, and only once. */
  lemma {:induction false} NothingIsLost(ms: seq<Held>, now: nat, fates: nat -> Fate)
    ensures Partition(Envelopes(ms), Envelopes(Sendings(ms, now, fates)), Envelopes(Expiries(ms, now)),
                      Envelopes(Restores(ms, now, fates)))
  {
    if ms != [] {
      hide OutcomeOf, Sendings, Expiries, Restores, Partition, GoesOnOne;
      var n := |ms| - 1;
      var before, m := ms[..n], ms[n];
      NothingIsLost(before, now, fates);
      OneOutcome(ms, now, fates);
      PartitionGrows(Envelopes(before), Envelopes(Sendings(before, now, fates)), Envelopes(Expiries(before, now)),
                     Envelopes(Restores(before, now, fates)), m.envelope, Envelopes(Sendings(ms, now, fates)),
                     Envelopes(Expiries(ms, now)), Envelopes(Restores(ms, now, fates)));
    }
  }

  // ---------------------------------------------------------------------
  // What a redelivery leaves in the queue
  // ---------------------------------------------------------------------

  predicate DrainsNone(ops: seq<Op>, peer: PublicKey) {
    forall op :: op in ops ==> !(op.Drain? && op.recipient == peer)
  }

  lemma {:induction false} PendingOn(ops: seq<Op>, more: seq<Op>, peer: PublicKey)
    requires DrainsNone(more, peer)
    ensures Pending(ops, peer) <= Pending(ops + more, peer)
    ensures |Pending(ops + more, peer)| >= |Pending(ops, peer)|
  {
    if more == [] {
      assert ops + more == ops;
    } else {
      var rest, last := more[..|more| - 1], more[|more| - 1];
      assert more == rest + [last];
      PendingOn(ops, rest, peer);
      assert (ops + more)[..|ops + more| - 1] == ops + rest && (ops + more)[|ops + more| - 1] == last;
    }
  }

  /** All of `some` are among `all`, each as often. */
  ghost predicate Within<T>(some: seq<T>, all: seq<T>) {
    multiset(some) <= multiset(all)
  }

  lemma WithinLonger<T>(some: seq<T>, all: seq<T>, more: seq<T>)
    requires Within(some, all) && all <= more
    ensures Within(some, more)
  {
    assert more == all + more[|all|..];
  }

  lemma WithinBoth<T>(some: seq<T>, all: seq<T>, x: T)
    requires Within(some, all)
    ensures Within(some + [x], all + [x])
  {
  }

  lemma StorePending(ops: seq<Op>, m: Held, peer: PublicKey, now: nat, fate: Fate)
    ensures Pending(ops + StoreOf(m, peer, now, fate), peer)
         == Pending(ops, peer)
            + if OutcomeOf(m, now, fate).Restored? then [OutcomeOf(m, now, fate).held] else []
  {
    var store := StoreOf(m, peer, now, fate);
    if store == [] {
      assert ops + store == ops;
    } else {
      assert (ops + store)[..|ops + store| - 1] == ops;
    }
  }

  lemma TurnPending(done: seq<Op>, back: seq<Held>, m: Held, peer: PublicKey, now: nat, fate: Fate, more: seq<Op>)
    requires Within(back, Pending(done, peer)) && DrainsNone(more, peer)
    ensures Within(back + (if OutcomeOf(m, now, fate).Restored? then [OutcomeOf(m, now, fate).held] else []),
                   Pending(done + more + StoreOf(m, peer, now, fate), peer))
  {
    hide OutcomeOf, Pending, StoreOf, Within, DrainsNone;
    PendingOn(done, more, peer);
    WithinLonger(back, Pending(done, peer), Pending(done + more, peer));
    StorePending(done + more, m, peer, now, fate);
    if OutcomeOf(m, now, fate).Restored? {
      WithinBoth(back, Pending(done + more, peer), OutcomeOf(m, now, fate).held);
    } else {
      assert Pending(done + more, peer) + [] == Pending(done + more, peer) && back + [] == back;
    }
  }

  lemma Regroup<T>(a: seq<T>, b: seq<T>, c: seq<T>, d: seq<T>)
    ensures a + (b + c + d) == a + b + c + d
  {
  }

  /** As long as no other task drains the peer, everything put back is pending for it. */
  lemma {:induction false} RestoresArePending(base: seq<Op>, ms: seq<Held>, peer: PublicKey, now: nat,
                                              fates: nat -> Fate, others: nat -> seq<Op>)
    requires forall i :: 0 <= i < |ms| ==> DrainsNone(others(i), peer)
    ensures Within(Restores(ms, now, fates), Pending(base + Trace(ms, peer, now, fates, others), peer))
  {
    if ms != [] {
      hide OutcomeOf, Pending, StoreOf, Within, DrainsNone;
      var n := |ms| - 1;
      var before := Trace(ms[..n], peer, now, fates, others);
      RestoresArePending(base, ms[..n], peer, now, fates, others);
      TurnPending(base + before, Restores(ms[..n], now, fates), ms[n], peer, now, fates(n), others(n));
      Regroup(base, before, others(n), StoreOf(ms[n], peer, now, fates(n)));
    }
  }

  lemma TurnAlone(q: Queues, back: seq<Held>, m: Held, peer: PublicKey, now: nat, fate: Fate)
    requires Queue(q, peer) == back
    ensures var o := OutcomeOf(m, now, fate);
            Queue(if o.Restored? then After(q, Store(peer, m.envelope, m.expiresAt - now, fate.at)) else q, peer)
            == back + if o.Restored? then [o.held] else []
  {
    hide Hold;
  }

  /** With the mailbox to itself, a redelivery leaves exactly what it put back. */
  lemma {:induction false} AloneLeavesRestores(q: Queues, ms: seq<Held>, peer: PublicKey, now: nat,
                                               fates: nat -> Fate, others: nat -> seq<Op>)
    requires peer !in q && forall i :: 0 <= i < |ms| ==> others(i) == []
    ensures Queue(Steps(q, Trace(ms, peer, now, fates, others)), peer) == Restores(ms, now, fates)
  {
    hide Queue, OutcomeOf, After;
    if ms == [] {
      EmptyQueue(q, peer);
    } else {
      var n := |ms| - 1;
      AloneLeavesRestores(q, ms[..n], peer, now, fates, others);
      var meanwhile := Steps(q, Trace(ms[..n], peer, now, fates, others));
      assert Steps(meanwhile, []) == meanwhile;
      hide Steps, Trace;
      OneTurn(q, ms, n, peer, now, fates, others);
      TurnAlone(meanwhile, Restores(ms[..n], now, fates), ms[n], peer, now, fates(n));
      assert ms[..n + 1] == ms;
    }
  }

  lemma EmptyQueue(q: Queues, peer: PublicKey)
    requires peer !in q
    ensures Queue(q, peer) == []
  {
  }

  lemma RunThen(ops: seq<Op>, op: Op, more: seq<Op>)
    ensures Run(ops + [op] + more) == Steps(After(Run(ops), op), more)
  {
    hide After;
    var first := ops + [op];
    assert first[..|first| - 1] == ops;
    StepsThen(map[], first, more);
  }

  /** In any run: every envelope drained for the peer is sent, was dead, or is put back; and what
      is put back is pending for the peer's next drain, whatever other tasks do meanwhile short
      of draining the peer themselves. With nobody else about, it is all the queue holds. */
  lemma RedeliveryLosesNothing(ops: seq<Op>, peer: PublicKey, drainedAt: nat, now: nat,
                               fates: nat -> Fate, others: nat -> seq<Op>)
    requires forall i :: 0 <= i < |Unexpired(Queue(Run(ops), peer), drainedAt)| ==> DrainsNone(others(i), peer)
    ensures var held := Unexpired(Queue(Run(ops), peer), drainedAt);
            var trace := Trace(held, peer, now, fates, others);
            var back := Restores(held, now, fates);
            && Partition(Envelopes(held), Envelopes(Sendings(held, now, fates)), Envelopes(Expiries(held, now)), Envelopes(back))
            && Run(ops + [Drain(peer, drainedAt)] + trace) == Steps(Run(ops) - {peer}, trace)
            && Within(back, Pending(ops + [Drain(peer, drainedAt)] + trace, peer))
            && ((forall i :: 0 <= i < |held| ==> others(i) == []) ==>
                  Queue(Run(ops + [Drain(peer, drainedAt)] + trace), peer) == back)
  {
    hide Unexpired, Trace, Restores, Sendings, Expiries, Pending, Partition, Within, Envelopes, Steps, Run, DrainsNone;
    var held := Unexpired(Queue(Run(ops), peer), drainedAt);
    var trace := Trace(held, peer, now, fates, others);
    NothingIsLost(held, now, fates);
    RunThen(ops, Drain(peer, drainedAt), trace);
    RestoresArePending(ops + [Drain(peer, drainedAt)], held, peer, now, fates, others);
    if forall i :: 0 <= i < |held| ==> others(i) == [] {
      AloneLeavesRestores(Run(ops) - {peer}, held, peer, now, fates, others);
    }
  }

  /** Held no longer than the default life. */
  predicate LifeBounded(m: Held, now: nat) {
    m.storedAt <= now && m.expiresAt <= m.storedAt + DEFAULT_TTL_SECS
  }

  lemma {:induction false} PendingLifeBounded(ops: seq<Op>, r: PublicKey)
    requires Timely(ops)
    ensures forall m :: m in Pending(ops, r) ==> LifeBounded(m, Clock(ops))
  {
    if ops != [] {
      PendingLifeBounded(ops[..|ops| - 1], r);
    }
  }

  lemma {:induction false} UnexpiredFrom(ms: seq<Held>, now: nat)
    ensures forall m :: m in Unexpired(ms, now) ==> m in ms
  {
    if ms != [] {
      UnexpiredFrom(ms[..|ms| - 1], now);
    }
  }

  /** A message comes back whole, and lives longer by what the clock advanced between the loop's
      reading and the store's. */
  predicate PutBack(failed: Held, back: Held, late: nat) {
    back.envelope == failed.envelope && back.expiresAt == failed.expiresAt + late
  }

  /** How late each failure's store was, in order. */
  function Delays(ms: seq<Held>, now: nat, fates: nat -> Fate): seq<int> {
    if ms == [] then []
    else
      var n := |ms| - 1;
      Delays(ms[..n], now, fates)
      + if OutcomeOf(ms[n], now, fates(n)).Restored? then [fates(n).at - now] else []
  }

  /** Each store follows the loop's reading of the clock. */
  predicate StoresFollow(fates: nat -> Fate, count: nat, now: nat) {
    forall i | 0 <= i < count :: fates(i).Failed? ==> now <= fates(i).at
  }

  lemma {:induction false} FailuresComeBack(ms: seq<Held>, now: nat, fates: nat -> Fate)
    requires forall m :: m in ms ==> LifeBounded(m, now)
    requires StoresFollow(fates, |ms|, now)
    ensures |Restores(ms, now, fates)| == |Failures(ms, now, fates)| == |Delays(ms, now, fates)|
    ensures forall i :: 0 <= i < |Failures(ms, now, fates)| ==>
              && Delays(ms, now, fates)[i] >= 0
              && PutBack(Failures(ms, now, fates)[i], Restores(ms, now, fates)[i], Delays(ms, now, fates)[i])
  {
    if ms != [] {
      var n := |ms| - 1;
      FailuresComeBack(ms[..n], now, fates);
      assert LifeBounded(ms[n], now);
    }
  }

  /** In any run, a redelivery puts the failed messages back whole and in order; every one keeps
      its expiry exactly when the clock stood still until its store, and otherwise lives longer. */
  lemma RedeliveryKeepsExpiryExactly(ops: seq<Op>, r: PublicKey, drainedAt: nat, now: nat, fates: nat -> Fate)
    requires Timely(ops) && Clock(ops) <= drainedAt <= now
    requires StoresFollow(fates, |Unexpired(Queue(Run(ops), r), drainedAt)|, now)
    ensures var held := Unexpired(Queue(Run(ops), r), drainedAt);
            var failed, back, late := Failures(held, now, fates), Restores(held, now, fates), Delays(held, now, fates);
            && |back| == |failed| == |late|
            && (forall i :: 0 <= i < |failed| ==> back[i].envelope == failed[i].envelope)
            && (forall i :: 0 <= i < |failed| ==> (back[i].expiresAt == failed[i].expiresAt <==> late[i] == 0))
            && (forall i :: 0 <= i < |failed| ==> back[i].expiresAt >= failed[i].expiresAt)
  {
    hide Unexpired, Failures, Restores, Delays, Run, Pending;
    QueueIsPending(ops, r, drainedAt);
    PendingLifeBounded(ops, r);
    var held := Unexpired(Queue(Run(ops), r), drainedAt);
    UnexpiredFrom(Pending(ops, r), drainedAt);
    forall m | m in held ensures LifeBounded(m, now) {
      assert LifeBounded(m, Clock(ops));
    }
    FailuresComeBack(held, now, fates);
  }
}
