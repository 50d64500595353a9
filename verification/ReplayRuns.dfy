/** What the replay guard promises over whole runs: a restart changes no verdict, a live pair is
    forgotten only under enough pressure, and how often one envelope can pass the gate. */
module ReplayRuns {
  import opened Wrappers
  import opened Bytes
  import opened Replay

  // =====================================================================
  // Restarts
  // =====================================================================

  datatype Event = Observe(now: nat, key: Key) | Restart(now: nat)

  /** Cache and journal of one node. */
  datatype Guard = Guard(cache: Entries, rows: Entries)

  /** A fixed choice of which of the oldest entries is evicted. */
  type TieBreak = Entries -> Key

  ghost predicate PicksOldest(pick: TieBreak) {
    forall m: Entries :: m != map[] ==> IsOldest(m, pick(m))
  }

  function Victim(m: Entries, cap: nat, pick: TieBreak): Option<Key> {
    if |m| < cap then None else Some(pick(m))
  }

  function Next(ttl: nat, cap: nat, pick: TieBreak, g: Guard, e: Event): Guard {
    match e
    case Observe(now, key) =>
      var m := Live(g.cache, now, ttl);
      var victim := Victim(m, cap, pick);
      Guard(if key in m then m else Admit(m, victim, key, now),
            RowsAfter(ttl, g.cache, g.rows, now, key, victim, key in m))
    case Restart(now) =>
      var rows := Pruned(g.rows, now, ttl);
      Guard(Live(rows, now, ttl), rows)
  }

  /** `Next` is one of the behaviours the running guard allows; a restart never has to trim. */
  lemma NextIsObserved(ttl: nat, cap: Cap, pick: TieBreak, g: Guard, now: nat, key: Key)
    requires PicksOldest(pick)
    ensures var m := Live(g.cache, now, ttl);
            Observed(ttl, cap, g.cache, now, key, Victim(m, cap, pick), Next(ttl, cap, pick, g, Observe(now, key)).cache, key in m)
  {
    var m := Live(g.cache, now, ttl);
    if |m| >= cap {
      assert m != map[];
    }
  }

  function Verdicts(ttl: nat, cap: nat, pick: TieBreak, g: Guard, es: seq<Event>): seq<bool>
    decreases |es|
  {
    if es == [] then [] else
    var rest := Verdicts(ttl, cap, pick, Next(ttl, cap, pick, g, es[0]), es[1..]);
    if es[0].Observe? then [es[0].key in Live(g.cache, es[0].now, ttl)] + rest else rest
  }

  function WithoutRestarts(es: seq<Event>): seq<Event> {
    if es == [] then [] else
    if es[0].Restart? then WithoutRestarts(es[1..]) else [es[0]] + WithoutRestarts(es[1..])
  }

  predicate Clocked(from: nat, es: seq<Event>)
    decreases |es|
  {
    es == [] || (from <= es[0].now && Clocked(es[0].now, es[1..]))
  }

  /** From `now` on, the unexpired rows of the journal and the unexpired entries of the cache
      coincide, and the cache respects its cap. */
  predicate Coincide(ttl: nat, cap: nat, now: nat, g: Guard) {
    Live(g.cache, now, ttl) == Live(g.rows, now, ttl) && |g.cache| <= cap
  }

  lemma LiveLater(ttl: nat, m: Entries, now: nat, later: nat)
    requires now <= later
    ensures Live(Live(m, now, ttl), later, ttl) == Live(m, later, ttl)
  {
  }

  lemma LiveIsSmaller(ttl: nat, m: Entries, now: nat)
    ensures |Live(m, now, ttl)| <= |m|
  {
    SubsetSize(Live(m, now, ttl).Keys, m.Keys);
  }

  lemma AdmitSize(m: Entries, cap: Cap, victim: Option<Key>, key: Key, now: nat)
    requires |m| <= cap && MakesRoom(m, cap, victim) && key !in m
    ensures |Admit(m, victim, key, now)| <= cap
  {
    if victim.Some? {
      assert (m - {victim.value}).Keys == m.Keys - {victim.value};
      assert Admit(m, victim, key, now).Keys == (m.Keys - {victim.value}) + {key};
    } else {
      assert Admit(m, victim, key, now).Keys == m.Keys + {key};
    }
  }

  /** A restart rebuilds the live cache although the journal prunes by a laxer test than the
      cache sweeps by: a row of age exactly the TTL survives pruning and is then not preloaded. */
  lemma RestartKeepsLive(ttl: nat, cap: Cap, pick: TieBreak, g: Guard, now: nat)
    requires Coincide(ttl, cap, now, g)
    ensures var h := Next(ttl, cap, pick, g, Restart(now));
            h.cache == Live(g.cache, now, ttl) && Coincide(ttl, cap, now, h)
  {
    var rows := Pruned(g.rows, now, ttl);
    assert Live(rows, now, ttl) == Live(g.rows, now, ttl);
    LiveLater(ttl, rows, now, now);
    LiveIsSmaller(ttl, g.cache, now);
  }

  /** So whatever start-up keeps of the journaled rows, it keeps them all. */
  lemma RestartNeverTrims(ttl: nat, cap: Cap, pick: TieBreak, g: Guard, now: nat, kept: Entries)
    requires Coincide(ttl, cap, now, g) && Newest(kept, Live(Pruned(g.rows, now, ttl), now, ttl), cap)
    ensures kept == Next(ttl, cap, pick, g, Restart(now)).cache
  {
    hide Newest;
    RestartKeepsLive(ttl, cap, pick, g, now);
    NothingTrimmed(kept, Live(Pruned(g.rows, now, ttl), now, ttl), cap);
  }

  /** Admitting into the swept cache and into the swept journal leaves the same live entries. */
  lemma LiveAfterAdmit(ttl: nat, m: Entries, rows: Entries, victim: Option<Key>, key: Key, now: nat)
    requires Live(rows, now, ttl) == m == Live(m, now, ttl)
    ensures Live(Admit(m, victim, key, now), now, ttl) == Live(Admit(rows, victim, key, now), now, ttl)
  {
    var x, y := Admit(m, victim, key, now), Admit(rows, victim, key, now);
    forall k ensures IsLive(x, k, now, ttl) <==> IsLive(y, k, now, ttl)
      ensures IsLive(x, k, now, ttl) ==> x[k] == y[k]
    {
      assert k in m <==> IsLive(rows, k, now, ttl);
    }
  }

  lemma LiveAfterSweep(ttl: nat, cache: Entries, rows: Entries, now: nat)
    requires Live(cache, now, ttl) == Live(rows, now, ttl)
    ensures Live(rows - Expired(cache, now, ttl), now, ttl) == Live(cache, now, ttl)
  {
    var swept := rows - Expired(cache, now, ttl);
    forall k ensures IsLive(swept, k, now, ttl) <==> IsLive(rows, k, now, ttl) {
      assert k in Live(cache, now, ttl) <==> IsLive(rows, k, now, ttl);
    }
  }

  lemma ObserveKeepsCoincide(ttl: nat, cap: Cap, pick: TieBreak, g: Guard, now: nat, key: Key)
    requires Coincide(ttl, cap, now, g) && PicksOldest(pick)
    ensures Coincide(ttl, cap, now, Next(ttl, cap, pick, g, Observe(now, key)))
  {
    hide Admit, Live;
    var m := Live(g.cache, now, ttl);
    LiveIsSmaller(ttl, g.cache, now);
    LiveLater(ttl, g.cache, now, now);
    LiveAfterSweep(ttl, g.cache, g.rows, now);
    if key !in m {
      var victim := Victim(m, cap, pick);
      NextIsObserved(ttl, cap, pick, g, now, key);
      AdmitSize(m, cap, victim, key, now);
      LiveAfterAdmit(ttl, m, g.rows - Expired(g.cache, now, ttl), victim, key, now);
    }
  }

  lemma CoincideLater(ttl: nat, cap: nat, g: Guard, now: nat, later: nat)
    requires Coincide(ttl, cap, now, g) && now <= later
    ensures Coincide(ttl, cap, later, g)
  {
    LiveLater(ttl, g.cache, now, later);
    LiveLater(ttl, g.rows, now, later);
  }

  /** Guards with the same live entries answer alike and stay alike. */
  lemma SameLiveSameNext(ttl: nat, cap: Cap, pick: TieBreak, g: Guard, h: Guard, now: nat, key: Key)
    requires Live(g.cache, now, ttl) == Live(h.cache, now, ttl)
    ensures Next(ttl, cap, pick, g, Observe(now, key)).cache == Next(ttl, cap, pick, h, Observe(now, key)).cache
  {
  }

  /** Restart transparency: crashes followed by load and preload, anywhere in a run and any
      number of times, change no verdict. */
  lemma {:induction false} RestartTransparent(ttl: nat, cap: Cap, pick: TieBreak, now: nat, g: Guard, h: Guard, es: seq<Event>)
    requires PicksOldest(pick) && Clocked(now, es)
    requires Coincide(ttl, cap, now, g) && Live(g.cache, now, ttl) == Live(h.cache, now, ttl)
    ensures Verdicts(ttl, cap, pick, g, es) == Verdicts(ttl, cap, pick, h, WithoutRestarts(es))
    decreases |es|
  {
    if es != [] {
      var later := es[0].now;
      CoincideLater(ttl, cap, g, now, later);
      LiveLater(ttl, g.cache, now, later);
      LiveLater(ttl, h.cache, now, later);
      var g' := Next(ttl, cap, pick, g, es[0]);
      match es[0]
      case Restart(_) =>
        RestartKeepsLive(ttl, cap, pick, g, later);
        LiveLater(ttl, g.cache, later, later);
        RestartTransparent(ttl, cap, pick, later, g', h, es[1..]);
      case Observe(_, key) =>
        ObserveKeepsCoincide(ttl, cap, pick, g, later, key);
        SameLiveSameNext(ttl, cap, pick, g, h, later, key);
        var h' := Next(ttl, cap, pick, h, es[0]);
        RestartTransparent(ttl, cap, pick, later, g', h', es[1..]);
        var fs := WithoutRestarts(es);
        assert fs[0] == es[0] && fs[1..] == WithoutRestarts(es[1..]);
    }
  }

  // =====================================================================
  // Eviction under pressure
  // =====================================================================

  /** One envelope at the gate: dropped unseen if not fresh, otherwise put to the cache. */
  datatype Arrival = Arrival(
    now: nat, key: Key, timestamp: nat, inWindow: bool, passed: bool,
    before: Entries, victim: Option<Key>, after: Entries)

  predicate Handled(ttl: nat, cap: nat, a: Arrival) {
    if a.inWindow then Observed(ttl, cap, a.before, a.now, a.key, a.victim, a.after, !a.passed)
    else !a.passed && a.after == a.before
  }

  /** The cache after `n` arrivals. */
  function CacheAt(run: seq<Arrival>, n: nat): Entries
    requires n <= |run|
  {
    if n == 0 then map[] else run[n - 1].after
  }

  /** Arrival `i` acts on the cache the arrivals before it left. */
  predicate StepOk(ttl: nat, cap: nat, run: seq<Arrival>, i: nat)
    requires i < |run|
  {
    run[i].before == CacheAt(run, i) && Handled(ttl, cap, run[i])
  }

  /** A run from an empty cache under a non-decreasing clock. Ties may break either way. */
  predicate IsRun(ttl: nat, cap: nat, run: seq<Arrival>) {
    && (forall i :: 0 <= i < |run| ==> StepOk(ttl, cap, run, i))
    && (forall i, j :: 0 <= i <= j < |run| ==> run[i].now <= run[j].now)
  }

  /** In every reachable state the cache respects its cap. */
  lemma {:induction false} CapHolds(ttl: nat, cap: Cap, run: seq<Arrival>, n: nat)
    requires IsRun(ttl, cap, run) && n <= |run|
    ensures |CacheAt(run, n)| <= cap
  {
    if n > 0 {
      CapHolds(ttl, cap, run, n - 1);
      var a := run[n - 1];
      assert StepOk(ttl, cap, run, n - 1);
      if a.inWindow {
        var m := Live(a.before, a.now, ttl);
        LiveIsSmaller(ttl, a.before, a.now);
        if a.passed {
          AdmitSize(m, cap, a.victim, a.key, a.now);
        }
      }
    }
  }

  predicate Accepted(run: seq<Arrival>, n: nat, key: Key, t: nat)
    requires n <= |run|
  {
    exists y :: 0 <= y < n && run[y].passed && run[y].key == key && run[y].now == t
  }

  /** Every entry remembers an acceptance. */
  lemma {:induction false} EntriesWereAccepted(ttl: nat, cap: nat, run: seq<Arrival>, n: nat, key: Key)
    requires IsRun(ttl, cap, run) && n <= |run| && key in CacheAt(run, n)
    ensures Accepted(run, n, key, CacheAt(run, n)[key])
  {
    var a := run[n - 1];
    assert StepOk(ttl, cap, run, n - 1);
    if !(a.passed && a.key == key) {
      EntriesWereAccepted(ttl, cap, run, n - 1, key);
      var t := CacheAt(run, n)[key];
      var y :| 0 <= y < n - 1 && run[y].passed && run[y].key == key && run[y].now == t;
    } else {
      assert run[n - 1].now == CacheAt(run, n)[key];
    }
  }

  /** The other pairs accepted at `t` or later among the first `n` arrivals. */
  function Others(run: seq<Arrival>, n: nat, key: Key, t: nat): set<Key>
    requires n <= |run|
  {
    set y | 0 <= y < n && run[y].passed && run[y].now >= t && run[y].key != key :: run[y].key
  }

  lemma OthersGrow(run: seq<Arrival>, n: nat, n': nat, key: Key, t: nat, t': nat)
    requires n <= n' <= |run| && t' <= t
    ensures |Others(run, n, key, t)| <= |Others(run, n', key, t')|
  {
    SubsetSize(Others(run, n, key, t), Others(run, n', key, t'));
  }

  /** When `key`, the oldest entry, makes room at arrival `n`, a cap's worth of other pairs has
      been accepted since `key` was. */
  lemma EvictionNeedsPressure(ttl: nat, cap: Cap, run: seq<Arrival>, n: nat, key: Key, t: nat)
    requires IsRun(ttl, cap, run) && n < |run|
    requires run[n].inWindow && run[n].passed && run[n].victim == Some(key)
    requires IsLive(CacheAt(run, n), key, run[n].now, ttl) && CacheAt(run, n)[key] == t <= run[n].now
    ensures |Others(run, n + 1, key, t)| >= cap
  {
    var a := run[n];
    assert StepOk(ttl, cap, run, n);
    var m := Live(a.before, a.now, ttl);
    var others := Others(run, n + 1, key, t);
    forall x | x in m && x != key ensures x in others {
      EntriesWereAccepted(ttl, cap, run, n, x);
      var y :| 0 <= y < n && run[y].passed && run[y].key == x && run[y].now == m[x];
      assert run[y].key in others;
    }
    assert run[n].key in others;
    SubsetSize((m.Keys - {key}) + {a.key}, others);
  }

  /** What one arrival can do to an entry: keep it, outlive it, evict it, or replace it. */
  lemma EntryFate(ttl: nat, cap: nat, a: Arrival, key: Key)
    requires Handled(ttl, cap, a) && key in a.before && a.before[key] <= a.now
    ensures var t := a.before[key];
            || (key in a.after && a.after[key] == t)
            || a.now >= t + ttl
            || (a.inWindow && a.passed && a.victim == Some(key) && IsLive(a.before, key, a.now, ttl))
            || (a.passed && a.key == key)
  {
  }

  lemma AcceptanceStored(ttl: nat, cap: nat, a: Arrival)
    requires Handled(ttl, cap, a) && a.passed
    ensures a.key in a.after && a.after[a.key] == a.now
  {
  }

  /** The pair accepted at `x` is still cached after `n` arrivals, or has expired by then, or a
      cap's worth of other pairs was accepted since. */
  predicate Accounted(ttl: nat, cap: nat, run: seq<Arrival>, x: nat, n: nat)
    requires x < n <= |run|
  {
    var key, t := run[x].key, run[x].now;
    || (key in CacheAt(run, n) && CacheAt(run, n)[key] == t)
    || run[n - 1].now >= t + ttl
    || |Others(run, n, key, t)| >= cap
  }

  lemma AccountedStep(ttl: nat, cap: Cap, run: seq<Arrival>, x: nat, n: nat)
    requires IsRun(ttl, cap, run) && x < n < |run|
    requires Accounted(ttl, cap, run, x, n) && !(run[n].passed && run[n].key == run[x].key)
    ensures Accounted(ttl, cap, run, x, n + 1)
  {
    var key, t, a := run[x].key, run[x].now, run[n];
    assert StepOk(ttl, cap, run, n);
    if key in a.before && a.before[key] == t {
      EntryFate(ttl, cap, a, key);
      if a.inWindow && a.passed && a.victim == Some(key) && IsLive(a.before, key, a.now, ttl) {
        EvictionNeedsPressure(ttl, cap, run, n, key, t);
      }
    } else if run[n - 1].now < t + ttl {
      OthersGrow(run, n, n + 1, key, t, t);
    }
  }

  lemma AccountedAtOnce(ttl: nat, cap: nat, run: seq<Arrival>, x: nat)
    requires IsRun(ttl, cap, run) && x < |run| && run[x].passed
    ensures Accounted(ttl, cap, run, x, x + 1)
  {
    assert StepOk(ttl, cap, run, x);
    AcceptanceStored(ttl, cap, run[x]);
  }

  lemma {:induction false} Remembered(ttl: nat, cap: Cap, run: seq<Arrival>, x: nat, n: nat)
    requires IsRun(ttl, cap, run) && x < n <= |run| && run[x].passed
    requires forall y :: x < y < n ==> !(run[y].passed && run[y].key == run[x].key)
    ensures Accounted(ttl, cap, run, x, n)
  {
    hide IsRun, Accounted;
    if n == x + 1 {
      AccountedAtOnce(ttl, cap, run, x);
    } else {
      Remembered(ttl, cap, run, x, n - 1);
      AccountedStep(ttl, cap, run, x, n - 1);
    }
  }

  /** The last acceptance of the pair of arrival `i` before arrival `j`. */
  lemma {:induction false} LastAcceptance(run: seq<Arrival>, i: nat, j: nat) returns (x: nat)
    requires i < j <= |run| && run[i].passed
    ensures i <= x < j && run[x].passed && run[x].key == run[i].key
    ensures forall y :: x < y < j ==> !(run[y].passed && run[y].key == run[i].key)
  {
    if i + 1 == j || (run[j - 1].passed && run[j - 1].key == run[i].key) {
      x := j - 1;
    } else {
      x := LastAcceptance(run, i, j - 1);
    }
  }

  /** A pair accepted at `i` and accepted again within the TTL costs at least `cap` other pairs,
      all accepted at that second or later. */
  lemma ReacceptanceNeedsPressure(ttl: nat, cap: Cap, run: seq<Arrival>, i: nat, j: nat)
    requires IsRun(ttl, cap, run) && i < j < |run|
    requires run[i].passed && run[j].passed && run[i].key == run[j].key
    requires run[j].now < run[i].now + ttl
    ensures |Others(run, j, run[i].key, run[i].now)| >= cap
  {
    var x := LastAcceptance(run, i, j);
    Remembered(ttl, cap, run, x, j);
    assert StepOk(ttl, cap, run, j);
    assert run[x].key !in Live(run[j].before, run[j].now, ttl);
    assert run[j - 1].now <= run[j].now && run[i].now <= run[x].now;
    OthersGrow(run, j, j, run[i].key, run[x].now, run[i].now);
  }

  // =====================================================================
  // How often one envelope passes the gate
  // =====================================================================

  /** The gate in front of the cache: fresh means within `skew` of the local clock. */
  predicate IsGateRun(ttl: nat, skew: nat, cap: nat, run: seq<Arrival>) {
    && IsRun(ttl, cap, run)
    && forall i :: 0 <= i < |run| ==> (run[i].inWindow <==> AbsDiff(run[i].timestamp, run[i].now) <= skew)
  }

  predicate Hit(a: Arrival, key: Key, timestamp: nat) {
    a.passed && a.key == key && a.timestamp == timestamp
  }

  /** How often the envelope with this pair and timestamp passes among the first `n` arrivals. */
  function Passes(run: seq<Arrival>, n: nat, key: Key, timestamp: nat): nat
    requires n <= |run|
  {
    if n == 0 then 0 else
    Passes(run, n - 1, key, timestamp)
    + if Hit(run[n - 1], key, timestamp) then 1 else 0
  }

  /** `key` makes room for another pair. */
  predicate Evicts(a: Arrival, key: Key) {
    a.inWindow && a.passed && a.victim == Some(key)
  }

  /** How often `key` is evicted among the first `n` arrivals. */
  function Evictions(run: seq<Arrival>, n: nat, key: Key): nat
    requires n <= |run|
  {
    if n == 0 then 0 else
    Evictions(run, n - 1, key) + if Evicts(run[n - 1], key) then 1 else 0
  }

  ghost predicate NeverEvicted(run: seq<Arrival>, key: Key) {
    forall i :: 0 <= i < |run| ==> !Evicts(run[i], key)
  }

  /** The pair accepted at `x` is still cached after `n` arrivals, or has expired by then, or was
      evicted since. */
  predicate KeptOrEvicted(ttl: nat, run: seq<Arrival>, x: nat, n: nat)
    requires x < n <= |run|
  {
    var key, t := run[x].key, run[x].now;
    || (key in CacheAt(run, n) && CacheAt(run, n)[key] == t)
    || run[n - 1].now >= t + ttl
    || Evictions(run, n, key) > Evictions(run, x + 1, key)
  }

  lemma {:induction false} KeptUnlessEvicted(ttl: nat, cap: Cap, run: seq<Arrival>, x: nat, n: nat)
    requires IsRun(ttl, cap, run) && x < n <= |run| && run[x].passed
    requires forall y :: x < y < n ==> !(run[y].passed && run[y].key == run[x].key)
    ensures KeptOrEvicted(ttl, run, x, n)
  {
    if n == x + 1 {
      assert StepOk(ttl, cap, run, x);
      AcceptanceStored(ttl, cap, run[x]);
    } else {
      KeptUnlessEvicted(ttl, cap, run, x, n - 1);
      var key, a := run[x].key, run[n - 1];
      assert StepOk(ttl, cap, run, n - 1);
      if key in a.before && a.before[key] == run[x].now {
        EvictionsGrow(run, x + 1, n - 1, key);
        hide Handled;
        EntryFate(ttl, cap, a, key);
      }
    }
  }

  lemma {:induction false} EvictionsGrow(run: seq<Arrival>, n: nat, m: nat, key: Key)
    requires n <= m <= |run|
    ensures Evictions(run, n, key) <= Evictions(run, m, key)
  {
    if n < m {
      EvictionsGrow(run, n, m - 1, key);
    }
  }

  /** Two acceptances of one pair are at least the TTL apart, unless it was evicted in between. */
  lemma SpacedApart(ttl: nat, cap: Cap, run: seq<Arrival>, i: nat, j: nat)
    requires IsRun(ttl, cap, run) && i < j < |run|
    requires run[i].passed && run[j].passed && run[i].key == run[j].key
    ensures run[j].now >= run[i].now + ttl || Evictions(run, j, run[i].key) > Evictions(run, i + 1, run[i].key)
  {
    var x := LastAcceptance(run, i, j);
    KeptUnlessEvicted(ttl, cap, run, x, j);
    EvictionsGrow(run, i + 1, x + 1, run[i].key);
    assert StepOk(ttl, cap, run, j);
    assert run[x].key !in Live(run[j].before, run[j].now, ttl);
    assert run[i].now <= run[x].now && run[j - 1].now <= run[j].now;
  }

  lemma PassInWindow(ttl: nat, skew: nat, cap: nat, run: seq<Arrival>, x: nat)
    requires IsGateRun(ttl, skew, cap, run) && x < |run|
    ensures run[x].passed ==> AbsDiff(run[x].timestamp, run[x].now) <= skew
  {
    assert StepOk(ttl, cap, run, x);
  }

  /** `n` times the TTL. */
  function Ttls(ttl: nat, n: nat): nat {
    ttl * n
  }

  lemma TtlsStep(ttl: nat, n: nat)
    ensures Ttls(ttl, n + 1) == Ttls(ttl, n) + ttl
  {
  }

  /** The last pass of an envelope comes `gaps` TTLs after its window opens, and every pass but
      the first is paid for by such a gap or by an eviction. */
  lemma {:induction false} LastPass(ttl: nat, skew: nat, cap: Cap, run: seq<Arrival>, n: nat, key: Key, timestamp: nat)
    returns (x: nat, gaps: nat)
    requires IsGateRun(ttl, skew, cap, run) && n <= |run|
    requires Passes(run, n, key, timestamp) > 0
    ensures x < n && Hit(run[x], key, timestamp)
    ensures timestamp + Ttls(ttl, gaps) <= run[x].now + skew
    ensures Passes(run, n, key, timestamp) <= gaps + 1 + Evictions(run, x + 1, key)
  {
    PassInWindow(ttl, skew, cap, run, n - 1);
    var c := Passes(run, n - 1, key, timestamp);
    assert Passes(run, n, key, timestamp) == c + if Hit(run[n - 1], key, timestamp) then 1 else 0;
    assert Ttls(ttl, 0) == 0;
    hide IsGateRun, Passes, Ttls, AbsDiff;
    if c == 0 {
      x, gaps := n - 1, 0;
      assert timestamp <= run[x].now + skew by {
        WindowOpens(timestamp, run[x].now, skew);
      }
    } else {
      x, gaps := LastPass(ttl, skew, cap, run, n - 1, key, timestamp);
      if Hit(run[n - 1], key, timestamp) {
        PassAfterPass(ttl, skew, cap, run, x, n - 1);
        EvictionsGrow(run, n - 1, n, key);
        if run[n - 1].now >= run[x].now + ttl {
          TtlsStep(ttl, gaps);
          EvictionsGrow(run, x + 1, n - 1, key);
          gaps := gaps + 1;
        } else {
          LaterInRun(ttl, skew, cap, run, x, n - 1);
        }
        x := n - 1;
      }
    }
  }

  lemma WindowOpens(timestamp: nat, now: nat, skew: nat)
    requires AbsDiff(timestamp, now) <= skew
    ensures timestamp <= now + skew
  {
  }

  lemma LaterInRun(ttl: nat, skew: nat, cap: nat, run: seq<Arrival>, w: nat, x: nat)
    requires IsGateRun(ttl, skew, cap, run) && w <= x < |run|
    ensures run[w].now <= run[x].now
  {
  }

  lemma PassAfterPass(ttl: nat, skew: nat, cap: Cap, run: seq<Arrival>, w: nat, x: nat)
    requires IsGateRun(ttl, skew, cap, run) && w < x < |run|
    requires run[w].passed && run[x].passed && run[w].key == run[x].key
    ensures run[x].now >= run[w].now + ttl || Evictions(run, x, run[w].key) > Evictions(run, w + 1, run[w].key)
  {
    hide IsRun;
    SpacedApart(ttl, cap, run, w, x);
  }

  /** In any run one envelope passes at most 2*skew/ttl + 1 times, and once more for every time
      its own pair was evicted. */
  lemma GateMultiplicity(ttl: nat, skew: nat, cap: Cap, run: seq<Arrival>, key: Key, timestamp: nat)
    requires ttl > 0 && IsGateRun(ttl, skew, cap, run)
    ensures Passes(run, |run|, key, timestamp) <= 2 * skew / ttl + 1 + Evictions(run, |run|, key)
  {
    var c := Passes(run, |run|, key, timestamp);
    if c > 0 {
      var x, gaps := LastPass(ttl, skew, cap, run, |run|, key, timestamp);
      PassInWindow(ttl, skew, cap, run, x);
      EvictionsGrow(run, x + 1, |run|, key);
      assert Ttls(ttl, gaps) <= 2 * skew;
      QuotientBound(ttl, gaps, 2 * skew);
    }
  }

  lemma {:induction false} NoEvictions(run: seq<Arrival>, n: nat, key: Key)
    requires NeverEvicted(run, key) && n <= |run|
    ensures Evictions(run, n, key) == 0
  {
    if n > 0 {
      NoEvictions(run, n - 1, key);
    }
  }

  lemma QuotientBound(d: nat, q: nat, n: nat)
    requires d > 0 && d * q <= n
    ensures q <= n / d
  {
    if q > n / d {
      Product(d, n / d + 1, q);
      assert false;
    }
  }

  lemma Product(d: nat, a: nat, b: nat)
    requires a <= b
    ensures d * a <= d * b
  {
  }

  lemma Extend(ttl: nat, skew: nat, cap: nat, run: seq<Arrival>, a: Arrival)
    requires IsGateRun(ttl, skew, cap, run) && Handled(ttl, cap, a) && a.before == CacheAt(run, |run|)
    requires a.inWindow <==> AbsDiff(a.timestamp, a.now) <= skew
    requires run != [] ==> run[|run| - 1].now <= a.now
    ensures IsGateRun(ttl, skew, cap, run + [a])
  {
    var longer := run + [a];
    hide Handled, AbsDiff;
    assert longer[|run|] == a && forall i :: 0 <= i < |run| ==> longer[i] == run[i];
    forall i | 0 <= i < |longer| ensures StepOk(ttl, cap, longer, i) {
      assert CacheAt(longer, i) == CacheAt(run, i);
      assert i < |run| ==> StepOk(ttl, cap, run, i);
    }
    forall i, j | 0 <= i <= j < |longer| ensures longer[i].now <= longer[j].now {
      if j < |run| {
        assert longer[i] == run[i] && longer[j] == run[j];
      } else if i < j {
        assert longer[i] == run[i] && run[i].now <= run[|run| - 1].now;
      }
    }
    assert IsRun(ttl, cap, longer);
  }

  /** The bound is reached: present the envelope when its window opens and every TTL after. */
  lemma {:induction false} GateBoundReached(ttl: nat, skew: nat, cap: Cap, key: Key, timestamp: nat, n: nat)
    returns (run: seq<Arrival>)
    requires ttl > 0 && skew <= timestamp && Ttls(ttl, n) <= 2 * skew
    ensures IsGateRun(ttl, skew, cap, run) && |run| == n + 1
    ensures NeverEvicted(run, key)
    ensures run[n].now == timestamp - skew + Ttls(ttl, n) && run[n].after == map[key := run[n].now]
    ensures Passes(run, n + 1, key, timestamp) == n + 1
  {
    assert Ttls(ttl, 0) == 0;
    hide Ttls, IsGateRun;
    var now := timestamp - skew + Ttls(ttl, n);
    var earlier: seq<Arrival>, before: Entries := [], map[];
    if n > 0 {
      TtlsStep(ttl, n - 1);
      earlier := GateBoundReached(ttl, skew, cap, key, timestamp, n - 1);
      before := earlier[n - 1].after;
    } else {
      EmptyRun(ttl, skew, cap);
    }
    var a := FreshPass(ttl, cap, key, timestamp, now, before);
    Extend(ttl, skew, cap, earlier, a);
    run := earlier + [a];
    hide Handled;
    PassesPrefix(earlier, run, n, key, timestamp);
  }

  lemma EmptyRun(ttl: nat, skew: nat, cap: nat)
    ensures IsGateRun(ttl, skew, cap, [])
  {
  }

  /** An arrival of `key` after everything before it expired. */
  lemma FreshPass(ttl: nat, cap: Cap, key: Key, timestamp: nat, now: nat, before: Entries) returns (a: Arrival)
    requires before == map[] || exists t :: before == map[key := t] && t + ttl <= now
    ensures a == Arrival(now, key, timestamp, true, true, before, None, map[key := now])
    ensures Handled(ttl, cap, a)
  {
    a := Arrival(now, key, timestamp, true, true, before, None, map[key := now]);
    assert Live(before, now, ttl) == map[];
  }

  lemma {:induction false} PassesPrefix(run: seq<Arrival>, longer: seq<Arrival>, n: nat, key: Key, timestamp: nat)
    requires n <= |run| <= |longer| && forall i :: 0 <= i < n ==> longer[i] == run[i]
    ensures Passes(longer, n, key, timestamp) == Passes(run, n, key, timestamp)
  {
    if n > 0 {
      PassesPrefix(run, longer, n - 1, key, timestamp);
    }
  }

  /** No envelope whose pair is never evicted passes twice. */
  ghost predicate AtMostOnce(ttl: nat, skew: nat, cap: nat) {
    forall run, key, timestamp :: IsGateRun(ttl, skew, cap, run) && NeverEvicted(run, key) ==>
      Passes(run, |run|, key, timestamp) <= 1
  }

  /** The guard lets each envelope through at most once exactly when the TTL exceeds the whole
      width of the freshness window. */
  lemma AtMostOnceExactly(ttl: nat, skew: nat, cap: Cap, key: Key)
    requires ttl > 0
    ensures AtMostOnce(ttl, skew, cap) <==> ttl > 2 * skew
  {
    if ttl > 2 * skew {
      forall run, k, timestamp | IsGateRun(ttl, skew, cap, run) && NeverEvicted(run, k)
        ensures Passes(run, |run|, k, timestamp) <= 1
      {
        GateMultiplicity(ttl, skew, cap, run, k, timestamp);
        NoEvictions(run, |run|, k);
      }
    } else {
      hide IsGateRun;
      assert Ttls(ttl, 1) == ttl;
      var run := GateBoundReached(ttl, skew, cap, key, skew, 1);
      assert Passes(run, |run|, key, skew) == 2;
    }
  }

  /** With the shipped constants (TTL 600 s, window 900 s either way) it does not: one envelope
      can pass four times, and never five unless its pair is evicted. */
  lemma ShippedGatePassesFourTimes(key: Key)
    ensures exists run :: IsGateRun(600, 900, 16_384, run)
              && NeverEvicted(run, key) && Passes(run, |run|, key, 900) == 4
    ensures forall run, k, timestamp |
              IsGateRun(600, 900, 16_384, run) && NeverEvicted(run, k) ::
              Passes(run, |run|, k, timestamp) <= 4
  {
    var run := GateBoundReached(600, 900, 16_384, key, 900, 3);
    hide IsGateRun;
    forall r, k, timestamp |
      IsGateRun(600, 900, 16_384, r) && NeverEvicted(r, k)
      ensures Passes(r, |r|, k, timestamp) <= 4
    {
      GateMultiplicity(600, 900, 16_384, r, k, timestamp);
      NoEvictions(r, |r|, k);
    }
  }

  // =====================================================================
  // The gate across crashes
  // =====================================================================

  datatype GateEvent = Arrives(now: nat, key: Key, timestamp: nat) | Crashes(now: nat)

  predicate Fresh(skew: nat, e: GateEvent) {
    e.Arrives? && AbsDiff(e.timestamp, e.now) <= skew
  }

  predicate GateClocked(from: nat, es: seq<GateEvent>)
    decreases |es|
  {
    es == [] || (from <= es[0].now && GateClocked(es[0].now, es[1..]))
  }

  /** A stale envelope never reaches the guard. */
  function GateNext(ttl: nat, skew: nat, cap: nat, pick: TieBreak, g: Guard, e: GateEvent): Guard {
    match e
    case Arrives(now, key, _) => if Fresh(skew, e) then Next(ttl, cap, pick, g, Observe(now, key)) else g
    case Crashes(now) => Next(ttl, cap, pick, g, Restart(now))
  }

  predicate GatePasses(ttl: nat, skew: nat, g: Guard, e: GateEvent) {
    Fresh(skew, e) && e.key !in Live(g.cache, e.now, ttl)
  }

  /** The pair of a passing arrival is put in place of this one. */
  function GateVictim(ttl: nat, cap: nat, pick: TieBreak, g: Guard, e: GateEvent): Option<Key> {
    Victim(Live(g.cache, e.now, ttl), cap, pick)
  }

  /** Passes of one envelope over a run with crashes, and evictions of its pair. */
  function PassesAcross(ttl: nat, skew: nat, cap: nat, pick: TieBreak, g: Guard, es: seq<GateEvent>, key: Key, timestamp: nat): nat
    decreases |es|
  {
    if es == [] then 0 else
    (if GatePasses(ttl, skew, g, es[0]) && es[0].key == key && es[0].timestamp == timestamp then 1 else 0)
    + PassesAcross(ttl, skew, cap, pick, GateNext(ttl, skew, cap, pick, g, es[0]), es[1..], key, timestamp)
  }

  function EvictionsAcross(ttl: nat, skew: nat, cap: nat, pick: TieBreak, g: Guard, es: seq<GateEvent>, key: Key): nat
    decreases |es|
  {
    if es == [] then 0 else
    (if GatePasses(ttl, skew, g, es[0]) && GateVictim(ttl, cap, pick, g, es[0]) == Some(key) then 1 else 0)
    + EvictionsAcross(ttl, skew, cap, pick, GateNext(ttl, skew, cap, pick, g, es[0]), es[1..], key)
  }

  /** The run without crashes so far that answered as the node did. */
  ghost predicate Mirrors(ttl: nat, skew: nat, cap: nat, now: nat, g: Guard, run: seq<Arrival>) {
    && IsGateRun(ttl, skew, cap, run)
    && (run != [] ==> run[|run| - 1].now <= now)
    && Coincide(ttl, cap, now, g)
    && Live(g.cache, now, ttl) == Live(CacheAt(run, |run|), now, ttl)
  }

  /** What the arrival `e` is for that run. */
  function Mirrored(ttl: nat, skew: nat, cap: nat, pick: TieBreak, run: seq<Arrival>, e: GateEvent): Arrival
    requires e.Arrives?
  {
    var before := CacheAt(run, |run|);
    var m := Live(before, e.now, ttl);
    var victim := Victim(m, cap, pick);
    if !Fresh(skew, e) then Arrival(e.now, e.key, e.timestamp, false, false, before, None, before)
    else if e.key in m then Arrival(e.now, e.key, e.timestamp, true, false, before, None, m)
    else Arrival(e.now, e.key, e.timestamp, true, true, before, victim, Admit(m, victim, e.key, e.now))
  }

  lemma MirroredHandled(ttl: nat, skew: nat, cap: Cap, pick: TieBreak, run: seq<Arrival>, e: GateEvent)
    requires PicksOldest(pick) && e.Arrives?
    ensures Handled(ttl, cap, Mirrored(ttl, skew, cap, pick, run, e))
  {
    hide Admit;
    var m := Live(CacheAt(run, |run|), e.now, ttl);
    if |m| >= cap {
      assert m != map[];
    }
  }

  lemma MirrorArrival(ttl: nat, skew: nat, cap: Cap, pick: TieBreak, now: nat, g: Guard, run: seq<Arrival>, e: GateEvent)
    requires PicksOldest(pick) && e.Arrives? && now <= e.now && Mirrors(ttl, skew, cap, now, g, run)
    ensures Mirrors(ttl, skew, cap, e.now, GateNext(ttl, skew, cap, pick, g, e), run + [Mirrored(ttl, skew, cap, pick, run, e)])
    ensures var a := Mirrored(ttl, skew, cap, pick, run, e);
            && (a.passed <==> GatePasses(ttl, skew, g, e)) && a.key == e.key && a.timestamp == e.timestamp
            && (a.passed ==> a.victim == GateVictim(ttl, cap, pick, g, e)) && (a.passed ==> a.inWindow)
  {
    hide IsGateRun, Admit, AbsDiff;
    var a := Mirrored(ttl, skew, cap, pick, run, e);
    var before := CacheAt(run, |run|);
    CoincideLater(ttl, cap, g, now, e.now);
    LiveLater(ttl, g.cache, now, e.now);
    LiveLater(ttl, before, now, e.now);
    MirroredHandled(ttl, skew, cap, pick, run, e);
    Extend(ttl, skew, cap, run, a);
    if Fresh(skew, e) {
      ObserveKeepsCoincide(ttl, cap, pick, g, e.now, e.key);
      assert GateNext(ttl, skew, cap, pick, g, e).cache == a.after;
    }
  }

  lemma MirrorCrash(ttl: nat, skew: nat, cap: Cap, pick: TieBreak, now: nat, g: Guard, run: seq<Arrival>, e: GateEvent)
    requires e.Crashes? && now <= e.now && Mirrors(ttl, skew, cap, now, g, run)
    ensures Mirrors(ttl, skew, cap, e.now, GateNext(ttl, skew, cap, pick, g, e), run)
  {
    hide IsGateRun;
    CoincideLater(ttl, cap, g, now, e.now);
    LiveLater(ttl, g.cache, now, e.now);
    LiveLater(ttl, CacheAt(run, |run|), now, e.now);
    RestartKeepsLive(ttl, cap, pick, g, e.now);
    LiveLater(ttl, g.cache, e.now, e.now);
  }

  lemma {:induction false} EvictionsPrefix(run: seq<Arrival>, longer: seq<Arrival>, n: nat, key: Key)
    requires n <= |run| <= |longer| && forall i :: 0 <= i < n ==> longer[i] == run[i]
    ensures Evictions(longer, n, key) == Evictions(run, n, key)
  {
    if n > 0 {
      EvictionsPrefix(run, longer, n - 1, key);
    }
  }

  lemma CountsOn(run: seq<Arrival>, a: Arrival, key: Key, timestamp: nat)
    ensures Passes(run + [a], |run| + 1, key, timestamp)
         == Passes(run, |run|, key, timestamp) + if Hit(a, key, timestamp) then 1 else 0
    ensures Evictions(run + [a], |run| + 1, key) == Evictions(run, |run|, key) + if Evicts(a, key) then 1 else 0
  {
    hide Hit, Evicts;
    PassesPrefix(run, run + [a], |run|, key, timestamp);
    EvictionsPrefix(run, run + [a], |run|, key);
  }

  /** Some run without crashes lets the envelope through as often and evicts its pair as often. */
  lemma {:induction false} CrashFreeMirror(ttl: nat, skew: nat, cap: Cap, pick: TieBreak, now: nat, g: Guard,
                                           run: seq<Arrival>, es: seq<GateEvent>, key: Key, timestamp: nat)
    returns (longer: seq<Arrival>)
    requires PicksOldest(pick) && GateClocked(now, es) && Mirrors(ttl, skew, cap, now, g, run)
    ensures IsGateRun(ttl, skew, cap, longer)
    ensures Passes(longer, |longer|, key, timestamp)
         == Passes(run, |run|, key, timestamp) + PassesAcross(ttl, skew, cap, pick, g, es, key, timestamp)
    ensures Evictions(longer, |longer|, key)
         == Evictions(run, |run|, key) + EvictionsAcross(ttl, skew, cap, pick, g, es, key)
    decreases |es|
  {
    if es == [] {
      longer := run;
    } else {
      hide GateNext, Mirrors, GatePasses, GateVictim, PicksOldest, Passes, Evictions;
      MirrorsIsGateRun(ttl, skew, cap, now, g, run);
      var e := es[0];
      var h := GateNext(ttl, skew, cap, pick, g, e);
      if e.Arrives? {
        var a := Mirrored(ttl, skew, cap, pick, run, e);
        MirrorArrival(ttl, skew, cap, pick, now, g, run, e);
        CountsOn(run, a, key, timestamp);
        longer := CrashFreeMirror(ttl, skew, cap, pick, e.now, h, run + [a], es[1..], key, timestamp);
      } else {
        CrashPassesNothing(ttl, skew, g, e);
        MirrorCrash(ttl, skew, cap, pick, now, g, run, e);
        longer := CrashFreeMirror(ttl, skew, cap, pick, e.now, h, run, es[1..], key, timestamp);
      }
    }
  }

  lemma MirrorsIsGateRun(ttl: nat, skew: nat, cap: nat, now: nat, g: Guard, run: seq<Arrival>)
    requires Mirrors(ttl, skew, cap, now, g, run)
    ensures IsGateRun(ttl, skew, cap, run)
  {
  }

  lemma CrashPassesNothing(ttl: nat, skew: nat, g: Guard, e: GateEvent)
    requires e.Crashes?
    ensures !GatePasses(ttl, skew, g, e)
  {
  }

  /** The bound holds over every run of a node, crashes and restarts included. */
  lemma GateMultiplicityAcrossCrashes(ttl: nat, skew: nat, cap: Cap, pick: TieBreak, es: seq<GateEvent>,
                                      key: Key, timestamp: nat)
    requires ttl > 0 && PicksOldest(pick) && GateClocked(0, es)
    ensures var g := Guard(map[], map[]);
            PassesAcross(ttl, skew, cap, pick, g, es, key, timestamp)
            <= 2 * skew / ttl + 1 + EvictionsAcross(ttl, skew, cap, pick, g, es, key)
  {
    hide Passes, Evictions, PassesAcross, EvictionsAcross, PicksOldest, GateClocked;
    var g := Guard(map[], map[]);
    assert Mirrors(ttl, skew, cap, 0, g, []);
    var run := CrashFreeMirror(ttl, skew, cap, pick, 0, g, [], es, key, timestamp);
    assert Passes([], 0, key, timestamp) == 0 && Evictions([], 0, key) == 0 by {
      EmptyCounts(key, timestamp);
    }
    GateMultiplicity(ttl, skew, cap, run, key, timestamp);
  }

  lemma EmptyCounts(key: Key, timestamp: nat)
    ensures Passes([], 0, key, timestamp) == 0 && Evictions([], 0, key) == 0
  {
  }
}
