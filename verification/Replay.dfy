/** The replay guard (crates/sidevers-core/src/replay.rs), its durable journal
    (crates/sidevers-net/src/replay_journal.rs) and the freshness gate in front of it
    (crates/sidevers-net/src/node.rs), as they run. */
module Replay {
  import opened Wrappers
  import opened Bytes
  import opened Keys
  import opened Envelopes

  const DEFAULT_TTL_SECS: nat := 600
  const DEFAULT_MAX_ENTRIES: nat := 16_384
  const SOFT_MAX_SKEW_SECS: nat := 900

  datatype Key = Key(from: PublicKey, nonce: Nonce)

  type Entries = map<Key, nat>

  type Cap = n: nat | n >= 1 witness 1

  /** Saturating subtraction. */
  function Age(now: nat, firstSeen: nat): nat {
    if now < firstSeen then 0 else now - firstSeen
  }

  predicate IsLive(m: Entries, k: Key, now: nat, ttl: nat) {
    k in m && Age(now, m[k]) < ttl
  }

  /** A pair is live until its TTL has passed since it was first seen, and under a TTL of zero never. */
  lemma LiveExactly(m: Entries, k: Key, now: nat, ttl: nat)
    ensures IsLive(m, k, now, ttl) <==> k in m && ttl > 0 && now < m[k] + ttl
  {
  }

  /** The entries younger than the TTL. */
  function Live(m: Entries, now: nat, ttl: nat): (l: Entries)
    ensures forall k :: k in l <==> IsLive(m, k, now, ttl)
    ensures forall k :: k in l ==> k in m && l[k] == m[k]
  {
    map k | k in m && IsLive(m, k, now, ttl) :: m[k]
  }

  function Expired(m: Entries, now: nat, ttl: nat): (s: set<Key>)
    ensures forall k :: k in s <==> k in m && !IsLive(m, k, now, ttl)
  {
    set k | k in m && !IsLive(m, k, now, ttl)
  }

  /** What pruning at start-up keeps: rows whose age is at most the TTL, one second more than
      `Live` keeps. */
  function Pruned(m: Entries, now: nat, ttl: nat): (p: Entries)
    ensures forall k :: k in p <==> k in m && m[k] >= Age(now, ttl)
    ensures forall k :: k in p ==> k in m && p[k] == m[k]
  {
    map k | k in m && m[k] >= Age(now, ttl) :: m[k]
  }

  predicate IsOldest(m: Entries, k: Key) {
    k in m && forall x :: x in m ==> m[k] <= m[x]
  }

  /** Cache and journal after a vacant `key` was admitted at `now`, `victim` having made room. */
  function Admit(m: Entries, victim: Option<Key>, key: Key, now: nat): Entries {
    (if victim.Some? then m - {victim.value} else m)[key := now]
  }

  /** Who makes room in the swept cache `m`: nobody below the cap, one of the oldest at it. */
  predicate MakesRoom(m: Entries, cap: nat, victim: Option<Key>) {
    if |m| < cap then victim.None? else victim.Some? && IsOldest(m, victim.value)
  }

  /** The effect of one observation on the cache, whichever of the oldest entries is evicted. */
  predicate Observed(ttl: nat, cap: nat, before: Entries, now: nat, key: Key, victim: Option<Key>, after: Entries, replay: bool) {
    var m := Live(before, now, ttl);
    && (replay <==> key in m)
    && (if replay then after == m
        else MakesRoom(m, cap, victim) && after == Admit(m, victim, key, now))
  }

  /** The journal table: one row per pair. Writes succeed. */
  class ReplayJournal {
    var rows: Entries

    constructor ()
      ensures rows == map[]
    {
      rows := map[];
    }

    method Record(k: Key, firstSeen: nat)
      modifies this
      ensures rows == old(rows)[k := firstSeen]
    {
      rows := rows[k := firstSeen];
    }

    method Evict(k: Key)
      modifies this
      ensures rows == old(rows) - {k}
    {
      rows := rows - {k};
    }

    /** Drop the stale rows and list the rest, in no particular order. */
    method LoadActive(now: nat, ttl: nat) returns (out: seq<(Key, nat)>)
      modifies this
      ensures rows == Pruned(old(rows), now, ttl)
      ensures Lists(out, rows)
    {
      rows := Pruned(rows, now, ttl);
      out := [];
      var rest := rows.Keys;
      while rest != {}
        invariant rest <= rows.Keys
        invariant forall p :: p in out ==> p.0 in rows && p.1 == rows[p.0] && p.0 !in rest
        invariant forall i, j :: 0 <= i < j < |out| ==> out[i].0 != out[j].0
        invariant forall k :: k in rows.Keys - rest ==> (k, rows[k]) in out
        invariant rows == old(Pruned(rows, now, ttl))
        decreases rest
      {
        var k :| k in rest;
        out := out + [(k, rows[k])];
        rest := rest - {k};
      }
    }
  }

  /** `out` lists exactly the rows `m`, each once. */
  ghost predicate Lists(out: seq<(Key, nat)>, m: Entries) {
    && (forall i, j :: 0 <= i < j < |out| ==> out[i].0 != out[j].0)
    && (forall p :: p in out ==> p.0 in m && p.1 == m[p.0])
    && (forall k :: k in m ==> (k, m[k]) in out)
  }

  /** The pairs of `list` that are live, inserted one after the other. */
  function Inserted(m: Entries, list: seq<(Key, nat)>, now: nat, ttl: nat): Entries {
    if list == [] then m
    else
      var before := Inserted(m, list[..|list| - 1], now, ttl);
      var p := list[|list| - 1];
      if Age(now, p.1) >= ttl then before else before[p.0 := p.1]
  }

  lemma {:induction false} InsertedAt(m: Entries, list: seq<(Key, nat)>, rows: Entries, now: nat, ttl: nat, k: Key)
    requires forall p :: p in list ==> p.0 in rows && p.1 == rows[p.0]
    ensures var n := Inserted(m, list, now, ttl);
            if k in rows && (k, rows[k]) in list && IsLive(rows, k, now, ttl) then k in n && n[k] == rows[k]
            else (k in n <==> k in m) && (k in m ==> n[k] == m[k])
  {
    if list != [] {
      var before, p := list[..|list| - 1], list[|list| - 1];
      assert list == before + [p];
      InsertedAt(m, before, rows, now, ttl, k);
    }
  }

  lemma InsertedIsLive(m: Entries, list: seq<(Key, nat)>, rows: Entries, now: nat, ttl: nat)
    requires Lists(list, rows)
    ensures Inserted(m, list, now, ttl) == m + Live(rows, now, ttl)
  {
    hide Inserted;
    var n, all := Inserted(m, list, now, ttl), m + Live(rows, now, ttl);
    forall k ensures (k in n <==> k in all) && (k in all ==> n[k] == all[k]) {
      InsertedAt(m, list, rows, now, ttl, k);
    }
  }

  /** What is left of `all` after the oldest entries over the cap were dropped. */
  ghost predicate Newest(kept: Entries, all: Entries, cap: nat) {
    && |kept| == (if |all| < cap then |all| else cap)
    && (forall k :: k in kept ==> k in all && kept[k] == all[k])
    && (forall k, d :: k in kept && d in all && d !in kept ==> all[d] <= all[k])
  }

  /** Under the cap nothing is dropped. */
  lemma NothingTrimmed(kept: Entries, all: Entries, cap: nat)
    requires Newest(kept, all, cap) && |all| <= cap
    ensures kept == all
  {
    SameSize(kept.Keys, all.Keys);
  }

  class ReplayCache {
    const ttl: nat
    const maxEntries: Cap
    var entries: Entries
    var journal: ReplayJournal?

    constructor (ttlSecs: nat, cap: nat)
      ensures ttl == ttlSecs && maxEntries == (if cap < 1 then 1 else cap)
      ensures entries == map[] && journal == null
    {
      ttl := ttlSecs;
      maxEntries := if cap < 1 then 1 else cap;
      entries := map[];
      journal := null;
    }

    method SetJournal(j: ReplayJournal)
      modifies this
      ensures journal == j && entries == old(entries)
    {
      journal := j;
    }

    /** Some entry with the least `firstSeen`; which one, when several tie, is left open. */
    method FindOldest() returns (r: Option<Key>)
      ensures if entries == map[] then r == None else r.Some? && IsOldest(entries, r.value)
    {
      r := None;
      var rest := entries.Keys;
      while rest != {}
        invariant rest <= entries.Keys
        invariant r.None? <==> rest == entries.Keys
        invariant r.Some? ==> r.value in entries && forall x :: x in entries.Keys - rest ==> entries[r.value] <= entries[x]
        decreases rest
      {
        var k :| k in rest;
        if r.None? || entries[k] < entries[r.value] {
          r := Some(k);
        }
        rest := rest - {k};
      }
    }

    /** Insert journaled entries that are still live over what the cache holds, then trim the
        oldest down to the cap, without telling a journal. */
    method Preload(now: nat, rows: Entries, list: seq<(Key, nat)>)
      requires Lists(list, rows)
      modifies this`entries
      ensures Newest(entries, old(entries) + Live(rows, now, ttl), maxEntries)
    {
      InsertLive(now, rows, list);
      TrimToCap();
    }

    method InsertLive(now: nat, rows: Entries, list: seq<(Key, nat)>)
      requires Lists(list, rows)
      modifies this`entries
      ensures entries == old(entries) + Live(rows, now, ttl)
    {
      for i := 0 to |list|
        invariant entries == Inserted(old(entries), list[..i], now, ttl)
      {
        assert list[..i + 1][..i] == list[..i];
        if Age(now, list[i].1) >= ttl {
          continue;
        }
        entries := entries[list[i].0 := list[i].1];
      }
      assert list[..|list|] == list;
      InsertedIsLive(old(entries), list, rows, now, ttl);
    }

    method TrimToCap()
      modifies this`entries
      ensures Newest(entries, old(entries), maxEntries)
    {
      ghost var all := entries;
      while |entries| > maxEntries
        invariant forall k :: k in entries ==> k in all && entries[k] == all[k]
        invariant forall k, d :: k in entries && d in all && d !in entries ==> all[d] <= all[k]
        invariant |entries| >= if |all| < maxEntries then |all| else maxEntries
        decreases |entries|
      {
        var oldest := FindOldest();
        if oldest.None? {
          break;
        }
        ghost var before := entries;
        entries := entries - {oldest.value};
        assert before.Keys == entries.Keys + {oldest.value};
      }
      SubsetSize(entries.Keys, all.Keys);
    }

    /** Remove expired entries, telling the journal about each. */
    method Sweep(now: nat)
      modifies this`entries, journal
      ensures entries == Live(old(entries), now, ttl)
      ensures journal != null ==> journal.rows == old(journal.rows) - Expired(old(entries), now, ttl)
    {
      ghost var start := entries;
      ghost var rows := if journal == null then map[] else journal.rows;
      var rest := entries.Keys;
      while rest != {}
        invariant rest <= start.Keys
        invariant forall k :: k in entries <==> k in start && (k in rest || IsLive(start, k, now, ttl))
        invariant forall k :: k in entries ==> entries[k] == start[k]
        invariant journal != null ==> journal.rows == rows - (Expired(start, now, ttl) - rest)
        decreases rest
      {
        var k :| k in rest;
        rest := rest - {k};
        if Age(now, entries[k]) >= ttl {
          if journal != null {
            journal.Evict(k);
          }
          entries := entries - {k};
          assert Expired(start, now, ttl) - rest == (Expired(start, now, ttl) - (rest + {k})) + {k};
        } else {
          assert Expired(start, now, ttl) - rest == Expired(start, now, ttl) - (rest + {k});
        }
      }
    }

    /** True iff the pair was already cached. A hit does not refresh the entry. */
    method Observe(now: nat, key: Key) returns (replay: bool, ghost victim: Option<Key>)
      modifies this`entries, journal
      ensures Observed(ttl, maxEntries, old(entries), now, key, victim, entries, replay)
      ensures journal != null ==>
                journal.rows == RowsAfter(ttl, old(entries), old(journal.rows), now, key, victim, replay)
    {
      Sweep(now);
      victim := None;
      if key in entries {
        return true, None;
      }
      if |entries| >= maxEntries {
        var oldest := FindOldest();
        if oldest.Some? {
          victim := oldest;
          entries := entries - {oldest.value};
          if journal != null {
            journal.Evict(oldest.value);
          }
        }
      }
      entries := entries[key := now];
      if journal != null {
        journal.Record(key, now);
      }
      replay := false;
    }
  }

  /** The journal rows after an observation. */
  function RowsAfter(ttl: nat, cache: Entries, rows: Entries, now: nat, key: Key, victim: Option<Key>, replay: bool): Entries {
    var swept := rows - Expired(cache, now, ttl);
    if replay then swept else Admit(swept, victim, key, now)
  }

  /** Start-up: load what the journal still holds into a fresh cache, then attach it. */
  method Start(journal: ReplayJournal, now: nat) returns (cache: ReplayCache)
    modifies journal
    ensures fresh(cache) && cache.journal == journal
    ensures cache.ttl == 600 && cache.maxEntries == 16_384
    ensures journal.rows == Pruned(old(journal.rows), now, 600)
    ensures Newest(cache.entries, Live(journal.rows, now, 600), 16_384)
  {
    var list := journal.LoadActive(now, DEFAULT_TTL_SECS);
    cache := new ReplayCache(DEFAULT_TTL_SECS, DEFAULT_MAX_ENTRIES);
    cache.Preload(now, journal.rows, list);
    assert map[] + Live(journal.rows, now, DEFAULT_TTL_SECS) == Live(journal.rows, now, DEFAULT_TTL_SECS);
    cache.SetJournal(journal);
  }

  function AbsDiff(a: nat, b: nat): nat {
    if a < b then b - a else a - b
  }

  /** The freshness gate: too much clock skew drops the envelope before the cache sees it. */
  method CheckFreshnessAndReplay(cache: ReplayCache, now: nat, env: Envelope) returns (pass: bool, ghost victim: Option<Key>)
    modifies cache`entries, cache.journal
    ensures AbsDiff(env.timestamp, now) > 900 ==>
              !pass && cache.entries == old(cache.entries)
              && (cache.journal != null ==> cache.journal.rows == old(cache.journal.rows))
    ensures AbsDiff(env.timestamp, now) <= 900 ==>
              Observed(cache.ttl, cache.maxEntries, old(cache.entries), now, Key(env.from, env.nonce), victim, cache.entries, !pass)
              && (cache.journal != null ==>
                    cache.journal.rows == RowsAfter(cache.ttl, old(cache.entries), old(cache.journal.rows), now,
                                                    Key(env.from, env.nonce), victim, !pass))
  {
    victim := None;
    var skew := AbsDiff(env.timestamp, now);
    if skew > SOFT_MAX_SKEW_SECS {
      return false, None;
    }
    var replay;
    replay, victim := cache.Observe(now, Key(env.from, env.nonce));
    return !replay, victim;
  }
}
