/** Co-holders that apply the same changes in different orders (crates/sidevers-net/src/side.rs,
    `apply_delta`): last write wins for profiles and relationships, removal wins for devices. */
module SideConvergence {
  import opened Wrappers
  import opened Bytes
  import opened Keys
  import opened Capabilities
  import opened Sides
  import opened SideRuns

  /** A change and the local clock when it arrives, which differs from holder to holder. */
  datatype Arrival = Arrival(delta: Delta, now: u64)

  function Applied(id: Identity, w: World, xs: seq<Arrival>): World {
    if xs == [] then w
    else Applying(id, Applied(id, w, xs[..|xs| - 1]), xs[|xs| - 1].delta, xs[|xs| - 1].now)
  }

  function Deltas(xs: seq<Arrival>): set<Delta> {
    set x | x in xs :: x.delta
  }

  /** The changes that merge; the other three are unconditional and follow arrival order. */
  predicate Merges(d: Delta) {
    !d.ProfileCleared? && !d.RelationshipRemoved? && !d.LifecycleChanged?
  }

  ghost predicate AllMerge(ds: set<Delta>) {
    forall d :: d in ds ==> Merges(d)
  }

  /** No two different profiles share a stamp, nor two different relationships with one address. */
  ghost predicate StampsDiffer(ds: set<Delta>) {
    && (forall p, q :: ProfileUpdated(Some(p)) in ds && ProfileUpdated(Some(q)) in ds && p.updatedAt == q.updatedAt
                       ==> p == q)
    && (forall r, s :: RelationshipUpserted(r) in ds && RelationshipUpserted(s) in ds
                       && r.address == s.address && r.addedAt == s.addedAt
                       ==> FromRecord(r) == FromRecord(s))
  }

  // ---------------------------------------------------------------------
  // What the changes leave, as a function of the set of them
  // ---------------------------------------------------------------------

  /** The profile with the latest stamp; the one held before yields to an equal stamp. */
  ghost predicate LatestProfile(before: Option<Profile>, ds: set<Delta>, after: Option<Profile>) {
    && (after.Some? ==> ProfileUpdated(after) in ds || after == before)
    && (before.Some? ==> after.Some? && before.value.updatedAt <= after.value.updatedAt)
    && (forall p :: ProfileUpdated(Some(p)) in ds ==> after.Some? && p.updatedAt <= after.value.updatedAt)
    && (after.Some? && ProfileUpdated(after) !in ds ==>
          forall p :: ProfileUpdated(Some(p)) in ds ==> p.updatedAt < after.value.updatedAt)
  }

  function At(rels: map<PublicKey, Relationship>, addr: PublicKey): Option<Relationship> {
    if addr in rels then Some(rels[addr]) else None
  }

  ghost predicate Sent(ds: set<Delta>, addr: PublicKey, r: Relationship) {
    exists rec :: RelationshipUpserted(rec) in ds && rec.address == addr && FromRecord(rec) == r
  }

  /** The same for the relationship under one address. */
  ghost predicate LatestRelationship(before: Option<Relationship>, ds: set<Delta>, addr: PublicKey,
                                     after: Option<Relationship>) {
    && (after.Some? ==> Sent(ds, addr, after.value) || after == before)
    && (before.Some? ==> after.Some? && before.value.addedAt <= after.value.addedAt)
    && (forall rec :: RelationshipUpserted(rec) in ds && rec.address == addr
                      ==> after.Some? && rec.addedAt <= after.value.addedAt)
    && (after.Some? && !Sent(ds, addr, after.value) ==>
          forall rec :: RelationshipUpserted(rec) in ds && rec.address == addr ==> rec.addedAt < after.value.addedAt)
  }

  ghost predicate Added(ds: set<Delta>, device: PublicKey) {
    exists dial :: CoHolderAdded(device, dial) in ds
  }

  /** Present exactly when held before or let in, and never removed. */
  ghost predicate IsCoHolder(id: Identity, m: Memory, ds: set<Delta>, device: PublicKey) {
    && CoHolderRemoved(device) !in ds
    && (device in m.coHolders || (Added(ds, device) && device != id.address && device !in m.revoked))
  }

  ghost predicate Merged(id: Identity, m: Memory, ds: set<Delta>, after: Memory) {
    && LatestProfile(m.profile, ds, after.profile)
    && (forall addr :: LatestRelationship(At(m.relationships, addr), ds, addr, At(after.relationships, addr)))
    && (forall addr :: addr in after.retiredSeen <==> addr in m.retiredSeen || RetiredObserved(addr) in ds)
    && (forall device :: device in after.revoked <==> device in m.revoked || CoHolderRemoved(device) in ds)
    && (forall device :: device in after.coHolders <==> IsCoHolder(id, m, ds, device))
  }

  // ---------------------------------------------------------------------
  // One more change
  // ---------------------------------------------------------------------

  lemma ProfileStep(id: Identity, w: World, before: Option<Profile>, ds: set<Delta>, d: Delta, now: u64)
    requires Merges(d) && LatestProfile(before, ds, w.mem.profile)
    ensures LatestProfile(before, ds + {d}, Applying(id, w, d, now).mem.profile)
  {
    hide UpsertedRelationship, InsertedOnce, FromRecord;
  }

  lemma RelationshipStep(id: Identity, w: World, before: Option<Relationship>, ds: set<Delta>, addr: PublicKey,
                         d: Delta, now: u64)
    requires Merges(d) && LatestRelationship(before, ds, addr, At(w.mem.relationships, addr))
    ensures LatestRelationship(before, ds + {d}, addr, At(Applying(id, w, d, now).mem.relationships, addr))
  {
    hide UpsertedRelationship, InsertedOnce;
    var was, after := At(w.mem.relationships, addr), At(Applying(id, w, d, now).mem.relationships, addr);
    if was.Some? && Sent(ds, addr, was.value) {
      var rec :| RelationshipUpserted(rec) in ds && rec.address == addr && FromRecord(rec) == was.value;
      assert RelationshipUpserted(rec) in ds + {d};
    }
    if d.RelationshipUpserted? && d.rel.address == addr && after == Some(FromRecord(d.rel)) {
      assert Sent(ds + {d}, addr, after.value);
    }
  }

  lemma DeviceStep(id: Identity, m: Memory, w: World, ds: set<Delta>, device: PublicKey, d: Delta, now: u64)
    requires Merges(d)
    requires device in w.mem.coHolders <==> IsCoHolder(id, m, ds, device)
    requires device in w.mem.revoked <==> device in m.revoked || CoHolderRemoved(device) in ds
    ensures device in Applying(id, w, d, now).mem.coHolders <==> IsCoHolder(id, m, ds + {d}, device)
    ensures device in Applying(id, w, d, now).mem.revoked
            <==> device in m.revoked || CoHolderRemoved(device) in ds + {d}
  {
    hide UpsertedRelationship, InsertedOnce, FromRecord;
    if Added(ds, device) {
      var dial :| CoHolderAdded(device, dial) in ds;
      assert CoHolderAdded(device, dial) in ds + {d};
    }
    if d.CoHolderAdded? {
      assert CoHolderAdded(d.device, d.dial) in ds + {d};
    }
  }

  lemma RetiredStep(id: Identity, m: Memory, w: World, ds: set<Delta>, addr: PublicKey, d: Delta, now: u64)
    requires Merges(d)
    requires addr in w.mem.retiredSeen <==> addr in m.retiredSeen || RetiredObserved(addr) in ds
    ensures addr in Applying(id, w, d, now).mem.retiredSeen
            <==> addr in m.retiredSeen || RetiredObserved(addr) in ds + {d}
  {
    hide UpsertedRelationship, InsertedOnce, FromRecord;
  }

  lemma MergedStep(id: Identity, m: Memory, w: World, ds: set<Delta>, d: Delta, now: u64)
    requires Merges(d) && Merged(id, m, ds, w.mem)
    ensures Merged(id, m, ds + {d}, Applying(id, w, d, now).mem)
  {
    hide Applying, LatestProfile, LatestRelationship, IsCoHolder, Merges;
    var after := Applying(id, w, d, now).mem;
    ProfileStep(id, w, m.profile, ds, d, now);
    forall addr
      ensures LatestRelationship(At(m.relationships, addr), ds + {d}, addr, At(after.relationships, addr))
    {
      RelationshipStep(id, w, At(m.relationships, addr), ds, addr, d, now);
    }
    forall addr ensures addr in after.retiredSeen <==> addr in m.retiredSeen || RetiredObserved(addr) in ds + {d} {
      RetiredStep(id, m, w, ds, addr, d, now);
    }
    forall device
      ensures device in after.coHolders <==> IsCoHolder(id, m, ds + {d}, device)
      ensures device in after.revoked <==> device in m.revoked || CoHolderRemoved(device) in ds + {d}
    {
      DeviceStep(id, m, w, ds, device, d, now);
    }
  }

  /** Whatever the order and the repetitions, only the set of changes decides. */
  lemma {:induction false} AppliedIsMerged(id: Identity, w: World, xs: seq<Arrival>)
    requires AllMerge(Deltas(xs))
    ensures Merged(id, w.mem, Deltas(xs), Applied(id, w, xs).mem)
  {
    hide Applying, Merges;
    if xs == [] {
      assert Deltas(xs) == {};
    } else {
      hide Merged;
      var before := xs[..|xs| - 1];
      var x := xs[|xs| - 1];
      assert xs == before + [x];
      assert Deltas(xs) == Deltas(before) + {x.delta};
      AppliedIsMerged(id, w, before);
      MergedStep(id, w.mem, Applied(id, w, before), Deltas(before), x.delta, x.now);
    }
  }

  // ---------------------------------------------------------------------
  // Convergence
  // ---------------------------------------------------------------------

  /** Agreement on everything but dial addresses and local times. */
  predicate Agree(a: Memory, b: Memory) {
    && a.profile == b.profile && a.relationships == b.relationships
    && a.retiredSeen == b.retiredSeen && a.revoked == b.revoked
    && a.coHolders.Keys == b.coHolders.Keys
  }

  lemma LatestProfileUnique(before: Option<Profile>, ds: set<Delta>, a: Option<Profile>, b: Option<Profile>)
    requires StampsDiffer(ds) && LatestProfile(before, ds, a) && LatestProfile(before, ds, b)
    ensures a == b
  {
    if a.Some? && b.Some? {
      assert ProfileUpdated(Some(a.value)) in ds || a == before;
      assert ProfileUpdated(Some(b.value)) in ds || b == before;
    }
  }

  lemma LatestRelationshipUnique(before: Option<Relationship>, ds: set<Delta>, addr: PublicKey,
                                 a: Option<Relationship>, b: Option<Relationship>)
    requires StampsDiffer(ds)
    requires LatestRelationship(before, ds, addr, a) && LatestRelationship(before, ds, addr, b)
    ensures a == b
  {
    if a.Some? && b.Some? {
      if Sent(ds, addr, a.value) && Sent(ds, addr, b.value) {
        var r :| RelationshipUpserted(r) in ds && r.address == addr && FromRecord(r) == a.value;
        var s :| RelationshipUpserted(s) in ds && s.address == addr && FromRecord(s) == b.value;
        assert r.addedAt == s.addedAt;
      }
    }
  }

  lemma MergedUnique(id: Identity, m: Memory, ds: set<Delta>, a: Memory, b: Memory)
    requires StampsDiffer(ds) && Merged(id, m, ds, a) && Merged(id, m, ds, b)
    ensures Agree(a, b)
  {
    hide StampsDiffer, LatestProfile, LatestRelationship, IsCoHolder;
    LatestProfileUnique(m.profile, ds, a.profile, b.profile);
    forall addr ensures At(a.relationships, addr) == At(b.relationships, addr) {
      LatestRelationshipUnique(At(m.relationships, addr), ds, addr, At(a.relationships, addr), At(b.relationships, addr));
    }
    assert forall addr :: addr in a.relationships <==> At(a.relationships, addr).Some?;
    assert forall addr :: addr in b.relationships <==> At(b.relationships, addr).Some?;
    assert a.relationships == b.relationships;
  }

  /** Only what co-holders agree on enters the outcome. */
  lemma MergedFromAgreed(id: Identity, other: Identity, m: Memory, n: Memory, ds: set<Delta>, a: Memory)
    requires id.address == other.address && Agree(m, n) && Merged(id, m, ds, a)
    ensures Merged(other, n, ds, a)
  {
    hide LatestProfile, LatestRelationship, Added;
    forall addr ensures LatestRelationship(At(n.relationships, addr), ds, addr, At(a.relationships, addr)) {
      assert LatestRelationship(At(m.relationships, addr), ds, addr, At(a.relationships, addr));
    }
    forall device ensures device in a.coHolders <==> IsCoHolder(other, n, ds, device) {
      assert device in m.coHolders.Keys <==> device in n.coHolders.Keys;
    }
  }

  // ---------------------------------------------------------------------
  // Holders that restart
  // ---------------------------------------------------------------------

  datatype Moment = Change(arrival: Arrival) | Restarts

  function Living(id: Identity, w: World, m: Moment): World {
    match m
    case Change(x) => Applying(id, w, x.delta, x.now)
    case Restarts => Reloading(w)
  }

  function Lived(id: Identity, w: World, ms: seq<Moment>): World {
    if ms == [] then w else Living(id, Lived(id, w, ms[..|ms| - 1]), ms[|ms| - 1])
  }

  function Arrivals(ms: seq<Moment>): seq<Arrival> {
    if ms == [] then []
    else Arrivals(ms[..|ms| - 1]) + if ms[|ms| - 1].Change? then [ms[|ms| - 1].arrival] else []
  }

  function Changes(ms: seq<Moment>): set<Delta> {
    Deltas(Arrivals(ms))
  }

  /** Whenever the holder restarts, its rows say what its memory says. */
  ghost predicate RestartsCalmly(id: Identity, w: World, ms: seq<Moment>) {
    ms == [] || (
      var before := ms[..|ms| - 1];
      && RestartsCalmly(id, w, before)
      && (ms[|ms| - 1].Restarts? ==> Reloading(Lived(id, w, before)) == Lived(id, w, before)))
  }

  lemma {:induction false} LivedIsApplied(id: Identity, w: World, ms: seq<Moment>)
    requires RestartsCalmly(id, w, ms)
    ensures Lived(id, w, ms) == Applied(id, w, Arrivals(ms))
  {
    hide Applying, Reloading;
    if ms != [] {
      var before, m := ms[..|ms| - 1], ms[|ms| - 1];
      LivedIsApplied(id, w, before);
      if m.Change? {
        var xs := Arrivals(before);
        assert (xs + [m.arrival])[..|xs + [m.arrival]| - 1] == xs;
      } else {
        assert Arrivals(ms) == Arrivals(before);
      }
    }
  }

  /** Two holders of one side that agree, and then apply the same merging changes, each in its own
      order, with its own repetitions, clock and calm restarts, still agree. */
  lemma SameChangesAgree(id: Identity, other: Identity, v: World, w: World, ms: seq<Moment>, ns: seq<Moment>)
    requires id.address == other.address && Agree(v.mem, w.mem)
    requires Changes(ms) == Changes(ns) && AllMerge(Changes(ms)) && StampsDiffer(Changes(ms))
    requires RestartsCalmly(id, v, ms) && RestartsCalmly(other, w, ns)
    ensures Agree(Lived(id, v, ms).mem, Lived(other, w, ns).mem)
  {
    hide Applied, StampsDiffer, Merged, AllMerge, Lived, RestartsCalmly, Arrivals, Deltas;
    LivedIsApplied(id, v, ms);
    LivedIsApplied(other, w, ns);
    var xs, ys := Arrivals(ms), Arrivals(ns);
    AppliedIsMerged(id, v, xs);
    AppliedIsMerged(other, w, ys);
    MergedFromAgreed(id, other, v.mem, w.mem, Deltas(xs), Applied(id, v, xs).mem);
    MergedUnique(other, w.mem, Deltas(xs), Applied(id, v, xs).mem, Applied(other, w, ys).mem);
  }

  /** Holders that never restart. */
  lemma {:induction false} Uninterrupted(id: Identity, w: World, xs: seq<Arrival>) returns (ms: seq<Moment>)
    ensures RestartsCalmly(id, w, ms) && Arrivals(ms) == xs && Lived(id, w, ms) == Applied(id, w, xs)
  {
    hide Living;
    if xs == [] {
      ms := [];
    } else {
      var before := Uninterrupted(id, w, xs[..|xs| - 1]);
      ms := before + [Change(xs[|xs| - 1])];
      assert ms[..|ms| - 1] == before;
      assert xs == xs[..|xs| - 1] + [xs[|xs| - 1]];
      LivedIsApplied(id, w, ms);
    }
  }

  /** Holders fed from the changes `ds` agree from `w` on. */
  ghost predicate OrderNeverShows(id: Identity, w: World, ds: set<Delta>) {
    forall xs, ys :: Deltas(xs) == Deltas(ys) && Deltas(xs) <= ds ==>
      Agree(Applied(id, w, xs).mem, Applied(id, w, ys).mem)
  }

  lemma PairApplied(id: Identity, w: World, d: Delta, e: Delta)
    ensures Deltas([Arrival(d, 0), Arrival(e, 0)]) == {d, e}
    ensures Applied(id, w, [Arrival(d, 0), Arrival(e, 0)]) == Applying(id, Applying(id, w, d, 0), e, 0)
  {
    hide Applying;
    var x, y := Arrival(d, 0), Arrival(e, 0);
    assert [x][..0] == [];
    assert Applied(id, w, [x]) == Applying(id, w, d, 0);
    assert [x, y][..|[x, y]| - 1] == [x];
    assert Deltas([x, y]) == {d, e} by {
      assert x in [x, y] && y in [x, y];
    }
  }

  /** A tie goes to whichever comes last. */
  lemma TieShowsOrder(id: Identity, ds: set<Delta>, d: Delta, e: Delta)
    requires d in ds && e in ds
    requires !Agree(Applying(id, Applying(id, World(NEW_SIDE, EMPTY_DISK), d, 0), e, 0).mem,
                    Applying(id, Applying(id, World(NEW_SIDE, EMPTY_DISK), e, 0), d, 0).mem)
    ensures !OrderNeverShows(id, World(NEW_SIDE, EMPTY_DISK), ds)
  {
    hide Applying, Agree;
    var w := World(NEW_SIDE, EMPTY_DISK);
    PairApplied(id, w, d, e);
    PairApplied(id, w, e, d);
    assert {d, e} == {e, d};
  }

  lemma ProfileTie(id: Identity, ds: set<Delta>, p: Profile, q: Profile)
    requires ProfileUpdated(Some(p)) in ds && ProfileUpdated(Some(q)) in ds && p.updatedAt == q.updatedAt && p != q
    ensures !OrderNeverShows(id, World(NEW_SIDE, EMPTY_DISK), ds)
  {
    hide OrderNeverShows;
    TieShowsOrder(id, ds, ProfileUpdated(Some(p)), ProfileUpdated(Some(q)));
  }

  lemma RelationshipTie(id: Identity, ds: set<Delta>, r: RelationshipRecord, s: RelationshipRecord)
    requires RelationshipUpserted(r) in ds && RelationshipUpserted(s) in ds
    requires r.address == s.address && r.addedAt == s.addedAt && FromRecord(r) != FromRecord(s)
    ensures !OrderNeverShows(id, World(NEW_SIDE, EMPTY_DISK), ds)
  {
    hide OrderNeverShows;
    var w := World(NEW_SIDE, EMPTY_DISK);
    var d, e := RelationshipUpserted(r), RelationshipUpserted(s);
    assert Applying(id, Applying(id, w, d, 0), e, 0).mem.relationships[r.address] == FromRecord(s);
    assert Applying(id, Applying(id, w, e, 0), d, 0).mem.relationships[r.address] == FromRecord(r);
    TieShowsOrder(id, ds, d, e);
  }

  lemma FewerStampsDiffer(ds: set<Delta>, es: set<Delta>)
    requires StampsDiffer(ds) && es <= ds
    ensures StampsDiffer(es)
  {
  }

  /** Merging changes converge from every state, in every order, exactly when stamps tell
      different versions apart. */
  lemma ConvergesExactly(id: Identity, ds: set<Delta>)
    requires AllMerge(ds)
    ensures (forall w :: OrderNeverShows(id, w, ds)) <==> StampsDiffer(ds)
  {
    if StampsDiffer(ds) {
      forall w ensures OrderNeverShows(id, w, ds) {
        forall xs, ys | Deltas(xs) == Deltas(ys) && Deltas(xs) <= ds
          ensures Agree(Applied(id, w, xs).mem, Applied(id, w, ys).mem)
        {
          FewerStampsDiffer(ds, Deltas(xs));
          var ms := Uninterrupted(id, w, xs);
          var ns := Uninterrupted(id, w, ys);
          SameChangesAgree(id, id, w, w, ms, ns);
        }
      }
    } else {
      hide OrderNeverShows, FromRecord;
      if p, q :| ProfileUpdated(Some(p)) in ds && ProfileUpdated(Some(q)) in ds && p.updatedAt == q.updatedAt && p != q {
        ProfileTie(id, ds, p, q);
      } else {
        var r, s :| RelationshipUpserted(r) in ds && RelationshipUpserted(s) in ds && r.address == s.address
                    && r.addedAt == s.addedAt && FromRecord(r) != FromRecord(s);
        RelationshipTie(id, ds, r, s);
      }
    }
  }

  // ---------------------------------------------------------------------
  // Restarts at any moment
  // ---------------------------------------------------------------------

  /** The changes a holder of `m` could take up for one address are one version, which keeps the
      time the relationship already has, if any, and whose capabilities the column keeps. */
  ghost predicate VersionsSettled(m: Memory, ds: set<Delta>) {
    && (forall r :: RelationshipUpserted(r) in ds && SupersedesRelationship(m, r) ==> WrittenWhole(m, FromRecord(r)))
    && (forall r, s | RelationshipUpserted(r) in ds && RelationshipUpserted(s) in ds && r.address == s.address ::
          SupersedesRelationship(m, r) && SupersedesRelationship(m, s) ==> r.addedAt == s.addedAt)
  }

  /** Where the relationship under `addr` comes from, in memory reached from `m`. */
  ghost predicate Sprung(m: Memory, ds: set<Delta>, n: Memory, addr: PublicKey) {
    || At(n.relationships, addr) == At(m.relationships, addr)
    || exists r :: RelationshipUpserted(r) in ds && r.address == addr && SupersedesRelationship(m, r)
                   && At(n.relationships, addr) == Some(FromRecord(r))
  }

  lemma SupersedesSince(m: Memory, ds: set<Delta>, n: Memory, r: RelationshipRecord)
    requires Sprung(m, ds, n, r.address) && SupersedesRelationship(n, r)
    ensures SupersedesRelationship(m, r)
  {
  }

  lemma SettledWritesThrough(m: Memory, ds: set<Delta>, n: Memory, d: Delta)
    requires VersionsSettled(m, ds) && d in ds && d.RelationshipUpserted? && Sprung(m, ds, n, d.rel.address)
    ensures WritesThrough(n, ApplyDelta(d))
  {
    var r := d.rel;
    if SupersedesRelationship(n, r) {
      SupersedesSince(m, ds, n, r);
      assert WrittenWhole(m, FromRecord(r));
    }
  }

  lemma SprungStep(id: Identity, m: Memory, ds: set<Delta>, w: World, d: Delta, now: u64, addr: PublicKey)
    requires d in ds && Merges(d) && Sprung(m, ds, w.mem, addr)
    ensures Sprung(m, ds, Applying(id, w, d, now).mem, addr)
  {
    hide UpsertedRelationship, InsertedOnce, FromRecord;
    if d.RelationshipUpserted? {
      RecordAddress(d.rel);
      if d.rel.address == addr && SupersedesRelationship(w.mem, d.rel) {
        SupersedesSince(m, ds, w.mem, d.rel);
        assert At(Applying(id, w, d, now).mem.relationships, addr) == Some(FromRecord(d.rel));
      }
    }
  }

  /** Then memory and rows never part, whenever the holder restarts. */
  lemma {:induction false} SettledStaysFaithful(id: Identity, w: World, ds: set<Delta>, ms: seq<Moment>)
    requires Faithful(id, w) && AllMerge(ds) && VersionsSettled(w.mem, ds) && Changes(ms) <= ds
    ensures Faithful(id, Lived(id, w, ms)) && RestartsCalmly(id, w, ms)
    ensures forall addr :: Sprung(w.mem, ds, Lived(id, w, ms).mem, addr)
  {
    if ms != [] {
      var before, x := ms[..|ms| - 1], ms[|ms| - 1];
      ChangesSplit(ms);
      SettledStaysFaithful(id, w, ds, before);
      SettledStep(id, w, ds, Lived(id, w, before), x);
    }
  }

  lemma ChangesSplit(ms: seq<Moment>)
    requires ms != []
    ensures Changes(ms[..|ms| - 1]) <= Changes(ms)
    ensures ms[|ms| - 1].Change? ==> ms[|ms| - 1].arrival.delta in Changes(ms)
  {
    var xs := Arrivals(ms[..|ms| - 1]);
    if ms[|ms| - 1].Change? {
      assert ms[|ms| - 1].arrival in Arrivals(ms);
    }
    assert forall x :: x in xs ==> x in Arrivals(ms);
  }

  lemma SettledStep(id: Identity, w: World, ds: set<Delta>, v: World, x: Moment)
    requires Faithful(id, v) && AllMerge(ds) && VersionsSettled(w.mem, ds)
    requires x.Change? ==> x.arrival.delta in ds
    requires forall addr :: Sprung(w.mem, ds, v.mem, addr)
    ensures Faithful(id, Living(id, v, x)) && (x.Restarts? ==> Reloading(v) == v)
    ensures forall addr :: Sprung(w.mem, ds, Living(id, v, x).mem, addr)
  {
    match x
    case Restarts =>
      hide Sprung, VersionsSettled, AllMerge;
    case Change(a) =>
      hide Applying, Sprung, VersionsSettled, Faithful, Merges;
      assert WritesThrough(v.mem, ApplyDelta(a.delta)) by {
        if a.delta.RelationshipUpserted? {
          SettledWritesThrough(w.mem, ds, v.mem, a.delta);
        }
      }
      ReloadExactly(id, v, Timed(ApplyDelta(a.delta), a.now));
      assert Doing(id, v, Timed(ApplyDelta(a.delta), a.now)) == Applying(id, v, a.delta, a.now);
      forall addr ensures Sprung(w.mem, ds, Applying(id, v, a.delta, a.now).mem, addr) {
        SprungStep(id, w.mem, ds, v, a.delta, a.now, addr);
      }
  }

  /** Holders fed from the changes `ds` agree from `w` on, whenever either restarts. */
  ghost predicate RestartsNeverShow(id: Identity, w: World, ds: set<Delta>) {
    forall ms, ns :: Changes(ms) == Changes(ns) && Changes(ms) <= ds ==>
      Agree(Lived(id, w, ms).mem, Lived(id, w, ns).mem)
  }

  /** A restart that shows: the last change, and then nothing or a restart. */
  lemma RestartShows(id: Identity, w: World, ds: set<Delta>, ms: seq<Moment>)
    requires Changes(ms) <= ds && Faithful(id, w)
    requires Lived(id, w, ms).disk.row.Some?
    requires Lived(id, w, ms).mem.relationships != Lived(id, w, ms).disk.relationships
    ensures !RestartsNeverShow(id, w, ds)
  {
    var ns := ms + [Restarts];
    assert ns[..|ns| - 1] == ms;
    assert Arrivals(ns) == Arrivals(ms);
    assert Lived(id, w, ns) == Reloading(Lived(id, w, ms));
  }

  lemma OneChange(id: Identity, w: World, d: Delta)
    ensures var ms := [Change(Arrival(d, 0))];
            Changes(ms) == {d} && Lived(id, w, ms) == Applying(id, w, d, 0)
  {
    hide Applying;
    var ms := [Change(Arrival(d, 0))];
    assert ms[..0] == [];
    assert Arrivals(ms) == [Arrival(d, 0)];
    assert Arrival(d, 0) in Arrivals(ms);
    assert Deltas([Arrival(d, 0)]) == {d};
  }

  lemma TwoChanges(id: Identity, w: World, d: Delta, e: Delta)
    ensures var ms := [Change(Arrival(d, 0)), Change(Arrival(e, 0))];
            Changes(ms) == {d, e} && Lived(id, w, ms) == Applying(id, Applying(id, w, d, 0), e, 0)
  {
    hide Applying;
    var x, y := Change(Arrival(d, 0)), Change(Arrival(e, 0));
    OneChange(id, w, d);
    assert [x, y][..|[x, y]| - 1] == [x];
    assert [x][..0] == [] && Arrivals([x]) == [Arrival(d, 0)];
    assert Arrivals([x, y]) == [Arrival(d, 0), Arrival(e, 0)];
    PairApplied(id, w, d, e);
  }

  /** The store keeps another time or other capabilities than memory takes. */
  lemma UnsettledVersionShows(id: Identity, w: World, ds: set<Delta>, r: RelationshipRecord)
    requires Faithful(id, w) && RelationshipUpserted(r) in ds && SupersedesRelationship(w.mem, r)
    requires !WrittenWhole(w.mem, FromRecord(r))
    ensures !RestartsNeverShow(id, w, ds)
  {
    hide RestartsNeverShow, Changes, Lived, Survives, Reread, FromRecord;
    var d := RelationshipUpserted(r);
    OneChange(id, w, d);
    RereadExactly(FromRecord(r).capabilities);
    RecordAddress(r);
    var v := Applying(id, w, d, 0);
    assert v.mem.relationships[r.address] != v.disk.relationships[r.address];
    RestartShows(id, w, ds, [Change(Arrival(d, 0))]);
  }

  lemma RecordAddress(r: RelationshipRecord)
    ensures FromRecord(r).address == r.address && FromRecord(r).addedAt == r.addedAt
  {
  }

  /** The older version's time outlives the newer one's. */
  lemma NewerVersionShows(id: Identity, w: World, ds: set<Delta>, r: RelationshipRecord, s: RelationshipRecord)
    requires Faithful(id, w) && RelationshipUpserted(r) in ds && RelationshipUpserted(s) in ds
    requires r.address == s.address && r.address !in w.mem.relationships && r.addedAt < s.addedAt
    ensures !RestartsNeverShow(id, w, ds)
  {
    hide RestartsNeverShow, Changes, Lived, Survives, Reread, FromRecord;
    var d, e := RelationshipUpserted(r), RelationshipUpserted(s);
    TwoChanges(id, w, d, e);
    RecordAddress(r);
    RecordAddress(s);
    var v := Applying(id, w, d, 0);
    assert v.mem.relationships[r.address] == FromRecord(r) && v.disk.relationships[r.address].addedAt == r.addedAt;
    var u := Applying(id, v, e, 0);
    assert u.mem.relationships[r.address].addedAt == s.addedAt && u.disk.relationships[r.address].addedAt == r.addedAt;
    RestartShows(id, w, ds, [Change(Arrival(d, 0)), Change(Arrival(e, 0))]);
  }

  /** Merging changes with telling stamps converge from `w` whenever holders restart, exactly when
      no restart can find a relationship's row differing from memory: each address gets one
      version, with the time it has already and capabilities the column keeps. */
  lemma RestartsConvergeExactly(id: Identity, w: World, ds: set<Delta>)
    requires Faithful(id, w) && AllMerge(ds) && StampsDiffer(ds)
    ensures RestartsNeverShow(id, w, ds) <==> VersionsSettled(w.mem, ds)
  {
    hide Faithful, AllMerge, StampsDiffer, WrittenWhole, FromRecord;
    if VersionsSettled(w.mem, ds) {
      forall ms, ns | Changes(ms) == Changes(ns) && Changes(ms) <= ds
        ensures Agree(Lived(id, w, ms).mem, Lived(id, w, ns).mem)
      {
        SettledStaysFaithful(id, w, ds, ms);
        SettledStaysFaithful(id, w, ds, ns);
        FewerStampsDiffer(ds, Changes(ms));
        FewerMerge(ds, Changes(ms));
        SameChangesAgree(id, id, w, w, ms, ns);
      }
    } else if r :| RelationshipUpserted(r) in ds && SupersedesRelationship(w.mem, r) && !WrittenWhole(w.mem, FromRecord(r)) {
      UnsettledVersionShows(id, w, ds, r);
    } else {
      var r, s :| RelationshipUpserted(r) in ds && RelationshipUpserted(s) in ds && r.address == s.address
                  && SupersedesRelationship(w.mem, r) && SupersedesRelationship(w.mem, s) && r.addedAt != s.addedAt;
      SettledTimes(w.mem, r, s);
      if r.addedAt < s.addedAt {
        NewerVersionShows(id, w, ds, r, s);
      } else {
        NewerVersionShows(id, w, ds, s, r);
      }
    }
  }

  lemma FewerMerge(ds: set<Delta>, es: set<Delta>)
    requires AllMerge(ds) && es <= ds
    ensures AllMerge(es)
  {
  }

  lemma SettledTimes(m: Memory, r: RelationshipRecord, s: RelationshipRecord)
    requires WrittenWhole(m, FromRecord(r)) && WrittenWhole(m, FromRecord(s))
    requires r.address == s.address && r.addedAt != s.addedAt
    ensures r.address !in m.relationships
  {
  }
}
