/** Runs of a hosted side: what a reload rebuilds, and how long a retirement lasts. */
module SideRuns {
  import opened Wrappers
  import opened Bytes
  import opened Keys
  import opened Capabilities
  import opened Sides

  datatype Op =
    | SetProfile(profile: Profile)
    | MarkRetiredSeen(address: PublicKey)
    | AddRelationship(rel: Relationship)
    | RemoveRelationship(address: PublicKey)
    | UpdateRelationship(address: PublicKey, change: Relationship -> Relationship)
    | SetLifecycle(lifecycle: Lifecycle)
    | RefreshLifecycle
    | TouchSend
    | SetSelfRetired
    | AddCoHolder(device: PublicKey, addedBy: Option<PublicKey>)
    | RemoveCoHolder(device: PublicKey)
    | AddRevokedDevice(device: PublicKey)
    | RecordCoHolderAddr(device: PublicKey, dial: string)
    | ApplyDelta(delta: Delta)
    | Reload

  /** An operation and the clock it reads. */
  datatype Timed = Timed(op: Op, now: u64)

  /** The process stops and `LoadOrCreate` starts over from the rows. */
  function Reloading(w: World): World {
    if w.disk.row.Some? then World(Loaded(w.disk), w.disk) else w
  }

  function Doing(id: Identity, w: World, t: Timed): World {
    match t.op
    case SetProfile(p) => SettingProfile(w, p)
    case MarkRetiredSeen(addr) => MarkingRetired(w, addr, t.now)
    case AddRelationship(r) => AddingRelationship(w, r)
    case RemoveRelationship(addr) => RemovingRelationship(w, addr)
    case UpdateRelationship(addr, f) => UpdatingRelationship(w, addr, f)
    case SetLifecycle(l) => SettingLifecycle(id, w, l)
    case RefreshLifecycle => RefreshingLifecycle(id, w, t.now)
    case TouchSend => TouchingSend(id, w, t.now)
    case SetSelfRetired => RetiringSelf(id, w)
    case AddCoHolder(device, adder) => AddingCoHolder(w, device, CoHolder(t.now, adder))
    case RemoveCoHolder(device) => RemovingCoHolder(w, device)
    case AddRevokedDevice(device) => RevokingDevice(w, device, t.now)
    case RecordCoHolderAddr(device, dial) => RecordingAddr(w, device, dial)
    case ApplyDelta(d) => Applying(id, w, d, t.now)
    case Reload => Reloading(w)
  }

  function Done(id: Identity, w: World, ts: seq<Timed>): World
    decreases |ts|
  {
    if ts == [] then w else Done(id, Doing(id, w, ts[0]), ts[1..])
  }

  // ---------------------------------------------------------------------
  // Reload
  // ---------------------------------------------------------------------

  /** The store's rows are what memory holds: a reload changes nothing. */
  predicate Faithful(id: Identity, w: World) {
    && w.disk.row.Some?
    && w.disk.row.value.caption == id.caption && w.disk.row.value.createdAt == id.createdAt
    && Loaded(w.disk) == w.mem
    && forall addr :: addr in w.mem.relationships ==> w.mem.relationships[addr].address == addr
  }

  /** Writing `r` loses nothing: the store keeps the first time a relationship was added, and
      its column keeps the capabilities unless they are the empty token or hold a newline. */
  predicate WrittenWhole(m: Memory, r: Relationship) {
    && (r.address in m.relationships ==> r.addedAt == m.relationships[r.address].addedAt)
    && Survives(r.capabilities)
  }

  /** Readable before the call: a relationship already held is not written with another time,
      none with capabilities the column loses, and an update keeps the address. */
  predicate WritesThrough(m: Memory, op: Op) {
    match op
    case AddRelationship(r) => WrittenWhole(m, r)
    case UpdateRelationship(addr, f) =>
      addr in m.relationships ==>
        var after := f(m.relationships[addr]);
        after.address == addr && WrittenWhole(m, after)
    case ApplyDelta(RelationshipUpserted(r)) =>
      SupersedesRelationship(m, r) ==> WrittenWhole(m, FromRecord(r))
    case _ => true
  }

  lemma RelationshipFaithful(id: Identity, w: World, r: Relationship)
    requires Faithful(id, w)
    ensures Faithful(id, AddingRelationship(w, r)) <==> WrittenWhole(w.mem, r)
  {
    RereadExactly(r.capabilities);
    hide ParseLifecycle, Reread, Survives;
    var v := AddingRelationship(w, r);
    var stored := v.disk.relationships[r.address];
    if WrittenWhole(w.mem, r) {
      assert stored == r;
      assert v.disk.relationships == v.mem.relationships;
    } else {
      assert stored != v.mem.relationships[r.address];
    }
  }

  lemma UpdateFaithful(id: Identity, w: World, addr: PublicKey, f: Relationship -> Relationship)
    requires Faithful(id, w)
    ensures Faithful(id, UpdatingRelationship(w, addr, f))
            <==> WritesThrough(w.mem, UpdateRelationship(addr, f))
  {
    hide ParseLifecycle, WrittenWhole, Reread;
    if addr in w.mem.relationships {
      var after := f(w.mem.relationships[addr]);
      var v := UpdatingRelationship(w, addr, f);
      if after.address == addr {
        RelationshipFaithful(id, w, after);
        assert v == AddingRelationship(w, after);
      } else {
        assert v.mem.relationships[addr].address != addr;
      }
    }
  }

  lemma RowFaithful(id: Identity, w: World, m: Memory)
    requires Faithful(id, w)
    requires m == w.mem.(lifecycle := m.lifecycle, lastSendAt := m.lastSendAt, selfRetired := m.selfRetired)
    ensures Faithful(id, PersistingRow(id, w.(mem := m)))
  {
    hide ParseLifecycle, LifecycleName;
    LifecycleRoundTrip(m.lifecycle);
  }

  /** Every operation keeps a reload exact, exactly when it writes through. */
  lemma ReloadExactly(id: Identity, w: World, t: Timed)
    requires Faithful(id, w)
    ensures Faithful(id, Doing(id, w, t)) <==> WritesThrough(w.mem, t.op)
  {
    hide ParseLifecycle, LifecycleName, Derive, SupersedesProfile, PersistingRow;
    match t.op
    case AddRelationship(r) => RelationshipFaithful(id, w, r);
    case UpdateRelationship(addr, f) => UpdateFaithful(id, w, addr, f);
    case SetLifecycle(l) => RowFaithful(id, w, w.mem.(lifecycle := l));
    case RefreshLifecycle => RowFaithful(id, w, w.mem.(lifecycle := Derive(w.mem.lastSendAt, false, t.now)));
    case TouchSend =>
      var l := if w.mem.lifecycle == Created then Active else w.mem.lifecycle;
      RowFaithful(id, w, w.mem.(lastSendAt := Some(t.now), lifecycle := l));
    case SetSelfRetired => RowFaithful(id, w, w.mem.(selfRetired := true, lifecycle := Retired));
    case ApplyDelta(d) => DeltaFaithful(id, w, d, t.now);
    case Reload =>
    case _ => OtherFaithful(id, w, t);
  }

  lemma DeltaFaithful(id: Identity, w: World, d: Delta, now: u64)
    requires Faithful(id, w)
    ensures Faithful(id, Applying(id, w, d, now)) <==> WritesThrough(w.mem, ApplyDelta(d))
  {
    hide ParseLifecycle, LifecycleName, SupersedesProfile, PersistingRow, FromRecord;
    match d
    case RelationshipUpserted(r) => RelationshipFaithful(id, w, FromRecord(r));
    case LifecycleChanged(s) => RowFaithful(id, w, w.mem.(lifecycle := ParseLifecycle(s)));
    case _ =>
  }

  /** The mutators that touch no relationship and not the side's row. */
  lemma OtherFaithful(id: Identity, w: World, t: Timed)
    requires Faithful(id, w)
    requires t.op.SetProfile? || t.op.MarkRetiredSeen? || t.op.RemoveRelationship? || t.op.AddCoHolder?
          || t.op.RemoveCoHolder? || t.op.AddRevokedDevice? || t.op.RecordCoHolderAddr?
    ensures Faithful(id, Doing(id, w, t))
  {
    hide ParseLifecycle;
  }

  ghost predicate AllWriteThrough(id: Identity, w: World, ts: seq<Timed>)
    decreases |ts|
  {
    ts == [] || (WritesThrough(w.mem, ts[0].op) && AllWriteThrough(id, Doing(id, w, ts[0]), ts[1..]))
  }

  function WithoutReloads(ts: seq<Timed>): seq<Timed> {
    if ts == [] then [] else (if ts[0].op.Reload? then [] else [ts[0]]) + WithoutReloads(ts[1..])
  }

  /** Crashes and reloads anywhere in a run change nothing it does. */
  lemma {:induction false} ReloadsAreInvisible(id: Identity, w: World, ts: seq<Timed>)
    requires Faithful(id, w) && AllWriteThrough(id, w, ts)
    ensures Faithful(id, Done(id, w, ts))
    ensures Done(id, w, ts) == Done(id, w, WithoutReloads(ts))
    decreases |ts|
  {
    if ts != [] {
      assert ts[0].op.Reload? ==> Doing(id, w, ts[0]) == w;
      hide Doing, Faithful, WritesThrough;
      ReloadExactly(id, w, ts[0]);
      ReloadsAreInvisible(id, Doing(id, w, ts[0]), ts[1..]);
      if !ts[0].op.Reload? {
        var rest := WithoutReloads(ts[1..]);
        assert ([ts[0]] + rest)[0] == ts[0] && ([ts[0]] + rest)[1..] == rest;
      } else {
        assert [] + WithoutReloads(ts[1..]) == WithoutReloads(ts[1..]);
      }
    }
  }

  /** A side created on an empty store starts faithful. */
  lemma FreshSideIsFaithful(id: Identity)
    ensures Faithful(id, World(NEW_SIDE, UpsertedSide(EMPTY_DISK, RowOf(id, NEW_SIDE))))
  {
    LifecycleRoundTrip(Created);
  }

  // ---------------------------------------------------------------------
  // What a reload rebuilds whatever happens
  // ---------------------------------------------------------------------

  /** All but the times relationships were added and capabilities their column loses. */
  predicate NearlyFaithful(id: Identity, w: World) {
    && w.disk.row.Some?
    && w.disk.row.value.caption == id.caption && w.disk.row.value.createdAt == id.createdAt
    && Loaded(w.disk).(relationships := w.mem.relationships) == w.mem
    && w.disk.relationships.Keys == w.mem.relationships.Keys
    && forall addr :: addr in w.mem.relationships ==> NearlySame(w, addr)
  }

  predicate NearlySame(w: World, addr: PublicKey)
    requires addr in w.mem.relationships && addr in w.disk.relationships
  {
    var held, row := w.mem.relationships[addr], w.disk.relationships[addr];
    && held.address == addr
    && row == held.(addedAt := row.addedAt, capabilities := row.capabilities)
    && (row.capabilities == held.capabilities || row.capabilities == Reread(held.capabilities))
  }

  predicate KeepsAddress(m: Memory, op: Op) {
    op.UpdateRelationship? && op.address in m.relationships ==> op.change(m.relationships[op.address]).address == op.address
  }

  lemma RelationshipNearlyFaithful(id: Identity, w: World, r: Relationship)
    requires NearlyFaithful(id, w)
    ensures NearlyFaithful(id, AddingRelationship(w, r))
  {
    hide ParseLifecycle;
    var v := AddingRelationship(w, r);
    forall addr | addr in v.mem.relationships ensures NearlySame(v, addr) {
      assert addr != r.address ==> NearlySame(w, addr);
    }
  }

  lemma RowNearlyFaithful(id: Identity, w: World, m: Memory)
    requires NearlyFaithful(id, w)
    requires m == w.mem.(lifecycle := m.lifecycle, lastSendAt := m.lastSendAt, selfRetired := m.selfRetired)
    ensures NearlyFaithful(id, PersistingRow(id, w.(mem := m)))
  {
    hide ParseLifecycle, LifecycleName;
    LifecycleRoundTrip(m.lifecycle);
    var v := PersistingRow(id, w.(mem := m));
    forall addr | addr in v.mem.relationships ensures NearlySame(v, addr) {
      assert NearlySame(w, addr);
    }
  }

  lemma DeltaNearlyFaithful(id: Identity, w: World, d: Delta, now: u64)
    requires NearlyFaithful(id, w)
    ensures NearlyFaithful(id, Applying(id, w, d, now))
  {
    hide ParseLifecycle, LifecycleName, SupersedesProfile, PersistingRow, FromRecord;
    match d
    case RelationshipUpserted(r) => RelationshipNearlyFaithful(id, w, FromRecord(r));
    case LifecycleChanged(s) => RowNearlyFaithful(id, w, w.mem.(lifecycle := ParseLifecycle(s)));
    case _ =>
      var v := Applying(id, w, d, now);
      forall addr | addr in v.mem.relationships ensures NearlySame(v, addr) {
        assert NearlySame(w, addr);
      }
  }

  /** Every operation that keeps relationships under their address, a reload included, keeps a
      reload exact but for those times and capabilities. */
  lemma NearlyFaithfulStep(id: Identity, w: World, t: Timed)
    requires NearlyFaithful(id, w) && KeepsAddress(w.mem, t.op)
    ensures NearlyFaithful(id, Doing(id, w, t))
  {
    hide ParseLifecycle, LifecycleName, Derive, PersistingRow, NearlySame;
    match t.op
    case AddRelationship(r) => RelationshipNearlyFaithful(id, w, r);
    case UpdateRelationship(addr, f) =>
      if addr in w.mem.relationships {
        RelationshipNearlyFaithful(id, w, f(w.mem.relationships[addr]));
      }
    case SetLifecycle(l) => RowNearlyFaithful(id, w, w.mem.(lifecycle := l));
    case RefreshLifecycle => RowNearlyFaithful(id, w, w.mem.(lifecycle := Derive(w.mem.lastSendAt, false, t.now)));
    case TouchSend =>
      var l := if w.mem.lifecycle == Created then Active else w.mem.lifecycle;
      RowNearlyFaithful(id, w, w.mem.(lastSendAt := Some(t.now), lifecycle := l));
    case SetSelfRetired => RowNearlyFaithful(id, w, w.mem.(selfRetired := true, lifecycle := Retired));
    case ApplyDelta(d) => DeltaNearlyFaithful(id, w, d, t.now);
    case _ => OtherNearlyFaithful(id, w, t);
  }

  lemma OtherNearlyFaithful(id: Identity, w: World, t: Timed)
    requires NearlyFaithful(id, w)
    requires t.op.SetProfile? || t.op.MarkRetiredSeen? || t.op.RemoveRelationship? || t.op.AddCoHolder?
          || t.op.RemoveCoHolder? || t.op.AddRevokedDevice? || t.op.RecordCoHolderAddr? || t.op.Reload?
    ensures NearlyFaithful(id, Doing(id, w, t))
  {
    hide ParseLifecycle;
    var v := Doing(id, w, t);
    forall addr | addr in v.mem.relationships ensures NearlySame(v, addr) {
      assert NearlySame(w, addr);
    }
  }

  ghost predicate AllKeepAddress(id: Identity, w: World, ts: seq<Timed>)
    decreases |ts|
  {
    ts == [] || (KeepsAddress(w.mem, ts[0].op) && AllKeepAddress(id, Doing(id, w, ts[0]), ts[1..]))
  }

  lemma {:induction false} NearlyFaithfulAfter(id: Identity, w: World, ts: seq<Timed>)
    requires NearlyFaithful(id, w) && AllKeepAddress(id, w, ts)
    ensures NearlyFaithful(id, Done(id, w, ts))
    decreases |ts|
  {
    hide Doing, NearlyFaithful, KeepsAddress;
    if ts != [] {
      NearlyFaithfulStep(id, w, ts[0]);
      NearlyFaithfulAfter(id, Doing(id, w, ts[0]), ts[1..]);
    }
  }

  /** From a side's creation on, over every run whose updates keep relationships under their
      address, whatever times and capabilities it writes and wherever it reloads: a reload
      rebuilds profile, retired, revoked, co-holders, addresses, lifecycle and last send exactly,
      and every relationship but for the time it was added and capabilities the column loses. */
  lemma ReloadLosesOnly(id: Identity, ts: seq<Timed>)
    requires AllKeepAddress(id, World(NEW_SIDE, UpsertedSide(EMPTY_DISK, RowOf(id, NEW_SIDE))), ts)
    ensures NearlyFaithful(id, Done(id, World(NEW_SIDE, UpsertedSide(EMPTY_DISK, RowOf(id, NEW_SIDE))), ts))
  {
    LifecycleRoundTrip(Created);
    var w := World(NEW_SIDE, UpsertedSide(EMPTY_DISK, RowOf(id, NEW_SIDE)));
    assert NearlyFaithful(id, w);
    NearlyFaithfulAfter(id, w, ts);
  }

  // ---------------------------------------------------------------------
  // Retirement
  // ---------------------------------------------------------------------

  /** The steps that bring a retired side back: the lifecycle set by hand, or a co-holder's
      change when the side did not retire itself. */
  predicate Unretires(m: Memory, op: Op) {
    || (op.SetLifecycle? && op.lifecycle != Retired)
    || (op.ApplyDelta? && op.delta.LifecycleChanged? && !m.selfRetired && ParseLifecycle(op.delta.state) != Retired)
  }

  predicate RowMatches(w: World) {
    && w.disk.row.Some?
    && ParseLifecycle(w.disk.row.value.lifecycle) == w.mem.lifecycle
    && w.disk.row.value.selfRetired == w.mem.selfRetired
  }

  lemma RowPersisted(id: Identity, w: World)
    ensures RowMatches(PersistingRow(id, w)) && PersistingRow(id, w).mem == w.mem
  {
    hide ParseLifecycle, LifecycleName;
    LifecycleRoundTrip(w.mem.lifecycle);
  }

  lemma RowMatchesStep(id: Identity, w: World, t: Timed)
    requires RowMatches(w)
    ensures RowMatches(Doing(id, w, t))
  {
    hide ParseLifecycle, LifecycleName, Derive, PersistingRow, InsertedOnce;
    match t.op
    case SetLifecycle(l) => RowPersisted(id, w.(mem := w.mem.(lifecycle := l)));
    case RefreshLifecycle => RowPersisted(id, w.(mem := w.mem.(lifecycle := Derive(w.mem.lastSendAt, false, t.now))));
    case TouchSend =>
      var l := if w.mem.lifecycle == Created then Active else w.mem.lifecycle;
      RowPersisted(id, w.(mem := w.mem.(lastSendAt := Some(t.now), lifecycle := l)));
    case SetSelfRetired => RowPersisted(id, w.(mem := w.mem.(selfRetired := true, lifecycle := Retired)));
    case ApplyDelta(d) => DeltaRowMatches(id, w, d, t.now);
    case _ =>
  }

  lemma DeltaRowMatches(id: Identity, w: World, d: Delta, now: u64)
    requires RowMatches(w)
    ensures RowMatches(Applying(id, w, d, now))
  {
    hide ParseLifecycle, LifecycleName, PersistingRow, InsertedOnce, FromRecord,
      SupersedesProfile, SupersedesRelationship;
    if d.LifecycleChanged? {
      RowPersisted(id, w.(mem := w.mem.(lifecycle := ParseLifecycle(d.state))));
    }
  }

  lemma DeltaRetiredStays(id: Identity, w: World, d: Delta, now: u64)
    requires RowMatches(w) && w.mem.lifecycle == Retired
    ensures Applying(id, w, d, now).mem.lifecycle == Retired <==> !Unretires(w.mem, ApplyDelta(d))
    ensures Applying(id, w, d, now).mem.selfRetired == w.mem.selfRetired
  {
    hide ParseLifecycle, LifecycleName, UpsertedSide, UpsertedRelationship, InsertedOnce, FromRecord,
      SupersedesProfile, SupersedesRelationship;
  }

  /** A retired side stays retired through a step exactly when the step is none of those. */
  lemma RetiredStaysExactly(id: Identity, w: World, t: Timed)
    requires RowMatches(w) && w.mem.lifecycle == Retired
    ensures Doing(id, w, t).mem.lifecycle == Retired <==> !Unretires(w.mem, t.op)
    ensures w.mem.selfRetired ==> Doing(id, w, t).mem.selfRetired
  {
    hide ParseLifecycle, LifecycleName, Derive, UpsertedSide, UpsertedRelationship, InsertedOnce, Applying;
    if t.op.ApplyDelta? {
      DeltaRetiredStays(id, w, t.op.delta, t.now);
    }
  }

  /** Once the side retired itself, no run of operations brings it back but one that sets its
      lifecycle by hand: not sends, refreshes, co-holders' changes or reloads. */
  lemma {:induction false} SelfRetirementIsSticky(id: Identity, w: World, ts: seq<Timed>)
    requires RowMatches(w) && w.mem.selfRetired && w.mem.lifecycle == Retired
    requires forall t :: t in ts ==> !t.op.SetLifecycle?
    ensures Done(id, w, ts).mem.lifecycle == Retired && Done(id, w, ts).mem.selfRetired
    ensures Reloading(Done(id, w, ts)).mem.lifecycle == Retired
    decreases |ts|
  {
    hide Doing, ParseLifecycle;
    if ts != [] {
      RowMatchesStep(id, w, ts[0]);
      RetiredStaysExactly(id, w, ts[0]);
      SelfRetirementIsSticky(id, Doing(id, w, ts[0]), ts[1..]);
    }
  }
}
