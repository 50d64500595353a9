/** What each operation of a side does, field by field of memory and of its rows
    (crates/sidevers-net/src/side.rs, crates/sidevers-net/src/side_store.rs). */
module SideSteps {
  import opened Wrappers
  import opened Bytes
  import opened Keys
  import opened Capabilities
  import opened Sides
  import opened SideRuns

  // ---------------------------------------------------------------------
  // Conversions
  // ---------------------------------------------------------------------

  /** Retired is final; otherwise a side is active for ninety days after each send. */
  lemma DerivesExactly(lastSendAt: Option<u64>, retired: bool, now: u64)
    ensures var l := Derive(lastSendAt, retired, now);
            && (l == Retired <==> retired)
            && (l == Created <==> !retired && lastSendAt.None?)
            && (l == Active <==> !retired && lastSendAt.Some? && now < lastSendAt.value + 7_776_000)
            && (l == Dormant <==> !retired && lastSendAt.Some? && now >= lastSendAt.value + 7_776_000)
  {
  }

  /** Three names are known; every other reads as a new side. */
  lemma ParsesExactly(s: string)
    ensures ParseLifecycle(s) == Active <==> s == "Active"
    ensures ParseLifecycle(s) == Dormant <==> s == "Dormant"
    ensures ParseLifecycle(s) == Retired <==> s == "Retired"
    ensures ParseLifecycle(s) == Created <==> s != "Active" && s != "Dormant" && s != "Retired"
  {
    assert "Active"[0] == 'A' && "Dormant"[0] == 'D' && "Retired"[0] == 'R';
  }

  /** What a co-holder's record says, and no local endpoint. */
  lemma RecordsExactly(r: RelationshipRecord, rel: Relationship)
    ensures FromRecord(r) == rel
       <==> && rel.address == r.address && rel.nickname == r.nickname && rel.introducedBy == r.introducedBy
            && rel.notes == r.notes && rel.pinned == r.pinned && rel.addedAt == r.addedAt
            && rel.peerListenAddr == None
            && forall c :: c in rel.capabilities <==> c in r.capabilities
  {
  }

  // ---------------------------------------------------------------------
  // Memory
  // ---------------------------------------------------------------------

  lemma ProfileStep(id: Identity, w: World, t: Timed)
    ensures Doing(id, w, t).mem.profile
         == match t.op
            case SetProfile(p) => Some(p)
            case ApplyDelta(ProfileUpdated(p)) =>
              if p.Some? && (w.mem.profile.None? || p.value.updatedAt >= w.mem.profile.value.updatedAt) then p
              else w.mem.profile
            case ApplyDelta(ProfileCleared) => None
            case Reload => if w.disk.row.Some? then w.disk.profile else w.mem.profile
            case _ => w.mem.profile
  {
    hide UpsertedSide, UpsertedRelationship, InsertedOnce, FromRecord, ParseLifecycle, LifecycleName, Derive,
      SupersedesRelationship;
  }

  lemma RelationshipsStep(id: Identity, w: World, t: Timed)
    ensures Doing(id, w, t).mem.relationships
         == var held := w.mem.relationships;
            match t.op
            case AddRelationship(r) => held[r.address := r]
            case RemoveRelationship(addr) => held - {addr}
            case UpdateRelationship(addr, f) => if addr in held then held[addr := f(held[addr])] else held
            case ApplyDelta(RelationshipUpserted(r)) =>
              if r.address !in held || r.addedAt >= held[r.address].addedAt then held[r.address := FromRecord(r)]
              else held
            case ApplyDelta(RelationshipRemoved(addr)) => held - {addr}
            case Reload => if w.disk.row.Some? then w.disk.relationships else held
            case _ => held
  {
    hide UpsertedSide, UpsertedRelationship, InsertedOnce, FromRecord, ParseLifecycle, LifecycleName, Derive,
      SupersedesProfile;
    if t.op.ApplyDelta? {
      DeltaRelationshipsStep(id, w, t.op.delta, t.now);
      hide Applying;
    }
  }

  lemma DeltaRelationshipsStep(id: Identity, w: World, d: Delta, now: u64)
    ensures Applying(id, w, d, now).mem.relationships
         == var held := w.mem.relationships;
            match d
            case RelationshipUpserted(r) =>
              if r.address !in held || r.addedAt >= held[r.address].addedAt then held[r.address := FromRecord(r)]
              else held
            case RelationshipRemoved(addr) => held - {addr}
            case _ => held
  {
    if d.RelationshipUpserted? {
      RecordsExactly(d.rel, FromRecord(d.rel));
    }
    hide UpsertedSide, UpsertedRelationship, InsertedOnce, FromRecord, ParseLifecycle, LifecycleName, SupersedesProfile;
  }

  lemma LifecycleStep(id: Identity, w: World, t: Timed)
    ensures Doing(id, w, t).mem.lifecycle
         == match t.op
            case SetLifecycle(l) => l
            case RefreshLifecycle =>
              if w.mem.lifecycle == Retired then Retired else Derive(w.mem.lastSendAt, false, t.now)
            case TouchSend => if w.mem.lifecycle == Created then Active else w.mem.lifecycle
            case SetSelfRetired => Retired
            case ApplyDelta(LifecycleChanged(s)) => if w.mem.selfRetired then w.mem.lifecycle else ParseLifecycle(s)
            case Reload => if w.disk.row.Some? then ParseLifecycle(w.disk.row.value.lifecycle) else w.mem.lifecycle
            case _ => w.mem.lifecycle
  {
    hide UpsertedSide, UpsertedRelationship, InsertedOnce, FromRecord, ParseLifecycle, LifecycleName, Derive,
      SupersedesProfile, SupersedesRelationship;
  }

  lemma SendsStep(id: Identity, w: World, t: Timed)
    ensures Doing(id, w, t).mem.lastSendAt
         == match t.op
            case TouchSend => Some(t.now)
            case Reload => if w.disk.row.Some? then w.disk.row.value.lastSendAt else w.mem.lastSendAt
            case _ => w.mem.lastSendAt
  {
    hide UpsertedSide, UpsertedRelationship, InsertedOnce, FromRecord, ParseLifecycle, LifecycleName, Derive,
      SupersedesProfile, SupersedesRelationship;
  }

  lemma SelfRetiredStep(id: Identity, w: World, t: Timed)
    ensures Doing(id, w, t).mem.selfRetired
         == match t.op
            case SetSelfRetired => true
            case Reload => if w.disk.row.Some? then w.disk.row.value.selfRetired else w.mem.selfRetired
            case _ => w.mem.selfRetired
  {
    hide UpsertedSide, UpsertedRelationship, InsertedOnce, FromRecord, ParseLifecycle, LifecycleName, Derive,
      SupersedesProfile, SupersedesRelationship;
  }

  /** A device that is this side, or was revoked, is not let in. */
  lemma CoHoldersStep(id: Identity, w: World, t: Timed)
    ensures Doing(id, w, t).mem.coHolders
         == match t.op
            case AddCoHolder(device, adder) => w.mem.coHolders[device := CoHolder(t.now, adder)]
            case RemoveCoHolder(device) => w.mem.coHolders - {device}
            case ApplyDelta(CoHolderAdded(device, dial)) =>
              if device == id.address || device in w.mem.revoked then w.mem.coHolders
              else w.mem.coHolders[device := CoHolder(t.now, None)]
            case ApplyDelta(CoHolderRemoved(device)) => w.mem.coHolders - {device}
            case Reload => if w.disk.row.Some? then w.disk.coHolders else w.mem.coHolders
            case _ => w.mem.coHolders
  {
    hide UpsertedSide, UpsertedRelationship, InsertedOnce, FromRecord, ParseLifecycle, LifecycleName, Derive,
      SupersedesProfile, SupersedesRelationship;
  }

  lemma AddressesStep(id: Identity, w: World, t: Timed)
    ensures Doing(id, w, t).mem.addrs
         == match t.op
            case RecordCoHolderAddr(device, dial) => w.mem.addrs[device := dial]
            case ApplyDelta(CoHolderAdded(device, dial)) =>
              if device == id.address || device in w.mem.revoked then w.mem.addrs else w.mem.addrs[device := dial]
            case ApplyDelta(CoHolderRemoved(device)) => w.mem.addrs - {device}
            case Reload => if w.disk.row.Some? then w.disk.addrs else w.mem.addrs
            case _ => w.mem.addrs
  {
    hide UpsertedSide, UpsertedRelationship, InsertedOnce, FromRecord, ParseLifecycle, LifecycleName, Derive,
      SupersedesProfile, SupersedesRelationship;
  }

  /** Observations of retirement and revocation only accumulate. */
  lemma SeenStep(id: Identity, w: World, t: Timed)
    ensures Doing(id, w, t).mem.retiredSeen
         == match t.op
            case MarkRetiredSeen(addr) => w.mem.retiredSeen + {addr}
            case ApplyDelta(RetiredObserved(addr)) => w.mem.retiredSeen + {addr}
            case Reload => if w.disk.row.Some? then w.disk.retiredSeen.Keys else w.mem.retiredSeen
            case _ => w.mem.retiredSeen
    ensures Doing(id, w, t).mem.revoked
         == match t.op
            case AddRevokedDevice(device) => w.mem.revoked + {device}
            case ApplyDelta(CoHolderRemoved(device)) => w.mem.revoked + {device}
            case Reload => if w.disk.row.Some? then w.disk.revoked.Keys else w.mem.revoked
            case _ => w.mem.revoked
  {
    hide UpsertedSide, UpsertedRelationship, InsertedOnce, FromRecord, ParseLifecycle, LifecycleName, Derive,
      SupersedesProfile, SupersedesRelationship;
  }

  // ---------------------------------------------------------------------
  // Rows
  // ---------------------------------------------------------------------

  /** The operations that write the side's own row. */
  predicate WritesRow(m: Memory, op: Op) {
    match op
    case SetLifecycle(_) => true
    case RefreshLifecycle => m.lifecycle != Retired
    case TouchSend => true
    case SetSelfRetired => true
    case ApplyDelta(LifecycleChanged(_)) => !m.selfRetired
    case _ => false
  }

  /** A written row has memory's lifecycle, last send and retirement, and the creation time the row
      had before. */
  predicate RowWritten(id: Identity, before: Option<SideRow>, m: Memory, after: Option<SideRow>) {
    after == Some(SideRow(id.caption, if before.Some? then before.value.createdAt else id.createdAt,
                          LifecycleName(m.lifecycle), m.lastSendAt, m.selfRetired))
  }

  lemma PersistedExactly(id: Identity, w: World)
    ensures RowWritten(id, w.disk.row, w.mem, PersistingRow(id, w).disk.row)
    ensures PersistingRow(id, w) == w.(disk := w.disk.(row := PersistingRow(id, w).disk.row))
  {
  }

  lemma DeltaRowStep(id: Identity, w: World, d: Delta, now: u64)
    ensures var v := Applying(id, w, d, now);
            if d.LifecycleChanged? && !w.mem.selfRetired then RowWritten(id, w.disk.row, v.mem, v.disk.row)
            else v.disk.row == w.disk.row
  {
    hide Reread, KeptTime, InsertedOnce, FromRecord, ParseLifecycle, LifecycleName, SupersedesProfile,
      SupersedesRelationship, PersistingRow, RowWritten;
    if d.LifecycleChanged? {
      PersistedExactly(id, w.(mem := w.mem.(lifecycle := ParseLifecycle(d.state))));
    }
  }

  lemma RowStep(id: Identity, w: World, t: Timed)
    ensures var v := Doing(id, w, t);
            if WritesRow(w.mem, t.op) then RowWritten(id, w.disk.row, v.mem, v.disk.row) else v.disk.row == w.disk.row
  {
    hide Reread, KeptTime, InsertedOnce, LifecycleName, Derive, PersistingRow, RowWritten, Applying;
    match t.op
    case SetLifecycle(l) => PersistedExactly(id, w.(mem := w.mem.(lifecycle := l)));
    case RefreshLifecycle => PersistedExactly(id, w.(mem := w.mem.(lifecycle := Derive(w.mem.lastSendAt, false, t.now))));
    case TouchSend =>
      var l := if w.mem.lifecycle == Created then Active else w.mem.lifecycle;
      PersistedExactly(id, w.(mem := w.mem.(lastSendAt := Some(t.now), lifecycle := l)));
    case SetSelfRetired => PersistedExactly(id, w.(mem := w.mem.(selfRetired := true, lifecycle := Retired)));
    case ApplyDelta(d) => DeltaRowStep(id, w, d, t.now);
    case _ =>
  }

  lemma ProfileRowStep(id: Identity, w: World, t: Timed)
    ensures Doing(id, w, t).disk.profile
         == match t.op
            case SetProfile(p) => Some(p)
            case ApplyDelta(ProfileUpdated(p)) =>
              if p.Some? && (w.mem.profile.None? || p.value.updatedAt >= w.mem.profile.value.updatedAt) then p
              else w.disk.profile
            case ApplyDelta(ProfileCleared) => None
            case _ => w.disk.profile
  {
    hide Reread, KeptTime, InsertedOnce, FromRecord, ParseLifecycle, LifecycleName, Derive,
      SupersedesRelationship;
  }

  /** A relationship as the store has it once it was written over `held`: all as given but the time
      of an earlier row and what its column makes of the capabilities. */
  predicate StoredAs(held: map<PublicKey, Relationship>, r: Relationship, after: map<PublicKey, Relationship>) {
    && after.Keys == held.Keys + {r.address}
    && (forall addr :: addr in held && addr != r.address ==> after[addr] == held[addr])
    && after[r.address] == Relationship(r.address, r.nickname, r.introducedBy, Reread(r.capabilities), r.notes, r.pinned,
                                        if r.address in held then held[r.address].addedAt else r.addedAt,
                                        r.peerListenAddr)
  }

  lemma StoredExactly(d: Disk, r: Relationship)
    ensures StoredAs(d.relationships, r, UpsertedRelationship(d, r).relationships)
    ensures UpsertedRelationship(d, r) == d.(relationships := UpsertedRelationship(d, r).relationships)
  {
  }

  /** Which relationship an operation writes, if any. */
  function Written(m: Memory, op: Op): Option<Relationship> {
    match op
    case AddRelationship(r) => Some(r)
    case UpdateRelationship(addr, f) => if addr in m.relationships then Some(f(m.relationships[addr])) else None
    case ApplyDelta(RelationshipUpserted(r)) =>
      if r.address !in m.relationships || r.addedAt >= m.relationships[r.address].addedAt then Some(FromRecord(r)) else None
    case _ => None
  }

  lemma RelationshipRowsStep(id: Identity, w: World, t: Timed)
    ensures var before, after := w.disk.relationships, Doing(id, w, t).disk.relationships;
            match t.op
            case RemoveRelationship(addr) => after == before - {addr}
            case ApplyDelta(RelationshipRemoved(addr)) => after == before - {addr}
            case _ =>
              match Written(w.mem, t.op)
              case Some(r) => StoredAs(before, r, after)
              case None => after == before
  {
    hide Reread, KeptTime, InsertedOnce, FromRecord, ParseLifecycle, LifecycleName, Derive,
      SupersedesProfile, StoredAs;
    if Written(w.mem, t.op).Some? {
      hide UpsertedRelationship;
      StoredExactly(w.disk, Written(w.mem, t.op).value);
    }
  }

  lemma CoHolderRowsStep(id: Identity, w: World, t: Timed)
    ensures Doing(id, w, t).disk.coHolders
         == match t.op
            case AddCoHolder(device, adder) => w.disk.coHolders[device := CoHolder(t.now, adder)]
            case RemoveCoHolder(device) => w.disk.coHolders - {device}
            case ApplyDelta(CoHolderAdded(device, dial)) =>
              if device == id.address || device in w.mem.revoked then w.disk.coHolders
              else w.disk.coHolders[device := CoHolder(t.now, None)]
            case ApplyDelta(CoHolderRemoved(device)) => w.disk.coHolders - {device}
            case _ => w.disk.coHolders
    ensures Doing(id, w, t).disk.addrs
         == match t.op
            case RecordCoHolderAddr(device, dial) => w.disk.addrs[device := dial]
            case ApplyDelta(CoHolderAdded(device, dial)) =>
              if device == id.address || device in w.mem.revoked then w.disk.addrs else w.disk.addrs[device := dial]
            case ApplyDelta(CoHolderRemoved(device)) => w.disk.addrs - {device}
            case _ => w.disk.addrs
  {
    hide Reread, KeptTime, InsertedOnce, FromRecord, ParseLifecycle, LifecycleName, Derive,
      SupersedesProfile, SupersedesRelationship;
  }

  /** The first time a key was seen stays. */
  predicate AddedOnce(before: map<PublicKey, u64>, key: PublicKey, now: u64, after: map<PublicKey, u64>) {
    && after.Keys == before.Keys + {key}
    && (forall k :: k in before ==> after[k] == before[k])
    && (key !in before ==> after[key] == now)
  }

  lemma InsertedExactly(rows: map<PublicKey, u64>, key: PublicKey, now: u64)
    ensures AddedOnce(rows, key, now, InsertedOnce(rows, key, now))
  {
  }

  lemma RetiredRowsStep(id: Identity, w: World, t: Timed)
    ensures var before, after := w.disk.retiredSeen, Doing(id, w, t).disk.retiredSeen;
            match t.op
            case MarkRetiredSeen(addr) => AddedOnce(before, addr, t.now, after)
            case ApplyDelta(RetiredObserved(addr)) => AddedOnce(before, addr, t.now, after)
            case _ => after == before
  {
    hide Reread, KeptTime, FromRecord, ParseLifecycle, LifecycleName, Derive, SupersedesProfile, SupersedesRelationship,
      InsertedOnce, AddedOnce;
    match t.op
    case MarkRetiredSeen(addr) => InsertedExactly(w.disk.retiredSeen, addr, t.now);
    case ApplyDelta(RetiredObserved(addr)) => InsertedExactly(w.disk.retiredSeen, addr, t.now);
    case _ =>
  }

  lemma RevokedRowsStep(id: Identity, w: World, t: Timed)
    ensures var before, after := w.disk.revoked, Doing(id, w, t).disk.revoked;
            match t.op
            case AddRevokedDevice(device) => AddedOnce(before, device, t.now, after)
            case ApplyDelta(CoHolderRemoved(device)) => AddedOnce(before, device, t.now, after)
            case _ => after == before
  {
    hide Reread, KeptTime, FromRecord, ParseLifecycle, LifecycleName, Derive, SupersedesProfile, SupersedesRelationship,
      InsertedOnce, AddedOnce;
    match t.op
    case AddRevokedDevice(device) => InsertedExactly(w.disk.revoked, device, t.now);
    case ApplyDelta(CoHolderRemoved(device)) => InsertedExactly(w.disk.revoked, device, t.now);
    case _ =>
  }
}
