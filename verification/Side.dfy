/** One hosted side (crates/sidevers-net/src/side.rs) over its rows in the store
    (crates/sidevers-net/src/side_store.rs): every mutator writes through. */
module Sides {
  import opened Wrappers
  import opened Bytes
  import opened Keys
  import opened Capabilities

  /** A signed profile; only its stamp is looked at. */
  datatype Profile = Profile(updatedAt: u64, body: seq<byte>)

  datatype Relationship = Relationship(
    address: PublicKey,
    nickname: Option<string>,
    introducedBy: Option<PublicKey>,
    capabilities: set<string>,
    notes: Option<string>,
    pinned: bool,
    addedAt: u64,
    peerListenAddr: Option<string>)

  /** A relationship as co-holders exchange it: no local endpoint, capabilities listed. */
  datatype RelationshipRecord = RelationshipRecord(
    address: PublicKey,
    nickname: Option<string>,
    introducedBy: Option<PublicKey>,
    capabilities: seq<string>,
    notes: Option<string>,
    pinned: bool,
    addedAt: u64)

  datatype CoHolder = CoHolder(addedAt: u64, addedBy: Option<PublicKey>)

  datatype Lifecycle = Created | Active | Dormant | Retired

  const DORMANT_AFTER_SECS := 90 * 24 * 3600

  /** What a running side holds. */
  datatype Memory = Memory(
    profile: Option<Profile>,
    retiredSeen: set<PublicKey>,
    relationships: map<PublicKey, Relationship>,
    lifecycle: Lifecycle,
    lastSendAt: Option<u64>,
    selfRetired: bool,
    coHolders: map<PublicKey, CoHolder>,
    revoked: set<PublicKey>,
    addrs: map<PublicKey, string>)

  datatype SideRow = SideRow(
    caption: Option<string>, createdAt: u64, lifecycle: string, lastSendAt: Option<u64>, selfRetired: bool)

  /** A relationship's columns besides its address, the capabilities as text. */
  datatype RelationshipRow = RelationshipRow(
    nickname: Option<string>,
    introducedBy: Option<PublicKey>,
    capabilities: string,
    notes: Option<string>,
    pinned: bool,
    addedAt: u64,
    peerListenAddr: Option<string>)

  /** The side's rows as they are read back; a relationship under the address it carries. */
  datatype Disk = Disk(
    row: Option<SideRow>,
    profile: Option<Profile>,
    retiredSeen: map<PublicKey, u64>,
    relationships: map<PublicKey, Relationship>,
    coHolders: map<PublicKey, CoHolder>,
    revoked: map<PublicKey, u64>,
    addrs: map<PublicKey, string>)

  const EMPTY_DISK := Disk(None, None, map[], map[], map[], map[], map[])

  datatype World = World(mem: Memory, disk: Disk)

  /** What never changes while a side runs. */
  datatype Identity = Identity(address: PublicKey, caption: Option<string>, createdAt: u64)

  // ---------------------------------------------------------------------
  // Small conversions
  // ---------------------------------------------------------------------

  function FromRecord(r: RelationshipRecord): Relationship {
    Relationship(r.address, r.nickname, r.introducedBy, (set c | c in r.capabilities), r.notes, r.pinned, r.addedAt, None)
  }

  function LifecycleName(l: Lifecycle): string {
    match l
    case Created => "Created"
    case Active => "Active"
    case Dormant => "Dormant"
    case Retired => "Retired"
  }

  /** An unknown name falls back to Created. */
  function ParseLifecycle(s: string): Lifecycle {
    if s == "Active" then Active
    else if s == "Dormant" then Dormant
    else if s == "Retired" then Retired
    else Created
  }

  lemma LifecycleRoundTrip(l: Lifecycle)
    ensures ParseLifecycle(LifecycleName(l)) == l
  {
    assert "Created"[0] == 'C' && "Active"[0] == 'A' && "Dormant"[0] == 'D' && "Retired"[0] == 'R';
  }

  function Derive(lastSendAt: Option<u64>, retired: bool, now: u64): Lifecycle {
    if retired then Retired
    else
      match lastSendAt
      case None => Created
      case Some(ts) => if (if now >= ts then now - ts else 0) < DORMANT_AFTER_SECS then Active else Dormant
  }

  // ---------------------------------------------------------------------
  // The store
  // ---------------------------------------------------------------------

  /** On conflict the creation time stays. */
  function UpsertedSide(d: Disk, row: SideRow): Disk {
    d.(row := Some(if d.row.Some? then row.(createdAt := d.row.value.createdAt) else row))
  }

  /** A row that is there already stays as it is. */
  function InsertedOnce(rows: map<PublicKey, u64>, key: PublicKey, at: u64): map<PublicKey, u64> {
    if key in rows then rows else rows[key := at]
  }

  function FromRow(address: PublicKey, row: RelationshipRow): Relationship {
    Relationship(address, row.nickname, row.introducedBy, Decoded(row.capabilities), row.notes, row.pinned,
                 row.addedAt, row.peerListenAddr)
  }

  function Listed(rows: map<PublicKey, RelationshipRow>): map<PublicKey, Relationship> {
    map addr | addr in rows :: FromRow(addr, rows[addr])
  }

  /** The time a relationship keeps when it is written over `held`. */
  function KeptTime(held: map<PublicKey, Relationship>, r: Relationship): u64 {
    if r.address in held then held[r.address].addedAt else r.addedAt
  }

  /** On conflict every column is replaced but the time the relationship was added; and the
      capabilities are what their column gives back. */
  function UpsertedRelationship(d: Disk, r: Relationship): Disk {
    var stored := r.(capabilities := Reread(r.capabilities), addedAt := KeptTime(d.relationships, r));
    d.(relationships := d.relationships[r.address := stored])
  }

  class SideStore {
    var row: Option<SideRow>
    var profile: Option<Profile>
    var retiredSeen: map<PublicKey, u64>
    var relationships: map<PublicKey, RelationshipRow>
    var coHolders: map<PublicKey, CoHolder>
    var revoked: map<PublicKey, u64>
    var addrs: map<PublicKey, string>

    function Rows(): Disk
      reads this
    {
      Disk(row, profile, retiredSeen, Listed(relationships), coHolders, revoked, addrs)
    }

    constructor ()
      ensures Rows() == EMPTY_DISK
    {
      row, profile, retiredSeen, relationships := None, None, map[], map[];
      coHolders, revoked, addrs := map[], map[], map[];
    }

    method UpsertSide(s: SideRow)
      modifies this
      ensures Rows() == UpsertedSide(old(Rows()), s)
    {
      match row
      case None => row := Some(s);
      case Some(r) =>
        row := Some(r.(caption := s.caption, lifecycle := s.lifecycle,
                       lastSendAt := s.lastSendAt, selfRetired := s.selfRetired));
    }

    method UpsertProfile(p: Profile)
      modifies this
      ensures Rows() == old(Rows()).(profile := Some(p))
    {
      profile := Some(p);
    }

    method DeleteProfile()
      modifies this
      ensures Rows() == old(Rows()).(profile := None)
    {
      profile := None;
    }

    method AddRetiredSeen(addr: PublicKey, at: u64)
      modifies this
      ensures Rows() == old(Rows()).(retiredSeen := InsertedOnce(old(retiredSeen), addr, at))
    {
      if addr !in retiredSeen {
        retiredSeen := retiredSeen[addr := at];
      }
    }

    method UpsertRelationship(r: Relationship)
      modifies this
      ensures Rows() == UpsertedRelationship(old(Rows()), r)
    {
      ghost var before := Listed(relationships);
      var column := Encode(r.capabilities);
      var written := RelationshipRow(r.nickname, r.introducedBy, column, r.notes, r.pinned, r.addedAt, r.peerListenAddr);
      if r.address in relationships {
        var kept := relationships[r.address].addedAt;
        relationships := relationships[r.address := written.(addedAt := kept)];
      } else {
        relationships := relationships[r.address := written];
      }
      assert Listed(relationships)
          == before[r.address := r.(capabilities := Reread(r.capabilities), addedAt := KeptTime(before, r))];
    }

    method DeleteRelationship(addr: PublicKey)
      modifies this
      ensures Rows() == old(Rows()).(relationships := old(Rows()).relationships - {addr})
    {
      ghost var before := Listed(relationships);
      relationships := relationships - {addr};
      assert Listed(relationships) == before - {addr};
    }

    method AddCoHolder(device: PublicKey, h: CoHolder)
      modifies this
      ensures Rows() == old(Rows()).(coHolders := old(coHolders)[device := h])
    {
      coHolders := coHolders[device := h];
    }

    method RemoveCoHolder(device: PublicKey)
      modifies this
      ensures Rows() == old(Rows()).(coHolders := old(coHolders) - {device})
    {
      coHolders := coHolders - {device};
    }

    method AddRevokedDevice(device: PublicKey, at: u64)
      modifies this
      ensures Rows() == old(Rows()).(revoked := InsertedOnce(old(revoked), device, at))
    {
      if device !in revoked {
        revoked := revoked[device := at];
      }
    }

    method UpsertCoHolderAddr(device: PublicKey, dial: string)
      modifies this
      ensures Rows() == old(Rows()).(addrs := old(addrs)[device := dial])
    {
      addrs := addrs[device := dial];
    }

    method RemoveCoHolderAddr(device: PublicKey)
      modifies this
      ensures Rows() == old(Rows()).(addrs := old(addrs) - {device})
    {
      addrs := addrs - {device};
    }
  }

  // ---------------------------------------------------------------------
  // What each mutator does to memory and store
  // ---------------------------------------------------------------------

  function SettingProfile(w: World, p: Profile): World {
    World(w.mem.(profile := Some(p)), w.disk.(profile := Some(p)))
  }

  function ClearingProfile(w: World): World {
    World(w.mem.(profile := None), w.disk.(profile := None))
  }

  function MarkingRetired(w: World, addr: PublicKey, now: u64): World {
    World(w.mem.(retiredSeen := w.mem.retiredSeen + {addr}),
          w.disk.(retiredSeen := InsertedOnce(w.disk.retiredSeen, addr, now)))
  }

  function AddingRelationship(w: World, r: Relationship): World {
    World(w.mem.(relationships := w.mem.relationships[r.address := r]), UpsertedRelationship(w.disk, r))
  }

  function RemovingRelationship(w: World, addr: PublicKey): World {
    World(w.mem.(relationships := w.mem.relationships - {addr}),
          w.disk.(relationships := w.disk.relationships - {addr}))
  }

  /** In place under `addr` in memory, whatever address the change gives it. */
  function UpdatingRelationship(w: World, addr: PublicKey, f: Relationship -> Relationship): World {
    if addr !in w.mem.relationships then w
    else
      var after := f(w.mem.relationships[addr]);
      World(w.mem.(relationships := w.mem.relationships[addr := after]), UpsertedRelationship(w.disk, after))
  }

  /** The side row as memory has it. */
  function RowOf(id: Identity, m: Memory): SideRow {
    SideRow(id.caption, id.createdAt, LifecycleName(m.lifecycle), m.lastSendAt, m.selfRetired)
  }

  function PersistingRow(id: Identity, w: World): World {
    w.(disk := UpsertedSide(w.disk, RowOf(id, w.mem)))
  }

  function SettingLifecycle(id: Identity, w: World, l: Lifecycle): World {
    PersistingRow(id, w.(mem := w.mem.(lifecycle := l)))
  }

  function RefreshingLifecycle(id: Identity, w: World, now: u64): World {
    if w.mem.lifecycle == Retired then w
    else SettingLifecycle(id, w, Derive(w.mem.lastSendAt, false, now))
  }

  function TouchingSend(id: Identity, w: World, now: u64): World {
    var l := if w.mem.lifecycle == Created then Active else w.mem.lifecycle;
    PersistingRow(id, w.(mem := w.mem.(lastSendAt := Some(now), lifecycle := l)))
  }

  function RetiringSelf(id: Identity, w: World): World {
    SettingLifecycle(id, w.(mem := w.mem.(selfRetired := true)), Retired)
  }

  function AddingCoHolder(w: World, device: PublicKey, h: CoHolder): World {
    World(w.mem.(coHolders := w.mem.coHolders[device := h]), w.disk.(coHolders := w.disk.coHolders[device := h]))
  }

  function RemovingCoHolder(w: World, device: PublicKey): World {
    World(w.mem.(coHolders := w.mem.coHolders - {device}), w.disk.(coHolders := w.disk.coHolders - {device}))
  }

  function RevokingDevice(w: World, device: PublicKey, now: u64): World {
    World(w.mem.(revoked := w.mem.revoked + {device}), w.disk.(revoked := InsertedOnce(w.disk.revoked, device, now)))
  }

  function RecordingAddr(w: World, device: PublicKey, dial: string): World {
    World(w.mem.(addrs := w.mem.addrs[device := dial]), w.disk.(addrs := w.disk.addrs[device := dial]))
  }

  function DroppingAddr(w: World, device: PublicKey): World {
    World(w.mem.(addrs := w.mem.addrs - {device}), w.disk.(addrs := w.disk.addrs - {device}))
  }

  /** A change another co-holder made; a profile that does not decode is None. */
  datatype Delta =
    | ProfileUpdated(profile: Option<Profile>)
    | ProfileCleared
    | RelationshipUpserted(rel: RelationshipRecord)
    | RelationshipRemoved(address: PublicKey)
    | RetiredObserved(address: PublicKey)
    | LifecycleChanged(state: string)
    | CoHolderAdded(device: PublicKey, dial: string)
    | CoHolderRemoved(device: PublicKey)

  /** The later stamp wins, and a tie goes to the newcomer. */
  predicate SupersedesProfile(m: Memory, p: Profile) {
    m.profile.None? || p.updatedAt >= m.profile.value.updatedAt
  }

  predicate SupersedesRelationship(m: Memory, r: RelationshipRecord) {
    r.address !in m.relationships || r.addedAt >= m.relationships[r.address].addedAt
  }

  function Applying(id: Identity, w: World, d: Delta, now: u64): World {
    match d
    case ProfileUpdated(p) =>
      if p.Some? && SupersedesProfile(w.mem, p.value) then SettingProfile(w, p.value) else w
    case ProfileCleared => ClearingProfile(w)
    case RelationshipUpserted(r) =>
      if SupersedesRelationship(w.mem, r) then AddingRelationship(w, FromRecord(r)) else w
    case RelationshipRemoved(addr) => RemovingRelationship(w, addr)
    case RetiredObserved(addr) => MarkingRetired(w, addr, now)
    case LifecycleChanged(s) =>
      if w.mem.selfRetired then w else SettingLifecycle(id, w, ParseLifecycle(s))
    case CoHolderAdded(device, dial) =>
      if device == id.address || device in w.mem.revoked then w
      else RecordingAddr(AddingCoHolder(w, device, CoHolder(now, None)), device, dial)
    case CoHolderRemoved(device) => DroppingAddr(RevokingDevice(RemovingCoHolder(w, device), device, now), device)
  }

  /** Memory as `LoadOrCreate` rebuilds it. */
  function Loaded(d: Disk): Memory
    requires d.row.Some?
  {
    var row := d.row.value;
    Memory(d.profile, d.retiredSeen.Keys, d.relationships, ParseLifecycle(row.lifecycle), row.lastSendAt,
           row.selfRetired, d.coHolders, d.revoked.Keys, d.addrs)
  }

  const NEW_SIDE := Memory(None, {}, map[], Created, None, false, map[], {}, map[])

  class Side {
    const id: Identity
    const store: SideStore
    var profile: Option<Profile>
    var retiredSeen: set<PublicKey>
    var relationships: map<PublicKey, Relationship>
    var lifecycle: Lifecycle
    var lastSendAt: Option<u64>
    var selfRetired: bool
    var coHolders: map<PublicKey, CoHolder>
    var revoked: set<PublicKey>
    var addrs: map<PublicKey, string>

    function State(): World
      reads this, store
    {
      World(Memory(profile, retiredSeen, relationships, lifecycle, lastSendAt, selfRetired, coHolders, revoked, addrs),
            store.Rows())
    }

    /** Existing rows are loaded whole; otherwise a fresh row is written. */
    constructor LoadOrCreate(address: PublicKey, caption: Option<string>, store: SideStore, now: u64)
      modifies store
      ensures this.store == store && id.address == address
      ensures old(store.row).Some? ==>
                && State() == World(Loaded(old(store.Rows())), old(store.Rows()))
                && id == Identity(address, old(store.row).value.caption, old(store.row).value.createdAt)
      ensures old(store.row).None? ==>
                && id == Identity(address, caption, now)
                && State() == World(NEW_SIDE, UpsertedSide(old(store.Rows()), RowOf(id, NEW_SIDE)))
                && profile == None && retiredSeen == {} && relationships == map[] && lifecycle == Created
                && lastSendAt == None && !selfRetired && coHolders == map[] && revoked == {} && addrs == map[]
                && store.row == Some(SideRow(caption, now, "Created", None, false))
    {
      this.store := store;
      var found := store.row;
      match found {
        case Some(s) =>
          id := Identity(address, s.caption, s.createdAt);
          profile := store.profile;
          retiredSeen := store.retiredSeen.Keys;
          relationships := Listed(store.relationships);
          lifecycle := ParseLifecycle(s.lifecycle);
          lastSendAt := s.lastSendAt;
          selfRetired := s.selfRetired;
          coHolders := store.coHolders;
          revoked := store.revoked.Keys;
          addrs := store.addrs;
        case None =>
          id := Identity(address, caption, now);
          profile, retiredSeen, relationships := None, {}, map[];
          lifecycle, lastSendAt, selfRetired := Created, None, false;
          coHolders, revoked, addrs := map[], {}, map[];
      }
      new;
      if found.None? {
        store.UpsertSide(SideRow(caption, now, "Created", None, false));
      }
    }

    method SetProfile(p: Profile)
      modifies this, store
      ensures State() == SettingProfile(old(State()), p)
    {
      store.UpsertProfile(p);
      profile := Some(p);
    }

    method MarkRetiredSeen(addr: PublicKey, now: u64)
      modifies this, store
      ensures State() == MarkingRetired(old(State()), addr, now)
    {
      store.AddRetiredSeen(addr, now);
      retiredSeen := retiredSeen + {addr};
    }

    method AddRelationship(r: Relationship)
      modifies this, store
      ensures State() == AddingRelationship(old(State()), r)
    {
      store.UpsertRelationship(r);
      relationships := relationships[r.address := r];
    }

    method RemoveRelationship(addr: PublicKey)
      modifies this, store
      ensures State() == RemovingRelationship(old(State()), addr)
    {
      store.DeleteRelationship(addr);
      relationships := relationships - {addr};
    }

    method UpdateRelationship(addr: PublicKey, f: Relationship -> Relationship) returns (before: Option<Relationship>)
      modifies this, store
      ensures State() == UpdatingRelationship(old(State()), addr, f)
      ensures before == if addr in old(relationships) then Some(old(relationships)[addr]) else None
    {
      if addr !in relationships {
        return None;
      }
      before := Some(relationships[addr]);
      relationships := relationships[addr := f(relationships[addr])];
      store.UpsertRelationship(relationships[addr]);
    }

    method PersistRow()
      modifies store
      ensures State() == PersistingRow(id, old(State()))
    {
      store.UpsertSide(SideRow(id.caption, id.createdAt, LifecycleName(lifecycle), lastSendAt, selfRetired));
    }

    method SetLifecycle(l: Lifecycle)
      modifies this, store
      ensures State() == SettingLifecycle(id, old(State()), l)
    {
      lifecycle := l;
      PersistRow();
    }

    method RefreshLifecycle(now: u64)
      modifies this, store
      ensures State() == RefreshingLifecycle(id, old(State()), now)
    {
      if lifecycle == Retired {
        return;
      }
      lifecycle := Derive(lastSendAt, false, now);
      PersistRow();
    }

    method TouchSend(now: u64)
      modifies this, store
      ensures State() == TouchingSend(id, old(State()), now)
    {
      lastSendAt := Some(now);
      if lifecycle == Created {
        lifecycle := Active;
      }
      PersistRow();
    }

    /** The row is written twice, as the source writes it. */
    method SetSelfRetired()
      modifies this, store
      ensures State() == RetiringSelf(id, old(State()))
    {
      selfRetired := true;
      SetLifecycle(Retired);
      PersistRow();
    }

    method AddCoHolder(device: PublicKey, addedBy: Option<PublicKey>, now: u64)
      modifies this, store
      ensures State() == AddingCoHolder(old(State()), device, CoHolder(now, addedBy))
    {
      store.AddCoHolder(device, CoHolder(now, addedBy));
      coHolders := coHolders[device := CoHolder(now, addedBy)];
    }

    method RemoveCoHolder(device: PublicKey)
      modifies this, store
      ensures State() == RemovingCoHolder(old(State()), device)
    {
      store.RemoveCoHolder(device);
      coHolders := coHolders - {device};
    }

    method AddRevokedDevice(device: PublicKey, now: u64)
      modifies this, store
      ensures State() == RevokingDevice(old(State()), device, now)
    {
      store.AddRevokedDevice(device, now);
      revoked := revoked + {device};
    }

    method RecordCoHolderAddr(device: PublicKey, dial: string)
      modifies this, store
      ensures State() == RecordingAddr(old(State()), device, dial)
    {
      store.UpsertCoHolderAddr(device, dial);
      addrs := addrs[device := dial];
    }

    method ApplyDelta(d: Delta, now: u64)
      modifies this, store
      ensures State() == Applying(id, old(State()), d, now)
    {
      match d {
        case ProfileUpdated(p) =>
          if p.None? {
            return;
          }
          if profile.None? || p.value.updatedAt >= profile.value.updatedAt {
            SetProfile(p.value);
          }
        case ProfileCleared =>
          profile := None;
          store.DeleteProfile();
        case RelationshipUpserted(r) =>
          if r.address !in relationships || r.addedAt >= relationships[r.address].addedAt {
            AddRelationship(FromRecord(r));
          }
        case RelationshipRemoved(addr) => RemoveRelationship(addr);
        case RetiredObserved(addr) => MarkRetiredSeen(addr, now);
        case LifecycleChanged(s) =>
          if selfRetired {
            return;
          }
          SetLifecycle(ParseLifecycle(s));
        case CoHolderAdded(device, dial) =>
          if device == id.address {
            return;
          }
          if device in revoked {
            return;
          }
          AddCoHolder(device, None, now);
          RecordCoHolderAddr(device, dial);
        case CoHolderRemoved(device) =>
          RemoveCoHolder(device);
          AddRevokedDevice(device, now);
          addrs := addrs - {device};
          store.RemoveCoHolderAddr(device);
      }
    }
  }
}
