/** Concurrent verse sessions over one host (crates/sidevers-net/src/node.rs): a handler is a
    task, and every step is one acquisition of the host's lock, in any interleaving. */
module VerseProtocol {
  import opened Wrappers
  import opened ContractTypes
  import opened Amendments
  import opened VerseHosts

  /** Where a handler stands between two acquisitions of the lock. */
  datatype Task =
    | JoinRead(side: Side, contract: Contract)
    | JoinSealed(side: Side, contract: Contract, key: ContentKey)
    | Removing(side: Side)
    | Rotating(departed: Option<Side>)
    | Pushing
    | PostRead(side: Side, contract: Contract)

  type TaskId = nat

  /** How contracts are addressed. */
  type HashOf = Contract -> Hash

  /** The host, the handlers in flight, and what only an observer of the whole run knows:
      whom each content key was ever sealed to, which contract hashes each side agreed to,
      every contract installed so far, and what a failed rotation or an unagreed post left.
      A delivery is a spawned attempt to hand a sealed key to a side. */
  datatype System = System(
    host: Host,
    tasks: map<TaskId, Task>,
    deliveries: Deliveries,
    holders: map<ContentKey, set<Side>>,
    stranded: set<Side>,
    agreed: set<(Side, Hash)>,
    installed: seq<Contract>,
    unagreed: set<(Side, Hash)>)

  function Start(c: Contract, key: ContentKey): System {
    System(Opened(c, key), map[], multiset{}, map[key := {}], {}, {}, [c], {})
  }

  datatype Event =
    | Opens(side: Side)
    | Closes(side: Side)
    | Delivers(side: Side, key: ContentKey)
    | Stashes(side: Side, key: ContentKey)
    | Takes(side: Side)
    | AddsLocal(side: Side)
    | Amends(contract: Contract)
    | Reconsents(side: Side, hash: Hash)
    | JoinReads(id: TaskId, side: Side, hash: Hash, fields: set<FieldKind>)
    | JoinSeals(id: TaskId)
    | JoinInserts(id: TaskId)
    | Leaves(id: TaskId, side: Side)
    | RemoveChecks(id: TaskId, issuer: Side, side: Side)
    | RemoveCommits(id: TaskId)
    | OwnerRotates(id: TaskId)
    | Rotates(id: TaskId, key: ContentKey)
    | RotateFails(id: TaskId)
    | Pushes(id: TaskId)
    | PostReads(id: TaskId, side: Side)
    | PostAdmits(id: TaskId)
    | Abandons(id: TaskId)

  /** A step waits for its handler to be at the right point; a new handler takes a new id, and
      a rotation draws a key never used before. A delivery succeeds, or fails and is stashed. */
  predicate Enabled(s: System, e: Event) {
    match e
    case Opens(_) => true
    case Closes(_) => true
    case Delivers(side, key) => (side, key) in s.deliveries
    case Stashes(side, key) => (side, key) in s.deliveries
    case Takes(_) => true
    case AddsLocal(_) => s.host.contentKey in s.holders
    case Amends(_) => true
    case Reconsents(_, _) => true
    case JoinReads(id, _, _, _) => id !in s.tasks
    case JoinSeals(id) => id in s.tasks && s.tasks[id].JoinRead? && s.host.contentKey in s.holders
    case JoinInserts(id) => id in s.tasks && s.tasks[id].JoinSealed?
    case Leaves(id, _) => id !in s.tasks
    case RemoveChecks(id, _, _) => id !in s.tasks
    case RemoveCommits(id) => id in s.tasks && s.tasks[id].Removing?
    case OwnerRotates(id) => id !in s.tasks
    case Rotates(id, key) => id in s.tasks && s.tasks[id].Rotating? && key !in s.holders
    case RotateFails(id) => id in s.tasks && s.tasks[id].Rotating?
    case Pushes(id) => id in s.tasks && s.tasks[id].Pushing? && s.host.contentKey in s.holders
    case PostReads(id, _) => id !in s.tasks
    case PostAdmits(id) => id in s.tasks && s.tasks[id].PostRead?
    case Abandons(id) => id in s.tasks && !s.tasks[id].Rotating? && !s.tasks[id].JoinSealed?
  }

  // ---------------------------------------------------------------------
  // The steps that do more than one thing
  // ---------------------------------------------------------------------

  type Deliveries = multiset<(Side, ContentKey)>

  function Spawned(ds: Deliveries, sides: set<Side>, key: ContentKey): Deliveries {
    ds + multiset(set side | side in sides :: (side, key))
  }

  function Begun(ds: Deliveries, side: Side, key: ContentKey): Deliveries {
    ds + multiset{(side, key)}
  }

  function Ended(ds: Deliveries, side: Side, key: ContentKey): Deliveries {
    ds - multiset{(side, key)}
  }

  function Without(s: System, id: TaskId): System {
    s.(tasks := s.tasks - {id})
  }

  function At(s: System, id: TaskId, t: Task): System {
    s.(tasks := s.tasks[id := t])
  }

  /** The current content key reaches these sides. */
  function Sealing(s: System, sides: set<Side>): System
    requires s.host.contentKey in s.holders
  {
    var key := s.host.contentKey;
    s.(holders := s.holders[key := s.holders[key] + sides])
  }

  function AddingLocal(hashOf: HashOf, s: System, side: Side): System
    requires s.host.contentKey in s.holders
  {
    var c := s.host.contract;
    Sealing(s, {side}).(host := WithMember(s.host, side, c.version),
                        agreed := s.agreed + {(side, hashOf(c))})
  }

  function Reconsenting(hashOf: HashOf, s: System, side: Side, hash: Hash): System {
    var expected := hashOf(s.host.contract);
    s.(host := Reconsented(s.host, expected, side, hash),
       agreed := if side in s.host.members && hash == expected then s.agreed + {(side, hash)} else s.agreed)
  }

  function ReadingJoin(hashOf: HashOf, s: System, id: TaskId, side: Side, hash: Hash, fields: set<FieldKind>): System {
    var c := s.host.contract;
    if JudgeJoin(c, hashOf(c), hash, fields).Proceed?
    then At(s, id, JoinRead(side, c)).(agreed := s.agreed + {(side, hash)})
    else s
  }

  function SealingJoin(s: System, id: TaskId): System
    requires Enabled(s, JoinSeals(id))
  {
    var t := s.tasks[id];
    At(Sealing(s, {t.side}), id, JoinSealed(t.side, t.contract, s.host.contentKey))
  }

  function InsertingJoin(s: System, id: TaskId): System
    requires Enabled(s, JoinInserts(id))
  {
    var t := s.tasks[id];
    Without(s, id).(host := WithMember(s.host, t.side, t.contract.version))
  }

  /** The departure itself; only a member's departure goes on to rotate. */
  function Departing(s: System, id: TaskId, side: Side): System {
    var left := s.(host := WithoutMember(s.host, side));
    if side in s.host.members then At(left, id, Rotating(Some(side))) else Without(left, id)
  }

  function CheckingRemove(s: System, id: TaskId, issuer: Side, side: Side): System {
    if IsModerator(s.host.contract, issuer) then At(s, id, Removing(side)) else s
  }

  function Rotated(s: System, id: TaskId, key: ContentKey): System {
    At(s, id, Pushing).(host := s.host.(contentKey := key), holders := s.holders[key := {}], stranded := {})
  }

  /** The sessions of members get the current key, each by a delivery of its own. */
  function Pushed(s: System, id: TaskId): System
    requires s.host.contentKey in s.holders
  {
    var targets := s.host.active * s.host.members;
    Without(Sealing(s, targets), id).(deliveries := Spawned(s.deliveries, targets, s.host.contentKey))
  }

  function Stashing(s: System, side: Side, key: ContentKey): System {
    s.(host := s.host.(pending := s.host.pending[side := key]), deliveries := Ended(s.deliveries, side, key))
  }

  /** A stash taken on reconnect is one more delivery, which may fail and be stashed again. */
  function Taking(s: System, side: Side): System {
    if side !in s.host.pending then s
    else s.(host := s.host.(pending := s.host.pending - {side}),
            deliveries := Begun(s.deliveries, side, s.host.pending[side]))
  }

  /** No key could be drawn: the handler logs a warning and moves on. */
  function Unrotated(s: System, id: TaskId): System
    requires Enabled(s, RotateFails(id))
  {
    var departed := s.tasks[id].departed;
    Without(s, id).(stranded := if departed.Some? then s.stranded + {departed.value} else s.stranded)
  }

  /** Admission compares the version read under the earlier lock. */
  function Posting(hashOf: HashOf, s: System, id: TaskId): System
    requires Enabled(s, PostAdmits(id))
  {
    var t := s.tasks[id];
    var pair := (t.side, hashOf(t.contract));
    Without(s, id).(unagreed := if MayPost(s.host, t.side, t.contract.version) && pair !in s.agreed
                                then s.unagreed + {pair} else s.unagreed)
  }

  function Next(hashOf: HashOf, s: System, e: Event): System
    requires Enabled(s, e)
  {
    match e
    case Opens(side) => s.(host := s.host.(active := s.host.active + {side}))
    case Closes(side) => s.(host := s.host.(active := s.host.active - {side}))
    case Delivers(side, key) => s.(deliveries := Ended(s.deliveries, side, key))
    case Stashes(side, key) => Stashing(s, side, key)
    case Takes(side) => Taking(s, side)
    case AddsLocal(side) => AddingLocal(hashOf, s, side)
    case Amends(c) => s.(host := s.host.(contract := c), installed := s.installed + [c])
    case Reconsents(side, hash) => Reconsenting(hashOf, s, side, hash)
    case JoinReads(id, side, hash, fields) => ReadingJoin(hashOf, s, id, side, hash, fields)
    case JoinSeals(id) => SealingJoin(s, id)
    case JoinInserts(id) => InsertingJoin(s, id)
    case Leaves(id, side) => Departing(s, id, side)
    case RemoveChecks(id, issuer, side) => CheckingRemove(s, id, issuer, side)
    case RemoveCommits(id) => Departing(s, id, s.tasks[id].side)
    case OwnerRotates(id) => At(s, id, Rotating(None))
    case Rotates(id, key) => Rotated(s, id, key)
    case RotateFails(id) => Unrotated(s, id)
    case Pushes(id) => Pushed(s, id)
    case PostReads(id, side) => At(s, id, PostRead(side, s.host.contract))
    case PostAdmits(id) => Posting(hashOf, s, id)
    case Abandons(id) => Without(s, id)
  }

  // ---------------------------------------------------------------------
  // Runs
  // ---------------------------------------------------------------------

  ghost predicate Runs(hashOf: HashOf, s: System, es: seq<Event>)
    decreases |es|
  {
    es == [] || (Enabled(s, es[0]) && Runs(hashOf, Next(hashOf, s, es[0]), es[1..]))
  }

  ghost function After(hashOf: HashOf, s: System, es: seq<Event>): System
    requires Runs(hashOf, s, es)
    decreases |es|
  {
    if es == [] then s else After(hashOf, Next(hashOf, s, es[0]), es[1..])
  }

  lemma RunsNowhere(hashOf: HashOf, s: System)
    ensures Runs(hashOf, s, []) && After(hashOf, s, []) == s
  {
  }

  lemma {:induction false} RunsOn(hashOf: HashOf, s: System, es: seq<Event>, e: Event)
    requires Runs(hashOf, s, es) && Enabled(After(hashOf, s, es), e)
    ensures Runs(hashOf, s, es + [e]) && After(hashOf, s, es + [e]) == Next(hashOf, After(hashOf, s, es), e)
    decreases |es|
  {
    hide Enabled, Next;
    if es == [] {
      assert [] + [e] == [e] && [e][1..] == [];
    } else {
      RunsOn(hashOf, Next(hashOf, s, es[0]), es[1..], e);
      assert (es + [e])[0] == es[0] && (es + [e])[1..] == es[1..] + [e];
    }
  }

  lemma RunsFrom(hashOf: HashOf, s: System, e: Event, es: seq<Event>)
    requires Enabled(s, e) && Runs(hashOf, Next(hashOf, s, e), es)
    ensures Runs(hashOf, s, [e] + es) && After(hashOf, s, [e] + es) == After(hashOf, Next(hashOf, s, e), es)
  {
    hide Enabled, Next;
    assert ([e] + es)[0] == e && ([e] + es)[1..] == es;
  }

  /** The steps of the runs built below, one by one. */
  lemma AddsLocalIs(hashOf: HashOf, s: System, side: Side)
    requires s.host.contentKey in s.holders
    ensures Enabled(s, AddsLocal(side)) && Next(hashOf, s, AddsLocal(side)) == AddingLocal(hashOf, s, side)
  {
  }

  lemma LeavesIs(hashOf: HashOf, s: System, id: TaskId, side: Side)
    requires id !in s.tasks
    ensures Enabled(s, Leaves(id, side)) && Next(hashOf, s, Leaves(id, side)) == Departing(s, id, side)
  {
  }

  lemma RotateFailsIs(hashOf: HashOf, s: System, id: TaskId)
    requires id in s.tasks && s.tasks[id].Rotating?
    ensures Enabled(s, RotateFails(id)) && Next(hashOf, s, RotateFails(id)) == Unrotated(s, id)
  {
  }

  lemma RotatesIs(hashOf: HashOf, s: System, id: TaskId, key: ContentKey)
    requires id in s.tasks && s.tasks[id].Rotating? && key !in s.holders
    ensures Enabled(s, Rotates(id, key)) && Next(hashOf, s, Rotates(id, key)) == Rotated(s, id, key)
  {
  }

  lemma PushesIs(hashOf: HashOf, s: System, id: TaskId)
    requires id in s.tasks && s.tasks[id].Pushing? && s.host.contentKey in s.holders
    ensures Enabled(s, Pushes(id)) && Next(hashOf, s, Pushes(id)) == Pushed(s, id)
  {
  }

  lemma JoinReadsIs(hashOf: HashOf, s: System, id: TaskId, side: Side, hash: Hash, fields: set<FieldKind>)
    requires id !in s.tasks
    ensures Enabled(s, JoinReads(id, side, hash, fields))
    ensures Next(hashOf, s, JoinReads(id, side, hash, fields)) == ReadingJoin(hashOf, s, id, side, hash, fields)
  {
    hide JudgeJoin;
  }

  lemma JoinSealsIs(hashOf: HashOf, s: System, id: TaskId)
    requires id in s.tasks && s.tasks[id].JoinRead? && s.host.contentKey in s.holders
    ensures Enabled(s, JoinSeals(id)) && Next(hashOf, s, JoinSeals(id)) == SealingJoin(s, id)
  {
  }

  // ---------------------------------------------------------------------
  // Who can hold the current key
  // ---------------------------------------------------------------------

  /** A handler that accounts for `side` holding `key`: a join about to insert it, or a
      departure whose rotation has not happened yet. */
  predicate Covers(t: Task, side: Side, key: ContentKey) {
    || (t.JoinSealed? && t.side == side && t.key == key)
    || (t.Rotating? && t.departed == Some(side))
  }

  predicate Covered(s: System, side: Side) {
    exists id :: id in s.tasks && Covers(s.tasks[id], side, s.host.contentKey)
  }

  predicate HoldersAccounted(s: System) {
    && s.host.contentKey in s.holders
    && forall side :: side in s.holders[s.host.contentKey] ==>
         side in s.host.members || side in s.stranded || Covered(s, side)
  }

  predicate SameKeys(s: System) {
    s.host.consented.Keys == s.host.members
  }

  predicate Holds(s: System, side: Side, key: ContentKey) {
    key in s.holders && side in s.holders[key]
  }

  /** A push under way, and one stashed, was sealed to the side it is for. */
  predicate PushesForHolders(s: System) {
    && (forall d :: d in s.deliveries ==> Holds(s, d.0, d.1))
    && (forall side :: side in s.host.pending ==> Holds(s, side, s.host.pending[side]))
  }

  lemma SameKeysStep(hashOf: HashOf, s: System, e: Event)
    requires Enabled(s, e) && SameKeys(s)
    ensures SameKeys(Next(hashOf, s, e))
  {
    hide Spawned, Begun, Ended, JudgeJoin, IsModerator, MayPost;
  }

  /** Sealing is never undone. */
  lemma HoldersGrow(hashOf: HashOf, s: System, e: Event, side: Side, key: ContentKey)
    requires Enabled(s, e) && Holds(s, side, key)
    ensures Holds(Next(hashOf, s, e), side, key)
  {
    hide Spawned, Begun, Ended, JudgeJoin, IsModerator, MayPost;
  }

  lemma PendingOrigin(hashOf: HashOf, s: System, e: Event, side: Side)
    requires Enabled(s, e) && side in Next(hashOf, s, e).host.pending
    ensures || (side, Next(hashOf, s, e).host.pending[side]) in s.deliveries
            || (side in s.host.pending && Next(hashOf, s, e).host.pending[side] == s.host.pending[side])
  {
    hide Spawned, Begun, Ended, JudgeJoin, IsModerator, MayPost;
  }

  lemma DeliveryOrigin(hashOf: HashOf, s: System, e: Event, d: (Side, ContentKey))
    requires Enabled(s, e) && d in Next(hashOf, s, e).deliveries
    ensures || d in s.deliveries
            || (d.0 in s.host.pending && s.host.pending[d.0] == d.1)
            || Holds(Next(hashOf, s, e), d.0, d.1)
  {
    hide JudgeJoin, IsModerator, MayPost;
  }

  /** Every step keeps each push for a side that holds its key, however it fails, is stashed,
      taken up again and fails again. */
  lemma PushesForHoldersStep(hashOf: HashOf, s: System, e: Event)
    requires Enabled(s, e) && PushesForHolders(s)
    ensures PushesForHolders(Next(hashOf, s, e))
  {
    hide Next, Holds;
    var t := Next(hashOf, s, e);
    forall d | d in t.deliveries ensures Holds(t, d.0, d.1) {
      DeliveryOrigin(hashOf, s, e, d);
      if Holds(s, d.0, d.1) {
        HoldersGrow(hashOf, s, e, d.0, d.1);
      }
    }
    forall side | side in t.host.pending ensures Holds(t, side, t.host.pending[side]) {
      PendingOrigin(hashOf, s, e, side);
      HoldersGrow(hashOf, s, e, side, t.host.pending[side]);
    }
  }

  lemma HoldersAccountedStep(hashOf: HashOf, s: System, e: Event)
    requires Enabled(s, e) && HoldersAccounted(s)
    ensures HoldersAccounted(Next(hashOf, s, e))
  {
    hide Spawned, Begun, Ended, JudgeJoin, IsModerator, MayPost, Covered;
    var t := Next(hashOf, s, e);
    if !e.Rotates? {
      forall side | side in t.holders[t.host.contentKey]
        ensures side in t.host.members || side in t.stranded || Covered(t, side)
      {
        HolderStep(hashOf, s, e, side);
      }
    }
  }

  /** The steps that seal the current key. */
  predicate Seals(e: Event) {
    e.AddsLocal? || e.JoinSeals? || e.Pushes?
  }

  lemma HolderStep(hashOf: HashOf, s: System, e: Event, side: Side)
    requires Enabled(s, e) && HoldersAccounted(s) && !e.Rotates?
    requires Holds(Next(hashOf, s, e), side, s.host.contentKey)
    ensures var t := Next(hashOf, s, e); side in t.host.members || side in t.stranded || Covered(t, side)
  {
    hide Next, Enabled, Covered;
    if Seals(e) {
      SealedHolderStep(hashOf, s, e, side);
    } else {
      OldHolderStep(hashOf, s, e, side);
    }
  }

  lemma SealedHolderStep(hashOf: HashOf, s: System, e: Event, side: Side)
    requires Enabled(s, e) && HoldersAccounted(s) && Seals(e)
    requires Holds(Next(hashOf, s, e), side, s.host.contentKey)
    ensures var t := Next(hashOf, s, e); side in t.host.members || side in t.stranded || Covered(t, side)
  {
    hide Spawned, Begun, Ended;
    var t := Next(hashOf, s, e);
    if Covered(s, side) {
      var id :| id in s.tasks && Covers(s.tasks[id], side, s.host.contentKey);
      assert id in t.tasks ==> Covers(t.tasks[id], side, s.host.contentKey);
    }
    if e.JoinSeals? {
      assert Covers(t.tasks[e.id], s.tasks[e.id].side, s.host.contentKey);
    }
  }

  lemma OldHolderStep(hashOf: HashOf, s: System, e: Event, side: Side)
    requires Enabled(s, e) && HoldersAccounted(s) && !Seals(e) && !e.Rotates?
    requires Holds(Next(hashOf, s, e), side, s.host.contentKey)
    ensures var t := Next(hashOf, s, e); side in t.host.members || side in t.stranded || Covered(t, side)
  {
    hide Spawned, Begun, Ended, JudgeJoin, IsModerator, MayPost;
    var t := Next(hashOf, s, e);
    if Covered(s, side) {
      var id :| id in s.tasks && Covers(s.tasks[id], side, s.host.contentKey);
      assert id in t.tasks ==> Covers(t.tasks[id], side, s.host.contentKey);
    }
    if e.Leaves? || e.RemoveCommits? {
      assert e.id in t.tasks ==> Covers(t.tasks[e.id], if e.Leaves? then e.side else s.tasks[e.id].side, s.host.contentKey);
    }
  }

  ghost predicate KeysInvariant(s: System) {
    HoldersAccounted(s) && SameKeys(s) && PushesForHolders(s)
  }

  lemma {:induction false} KeysInvariantAfter(hashOf: HashOf, s: System, es: seq<Event>)
    requires KeysInvariant(s) && Runs(hashOf, s, es)
    ensures KeysInvariant(After(hashOf, s, es))
    decreases |es|
  {
    hide Enabled, Next, HoldersAccounted, SameKeys, PushesForHolders;
    if es != [] {
      HoldersAccountedStep(hashOf, s, es[0]);
      SameKeysStep(hashOf, s, es[0]);
      PushesForHoldersStep(hashOf, s, es[0]);
      KeysInvariantAfter(hashOf, Next(hashOf, s, es[0]), es[1..]);
    }
  }

  /** No join about to insert, no rotation owed, none failed since the last that succeeded. */
  predicate Settled(s: System) {
    && s.stranded == {}
    && forall id :: id in s.tasks ==> !s.tasks[id].JoinSealed? && !s.tasks[id].Rotating?
  }

  /** In every interleaving: whoever holds the current key is a member, is being inserted, or
      left with the rotation still owed; at rest only members hold it. */
  lemma CurrentKeyIsAccounted(hashOf: HashOf, c: Contract, key: ContentKey, es: seq<Event>)
    requires Runs(hashOf, Start(c, key), es)
    ensures var s := After(hashOf, Start(c, key), es);
            && HoldersAccounted(s) && SameKeys(s) && PushesForHolders(s)
            && (Settled(s) ==> s.holders[s.host.contentKey] <= s.host.members)
  {
    hide Enabled, Next;
    KeysInvariantAfter(hashOf, Start(c, key), es);
  }

  // ---------------------------------------------------------------------
  // What a departed side can still learn
  // ---------------------------------------------------------------------

  predicate Joining(t: Task, side: Side) {
    (t.JoinRead? || t.JoinSealed?) && t.side == side
  }

  predicate Outside(s: System, side: Side) {
    side !in s.host.members && forall id :: id in s.tasks ==> !Joining(s.tasks[id], side)
  }

  /** The steps that let `side` in anew. */
  predicate Readmits(e: Event, side: Side) {
    (e.JoinReads? || e.AddsLocal?) && e.side == side
  }

  predicate NoReadmission(es: seq<Event>, side: Side) {
    forall e :: e in es ==> !Readmits(e, side)
  }

  ghost predicate LearnsNothing(s: System, t: System, side: Side) {
    forall key :: Holds(t, side, key) ==> Holds(s, side, key)
  }

  lemma OutsideStaysOut(hashOf: HashOf, s: System, e: Event, side: Side)
    requires Enabled(s, e) && Outside(s, side) && !Readmits(e, side)
    ensures Outside(Next(hashOf, s, e), side)
  {
    hide Spawned, Begun, Ended, JudgeJoin, IsModerator, MayPost;
  }

  lemma OutsideSealedNothing(hashOf: HashOf, s: System, e: Event, side: Side)
    requires Enabled(s, e) && Outside(s, side) && !Readmits(e, side)
    ensures LearnsNothing(s, Next(hashOf, s, e), side)
  {
    hide Spawned, Begun, Ended, JudgeJoin, IsModerator, MayPost, WithMember, WithoutMember;
  }

  lemma OutsideStep(hashOf: HashOf, s: System, e: Event, side: Side)
    requires Enabled(s, e) && Outside(s, side) && !Readmits(e, side)
    ensures Outside(Next(hashOf, s, e), side) && LearnsNothing(s, Next(hashOf, s, e), side)
  {
    hide Enabled, Next, Outside, Readmits, LearnsNothing;
    OutsideStaysOut(hashOf, s, e, side);
    OutsideSealedNothing(hashOf, s, e, side);
  }

  lemma {:induction false} OutsideLearnsNothing(hashOf: HashOf, s: System, es: seq<Event>, side: Side)
    requires Runs(hashOf, s, es) && Outside(s, side)
    requires NoReadmission(es, side)
    ensures Outside(After(hashOf, s, es), side) && LearnsNothing(s, After(hashOf, s, es), side)
    decreases |es|
  {
    hide Enabled, Next, Outside, Readmits, Holds;
    if es != [] {
      OutsideStep(hashOf, s, es[0], side);
      OutsideLearnsNothing(hashOf, Next(hashOf, s, es[0]), es[1..], side);
    }
  }

  /** Only a rotation changes the current key. */
  lemma KeyStep(hashOf: HashOf, s: System, e: Event)
    requires Enabled(s, e)
    ensures Next(hashOf, s, e).host.contentKey == if e.Rotates? then e.key else s.host.contentKey
    ensures e.Rotates? ==> !exists side :: Holds(Next(hashOf, s, e), side, e.key)
  {
    hide Spawned, Begun, Ended, JudgeJoin, IsModerator, MayPost;
  }

  predicate HoldsCurrent(s: System, side: Side) {
    Holds(s, side, s.host.contentKey)
  }

  predicate SomeRotation(es: seq<Event>) {
    exists e :: e in es && e.Rotates?
  }

  /** One step of a side outside: it keeps the current key unless the step rotates it. */
  lemma OutsideKeyStep(hashOf: HashOf, s: System, e: Event, side: Side)
    requires Enabled(s, e) && Outside(s, side) && !Readmits(e, side)
    ensures HoldsCurrent(Next(hashOf, s, e), side) <==> HoldsCurrent(s, side) && !e.Rotates?
  {
    hide Enabled, Next, Holds, Outside, Readmits;
    KeyStep(hashOf, s, e);
    OutsideStep(hashOf, s, e, side);
    if HoldsCurrent(s, side) {
      HoldersGrow(hashOf, s, e, side, s.host.contentKey);
    }
  }

  /** A departed side goes on holding the current key exactly as long as no rotation succeeds:
      over every continuation that does not let it in anew, whatever rotations fail. */
  lemma {:induction false} DepartedKeepsKeyExactly(hashOf: HashOf, s: System, es: seq<Event>, side: Side)
    requires Runs(hashOf, s, es) && Outside(s, side) && NoReadmission(es, side)
    ensures HoldsCurrent(After(hashOf, s, es), side) <==> HoldsCurrent(s, side) && !SomeRotation(es)
    decreases |es|
  {
    hide Enabled, Next, Outside, Readmits, HoldsCurrent, Holds;
    if es != [] {
      OutsideStep(hashOf, s, es[0], side);
      OutsideKeyStep(hashOf, s, es[0], side);
      DepartedKeepsKeyExactly(hashOf, Next(hashOf, s, es[0]), es[1..], side);
      assert SomeRotation(es) <==> es[0].Rotates? || SomeRotation(es[1..]) by {
        assert es == [es[0]] + es[1..];
      }
    }
  }

  lemma LeavingRuns(hashOf: HashOf, c: Contract, key: ContentKey, side: Side) returns (s: System)
    ensures var es := [AddsLocal(side), Leaves(0, side)];
            Runs(hashOf, Start(c, key), es) && s == After(hashOf, Start(c, key), es)
    ensures s.tasks == map[0 := Rotating(Some(side))] && Outside(s, side) && HoldsCurrent(s, side)
  {
    var s0 := Start(c, key);
    AddsLocalIs(hashOf, s0, side);
    hide Next, Enabled;
    var s1 := AddingLocal(hashOf, s0, side);
    assert s1.tasks == map[] && side in s1.host.members && HoldsCurrent(s1, side);
    LeavesIs(hashOf, s1, 0, side);
    s := Departing(s1, 0, side);
    assert s.tasks == map[0 := Rotating(Some(side))] && s.holders == s1.holders && s.host.contentKey == s1.host.contentKey;
    assert side !in s.host.members;
    RunsNowhere(hashOf, s);
    hide AddingLocal, Departing, Runs, After, Start;
    RunsFrom(hashOf, s1, Leaves(0, side), []);
    RunsFrom(hashOf, s0, AddsLocal(side), [Leaves(0, side)] + []);
    assert [AddsLocal(side)] + ([Leaves(0, side)] + []) == [AddsLocal(side), Leaves(0, side)];
  }

  /** So when the departure's own rotation fails, the departed side goes on holding the current
      key, with nothing in flight to take it away, exactly until some rotation succeeds. */
  lemma FailedRotationStrandsKey(hashOf: HashOf, c: Contract, key: ContentKey, side: Side)
    ensures var es := [AddsLocal(side), Leaves(0, side), RotateFails(0)];
            && Runs(hashOf, Start(c, key), es)
            && var s := After(hashOf, Start(c, key), es);
            && s.tasks == map[] && Outside(s, side)
            && forall fs :: Runs(hashOf, s, fs) && NoReadmission(fs, side) ==>
                 (HoldsCurrent(After(hashOf, s, fs), side) <==> !SomeRotation(fs))
  {
    hide Runs, After, Next, Enabled, NoReadmission, HoldsCurrent, SomeRotation, Start, Outside;
    var s := LeavingRuns(hashOf, c, key, side);
    RotateFailsIs(hashOf, s, 0);
    var t := Next(hashOf, s, RotateFails(0));
    assert t.tasks == map[];
    OutsideStep(hashOf, s, RotateFails(0), side);
    OutsideKeyStep(hashOf, s, RotateFails(0), side);
    RunsOn(hashOf, Start(c, key), [AddsLocal(side), Leaves(0, side)], RotateFails(0));
    assert [AddsLocal(side), Leaves(0, side)] + [RotateFails(0)] == [AddsLocal(side), Leaves(0, side), RotateFails(0)];
    forall fs | Runs(hashOf, t, fs) && NoReadmission(fs, side)
      ensures HoldsCurrent(After(hashOf, t, fs), side) <==> !SomeRotation(fs)
    {
      DepartedKeepsKeyExactly(hashOf, t, fs, side);
    }
  }

  lemma {:induction false} Unused(used: set<nat>) returns (n: nat)
    ensures n !in used
  {
    n := 0;
    var rest := used;
    while rest != {}
      invariant rest <= used
      invariant forall m :: m in used && m !in rest ==> m < n
      decreases rest
    {
      var m :| m in rest;
      rest := rest - {m};
      n := if m < n then n else m + 1;
    }
  }

  /** Two steps: the owner rotates to a key never used. */
  lemma FreshRotation(hashOf: HashOf, s: System) returns (id: TaskId, key: ContentKey)
    ensures id !in s.tasks && key !in s.holders
    ensures Enabled(s, OwnerRotates(id)) && Enabled(Next(hashOf, s, OwnerRotates(id)), Rotates(id, key))
    ensures Next(hashOf, Next(hashOf, s, OwnerRotates(id)), Rotates(id, key)) == Rotated(s, id, key)
  {
    id := Unused(s.tasks.Keys);
    key := Unused(s.holders.Keys);
    assert s.tasks[id := Rotating(None)][id := Pushing] == s.tasks[id := Pushing];
  }

  /** A join caught between reading the contract and sealing the key is sealed the new one. */
  lemma ReadJoinLearns(hashOf: HashOf, s: System, id: TaskId, side: Side) returns (es: seq<Event>)
    requires id in s.tasks && s.tasks[id].JoinRead? && s.tasks[id].side == side
    ensures Runs(hashOf, s, es) && NoReadmission(es, side) && !LearnsNothing(s, After(hashOf, s, es), side)
  {
    var other, key := FreshRotation(hashOf, s);
    var s1 := Next(hashOf, s, OwnerRotates(other));
    var s2 := Next(hashOf, s1, Rotates(other, key));
    var s3 := Next(hashOf, s2, JoinSeals(id));
    assert Runs(hashOf, s3, []) && After(hashOf, s3, []) == s3;
    RunsFrom(hashOf, s2, JoinSeals(id), []);
    RunsFrom(hashOf, s1, Rotates(other, key), [JoinSeals(id)] + []);
    RunsFrom(hashOf, s, OwnerRotates(other), [Rotates(other, key)] + ([JoinSeals(id)] + []));
    es := [OwnerRotates(other)] + ([Rotates(other, key)] + ([JoinSeals(id)] + []));
    assert Holds(s3, side, key) && !Holds(s, side, key);
  }

  /** A member with a session is sealed the next key. */
  lemma MemberLearns(hashOf: HashOf, s: System, side: Side) returns (es: seq<Event>)
    requires side in s.host.members && side in s.host.active
    ensures Runs(hashOf, s, es) && NoReadmission(es, side) && !LearnsNothing(s, After(hashOf, s, es), side)
  {
    var id, key := FreshRotation(hashOf, s);
    var s1 := Next(hashOf, s, OwnerRotates(id));
    var s2 := Rotated(s, id, key);
    assert s2.host == s.host.(contentKey := key) && s2.holders == s.holders[key := {}];
    var s3 := Next(hashOf, s2, Pushes(id));
    assert side in s2.host.active * s2.host.members;
    assert Holds(s3, side, key) && !Holds(s, side, key);
    es := [OwnerRotates(id)] + ([Rotates(id, key)] + ([Pushes(id)] + []));
    assert Runs(hashOf, s3, []) && After(hashOf, s3, []) == s3;
    assert Enabled(s2, Pushes(id));
    hide Enabled, Next, Rotated, Holds;
    RunsFrom(hashOf, s2, Pushes(id), []);
    RunsFrom(hashOf, s1, Rotates(id, key), [Pushes(id)] + []);
    RunsFrom(hashOf, s, OwnerRotates(id), [Rotates(id, key)] + ([Pushes(id)] + []));
  }

  /** A join caught between sealing and inserting becomes a member again, and the next rotation
      is pushed to it. */
  lemma SealedJoinLearns(hashOf: HashOf, s: System, id: TaskId, side: Side) returns (es: seq<Event>)
    requires id in s.tasks && s.tasks[id].JoinSealed? && s.tasks[id].side == side
    ensures Runs(hashOf, s, es) && NoReadmission(es, side) && !LearnsNothing(s, After(hashOf, s, es), side)
  {
    var s1 := Next(hashOf, s, JoinInserts(id));
    var s2 := Next(hashOf, s1, Opens(side));
    assert s2.holders == s.holders;
    var tail := MemberLearns(hashOf, s2, side);
    assert Enabled(s, JoinInserts(id)) && Enabled(s1, Opens(side));
    hide Enabled, Next;
    RunsFrom(hashOf, s1, Opens(side), tail);
    RunsFrom(hashOf, s, JoinInserts(id), [Opens(side)] + tail);
    es := [JoinInserts(id)] + ([Opens(side)] + tail);
  }

  /** A side that is not a member is kept from every key it does not hold already, in every
      continuation that does not let it in anew, exactly when none of its joins is in flight. */
  lemma OutsiderIsKeptOutExactly(hashOf: HashOf, s: System, side: Side)
    requires side !in s.host.members
    ensures (forall es :: Runs(hashOf, s, es) && NoReadmission(es, side) ==> LearnsNothing(s, After(hashOf, s, es), side))
            <==> Outside(s, side)
  {
    if Outside(s, side) {
      forall es | Runs(hashOf, s, es) && NoReadmission(es, side) ensures LearnsNothing(s, After(hashOf, s, es), side) {
        OutsideLearnsNothing(hashOf, s, es, side);
      }
    } else {
      var id :| id in s.tasks && Joining(s.tasks[id], side);
      if s.tasks[id].JoinRead? {
        var es := ReadJoinLearns(hashOf, s, id, side);
      } else {
        var es := SealedJoinLearns(hashOf, s, id, side);
      }
    }
  }

  lemma InFlightReturns(hashOf: HashOf, s: System, id: TaskId, side: Side) returns (es: seq<Event>)
    requires id in s.tasks && Joining(s.tasks[id], side) && s.host.contentKey in s.holders
    ensures Runs(hashOf, s, es) && NoReadmission(es, side) && side in After(hashOf, s, es).host.members
  {
    if s.tasks[id].JoinSealed? {
      es := [JoinInserts(id)] + [];
      RunsFrom(hashOf, s, JoinInserts(id), []);
    } else {
      var t := Next(hashOf, s, JoinSeals(id));
      es := [JoinSeals(id)] + ([JoinInserts(id)] + []);
      RunsFrom(hashOf, t, JoinInserts(id), []);
      RunsFrom(hashOf, s, JoinSeals(id), [JoinInserts(id)] + []);
    }
  }

  /** A side that is not a member stays out, in every continuation that does not let it in anew,
      exactly when none of its joins is in flight. */
  lemma OutsiderStaysOutExactly(hashOf: HashOf, s: System, side: Side)
    requires side !in s.host.members && s.host.contentKey in s.holders
    ensures (forall es :: Runs(hashOf, s, es) && NoReadmission(es, side) ==> side !in After(hashOf, s, es).host.members)
            <==> Outside(s, side)
  {
    if Outside(s, side) {
      forall es | Runs(hashOf, s, es) && NoReadmission(es, side) ensures side !in After(hashOf, s, es).host.members {
        OutsideLearnsNothing(hashOf, s, es, side);
      }
    } else {
      var id :| id in s.tasks && Joining(s.tasks[id], side);
      var es := InFlightReturns(hashOf, s, id, side);
    }
  }

  /** The member asks to join again, and leaves while that join is between sealing and inserting. */
  function LeavingMidJoin(hashOf: HashOf, c: Contract, side: Side, fields: set<FieldKind>): seq<Event> {
    [AddsLocal(side), JoinReads(0, side, hashOf(c), fields), JoinSeals(0), Leaves(1, side)]
  }

  lemma JoinSealedRuns(hashOf: HashOf, c: Contract, key: ContentKey, side: Side, fields: set<FieldKind>) returns (s: System)
    requires Admits(c, fields)
    ensures s.tasks == map[0 := JoinSealed(side, c, key)] && s.holders == map[key := {side}]
    ensures s.host.contentKey == key && side in s.host.members
    ensures forall es :: Runs(hashOf, s, es) ==>
              var fs := [AddsLocal(side)] + ([JoinReads(0, side, hashOf(c), fields)] + ([JoinSeals(0)] + es));
              Runs(hashOf, Start(c, key), fs) && After(hashOf, Start(c, key), fs) == After(hashOf, s, es)
  {
    hide Admits, Next, Enabled, Runs, After;
    var s0 := Start(c, key);
    AddsLocalIs(hashOf, s0, side);
    var s1 := AddingLocal(hashOf, s0, side);
    assert s1.host.contract == c && s1.tasks == map[];
    assert s1.holders[key] == {side} && s1.holders.Keys == {key};
    assert s1.holders == map[key := {side}];
    JoinReadsIs(hashOf, s1, 0, side, hashOf(c), fields);
    var s2 := ReadingJoin(hashOf, s1, 0, side, hashOf(c), fields);
    assert s2.tasks == map[0 := JoinRead(side, c)] && s2.host == s1.host && s2.holders == s1.holders;
    JoinSealsIs(hashOf, s2, 0);
    s := SealingJoin(s2, 0);
    hide AddingLocal, ReadingJoin;
    assert s.tasks == map[0 := JoinSealed(side, c, key)];
    hide SealingJoin;
    forall es | Runs(hashOf, s, es)
      ensures var fs := [AddsLocal(side)] + ([JoinReads(0, side, hashOf(c), fields)] + ([JoinSeals(0)] + es));
              Runs(hashOf, Start(c, key), fs) && After(hashOf, Start(c, key), fs) == After(hashOf, s, es)
    {
      RunsFrom(hashOf, s2, JoinSeals(0), es);
      RunsFrom(hashOf, s1, JoinReads(0, side, hashOf(c), fields), [JoinSeals(0)] + es);
      RunsFrom(hashOf, s0, AddsLocal(side), [JoinReads(0, side, hashOf(c), fields)] + ([JoinSeals(0)] + es));
    }
  }

  lemma MidJoinRuns(hashOf: HashOf, c: Contract, key: ContentKey, side: Side, fields: set<FieldKind>)
    requires Admits(c, fields)
    ensures Runs(hashOf, Start(c, key), LeavingMidJoin(hashOf, c, side, fields))
    ensures var s := After(hashOf, Start(c, key), LeavingMidJoin(hashOf, c, side, fields));
            && side !in s.host.members
            && s.tasks == map[0 := JoinSealed(side, c, key), 1 := Rotating(Some(side))]
            && s.holders == map[key := {side}]
  {
    hide Admits, Next, Enabled, Start;
    var s := JoinSealedRuns(hashOf, c, key, side, fields);
    LeavesIs(hashOf, s, 1, side);
    var e0, e1, e2, e3 := AddsLocal(side), JoinReads(0, side, hashOf(c), fields), JoinSeals(0), Leaves(1, side);
    assert [e0] + ([e1] + ([e2] + [e3])) == LeavingMidJoin(hashOf, c, side, fields);
    assert [e3] + [] == [e3];
    RunsFrom(hashOf, s, e3, []);
  }

  /** The rotation owed: a key the departed side does not get. */
  lemma RotationOwed(hashOf: HashOf, s: System, c: Contract, key: ContentKey, side: Side) returns (t: System)
    requires s.tasks == map[0 := JoinSealed(side, c, key), 1 := Rotating(Some(side))]
    requires s.holders == map[key := {side}] && side !in s.host.members
    ensures t.tasks == map[0 := JoinSealed(side, c, key)] && !HoldsCurrent(t, side)
    ensures forall es :: Runs(hashOf, t, es) ==>
              && Runs(hashOf, s, [Rotates(1, key + 1)] + ([Pushes(1)] + es))
              && After(hashOf, s, [Rotates(1, key + 1)] + ([Pushes(1)] + es)) == After(hashOf, t, es)
  {
    hide Spawned, Next, Enabled, Runs, After;
    RotatesIs(hashOf, s, 1, key + 1);
    var s1 := Rotated(s, 1, key + 1);
    assert s1.host.members == s.host.members && s1.host.contentKey == key + 1 && s1.holders[key + 1] == {};
    assert s1.tasks == map[0 := JoinSealed(side, c, key), 1 := Pushing];
    PushesIs(hashOf, s1, 1);
    t := Pushed(s1, 1);
    assert t.tasks == map[0 := JoinSealed(side, c, key)];
    hide Rotated, Pushed;
    forall es | Runs(hashOf, t, es)
      ensures Runs(hashOf, s, [Rotates(1, key + 1)] + ([Pushes(1)] + es))
      ensures After(hashOf, s, [Rotates(1, key + 1)] + ([Pushes(1)] + es)) == After(hashOf, t, es)
    {
      RunsFrom(hashOf, s1, Pushes(1), es);
      RunsFrom(hashOf, s, Rotates(1, key + 1), [Pushes(1)] + es);
    }
  }

  lemma InsertRuns(hashOf: HashOf, s: System, id: TaskId)
    requires id in s.tasks && s.tasks[id].JoinSealed?
    ensures Runs(hashOf, s, [JoinInserts(id)]) && After(hashOf, s, [JoinInserts(id)]) == InsertingJoin(s, id)
  {
    hide InsertingJoin;
    RunsFrom(hashOf, s, JoinInserts(id), []);
    assert [JoinInserts(id)] + [] == [JoinInserts(id)];
  }

  /** Then the old join's last step. */
  lemma ReturnRuns(hashOf: HashOf, s: System, c: Contract, key: ContentKey, side: Side)
    requires s.tasks == map[0 := JoinSealed(side, c, key), 1 := Rotating(Some(side))]
    requires s.holders == map[key := {side}] && side !in s.host.members
    ensures var es := [Rotates(1, key + 1), Pushes(1), JoinInserts(0)];
            && Runs(hashOf, s, es) && NoReadmission(es, side)
            && side in After(hashOf, s, es).host.members && !HoldsCurrent(After(hashOf, s, es), side)
  {
    hide Runs, After, Next, Enabled;
    var t := RotationOwed(hashOf, s, c, key, side);
    InsertRuns(hashOf, t, 0);
    assert [Rotates(1, key + 1)] + ([Pushes(1)] + [JoinInserts(0)]) == [Rotates(1, key + 1), Pushes(1), JoinInserts(0)];
  }

  /** Such a run from the start: the side has left, its rotation succeeds, and the handler of its
      old join makes it a member again, one that lacks the current key. */
  lemma RemovedSideReturns(hashOf: HashOf, c: Contract, key: ContentKey, side: Side, fields: set<FieldKind>)
    requires Admits(c, fields)
    ensures var es := [Rotates(1, key + 1), Pushes(1), JoinInserts(0)];
            && Runs(hashOf, Start(c, key), LeavingMidJoin(hashOf, c, side, fields))
            && var s := After(hashOf, Start(c, key), LeavingMidJoin(hashOf, c, side, fields));
            && side !in s.host.members && Runs(hashOf, s, es) && NoReadmission(es, side)
            && side in After(hashOf, s, es).host.members && !HoldsCurrent(After(hashOf, s, es), side)
  {
    hide Admits, LeavingMidJoin, Runs, After, NoReadmission, HoldsCurrent;
    MidJoinRuns(hashOf, c, key, side, fields);
    ReturnRuns(hashOf, After(hashOf, Start(c, key), LeavingMidJoin(hashOf, c, side, fields)), c, key, side);
  }
}
