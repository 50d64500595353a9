/** What each step of VerseProtocol does to the host, its handlers and its deliveries, and what
    that means over runs (crates/sidevers-net/src/node.rs, crates/sidevers-net/src/verse.rs). */
module VerseSteps {
  import opened Wrappers
  import opened Bytes
  import opened ContractTypes
  import opened Amendments
  import opened VerseHosts
  import opened VerseProtocol
  import VerseConsent

  // ---------------------------------------------------------------------
  // One step, part by part
  // ---------------------------------------------------------------------

  lemma MembersStep(hashOf: HashOf, s: System, e: Event)
    requires Enabled(s, e)
    ensures Next(hashOf, s, e).host.members
         == match e
            case AddsLocal(side) => s.host.members + {side}
            case JoinInserts(id) => s.host.members + {s.tasks[id].side}
            case Leaves(_, side) => s.host.members - {side}
            case RemoveCommits(id) => s.host.members - {s.tasks[id].side}
            case _ => s.host.members
  {
    hide Spawned, Begun, Ended, JudgeJoin, IsModerator, MayPost;
  }

  lemma ConsentStep(hashOf: HashOf, s: System, e: Event)
    requires Enabled(s, e)
    ensures Next(hashOf, s, e).host.consented
         == match e
            case AddsLocal(side) => s.host.consented[side := s.host.contract.version]
            case Reconsents(side, hash) =>
              if side in s.host.members && hash == hashOf(s.host.contract)
              then s.host.consented[side := s.host.contract.version] else s.host.consented
            case JoinInserts(id) => s.host.consented[s.tasks[id].side := s.tasks[id].contract.version]
            case Leaves(_, side) => s.host.consented - {side}
            case RemoveCommits(id) => s.host.consented - {s.tasks[id].side}
            case _ => s.host.consented
  {
    if e.AddsLocal? || e.Reconsents? || e.JoinInserts? || e.Leaves? || e.RemoveCommits? {
      ConsentChanges(hashOf, s, e);
    } else {
      ConsentKept(hashOf, s, e);
    }
    hide Next, Enabled;
  }

  lemma ConsentChanges(hashOf: HashOf, s: System, e: Event)
    requires Enabled(s, e) && (e.AddsLocal? || e.Reconsents? || e.JoinInserts? || e.Leaves? || e.RemoveCommits?)
    ensures Next(hashOf, s, e).host.consented
         == match e
            case AddsLocal(side) => s.host.consented[side := s.host.contract.version]
            case Reconsents(side, hash) =>
              if side in s.host.members && hash == hashOf(s.host.contract)
              then s.host.consented[side := s.host.contract.version] else s.host.consented
            case JoinInserts(id) => s.host.consented[s.tasks[id].side := s.tasks[id].contract.version]
            case Leaves(_, side) => s.host.consented - {side}
            case RemoveCommits(id) => s.host.consented - {s.tasks[id].side}
  {
  }

  lemma ConsentKept(hashOf: HashOf, s: System, e: Event)
    requires Enabled(s, e) && !(e.AddsLocal? || e.Reconsents? || e.JoinInserts? || e.Leaves? || e.RemoveCommits?)
    ensures Next(hashOf, s, e).host.consented == s.host.consented
  {
    hide Spawned, Begun, Ended, JudgeJoin, IsModerator, MayPost;
  }

  lemma SessionsStep(hashOf: HashOf, s: System, e: Event)
    requires Enabled(s, e)
    ensures Next(hashOf, s, e).host.active
         == match e
            case Opens(side) => s.host.active + {side}
            case Closes(side) => s.host.active - {side}
            case Leaves(_, side) => s.host.active - {side}
            case RemoveCommits(id) => s.host.active - {s.tasks[id].side}
            case _ => s.host.active
  {
    hide Spawned, Begun, Ended, JudgeJoin, IsModerator, MayPost;
  }

  lemma PendingStep(hashOf: HashOf, s: System, e: Event)
    requires Enabled(s, e)
    ensures Next(hashOf, s, e).host.pending
         == match e
            case Stashes(side, key) => s.host.pending[side := key]
            case Takes(side) => s.host.pending - {side}
            case _ => s.host.pending
  {
    hide Spawned, Begun, Ended, JudgeJoin, IsModerator, MayPost, Enabled;
    if e.Takes? {
      TakesStash(hashOf, s, e);
    } else if !e.Stashes? {
      hide Next;
      PendingKept(hashOf, s, e);
    }
  }

  lemma TakesStash(hashOf: HashOf, s: System, e: Event)
    requires Enabled(s, e) && e.Takes?
    ensures Next(hashOf, s, e).host.pending == s.host.pending - {e.side}
  {
    hide Begun;
  }

  lemma PendingKept(hashOf: HashOf, s: System, e: Event)
    requires Enabled(s, e) && !e.Stashes? && !e.Takes?
    ensures Next(hashOf, s, e).host.pending == s.host.pending
  {
    hide Spawned, Begun, Ended, JudgeJoin, IsModerator, MayPost;
  }

  /** Who may remove is read off the contract in force. */
  lemma OpeningStep(hashOf: HashOf, s: System, e: Event)
    requires Enabled(s, e)
    requires e.JoinReads? || e.Leaves? || e.RemoveChecks? || e.OwnerRotates? || e.PostReads?
    ensures var c := s.host.contract;
            Next(hashOf, s, e).tasks
            == match e
               case JoinReads(id, side, hash, fields) =>
                 if && hash == hashOf(c) && (forall spec :: spec in c.required ==> spec.kind in fields)
                    && (forall k :: k in fields ==> k !in c.forbidden)
                 then s.tasks[id := JoinRead(side, c)] else s.tasks
               case Leaves(id, side) =>
                 if side in s.host.members then s.tasks[id := Rotating(Some(side))] else s.tasks
               case RemoveChecks(id, issuer, side) =>
                 if issuer == c.verse || issuer in c.moderators then s.tasks[id := Removing(side)] else s.tasks
               case OwnerRotates(id) => s.tasks[id := Rotating(None)]
               case PostReads(id, side) => s.tasks[id := PostRead(side, c)]
  {
    hide JudgeJoin;
    if e.Leaves? {
      assert s.tasks - {e.id} == s.tasks;
    } else if e.JoinReads? {
      JoinReadsExactly(hashOf, s, e);
    }
  }

  lemma JoinReadsExactly(hashOf: HashOf, s: System, e: Event)
    requires Enabled(s, e) && e.JoinReads?
    ensures var c := s.host.contract;
            Next(hashOf, s, e).tasks
            == if && e.hash == hashOf(c) && (forall spec :: spec in c.required ==> spec.kind in e.fields)
                  && (forall k :: k in e.fields ==> k !in c.forbidden)
               then s.tasks[e.id := JoinRead(e.side, c)] else s.tasks
  {
  }

  lemma AdvancingStep(hashOf: HashOf, s: System, e: Event)
    requires Enabled(s, e)
    requires !(e.JoinReads? || e.Leaves? || e.RemoveChecks? || e.OwnerRotates? || e.PostReads?)
    ensures Next(hashOf, s, e).tasks
         == match e
            case JoinSeals(id) => s.tasks[id := JoinSealed(s.tasks[id].side, s.tasks[id].contract, s.host.contentKey)]
            case JoinInserts(id) => s.tasks - {id}
            case RemoveCommits(id) =>
              if s.tasks[id].side in s.host.members then s.tasks[id := Rotating(Some(s.tasks[id].side))]
              else s.tasks - {id}
            case Rotates(id, _) => s.tasks[id := Pushing]
            case RotateFails(id) => s.tasks - {id}
            case Pushes(id) => s.tasks - {id}
            case PostAdmits(id) => s.tasks - {id}
            case Abandons(id) => s.tasks - {id}
            case _ => s.tasks
  {
    hide Spawned, Begun, Ended, JudgeJoin, IsModerator, MayPost;
  }

  /** Whom the current key is sealed to. */
  lemma SealingStep(hashOf: HashOf, s: System, e: Event, side: Side, key: ContentKey)
    requires Enabled(s, e)
    ensures Holds(Next(hashOf, s, e), side, key)
       <==> || (Holds(s, side, key) && !(e.Rotates? && e.key == key))
            || (e.AddsLocal? && e.side == side && key == s.host.contentKey)
            || (e.JoinSeals? && s.tasks[e.id].side == side && key == s.host.contentKey)
            || (e.Pushes? && side in s.host.active && side in s.host.members && key == s.host.contentKey)
  {
    hide Spawned, Begun, Ended, JudgeJoin, IsModerator, MayPost;
  }

  /** Pushes begin, are taken up again from the stash, and end; one at a time. */
  lemma DeliveriesStep(hashOf: HashOf, s: System, e: Event, side: Side, key: ContentKey)
    requires Enabled(s, e)
    ensures Next(hashOf, s, e).deliveries[(side, key)]
         == s.deliveries[(side, key)]
            + (if e.Pushes? && side in s.host.active && side in s.host.members && key == s.host.contentKey then 1 else 0)
            + (if e == Takes(side) && side in s.host.pending && s.host.pending[side] == key then 1 else 0)
            - (if e == Delivers(side, key) || e == Stashes(side, key) then 1 else 0)
  {
    if e.Pushes? {
      PushesSpawn(hashOf, s, e, side, key);
    } else {
      hide Spawned, JudgeJoin, IsModerator, MayPost, WithMember, WithoutMember, Reconsented;
    }
  }

  lemma PushesSpawn(hashOf: HashOf, s: System, e: Event, side: Side, key: ContentKey)
    requires Enabled(s, e) && e.Pushes?
    ensures Next(hashOf, s, e).deliveries[(side, key)]
         == s.deliveries[(side, key)]
            + if side in s.host.active && side in s.host.members && key == s.host.contentKey then 1 else 0
  {
    assert (side, key) in (set x | x in s.host.active * s.host.members :: (x, s.host.contentKey))
      <==> side in s.host.active && side in s.host.members && key == s.host.contentKey;
  }

  /** What the observer notes: who agreed to which hash, whose key a failed rotation left behind,
      and which posts were admitted though their author had not agreed. */
  lemma AgreedStep(hashOf: HashOf, s: System, e: Event, side: Side, hash: Hash)
    requires Enabled(s, e)
    ensures (side, hash) in Next(hashOf, s, e).agreed
       <==> var c := s.host.contract;
            || (side, hash) in s.agreed
            || (e == AddsLocal(side) && hash == hashOf(c))
            || (e == Reconsents(side, hash) && side in s.host.members && hash == hashOf(c))
            || (e.JoinReads? && e.side == side && e.hash == hash && hash == hashOf(c)
                && (forall spec :: spec in c.required ==> spec.kind in e.fields)
                && (forall k :: k in e.fields ==> k !in c.forbidden))
  {
    if e.JoinReads? {
      hide IsModerator, MayPost;
    } else {
      hide Spawned, Begun, Ended, JudgeJoin, IsModerator, MayPost;
    }
  }

  lemma StrandedStep(hashOf: HashOf, s: System, e: Event, side: Side)
    requires Enabled(s, e)
    ensures side in Next(hashOf, s, e).stranded
       <==> || (side in s.stranded && !e.Rotates?)
            || (e.RotateFails? && s.tasks[e.id].departed == Some(side))
  {
    hide Spawned, Begun, Ended, JudgeJoin, IsModerator, MayPost;
  }

  lemma UnagreedStep(hashOf: HashOf, s: System, e: Event, side: Side, hash: Hash)
    requires Enabled(s, e)
    ensures (side, hash) in Next(hashOf, s, e).unagreed
       <==> || (side, hash) in s.unagreed
            || (e.PostAdmits? && s.tasks[e.id].side == side && hashOf(s.tasks[e.id].contract) == hash
                && side in s.host.members && side in s.host.consented
                && s.host.consented[side] == s.tasks[e.id].contract.version
                && (side, hash) !in s.agreed)
  {
    hide Spawned, Begun, Ended, JudgeJoin, IsModerator;
  }

  // ---------------------------------------------------------------------
  // No push is lost
  // ---------------------------------------------------------------------

  /** The key is on its way to the side, or stashed for it. */
  predicate Carried(s: System, side: Side, key: ContentKey) {
    (side, key) in s.deliveries || (side in s.host.pending && s.host.pending[side] == key)
  }

  lemma CarriedStep(hashOf: HashOf, s: System, e: Event, side: Side, key: ContentKey)
    requires Enabled(s, e) && Carried(s, side, key)
    requires e != Delivers(side, key) && !(e.Stashes? && e.side == side && e.key != key)
    ensures Carried(Next(hashOf, s, e), side, key)
  {
    DeliveriesStep(hashOf, s, e, side, key);
    PendingStep(hashOf, s, e);
    hide Next, Enabled;
  }

  /** A key pushed to a side stays on its way or stashed until it is delivered or a stash of
      another key takes its place, whatever else happens. */
  lemma {:induction false} PushIsKept(hashOf: HashOf, s: System, es: seq<Event>, side: Side, key: ContentKey)
    requires Runs(hashOf, s, es) && Carried(s, side, key)
    requires forall e :: e in es ==> e != Delivers(side, key) && !(e.Stashes? && e.side == side && e.key != key)
    ensures Carried(After(hashOf, s, es), side, key)
    decreases |es|
  {
    hide Enabled, Next, Carried;
    if es != [] {
      CarriedStep(hashOf, s, es[0], side, key);
      PushIsKept(hashOf, Next(hashOf, s, es[0]), es[1..], side, key);
    }
  }

  // ---------------------------------------------------------------------
  // Who can end a membership
  // ---------------------------------------------------------------------

  lemma {:induction false} RunsPrefix(hashOf: HashOf, s: System, es: seq<Event>, i: nat)
    requires Runs(hashOf, s, es) && i < |es|
    ensures Runs(hashOf, s, es[..i]) && Runs(hashOf, s, es[..i + 1])
    ensures Enabled(After(hashOf, s, es[..i]), es[i])
    ensures After(hashOf, s, es[..i + 1]) == Next(hashOf, After(hashOf, s, es[..i]), es[i])
    decreases |es|
  {
    hide Enabled, Next;
    if i == 0 {
      RunsNowhere(hashOf, s);
      RunsNowhere(hashOf, Next(hashOf, s, es[0]));
      RunsFrom(hashOf, s, es[0], []);
      assert es[..1] == [es[0]] + [] && es[..0] == [];
    } else {
      var t := Next(hashOf, s, es[0]);
      RunsPrefix(hashOf, t, es[1..], i - 1);
      RunsFrom(hashOf, s, es[0], es[1..][..i - 1]);
      RunsFrom(hashOf, s, es[0], es[1..][..i]);
      assert es[..i] == [es[0]] + es[1..][..i - 1] && es[..i + 1] == [es[0]] + es[1..][..i];
    }
  }

  /** Step `i` of the run opened the removal `id` of `side`, and its issuer was the verse or a
      listed moderator of the contract then in force. */
  ghost predicate RemovalOpened(hashOf: HashOf, s: System, es: seq<Event>, i: nat, id: TaskId, side: Side) {
    && i < |es| && es[i].RemoveChecks? && es[i].id == id && es[i].side == side
    && Runs(hashOf, s, es[..i])
    && var c := After(hashOf, s, es[..i]).host.contract;
       es[i].issuer == c.verse || es[i].issuer in c.moderators
  }

  lemma RemovalOpenedOn(hashOf: HashOf, s: System, es: seq<Event>, fs: seq<Event>, i: nat, id: TaskId, side: Side)
    requires RemovalOpened(hashOf, s, es, i, id, side) && es <= fs
    ensures RemovalOpened(hashOf, s, fs, i, id, side)
  {
    hide Runs, After;
    assert fs[..i] == es[..i] && fs[i] == es[i];
  }

  /** Only such a check opens a removal. */
  lemma RemovingOrigin(hashOf: HashOf, s: System, e: Event, id: TaskId)
    requires Enabled(s, e) && id in Next(hashOf, s, e).tasks && Next(hashOf, s, e).tasks[id].Removing?
    ensures var t := Next(hashOf, s, e).tasks[id];
            || (id in s.tasks && s.tasks[id] == t)
            || (e.RemoveChecks? && e.id == id && e.side == t.side
                && (e.issuer == s.host.contract.verse || e.issuer in s.host.contract.moderators))
  {
    if e.JoinReads? || e.Leaves? || e.RemoveChecks? || e.OwnerRotates? || e.PostReads? {
      OpeningStep(hashOf, s, e);
    } else {
      AdvancingStep(hashOf, s, e);
    }
    hide Next, Enabled;
  }

  /** Every removal in flight, after any run, was opened by the verse or by a moderator of the
      contract in force when it was. */
  lemma {:induction false} RemovalsAreAuthorised(hashOf: HashOf, c: Contract, key: ContentKey, es: seq<Event>, n: nat, id: TaskId)
    returns (i: nat)
    requires Runs(hashOf, Start(c, key), es) && n <= |es| && Runs(hashOf, Start(c, key), es[..n])
    requires var s := After(hashOf, Start(c, key), es[..n]); id in s.tasks && s.tasks[id].Removing?
    ensures i < n
    ensures RemovalOpened(hashOf, Start(c, key), es, i, id, After(hashOf, Start(c, key), es[..n]).tasks[id].side)
  {
    if n == 0 {
      assert false;
    } else {
      hide Next, Enabled, Start, Runs, After;
      RunsPrefix(hashOf, Start(c, key), es, n - 1);
      var before := After(hashOf, Start(c, key), es[..n - 1]);
      RemovingOrigin(hashOf, before, es[n - 1], id);
      if id in before.tasks && before.tasks[id] == After(hashOf, Start(c, key), es[..n]).tasks[id] {
        i := RemovalsAreAuthorised(hashOf, c, key, es, n - 1, id);
      } else {
        i := n - 1;
      }
    }
  }

  /** So, after any run, a step ends a membership only by that member's own leaving or by a
      removal the verse or a moderator of the contract then in force had opened. */
  lemma DeparturesAreAuthorised(hashOf: HashOf, c: Contract, key: ContentKey, es: seq<Event>, e: Event, side: Side)
    requires Runs(hashOf, Start(c, key), es)
    requires var s := After(hashOf, Start(c, key), es);
             Enabled(s, e) && side in s.host.members && side !in Next(hashOf, s, e).host.members
    ensures || (e.Leaves? && e.side == side)
            || (e.RemoveCommits? && exists i: nat :: RemovalOpened(hashOf, Start(c, key), es, i, e.id, side))
  {
    var s := After(hashOf, Start(c, key), es);
    MembersStep(hashOf, s, e);
    hide Next, Start, Runs, After, RemovalOpened;
    if e.RemoveCommits? {
      assert es[..|es|] == es;
      var i := RemovalsAreAuthorised(hashOf, c, key, es, |es|, e.id);
    }
  }

  /** A remove takes the member, its consent and its session away exactly when its issuer is the
      verse or a listed moderator; otherwise nothing changes and there is nothing to commit. */
  lemma RemovesExactly(hashOf: HashOf, s: System, id: TaskId, issuer: Side, side: Side)
    requires id !in s.tasks
    ensures var checks, commits := RemoveChecks(id, issuer, side), RemoveCommits(id);
            && Enabled(s, checks)
            && var t := Next(hashOf, s, checks);
               if issuer == s.host.contract.verse || issuer in s.host.contract.moderators then
                 && Enabled(t, commits)
                 && var u := Next(hashOf, t, commits);
                    && u.host.members == s.host.members - {side}
                    && u.host.consented == s.host.consented - {side}
                    && u.host.active == s.host.active - {side}
                    && (side in s.host.members ==> u.tasks == s.tasks[id := Rotating(Some(side))])
               else t == s && !Enabled(t, commits)
  {
    hide WithoutMember;
    var checks, commits := RemoveChecks(id, issuer, side), RemoveCommits(id);
    if issuer == s.host.contract.verse || issuer in s.host.contract.moderators {
      RemoveCommitsIs(hashOf, s, id, side);
    }
  }

  lemma RemoveCommitsIs(hashOf: HashOf, s: System, id: TaskId, side: Side)
    ensures var t := At(s, id, Removing(side));
            && Enabled(t, RemoveCommits(id))
            && var u := Next(hashOf, t, RemoveCommits(id));
               && u.host.members == s.host.members - {side}
               && u.host.consented == s.host.consented - {side}
               && u.host.active == s.host.active - {side}
               && (side in s.host.members ==> u.tasks == s.tasks[id := Rotating(Some(side))])
  {
    assert s.tasks[id := Removing(side)][id := Rotating(Some(side))] == s.tasks[id := Rotating(Some(side))];
  }

  // ---------------------------------------------------------------------
  // How long a consent lasts
  // ---------------------------------------------------------------------

  /** The contract changes, or the side's membership ends. */
  predicate Disturbs(s: System, e: Event, side: Side) {
    || e.Amends?
    || (e.Leaves? && e.side == side)
    || (e.RemoveCommits? && e.id in s.tasks && s.tasks[e.id] == Removing(side))
  }

  ghost predicate Undisturbed(hashOf: HashOf, s: System, es: seq<Event>, side: Side)
    requires Runs(hashOf, s, es)
    decreases |es|
  {
    es == [] || (!Disturbs(s, es[0], side) && Undisturbed(hashOf, Next(hashOf, s, es[0]), es[1..], side))
  }

  /** A member on record at the current contract's version. */
  predicate Consents(s: System, side: Side) {
    side in s.host.members && side in s.host.consented && s.host.consented[side] == s.host.contract.version
  }

  /** No join of the side in flight read a contract of another version. */
  predicate NoStaleJoin(s: System, side: Side) {
    forall id :: id in s.tasks && (s.tasks[id].JoinRead? || s.tasks[id].JoinSealed?) && s.tasks[id].side == side
                 ==> s.tasks[id].contract.version == s.host.contract.version
  }

  lemma ConsentsStep(hashOf: HashOf, s: System, e: Event, side: Side)
    requires Enabled(s, e) && !Disturbs(s, e, side) && Consents(s, side) && NoStaleJoin(s, side)
    ensures Consents(Next(hashOf, s, e), side)
  {
    MembersStep(hashOf, s, e);
    ConsentStep(hashOf, s, e);
    VerseConsent.RecordsGrow(hashOf, s, e);
    hide Next;
  }

  lemma NoStaleJoinStep(hashOf: HashOf, s: System, e: Event, side: Side)
    requires Enabled(s, e) && !e.Amends? && NoStaleJoin(s, side)
    ensures NoStaleJoin(Next(hashOf, s, e), side)
  {
    VerseConsent.RecordsGrow(hashOf, s, e);
    if e.JoinReads? || e.Leaves? || e.RemoveChecks? || e.OwnerRotates? || e.PostReads? {
      OpeningStep(hashOf, s, e);
    } else {
      AdvancingStep(hashOf, s, e);
    }
    hide Next;
  }

  lemma {:induction false} ConsentLasts(hashOf: HashOf, s: System, es: seq<Event>, side: Side)
    requires Runs(hashOf, s, es) && Undisturbed(hashOf, s, es, side) && Consents(s, side) && NoStaleJoin(s, side)
    ensures Consents(After(hashOf, s, es), side)
    decreases |es|
  {
    hide Enabled, Next, Consents, NoStaleJoin, Disturbs;
    if es != [] {
      assert !es[0].Amends? by {
        DisturbedByAmendment(s, es[0], side);
      }
      ConsentsStep(hashOf, s, es[0], side);
      NoStaleJoinStep(hashOf, s, es[0], side);
      ConsentLasts(hashOf, Next(hashOf, s, es[0]), es[1..], side);
    }
  }

  lemma DisturbedByAmendment(s: System, e: Event, side: Side)
    ensures e.Amends? ==> Disturbs(s, e, side)
  {
  }

  /** The stale join's own steps put its old version back on record. */
  lemma StaleJoinOverwrites(hashOf: HashOf, s: System, id: TaskId, side: Side) returns (es: seq<Event>)
    requires id in s.tasks && (s.tasks[id].JoinRead? || s.tasks[id].JoinSealed?) && s.tasks[id].side == side
    requires s.tasks[id].contract.version != s.host.contract.version && s.host.contentKey in s.holders
    ensures Runs(hashOf, s, es) && Undisturbed(hashOf, s, es, side) && !Consents(After(hashOf, s, es), side)
  {
    if s.tasks[id].JoinSealed? {
      es := [JoinInserts(id)] + [];
      RunsFrom(hashOf, s, JoinInserts(id), []);
    } else {
      var t := Next(hashOf, s, JoinSeals(id));
      es := [JoinSeals(id)] + ([JoinInserts(id)] + []);
      RunsFrom(hashOf, t, JoinInserts(id), []);
      RunsFrom(hashOf, s, JoinSeals(id), [JoinInserts(id)] + []);
    }
  }

  /** Consent to the contract in force is on record after every continuation without an amendment
      or the member's departure, exactly when no join of the member in flight read a contract of
      another version. */
  lemma ConsentLastsExactly(hashOf: HashOf, s: System, side: Side)
    requires Consents(s, side) && s.host.contentKey in s.holders
    ensures (forall es :: Runs(hashOf, s, es) && Undisturbed(hashOf, s, es, side) ==> Consents(After(hashOf, s, es), side))
            <==> NoStaleJoin(s, side)
  {
    hide Consents, Undisturbed, Runs, After;
    if NoStaleJoin(s, side) {
      forall es | Runs(hashOf, s, es) && Undisturbed(hashOf, s, es, side) ensures Consents(After(hashOf, s, es), side) {
        ConsentLasts(hashOf, s, es, side);
      }
    } else {
      var id :| id in s.tasks && (s.tasks[id].JoinRead? || s.tasks[id].JoinSealed?) && s.tasks[id].side == side
                && s.tasks[id].contract.version != s.host.contract.version;
      var es := StaleJoinOverwrites(hashOf, s, id, side);
    }
  }

  /** A member that sends the hash of the contract in force may post under it from then on, until
      an amendment or its own departure, exactly when no join of its own that read another version
      is still in flight; one that sends another hash, or is no member, changes nothing. */
  lemma ReconsentLastsExactly(hashOf: HashOf, s: System, side: Side, hash: Hash)
    requires s.host.contentKey in s.holders
    ensures var t := Next(hashOf, s, Reconsents(side, hash));
            if side in s.host.members && hash == hashOf(s.host.contract) then
              && t.host.members == s.host.members && t.host.contract == s.host.contract
              && side in t.host.consented && t.host.consented[side] == t.host.contract.version
              && ((forall es :: Runs(hashOf, t, es) && Undisturbed(hashOf, t, es, side) ==>
                     var u := After(hashOf, t, es);
                     MayPost(u.host, side, u.host.contract.version))
                  <==> NoStaleJoin(s, side))
            else t.host == s.host
  {
    hide Runs, After, Undisturbed;
    var e := Reconsents(side, hash);
    var t := Next(hashOf, s, e);
    if side in s.host.members && hash == hashOf(s.host.contract) {
      assert t.tasks == s.tasks && t.holders == s.holders && t.host.contentKey == s.host.contentKey;
      ConsentStep(hashOf, s, e);
      assert NoStaleJoin(t, side) == NoStaleJoin(s, side);
      hide Next;
      ConsentLastsExactly(hashOf, t, side);
      assert forall es | Runs(hashOf, t, es) ::
        var u := After(hashOf, t, es); Consents(u, side) == MayPost(u.host, side, u.host.contract.version);
    }
  }

  // ---------------------------------------------------------------------
  // Nothing waits forever on the lock
  // ---------------------------------------------------------------------

  /** The next step of a handler, given a content key never used. */
  function NextOf(id: TaskId, t: Task, fresh_: ContentKey): Event {
    match t
    case JoinRead(_, _) => JoinSeals(id)
    case JoinSealed(_, _, _) => JoinInserts(id)
    case Removing(_) => RemoveCommits(id)
    case Rotating(_) => Rotates(id, fresh_)
    case Pushing => Pushes(id)
    case PostRead(_, _) => PostAdmits(id)
  }

  /** After any run, every handler in flight can take its next step and every delivery can end
      either way; and a new message, session, amendment or rotation is always taken up. */
  lemma HandlersProgress(hashOf: HashOf, c: Contract, key: ContentKey, es: seq<Event>, id: TaskId, side: Side, other: Side,
                         hash: Hash, fields: set<FieldKind>, d: Contract, fresh_: ContentKey)
    requires Runs(hashOf, Start(c, key), es)
    requires fresh_ !in After(hashOf, Start(c, key), es).holders
    ensures var s := After(hashOf, Start(c, key), es);
            && (id in s.tasks ==>
                  && Enabled(s, NextOf(id, s.tasks[id], fresh_))
                  && (s.tasks[id].Rotating? ==> Enabled(s, RotateFails(id))))
            && (id !in s.tasks ==>
                  && Enabled(s, JoinReads(id, side, hash, fields)) && Enabled(s, Leaves(id, side))
                  && Enabled(s, RemoveChecks(id, other, side)) && Enabled(s, OwnerRotates(id))
                  && Enabled(s, PostReads(id, side)))
            && (forall push :: push in s.deliveries ==>
                  Enabled(s, Delivers(push.0, push.1)) && Enabled(s, Stashes(push.0, push.1)))
            && Enabled(s, Opens(side)) && Enabled(s, Closes(side)) && Enabled(s, Takes(side))
            && Enabled(s, AddsLocal(side)) && Enabled(s, Amends(d)) && Enabled(s, Reconsents(side, hash))
  {
    hide Runs, After, Next, Start, SameKeys, PushesForHolders, Enabled, NextOf, Settled;
    CurrentKeyIsAccounted(hashOf, c, key, es);
    var s := After(hashOf, Start(c, key), es);
    if id in s.tasks {
      HandlerAdvances(s, id, fresh_);
    } else {
      MessagesAreTaken(s, id, side, other, hash, fields);
    }
    OthersAreTaken(s, side, hash, d);
  }

  lemma HandlerAdvances(s: System, id: TaskId, fresh_: ContentKey)
    requires id in s.tasks && s.host.contentKey in s.holders && fresh_ !in s.holders
    ensures Enabled(s, NextOf(id, s.tasks[id], fresh_)) && (s.tasks[id].Rotating? ==> Enabled(s, RotateFails(id)))
  {
  }

  lemma MessagesAreTaken(s: System, id: TaskId, side: Side, other: Side, hash: Hash, fields: set<FieldKind>)
    requires id !in s.tasks
    ensures Enabled(s, JoinReads(id, side, hash, fields)) && Enabled(s, Leaves(id, side))
    ensures Enabled(s, RemoveChecks(id, other, side)) && Enabled(s, OwnerRotates(id)) && Enabled(s, PostReads(id, side))
  {
  }

  lemma OthersAreTaken(s: System, side: Side, hash: Hash, d: Contract)
    requires s.host.contentKey in s.holders
    ensures Enabled(s, Opens(side)) && Enabled(s, Closes(side)) && Enabled(s, Takes(side))
    ensures Enabled(s, AddsLocal(side)) && Enabled(s, Amends(d)) && Enabled(s, Reconsents(side, hash))
    ensures forall push :: push in s.deliveries ==> Enabled(s, Delivers(push.0, push.1)) && Enabled(s, Stashes(push.0, push.1))
  {
  }
}
