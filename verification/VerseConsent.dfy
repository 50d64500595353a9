/** Consent over runs of VerseProtocol: whose posts are admitted, and what their authors agreed
    to (crates/sidevers-net/src/node.rs, crates/sidevers-net/src/verse.rs). */
module VerseConsent {
  import opened ContractTypes
  import opened Bytes
  import opened Amendments
  import opened VerseHosts
  import opened VerseProtocol

  /** `side` agreed to the hash of an installed contract of this version. */
  predicate Backed(hashOf: HashOf, s: System, side: Side, version: u64) {
    exists c :: c in s.installed && c.version == version && (side, hashOf(c)) in s.agreed
  }

  predicate TaskBacked(hashOf: HashOf, s: System, t: Task) {
    && (t.JoinRead? || t.JoinSealed? || t.PostRead? ==> t.contract in s.installed)
    && (t.JoinRead? || t.JoinSealed? ==> (t.side, hashOf(t.contract)) in s.agreed)
  }

  /** Every recorded version, and every one about to be recorded, was agreed to. */
  ghost predicate ConsentInvariant(hashOf: HashOf, s: System) {
    && s.installed != [] && s.installed[|s.installed| - 1] == s.host.contract
    && (forall side :: side in s.host.consented ==> Backed(hashOf, s, side, s.host.consented[side]))
    && (forall id :: id in s.tasks ==> TaskBacked(hashOf, s, s.tasks[id]))
  }

  /** Among these contracts the version settles the hash. */
  ghost predicate VersionNamesHash(hashOf: HashOf, cs: seq<Contract>) {
    forall a, b :: a in cs && b in cs && a.version == b.version ==> hashOf(a) == hashOf(b)
  }

  function Installs(e: Event): seq<Contract> {
    if e.Amends? then [e.contract] else []
  }

  function Amended(es: seq<Event>): seq<Contract> {
    if es == [] then [] else Installs(es[0]) + Amended(es[1..])
  }

  // ---------------------------------------------------------------------
  // Steps
  // ---------------------------------------------------------------------

  /** Agreements and installations only accumulate; only an amendment changes the contract. */
  lemma RecordsGrow(hashOf: HashOf, s: System, e: Event)
    requires Enabled(s, e)
    ensures s.agreed <= Next(hashOf, s, e).agreed
    ensures Next(hashOf, s, e).installed == s.installed + Installs(e)
    ensures Next(hashOf, s, e).host.contract == if e.Amends? then e.contract else s.host.contract
  {
    hide Spawned, Begun, Ended, JudgeJoin, IsModerator, MayPost;
  }

  lemma StaysBacked(hashOf: HashOf, s: System, t: System, side: Side, version: u64)
    requires Backed(hashOf, s, side, version)
    requires s.agreed <= t.agreed && s.installed <= t.installed
    ensures Backed(hashOf, t, side, version)
  {
    var c :| c in s.installed && c.version == version && (side, hashOf(c)) in s.agreed;
    assert c in t.installed;
  }

  /** The steps that record a version. */
  predicate Records(e: Event) {
    e.AddsLocal? || e.Reconsents? || e.JoinInserts?
  }

  /** Where a version recorded before came from, or what the current contract's is. */
  predicate VersionStands(hashOf: HashOf, s: System, agreed: set<(Side, Hash)>, side: Side, version: u64) {
    || (side in s.host.consented && version == s.host.consented[side])
    || (version == s.host.contract.version && (side, hashOf(s.host.contract)) in agreed)
  }

  lemma VersionKept(hashOf: HashOf, s: System, e: Event, side: Side)
    requires Enabled(s, e) && !Records(e) && side in Next(hashOf, s, e).host.consented
    ensures side in s.host.consented && Next(hashOf, s, e).host.consented[side] == s.host.consented[side]
  {
    hide Spawned, Begun, Ended, JudgeJoin, IsModerator, MayPost;
  }

  lemma VersionRecorded(hashOf: HashOf, s: System, e: Event, side: Side)
    requires Enabled(s, e) && Records(e) && side in Next(hashOf, s, e).host.consented
    ensures var t := Next(hashOf, s, e); var version := t.host.consented[side];
            || VersionStands(hashOf, s, t.agreed, side, version)
            || (e.JoinInserts? && side == s.tasks[e.id].side && version == s.tasks[e.id].contract.version)
  {
  }

  /** Where a recorded version comes from. */
  lemma VersionOrigin(hashOf: HashOf, s: System, e: Event, side: Side)
    requires Enabled(s, e) && side in Next(hashOf, s, e).host.consented
    ensures var t := Next(hashOf, s, e); var version := t.host.consented[side];
            || VersionStands(hashOf, s, t.agreed, side, version)
            || (e.JoinInserts? && e.id in s.tasks && s.tasks[e.id].JoinSealed?
                && side == s.tasks[e.id].side && version == s.tasks[e.id].contract.version)
  {
    hide Next;
    if Records(e) {
      VersionRecorded(hashOf, s, e, side);
    } else {
      VersionKept(hashOf, s, e, side);
    }
  }

  lemma VersionsBackedStep(hashOf: HashOf, s: System, e: Event, side: Side)
    requires Enabled(s, e) && ConsentInvariant(hashOf, s)
    requires side in Next(hashOf, s, e).host.consented
    ensures Backed(hashOf, Next(hashOf, s, e), side, Next(hashOf, s, e).host.consented[side])
  {
    hide Next;
    var t := Next(hashOf, s, e);
    RecordsGrow(hashOf, s, e);
    VersionOrigin(hashOf, s, e, side);
    if side in s.host.consented && t.host.consented[side] == s.host.consented[side] {
      StaysBacked(hashOf, s, t, side, s.host.consented[side]);
    } else if e.JoinInserts? {
      assert TaskBacked(hashOf, s, s.tasks[e.id]);
    }
  }

  /** The steps that open a handler. */
  predicate Opening(e: Event) {
    e.Leaves? || e.RemoveChecks? || e.OwnerRotates? || e.PostReads? || e.JoinReads?
  }

  /** The steps that move one on. */
  predicate Advancing(e: Event) {
    e.JoinSeals? || e.RemoveCommits? || e.Rotates?
  }

  /** A contract just read, and for a join just agreed to, or a join that read it earlier. */
  predicate Originates(hashOf: HashOf, s: System, agreed: set<(Side, Hash)>, id: TaskId, t: Task) {
    || (id in s.tasks && t == s.tasks[id])
    || t.Removing? || t.Rotating? || t.Pushing?
    || (t.PostRead? && t.contract == s.host.contract)
    || (t.JoinRead? && t.contract == s.host.contract && (t.side, hashOf(t.contract)) in agreed)
    || (t.JoinSealed? && id in s.tasks && s.tasks[id] == JoinRead(t.side, t.contract))
  }

  lemma OpenedOrigin(hashOf: HashOf, s: System, e: Event, id: TaskId)
    requires Enabled(s, e) && Opening(e) && id in Next(hashOf, s, e).tasks
    ensures Originates(hashOf, s, Next(hashOf, s, e).agreed, id, Next(hashOf, s, e).tasks[id])
  {
    hide IsModerator, Admits, WithMember, WithoutMember;
  }

  lemma AdvancedOrigin(hashOf: HashOf, s: System, e: Event, id: TaskId)
    requires Enabled(s, e) && Advancing(e) && id in Next(hashOf, s, e).tasks
    ensures Originates(hashOf, s, Next(hashOf, s, e).agreed, id, Next(hashOf, s, e).tasks[id])
  {
    hide WithMember, WithoutMember;
  }

  lemma KeptOrigin(hashOf: HashOf, s: System, e: Event, id: TaskId)
    requires Enabled(s, e) && !Opening(e) && !Advancing(e) && id in Next(hashOf, s, e).tasks
    ensures id in s.tasks && Next(hashOf, s, e).tasks[id] == s.tasks[id]
  {
    hide Spawned, Begun, Ended, IsModerator, MayPost, Admits, WithMember, WithoutMember, Reconsented;
  }

  /** Where a handler's contract comes from. */
  lemma TaskOrigin(hashOf: HashOf, s: System, e: Event, id: TaskId)
    requires Enabled(s, e) && id in Next(hashOf, s, e).tasks
    ensures Originates(hashOf, s, Next(hashOf, s, e).agreed, id, Next(hashOf, s, e).tasks[id])
  {
    hide Enabled, Next;
    if Opening(e) {
      OpenedOrigin(hashOf, s, e, id);
    } else if Advancing(e) {
      AdvancedOrigin(hashOf, s, e, id);
    } else {
      KeptOrigin(hashOf, s, e, id);
    }
  }

  lemma TasksBackedStep(hashOf: HashOf, s: System, e: Event, id: TaskId)
    requires Enabled(s, e) && ConsentInvariant(hashOf, s) && id in Next(hashOf, s, e).tasks
    ensures TaskBacked(hashOf, Next(hashOf, s, e), Next(hashOf, s, e).tasks[id])
  {
    hide Enabled, Next, Backed;
    RecordsGrow(hashOf, s, e);
    TaskOrigin(hashOf, s, e, id);
    assert id in s.tasks ==> TaskBacked(hashOf, s, s.tasks[id]);
  }

  lemma LastInstalledStep(hashOf: HashOf, s: System, e: Event)
    requires Enabled(s, e) && s.installed != [] && s.installed[|s.installed| - 1] == s.host.contract
    ensures var t := Next(hashOf, s, e); t.installed != [] && t.installed[|t.installed| - 1] == t.host.contract
  {
    hide Enabled, Next;
    RecordsGrow(hashOf, s, e);
  }

  lemma ConsentInvariantStep(hashOf: HashOf, s: System, e: Event)
    requires Enabled(s, e) && ConsentInvariant(hashOf, s)
    ensures ConsentInvariant(hashOf, Next(hashOf, s, e))
  {
    var t := Next(hashOf, s, e);
    LastInstalledStep(hashOf, s, e);
    hide Enabled, Next, Backed, TaskBacked;
    forall side | side in t.host.consented ensures Backed(hashOf, t, side, t.host.consented[side]) {
      VersionsBackedStep(hashOf, s, e, side);
    }
    forall id | id in t.tasks ensures TaskBacked(hashOf, t, t.tasks[id]) {
      TasksBackedStep(hashOf, s, e, id);
    }
  }

  /** The one step that admits a post. */
  lemma AdmittedPostIsAgreed(hashOf: HashOf, s: System, e: Event)
    requires Enabled(s, e) && ConsentInvariant(hashOf, s) && VersionNamesHash(hashOf, s.installed)
    ensures Next(hashOf, s, e).unagreed == s.unagreed
  {
    hide Spawned, Begun, Ended, JudgeJoin, IsModerator;
    if e.PostAdmits? && MayPost(s.host, s.tasks[e.id].side, s.tasks[e.id].contract.version) {
      var t := s.tasks[e.id];
      assert TaskBacked(hashOf, s, t) && Backed(hashOf, s, t.side, t.contract.version);
    }
  }

  // ---------------------------------------------------------------------
  // Runs
  // ---------------------------------------------------------------------

  lemma FewerVersions(hashOf: HashOf, cs: seq<Contract>, ds: seq<Contract>)
    requires VersionNamesHash(hashOf, cs + ds)
    ensures VersionNamesHash(hashOf, cs)
  {
    assert forall c :: c in cs ==> c in cs + ds;
  }

  lemma {:induction false} AmendedThen(es: seq<Event>, fs: seq<Event>)
    ensures Amended(es + fs) == Amended(es) + Amended(fs)
    decreases |es|
  {
    hide Installs;
    if es == [] {
      assert [] + fs == fs;
    } else {
      AmendedThen(es[1..], fs);
      assert (es + fs)[0] == es[0] && (es + fs)[1..] == es[1..] + fs;
    }
  }

  lemma {:induction false} AgreedAfter(hashOf: HashOf, s: System, es: seq<Event>)
    requires Runs(hashOf, s, es) && ConsentInvariant(hashOf, s)
    ensures After(hashOf, s, es).installed == s.installed + Amended(es)
    ensures ConsentInvariant(hashOf, After(hashOf, s, es))
    ensures VersionNamesHash(hashOf, s.installed + Amended(es)) ==> After(hashOf, s, es).unagreed == s.unagreed
    decreases |es|
  {
    hide Enabled, Next, ConsentInvariant, VersionNamesHash, Installs;
    if es != [] {
      var t := Next(hashOf, s, es[0]);
      RecordsGrow(hashOf, s, es[0]);
      ConsentInvariantStep(hashOf, s, es[0]);
      AgreedAfter(hashOf, t, es[1..]);
      assert t.installed + Amended(es[1..]) == s.installed + Amended(es);
      if VersionNamesHash(hashOf, s.installed + Amended(es)) {
        FewerVersions(hashOf, s.installed, Amended(es));
        AdmittedPostIsAgreed(hashOf, s, es[0]);
      }
    }
  }

  lemma {:induction false} RunsThen(hashOf: HashOf, s: System, es: seq<Event>, fs: seq<Event>)
    requires Runs(hashOf, s, es) && Runs(hashOf, After(hashOf, s, es), fs)
    ensures Runs(hashOf, s, es + fs) && After(hashOf, s, es + fs) == After(hashOf, After(hashOf, s, es), fs)
    decreases |es|
  {
    hide Enabled, Next;
    if es == [] {
      assert [] + fs == fs;
    } else {
      RunsThen(hashOf, Next(hashOf, s, es[0]), es[1..], fs);
      RunsFrom(hashOf, s, es[0], es[1..] + fs);
      assert [es[0]] + (es[1..] + fs) == es + fs;
    }
  }

  function Installing(s: System, cs: seq<Contract>): System {
    if cs == [] then s else s.(host := s.host.(contract := cs[|cs| - 1]), installed := s.installed + cs)
  }

  lemma {:induction false} AmendingRuns(hashOf: HashOf, s: System, cs: seq<Contract>) returns (es: seq<Event>)
    ensures Runs(hashOf, s, es) && After(hashOf, s, es) == Installing(s, cs) && Amended(es) == cs
    ensures Installing(s, cs).unagreed == s.unagreed
    decreases |cs|
  {
    if cs == [] {
      es := [];
    } else {
      var rest := AmendingRuns(hashOf, Next(hashOf, s, Amends(cs[0])), cs[1..]);
      RunsFrom(hashOf, s, Amends(cs[0]), rest);
      es := [Amends(cs[0])] + rest;
      assert es[1..] == rest && [cs[0]] + cs[1..] == cs;
      assert s.installed + [cs[0]] + cs[1..] == s.installed + cs;
    }
  }

  /** Steps of a member that agrees to the current contract. */
  lemma AddingRuns(hashOf: HashOf, s: System, side: Side)
    requires s.host.contentKey in s.holders
    ensures Runs(hashOf, s, [AddsLocal(side)]) && Amended([AddsLocal(side)]) == []
    ensures After(hashOf, s, [AddsLocal(side)]) == AddingLocal(hashOf, s, side)
  {
    hide Runs, After, Next, Enabled, AddingLocal;
    AddsLocalIs(hashOf, s, side);
    RunsNowhere(hashOf, AddingLocal(hashOf, s, side));
    RunsFrom(hashOf, s, AddsLocal(side), []);
    assert [AddsLocal(side)] + [] == [AddsLocal(side)];
    assert [AddsLocal(side)][1..] == [];
  }

  /** The two locks of a post that is admitted without agreement. */
  lemma PostingSteps(hashOf: HashOf, s: System, side: Side) returns (t: System)
    requires 0 !in s.tasks && MayPost(s.host, side, s.host.contract.version)
    requires (side, hashOf(s.host.contract)) !in s.agreed
    ensures Enabled(s, PostReads(0, side)) && t == Next(hashOf, s, PostReads(0, side)) && Enabled(t, PostAdmits(0))
    ensures Next(hashOf, t, PostAdmits(0)).unagreed != {}
  {
    hide MayPost;
    t := At(s, 0, PostRead(side, s.host.contract));
    assert t.host == s.host && t.tasks[0] == PostRead(side, s.host.contract);
    assert (side, hashOf(s.host.contract)) in Posting(hashOf, t, 0).unagreed;
  }

  lemma PostingRuns(hashOf: HashOf, s: System, side: Side)
    requires 0 !in s.tasks && MayPost(s.host, side, s.host.contract.version)
    requires (side, hashOf(s.host.contract)) !in s.agreed
    ensures var es := [PostReads(0, side), PostAdmits(0)];
            && Runs(hashOf, s, es) && Amended(es) == [] && After(hashOf, s, es).unagreed != {}
  {
    hide MayPost, Runs, After, Next, Enabled;
    var es := [PostReads(0, side), PostAdmits(0)];
    var t := PostingSteps(hashOf, s, side);
    var u := Next(hashOf, t, PostAdmits(0));
    RunsNowhere(hashOf, u);
    RunsFrom(hashOf, t, PostAdmits(0), []);
    RunsFrom(hashOf, s, PostReads(0, side), [PostAdmits(0)] + []);
    assert [PostReads(0, side)] + ([PostAdmits(0)] + []) == es;
    assert es[1..] == [PostAdmits(0)] && es[1..][1..] == [];
    assert Amended(es[1..][1..]) == [];
    assert Amended(es[1..]) == Installs(es[1]) + Amended(es[1..][1..]);
  }

  lemma InstallingLast(s: System, cs: seq<Contract>)
    requires s.installed != [] && s.installed[|s.installed| - 1] == s.host.contract
    ensures Installing(s, cs).installed == s.installed + cs
    ensures Installing(s, cs).host.contract == (s.installed + cs)[|s.installed| + |cs| - 1]
    ensures Installing(s, cs) == s.(host := s.host.(contract := Installing(s, cs).host.contract),
                                    installed := s.installed + cs)
  {
    if cs == [] {
      assert s.installed + [] == s.installed;
    }
  }

  /** A member that agreed to contract i of the list finds contract j in force when it posts. */
  lemma AddingThenPosting(hashOf: HashOf, s: System, ds: seq<Contract>, side: Side) returns (es: seq<Event>)
    requires s.agreed == {} && s.tasks == map[] && s.host.contentKey in s.holders
    requires ds != [] && ds[|ds| - 1].version == s.host.contract.version
    requires hashOf(ds[|ds| - 1]) != hashOf(s.host.contract)
    ensures Runs(hashOf, s, es) && Amended(es) == ds && After(hashOf, s, es).unagreed != {}
  {
    hide Enabled, Next, Runs, After, Amended;
    AddingRuns(hashOf, s, side);
    var s1 := AddingLocal(hashOf, s, side);
    var amending := AmendingRuns(hashOf, s1, ds);
    var s2 := Installing(s1, ds);
    PostingRuns(hashOf, s2, side);
    var post := [PostReads(0, side), PostAdmits(0)];
    RunsThen(hashOf, s1, amending, post);
    RunsThen(hashOf, s, [AddsLocal(side)], amending + post);
    es := [AddsLocal(side)] + (amending + post);
    AmendedThen(amending, post);
    AmendedThen([AddsLocal(side)], amending + post);
    assert [] + (ds + []) == ds;
  }

  /** The failing family: a version installed twice with different contracts. A member that
      agreed to the first posts under the second. */
  lemma ReusedVersionAdmits(hashOf: HashOf, c: Contract, cs: seq<Contract>, key: ContentKey, side: Side, i: nat, j: nat)
    returns (es: seq<Event>)
    requires i < j <= |cs|
    requires ([c] + cs)[i].version == ([c] + cs)[j].version
    requires hashOf(([c] + cs)[i]) != hashOf(([c] + cs)[j])
    ensures Runs(hashOf, Start(c, key), es) && Amended(es) == cs && After(hashOf, Start(c, key), es).unagreed != {}
  {
    hide Enabled, Next, Runs, After, Amended, Installing;
    var s0 := Start(c, key);
    var first := AmendingRuns(hashOf, s0, cs[..i]);
    InstallingLast(s0, cs[..i]);
    var s1 := Installing(s0, cs[..i]);
    assert s1.host.contract == ([c] + cs)[i];
    assert cs[i..j][j - i - 1] == ([c] + cs)[j];
    var middle := AddingThenPosting(hashOf, s1, cs[i..j], side);
    var s2 := After(hashOf, s1, middle);
    var last := AmendingRuns(hashOf, s2, cs[j..]);
    RunsThen(hashOf, s1, middle, last);
    RunsThen(hashOf, s0, first, middle + last);
    es := first + (middle + last);
    AmendedThen(middle, last);
    AmendedThen(first, middle + last);
    assert cs[..i] + (cs[i..j] + cs[j..]) == cs;
  }

  /** A host amended through `cs` admits only posts whose author agreed to the contract the
      handler read, in every run, exactly when no version among them names two contracts. */
  lemma ConsentSafeExactly(hashOf: HashOf, c: Contract, cs: seq<Contract>)
    ensures (forall key, es :: Runs(hashOf, Start(c, key), es) && Amended(es) == cs
                               ==> After(hashOf, Start(c, key), es).unagreed == {})
            <==> VersionNamesHash(hashOf, [c] + cs)
  {
    hide Runs, After, Amended;
    if VersionNamesHash(hashOf, [c] + cs) {
      forall key, es | Runs(hashOf, Start(c, key), es) && Amended(es) == cs
        ensures After(hashOf, Start(c, key), es).unagreed == {}
      {
        AgreedAfter(hashOf, Start(c, key), es);
      }
    } else {
      var all := [c] + cs;
      var a, b :| a in all && b in all && a.version == b.version && hashOf(a) != hashOf(b);
      var i :| 0 <= i < |all| && all[i] == a;
      var j :| 0 <= j < |all| && all[j] == b;
      var es := ReusedVersionAdmits(hashOf, c, cs, 0, Zeros(32), if i < j then i else j, if i < j then j else i);
    }
  }

  ghost predicate VersionsIncrease(cs: seq<Contract>) {
    forall i, j :: 0 <= i < j < |cs| ==> cs[i].version < cs[j].version
  }

  /** Amendments that raise the version keep consent safe. */
  lemma IncreasingVersionsAreSafe(hashOf: HashOf, c: Contract, key: ContentKey, es: seq<Event>)
    requires Runs(hashOf, Start(c, key), es) && VersionsIncrease([c] + Amended(es))
    ensures After(hashOf, Start(c, key), es).unagreed == {}
  {
    hide Runs, After;
    var cs := [c] + Amended(es);
    forall a, b | a in cs && b in cs && a.version == b.version ensures a == b {
      var i :| 0 <= i < |cs| && cs[i] == a;
      var j :| 0 <= j < |cs| && cs[j] == b;
    }
    AgreedAfter(hashOf, Start(c, key), es);
  }
}
