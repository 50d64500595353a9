/** The hosting state of one verse (crates/sidevers-net/src/verse.rs): every method is one
    acquisition of the host's mutex. */
module VerseHosts {
  import opened Wrappers
  import opened Bytes
  import opened Keys
  import opened ContractTypes
  import opened Amendments

  type Side = PublicKey
  type Hash = seq<byte>

  /** Content keys are told apart by number; their bytes do not matter here. */
  type ContentKey = nat

  /** What the mutex guards. A pending push is known by the key sealed in it. */
  datatype Host = Host(
    contract: Contract,
    contentKey: ContentKey,
    members: set<Side>,
    consented: map<Side, u64>,
    active: set<Side>,
    pending: map<Side, ContentKey>)

  function Opened(c: Contract, key: ContentKey): Host {
    Host(c, key, {}, map[], {}, map[])
  }

  function WithMember(h: Host, side: Side, version: u64): Host {
    h.(members := h.members + {side}, consented := h.consented[side := version])
  }

  function WithoutMember(h: Host, side: Side): Host {
    h.(members := h.members - {side}, consented := h.consented - {side}, active := h.active - {side})
  }

  function Reconsented(h: Host, hash: Hash, side: Side, agreedTo: Hash): Host {
    if side in h.members && agreedTo == hash
    then h.(consented := h.consented[side := h.contract.version])
    else h
  }

  /** May `side` post, given the version its handler read? */
  predicate MayPost(h: Host, side: Side, version: u64) {
    side in h.members && side in h.consented && h.consented[side] == version
  }

  datatype JoinVerdict = Proceed | VersionMismatch | MissingRequired | ForbiddenField

  /** The join handler's tests on the contract it read, in the source's order. */
  function JudgeJoin(c: Contract, hash: Hash, requested: Hash, fields: set<FieldKind>): (v: JoinVerdict)
    ensures v == Proceed <==> requested == hash && Admits(c, fields)
    ensures v == VersionMismatch <==> requested != hash
    ensures v == MissingRequired <==> requested == hash && exists s :: s in c.required && s.kind !in fields
    ensures v == ForbiddenField <==>
              && requested == hash && (forall s :: s in c.required ==> s.kind in fields)
              && exists k :: k in fields && k in c.forbidden
  {
    if requested != hash then VersionMismatch
    else if exists s :: s in c.required && s.kind !in fields then MissingRequired
    else if exists k :: k in fields && IsForbidden(c, k) then ForbiddenField
    else Proceed
  }

  /** The verse's own key always qualifies. */
  predicate IsModerator(c: Contract, side: Side) {
    side == c.verse || side in c.moderators
  }

  class VerseHost {
    var contract: Contract
    var contentKey: ContentKey
    var members: set<Side>
    var consented: map<Side, u64>
    var active: set<Side>
    var pending: map<Side, ContentKey>

    function State(): Host
      reads this
    {
      Host(contract, contentKey, members, consented, active, pending)
    }

    constructor (c: Contract, key: ContentKey)
      ensures State() == Opened(c, key)
    {
      contract, contentKey := c, key;
      members, consented := {}, map[];
      active, pending := {}, map[];
    }

    method StashPendingKeyPush(member: Side, key: ContentKey)
      modifies this
      ensures State() == old(State()).(pending := old(pending)[member := key])
    {
      pending := pending[member := key];
    }

    method TakePendingKeyPush(member: Side) returns (taken: Option<ContentKey>)
      modifies this
      ensures State() == old(State()).(pending := old(pending) - {member})
      ensures taken == if member in old(pending) then Some(old(pending)[member]) else None
    {
      taken := if member in pending then Some(pending[member]) else None;
      pending := pending - {member};
    }

    /** Insert first, then read the contract and the key, all under one lock. */
    method AddLocalMember(member: Side) returns (key: ContentKey)
      modifies this
      ensures State() == WithMember(old(State()), member, old(contract).version) && key == contentKey
      ensures members == old(members) + {member} && consented == old(consented)[member := contract.version]
      ensures contract == old(contract) && key == contentKey == old(contentKey)
      ensures active == old(active) && pending == old(pending)
    {
      members := members + {member};
      var version := contract.version;
      consented := consented[member := version];
      key := contentKey;
    }

    /** The last lock of a join: the version is the one read under the first. */
    method InsertJoined(member: Side, version: u64)
      modifies this
      ensures State() == WithMember(old(State()), member, version)
      ensures members == old(members) + {member} && consented == old(consented)[member := version]
      ensures contract == old(contract) && contentKey == old(contentKey)
      ensures active == old(active) && pending == old(pending)
    {
      members := members + {member};
      consented := consented[member := version];
    }

    /** Leave and remove. */
    method RemoveMember(member: Side) returns (was: bool)
      modifies this
      ensures State() == WithoutMember(old(State()), member) && was == (member in old(members))
      ensures members == old(members) - {member} && consented == old(consented) - {member}
      ensures active == old(active) - {member} && pending == old(pending)
      ensures contract == old(contract) && contentKey == old(contentKey)
    {
      was := member in members;
      members := members - {member};
      consented := consented - {member};
      active := active - {member};
    }

    method RotateContentKey(fresh_: ContentKey)
      modifies this
      ensures State() == old(State()).(contentKey := fresh_)
    {
      contentKey := fresh_;
    }

    method AmendContract(c: Contract)
      modifies this
      ensures State() == old(State()).(contract := c)
    {
      contract := c;
    }

    method Reconsent(hash: Hash, member: Side, agreedTo: Hash) returns (updated: bool)
      modifies this
      ensures State() == Reconsented(old(State()), hash, member, agreedTo)
      ensures updated <==> member in members && agreedTo == hash
      ensures consented == if member in old(members) && agreedTo == hash
                           then old(consented)[member := contract.version] else old(consented)
      ensures members == old(members) && active == old(active) && pending == old(pending)
      ensures contract == old(contract) && contentKey == old(contentKey)
    {
      if member !in members {
        return false;
      }
      if agreedTo != hash {
        return false;
      }
      consented := consented[member := contract.version];
      return true;
    }

    /** The active member sessions a rotation seals the current key to. */
    method PushTargets() returns (targets: set<Side>)
      ensures targets == active * members
    {
      targets := {};
      var rest := active;
      while rest != {}
        invariant rest <= active
        invariant targets == (active - rest) * members
        decreases rest
      {
        var side :| side in rest;
        rest := rest - {side};
        if side in members {
          targets := targets + {side};
        }
      }
    }
  }
}
