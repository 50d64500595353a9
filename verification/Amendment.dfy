/** Classifying a contract amendment (crates/sidevers-core/src/verse.rs), held against what the
    host's join check accepts before and after it (crates/sidevers-net/src/node.rs). */
module Amendments {
  import opened Wrappers
  import opened Bytes
  import opened ContractTypes

  // ---------------------------------------------------------------------
  // Policy clauses this version understands
  // ---------------------------------------------------------------------

  datatype KnownPolicyKind =
    | NoArchive
    | RetentionMaxDays(days: Option<u64>)
    | RequireRealName
    | Ephemeral(ttlSecs: Option<u64>)
    | ModerationRequired

  const NO_ARCHIVE: Text := Ascii("no-archive")
  const REQUIRE_REAL_NAME: Text := Ascii("require-real-name")
  const MODERATION_REQUIRED: Text := Ascii("moderation-required")
  const RETENTION_MAX_DAYS: Text := Ascii("retention-max-days")
  const EPHEMERAL: Text := Ascii("ephemeral")
  const DAYS: Text := Ascii("days")
  const TTL_SECS: Text := Ascii("ttl_secs")

  predicate AllDigits(s: seq<byte>) {
    forall i :: 0 <= i < |s| ==> 0x30 <= s[i] <= 0x39
  }

  function Decimal(digits: seq<byte>): nat
    requires AllDigits(digits)
  {
    if digits == [] then 0 else 10 * Decimal(digits[..|digits| - 1]) + (digits[|digits| - 1] as int - 0x30)
  }

  /** Rust's `str::parse::<u64>`: decimal digits after an optional plus sign, no overflow. */
  function ParseU64(t: Text): Option<u64> {
    var digits := if t != [] && t[0] == 0x2B then t[1..] else t;
    if digits == [] || !AllDigits(digits) then None
    else if Decimal(digits) >= U64_LIMIT then None
    else Some(Decimal(digits))
  }

  function ParamU64(p: PolicyClause, name: Text): Option<u64> {
    if name in p.params then ParseU64(p.params[name]) else None
  }

  function Days(p: PolicyClause): Option<u64> {
    ParamU64(p, DAYS)
  }

  function TtlSecs(p: PolicyClause): Option<u64> {
    ParamU64(p, TTL_SECS)
  }

  function ClassifyFlag(kind: Text): Option<KnownPolicyKind> {
    if kind == NO_ARCHIVE then Some(NoArchive)
    else if kind == REQUIRE_REAL_NAME then Some(RequireRealName)
    else if kind == MODERATION_REQUIRED then Some(ModerationRequired)
    else None
  }

  function Classify(p: PolicyClause): Option<KnownPolicyKind> {
    if p.kind == RETENTION_MAX_DAYS then Some(RetentionMaxDays(Days(p)))
    else if p.kind == EPHEMERAL then Some(Ephemeral(TtlSecs(p)))
    else ClassifyFlag(p.kind)
  }

  predicate IsRestrictive(k: KnownPolicyKind) {
    k.NoArchive? || k.RequireRealName? || k.ModerationRequired? || k.Ephemeral? || k.RetentionMaxDays?
  }

  // ---------------------------------------------------------------------
  // What a clause's text says
  // ---------------------------------------------------------------------

  /** A number in decimal, without leading zeros. */
  function Digits(n: nat): (ds: seq<byte>)
    ensures ds != [] && AllDigits(ds)
  {
    if n < 10 then [0x30 + n] else Digits(n / 10) + [0x30 + n % 10]
  }

  function LeadingZeros(k: nat): (ds: seq<byte>)
    ensures AllDigits(ds)
  {
    seq(k, _ => 0x30)
  }

  lemma {:induction false} DecimalOf(k: nat, n: nat)
    ensures Decimal(LeadingZeros(k) + Digits(n)) == n
  {
    var ds := LeadingZeros(k) + Digits(n);
    var before := ds[..|ds| - 1];
    if n >= 10 {
      assert before == LeadingZeros(k) + Digits(n / 10);
      DecimalOf(k, n / 10);
    } else if k > 0 {
      assert before == LeadingZeros(k - 1) + Digits(0);
      DecimalOf(k - 1, 0);
    } else {
      assert before == [];
    }
  }

  lemma {:induction false} DigitsOf(ds: seq<byte>) returns (k: nat)
    requires ds != [] && AllDigits(ds)
    ensures ds == LeadingZeros(k) + Digits(Decimal(ds))
  {
    var before, last := ds[..|ds| - 1], ds[|ds| - 1];
    LastDigit(ds);
    hide Digits, LeadingZeros, Decimal, AllDigits;
    if before == [] {
      k := OneDigit(last);
    } else {
      var zeros := DigitsOf(before);
      k := OneMoreDigit(zeros, Decimal(before), last);
    }
  }

  lemma LastDigit(ds: seq<byte>)
    requires ds != [] && AllDigits(ds)
    ensures var before, last := ds[..|ds| - 1], ds[|ds| - 1];
            && ds == before + [last] && AllDigits(before) && 0x30 <= last <= 0x39
            && Decimal(ds) == 10 * Decimal(before) + (last as int - 0x30)
  {
  }

  lemma OneDigit(d: byte) returns (k: nat)
    requires 0x30 <= d <= 0x39
    ensures [d] == LeadingZeros(k) + Digits(d as int - 0x30)
    ensures Decimal([d]) == d as int - 0x30
  {
    k := 0;
    assert [d][..0] == [];
  }

  /** A digit after the number `m`: the number 10 m + d, or one zero more before `d`. */
  lemma OneMoreDigit(k: nat, m: nat, last: byte) returns (l: nat)
    requires 0x30 <= last <= 0x39
    ensures LeadingZeros(k) + Digits(m) + [last] == LeadingZeros(l) + Digits(10 * m + (last as int - 0x30))
  {
    l := k;
    if m == 0 {
      l := k + 1;
    }
  }

  /** A text is read as `n` exactly when it is, after at most one plus sign, leading zeros and the
      decimal digits of `n`, and `n` fits. */
  lemma ParsesExactly(t: Text, n: nat)
    ensures (n < 0x1_0000_0000_0000_0000 && ParseU64(t) == Some(n))
       <==> && n < 0x1_0000_0000_0000_0000
            && exists k: nat :: t == LeadingZeros(k) + Digits(n) || t == [0x2B] + (LeadingZeros(k) + Digits(n))
  {
    hide Decimal, Digits, LeadingZeros;
    if n < 0x1_0000_0000_0000_0000 && ParseU64(t) == Some(n) {
      var signed := t != [] && t[0] == 0x2B;
      var digits := if signed then t[1..] else t;
      var k := DigitsOf(digits);
      assert signed ==> t == [0x2B] + digits;
    }
    if exists k: nat :: t == LeadingZeros(k) + Digits(n) || t == [0x2B] + (LeadingZeros(k) + Digits(n)) {
      var k: nat :| t == LeadingZeros(k) + Digits(n) || t == [0x2B] + (LeadingZeros(k) + Digits(n));
      var digits := LeadingZeros(k) + Digits(n);
      DecimalOf(k, n);
      assert digits[0] != 0x2B;
      assert ([0x2B] + digits)[1..] == digits;
    }
  }

  /** The five kinds a clause can be known by, and the parameter that counts. */
  lemma ClassifiesExactly(p: PolicyClause, k: KnownPolicyKind)
    ensures Classify(p) == Some(k)
       <==> match k
            case NoArchive => p.kind == NO_ARCHIVE
            case RequireRealName => p.kind == REQUIRE_REAL_NAME
            case ModerationRequired => p.kind == MODERATION_REQUIRED
            case RetentionMaxDays(days) =>
              && p.kind == RETENTION_MAX_DAYS
              && days == if DAYS in p.params then ParseU64(p.params[DAYS]) else None
            case Ephemeral(ttl) =>
              && p.kind == EPHEMERAL
              && ttl == if TTL_SECS in p.params then ParseU64(p.params[TTL_SECS]) else None
    ensures IsRestrictive(k)
  {
    FlagNames();
    ClauseNames();
    hide ParseU64;
  }

  lemma FlagNames()
    ensures |NO_ARCHIVE| == 10 && |REQUIRE_REAL_NAME| == 17 && |MODERATION_REQUIRED| == 19
    ensures Spells(NO_ARCHIVE, "no-archive")
    ensures Spells(REQUIRE_REAL_NAME, "require-real-name")
    ensures Spells(MODERATION_REQUIRED, "moderation-required")
  {
  }

  lemma ClauseNames()
    ensures |RETENTION_MAX_DAYS| == 18 && |EPHEMERAL| == 9
    ensures Spells(RETENTION_MAX_DAYS, "retention-max-days") && Spells(DAYS, "days")
    ensures Spells(EPHEMERAL, "ephemeral") && Spells(TTL_SECS, "ttl_secs")
  {
  }

  /** The text is the string's characters, byte for byte. */
  predicate Spells(t: Text, s: string) {
    |t| == |s| && forall i :: 0 <= i < |t| ==> t[i] == s[i] as int
  }

  /** Two known clauses of one kind differ exactly when the parameter that counts reads differently. */
  lemma DiffersExactly(p: PolicyClause, q: PolicyClause)
    requires Classify(p).Some? && p.kind == q.kind
    ensures Classify(p) != Classify(q)
       <==> || (p.kind == RETENTION_MAX_DAYS && ParamU64(p, DAYS) != ParamU64(q, DAYS))
            || (p.kind == EPHEMERAL && ParamU64(p, TTL_SECS) != ParamU64(q, TTL_SECS))
  {
    FlagNames();
    ClauseNames();
    hide ParamU64;
  }

  // ---------------------------------------------------------------------
  // The classification
  // ---------------------------------------------------------------------

  datatype AmendmentKind = Reductive | Expansive | Mixed

  predicate RequiresReconsent(k: AmendmentKind) {
    k.Reductive? || k.Mixed?
  }

  function Kinds(specs: seq<FieldSpec>): set<FieldKind> {
    set s | s in specs :: s.kind
  }

  function Listed(kinds: seq<FieldKind>): set<FieldKind> {
    set k | k in kinds
  }

  function Known(policies: seq<PolicyClause>): set<KnownPolicyKind> {
    set p | p in policies && Classify(p).Some? :: Classify(p).value
  }

  predicate AddsRequired(c: Contract, d: Contract) {
    exists k :: k in Kinds(d.required) && k !in Kinds(c.required)
  }

  predicate AddsForbidden(c: Contract, d: Contract) {
    exists k :: k in Listed(d.forbidden) && k !in Listed(c.forbidden)
  }

  predicate AddsRestrictivePolicy(c: Contract, d: Contract) {
    exists k :: k in Known(d.policies) && k !in Known(c.policies) && IsRestrictive(k)
  }

  predicate AddsOptional(c: Contract, d: Contract) {
    exists k :: k in Kinds(d.optional) && k !in Kinds(c.optional)
  }

  predicate Tightens(c: Contract, d: Contract) {
    AddsRequired(c, d) || AddsForbidden(c, d) || AddsRestrictivePolicy(c, d)
  }

  predicate Loosens(c: Contract, d: Contract) {
    AddsRequired(d, c) || AddsForbidden(d, c) || AddsOptional(c, d) || AddsRestrictivePolicy(d, c)
  }

  /** In the contracts' own fields: something newly required, something newly forbidden, or a known
      clause that no earlier clause equals. */
  lemma TightensExactly(c: Contract, d: Contract)
    ensures Tightens(c, d)
       <==> || (exists s :: s in d.required && forall r :: r in c.required ==> r.kind != s.kind)
            || (exists k :: k in d.forbidden && k !in c.forbidden)
            || (exists p :: p in d.policies && Classify(p).Some?
                  && forall q :: q in c.policies ==> Classify(q) != Classify(p))
  {
    AddsRequiredExactly(c, d);
    AddsForbiddenExactly(c, d);
    AddsPolicyExactly(c, d);
    hide Classify, AddsRequired, AddsForbidden, AddsRestrictivePolicy;
  }

  lemma AddsForbiddenExactly(c: Contract, d: Contract)
    ensures AddsForbidden(c, d) <==> exists k :: k in d.forbidden && k !in c.forbidden
  {
    if exists k :: k in d.forbidden && k !in c.forbidden {
      var k :| k in d.forbidden && k !in c.forbidden;
      assert k in Listed(d.forbidden);
    }
  }

  lemma AddsRequiredExactly(c: Contract, d: Contract)
    ensures AddsRequired(c, d) <==> exists s :: s in d.required && forall r :: r in c.required ==> r.kind != s.kind
  {
    if AddsRequired(c, d) {
      var k :| k in Kinds(d.required) && k !in Kinds(c.required);
      var s :| s in d.required && s.kind == k;
      assert forall r :: r in c.required ==> r.kind in Kinds(c.required);
    }
    if exists s :: s in d.required && forall r :: r in c.required ==> r.kind != s.kind {
      var s :| s in d.required && forall r :: r in c.required ==> r.kind != s.kind;
      assert s.kind in Kinds(d.required);
    }
  }

  lemma AddsPolicyExactly(c: Contract, d: Contract)
    ensures AddsRestrictivePolicy(c, d)
       <==> exists p :: p in d.policies && Classify(p).Some? && forall q :: q in c.policies ==> Classify(q) != Classify(p)
  {
    hide Classify;
    if AddsRestrictivePolicy(c, d) {
      var k :| k in Known(d.policies) && k !in Known(c.policies) && IsRestrictive(k);
      var p :| p in d.policies && Classify(p) == Some(k);
      assert forall q :: q in c.policies && Classify(q).Some? ==> Classify(q).value in Known(c.policies);
    }
    if exists p :: p in d.policies && Classify(p).Some? && forall q :: q in c.policies ==> Classify(q) != Classify(p) {
      var p :| p in d.policies && Classify(p).Some? && forall q :: q in c.policies ==> Classify(q) != Classify(p);
      assert Classify(p).value in Known(d.policies) && IsRestrictive(Classify(p).value);
    }
  }

  /** And loosening is the same read backwards, or something newly optional. */
  lemma LoosensExactly(c: Contract, d: Contract)
    ensures Loosens(c, d)
       <==> Tightens(d, c) || exists s :: s in d.optional && forall r :: r in c.optional ==> r.kind != s.kind
  {
    hide AddsRequired, AddsForbidden, AddsRestrictivePolicy;
    if AddsOptional(c, d) {
      var k :| k in Kinds(d.optional) && k !in Kinds(c.optional);
      var s :| s in d.optional && s.kind == k;
      assert forall r :: r in c.optional ==> r.kind in Kinds(c.optional);
    }
    if exists s :: s in d.optional && forall r :: r in c.optional ==> r.kind != s.kind {
      var s :| s in d.optional && forall r :: r in c.optional ==> r.kind != s.kind;
      assert s.kind in Kinds(d.optional);
    }
  }

  /** Reads one difference of policy sets for a restrictive clause. */
  method AnyRestrictive(ks: set<KnownPolicyKind>) returns (found: bool)
    ensures found <==> exists k :: k in ks && IsRestrictive(k)
  {
    found := false;
    var rest := ks;
    while rest != {}
      invariant rest <= ks
      invariant found <==> exists k :: k in ks - rest && IsRestrictive(k)
      decreases rest
    {
      var k :| k in rest;
      if IsRestrictive(k) {
        found := true;
      }
      rest := rest - {k};
    }
  }

  method ClassifyAmendment(c: Contract, d: Contract) returns (r: AmendmentKind)
    ensures RequiresReconsent(r) <==> Tightens(c, d)
    ensures r == Expansive <==> !Tightens(c, d)
    ensures r == Mixed <==> Tightens(c, d) && Loosens(c, d)
  {
    hide Classify, IsRestrictive;
    var reductive, expansive := false, false;
    var oldReq, newReq := Kinds(c.required), Kinds(d.required);
    if newReq - oldReq != {} {
      reductive := true;
    }
    if oldReq - newReq != {} {
      expansive := true;
    }
    var oldForbid, newForbid := Listed(c.forbidden), Listed(d.forbidden);
    if newForbid - oldForbid != {} {
      reductive := true;
    }
    if oldForbid - newForbid != {} {
      expansive := true;
    }
    var oldOpt, newOpt := Kinds(c.optional), Kinds(d.optional);
    if newOpt - oldOpt != {} {
      expansive := true;
    }
    Differences(oldReq, newReq);
    Differences(oldForbid, newForbid);
    Differences(oldOpt, newOpt);
    var oldKnown, newKnown := Known(c.policies), Known(d.policies);
    var tighter := AnyRestrictive(newKnown - oldKnown);
    if tighter {
      reductive := true;
    }
    var looser := AnyRestrictive(oldKnown - newKnown);
    if looser {
      expansive := true;
    }
    assert tighter <==> AddsRestrictivePolicy(c, d);
    assert looser <==> AddsRestrictivePolicy(d, c);
    if reductive && expansive {
      return Mixed;
    } else if reductive {
      return Reductive;
    }
    return Expansive;
  }

  lemma Differences<T>(a: set<T>, b: set<T>)
    ensures b - a != {} <==> exists k :: k in b && k !in a
    ensures a - b != {} <==> exists k :: k in a && k !in b
  {
    assert forall k :: k in b - a <==> k in b && k !in a;
    assert forall k :: k in a - b <==> k in a && k !in b;
    if b - a != {} {
      var k :| k in b - a;
    }
    if a - b != {} {
      var k :| k in a - b;
    }
  }

  // ---------------------------------------------------------------------
  // What the classification means at the door
  // ---------------------------------------------------------------------

  predicate IsForbidden(c: Contract, k: FieldKind) {
    k in c.forbidden
  }

  /** The join check: every required kind offered, no forbidden kind offered. */
  predicate Admits(c: Contract, fields: set<FieldKind>) {
    && (forall s :: s in c.required ==> s.kind in fields)
    && (forall k :: k in fields ==> !IsForbidden(c, k))
  }

  /** An amendment that needs no reconsent turns nobody away. */
  lemma NoReconsentKeepsAdmission(c: Contract, d: Contract, fields: set<FieldKind>)
    requires !Tightens(c, d) && Admits(c, fields)
    ensures Admits(d, fields)
  {
    forall s | s in d.required ensures s.kind in fields {
      assert s.kind in Kinds(d.required);
      assert s.kind in Kinds(c.required);
    }
    forall k | k in fields ensures !IsForbidden(d, k) {
      assert k in Listed(d.forbidden) ==> k in Listed(c.forbidden);
    }
  }

  /** Nor does any chain of them. */
  lemma {:induction false} ChainKeepsAdmission(cs: seq<Contract>, fields: set<FieldKind>)
    requires cs != [] && Admits(cs[0], fields)
    requires forall i :: 0 < i < |cs| ==> !Tightens(cs[i - 1], cs[i])
    ensures Admits(cs[|cs| - 1], fields)
  {
    if |cs| > 1 {
      var rest := cs[1..];
      NoReconsentKeepsAdmission(cs[0], cs[1], fields);
      assert forall i :: 0 < i < |rest| ==> rest[i - 1] == cs[i] && rest[i] == cs[i + 1];
      ChainKeepsAdmission(rest, fields);
    }
  }

  /** Somebody could join under `c`: what it requires it does not forbid. */
  predicate Satisfiable(c: Contract) {
    forall s :: s in c.required ==> !IsForbidden(c, s.kind)
  }

  /** Somebody is turned away by `d` whom `c` admits, exactly when `c` admits anybody and `d`
      requires or forbids something new. */
  lemma TurnsAwayExactly(c: Contract, d: Contract)
    ensures (exists fields :: Admits(c, fields) && !Admits(d, fields))
            <==> Satisfiable(c) && (AddsRequired(c, d) || AddsForbidden(c, d))
  {
    if exists fields :: Admits(c, fields) && !Admits(d, fields) {
      var fields :| Admits(c, fields) && !Admits(d, fields);
      if exists s :: s in d.required && s.kind !in fields {
        var s :| s in d.required && s.kind !in fields;
        assert s.kind in Kinds(d.required) && s.kind !in Kinds(c.required);
      } else {
        var k :| k in fields && IsForbidden(d, k);
        assert k in Listed(d.forbidden) && k !in Listed(c.forbidden);
      }
    }
    if Satisfiable(c) && AddsRequired(c, d) {
      assert Admits(c, Kinds(c.required));
      var k :| k in Kinds(d.required) && k !in Kinds(c.required);
      assert !Admits(d, Kinds(c.required));
    } else if Satisfiable(c) && AddsForbidden(c, d) {
      var k :| k in Listed(d.forbidden) && k !in Listed(c.forbidden);
      assert Admits(c, Kinds(c.required) + {k});
      assert IsForbidden(d, k);
      assert !Admits(d, Kinds(c.required) + {k});
    }
  }

  /** So with no policy clause tightened, reconsent is asked for exactly when somebody who
      could have joined before no longer can. */
  lemma ReconsentIsExact(c: Contract, d: Contract)
    requires Satisfiable(c) && !AddsRestrictivePolicy(c, d)
    ensures Tightens(c, d) <==> exists fields :: Admits(c, fields) && !Admits(d, fields)
  {
    TurnsAwayExactly(c, d);
  }
}
