/** Consent in terms of contracts, when the host addresses them by their content hash
    (crates/sidevers-core/src/verse.rs). */
module VerseContracts {
  import opened Keys
  import opened ContractTypes
  import opened Contracts
  import opened VerseProtocol
  import opened VerseConsent

  function ByContent(cr: Crypto): HashOf {
    (c: Contract) => ContractHash(cr, c)
  }

  /** Two of these contracts have different bytes and one hash. */
  ghost predicate Collides(cr: Crypto, cs: seq<Contract>) {
    exists a, b :: a in cs && b in cs && ToWireBytes(a) != ToWireBytes(b) && ContractHash(cr, a) == ContractHash(cr, b)
  }

  ghost predicate VersionNamesContract(cs: seq<Contract>) {
    forall a, b :: a in cs && b in cs && a.version == b.version ==> a == b
  }

  lemma HashesTellApart(cr: Crypto, cs: seq<Contract>)
    requires !Collides(cr, cs)
    ensures VersionNamesHash(ByContent(cr), cs) <==> VersionNamesContract(cs)
  {
    hide ToWireBytes, ContractHash;
    if VersionNamesHash(ByContent(cr), cs) {
      forall a, b | a in cs && b in cs && a.version == b.version ensures a == b {
        assert ByContent(cr)(a) == ByContent(cr)(b);
        HashNamesContract(cr, a, b);
      }
    }
  }

  /** Unless the hash collides on them, a host amended through `cs` is safe in every run exactly
      when no version was given to two contracts. */
  lemma ConsentSafeByVersion(cr: Crypto, c: Contract, cs: seq<Contract>)
    requires !Collides(cr, [c] + cs)
    ensures (forall key, es :: Runs(ByContent(cr), Start(c, key), es) && Amended(es) == cs
                               ==> After(ByContent(cr), Start(c, key), es).unagreed == {})
            <==> VersionNamesContract([c] + cs)
  {
    hide Runs, After, Collides, VersionNamesContract, VersionNamesHash;
    HashesTellApart(cr, [c] + cs);
    ConsentSafeExactly(ByContent(cr), c, cs);
  }
}
