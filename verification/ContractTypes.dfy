/** A verse contract as a value (crates/sidevers-core/src/verse.rs). */
module ContractTypes {
  import opened Wrappers
  import opened Bytes
  import opened Keys

  type FieldKind = Text

  datatype FieldSpec = FieldSpec(kind: FieldKind, caption: Text, description: Option<Text>, validator: Option<Text>)

  type Params = m: map<Text, Text> | |m| < U64_LIMIT

  datatype PolicyClause = PolicyClause(kind: Text, params: Params)

  datatype Contract = Contract(
    verse: PublicKey,
    version: u64,
    title: Text,
    description: Text,
    required: Arr<FieldSpec>,
    optional: Arr<FieldSpec>,
    forbidden: Arr<FieldKind>,
    scoped: Arr<FieldKind>,
    policies: Arr<PolicyClause>,
    moderators: Arr<PublicKey>,
    issuedAt: u64,
    signature: Signature)
}
