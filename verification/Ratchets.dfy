/**
 The key material one rekey produces, kept symbolic: a ratchet is identified by the base it was
 derived from and the two contributions (Alice's proposal, Bob's answer) that went into it.
 Two ratchets with equal terms hold equal keys (module KeyChain proves this of the derivation).
 */
module Ratchets {
  import opened Words

  datatype Secret = Root | Next(base: Secret, alice: nat, bob: nat)

  datatype Ratchet = Ratchet(version: u32, cid: u64, secret: Secret)

  /** Alice's constructor has no `bob` part until STAGE1 arrives. */
  datatype Constructor = Constructor(base: Secret, alice: nat, bob: Option<nat>)
}
