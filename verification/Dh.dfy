/** Diffie-Hellman agreement (kosta-crypto/src/dh.rs). */
module Dh {
  import opened Arithmetic

  function ComputePublicKey(g: nat, private: nat, p: nat): (r: nat)
    requires p > 0
    ensures r < p
  {
    Pow(g, private) % p
  }

  function ComputeSharedSecret(peerPublic: nat, private: nat, p: nat): (r: nat)
    requires p > 0
    ensures r < p
  {
    Pow(peerPublic, private) % p
  }

  /** The secret is g raised to the product of both exponents, whichever end computes it. */
  lemma SecretIs(g: nat, a: nat, b: nat, p: nat)
    requires p > 0
    ensures ComputeSharedSecret(ComputePublicKey(g, a, p), b, p) == Pow(g, a * b) % p
  {
    PowMod(Pow(g, a), b, p);
    PowMul(g, a, b);
  }

  /** Both ends reach the same secret, for every modulus, generator and pair of exponents. */
  lemma Agreement(g: nat, a: nat, b: nat, p: nat)
    requires p > 0
    ensures ComputeSharedSecret(ComputePublicKey(g, a, p), b, p)
         == ComputeSharedSecret(ComputePublicKey(g, b, p), a, p)
  {
    SecretIs(g, a, b, p);
    SecretIs(g, b, a, p);
    assert a * b == b * a;
  }
}
