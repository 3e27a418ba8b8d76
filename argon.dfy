/**
 * A symbolic model of the argon2 hasher used for passwords and refresh tokens.
 *
 * `Hash` stands for `argon.hash`: it is salted, the salt being the random
 * bytes argon2 draws on every call (randomness is a parameter here).
 * `Verify` stands for `argon.verify`. The digest remembers the plaintext it
 * was computed from; that is the only thing verification relies on, and it
 * is what the round-trip lemmas below state. Nothing here is a real hash.
 */
module Argon {

  datatype Digest<T> = Digest(salt: nat, source: T)

  function Hash<T(==)>(plain: T, salt: nat): (d: Digest<T>)
    ensures d.salt == salt
  {
    Digest(salt, plain)
  }

  /** Recompute the digest of `plain` with the salt embedded in `digest`
      and compare. */
  predicate Verify<T(==)>(digest: Digest<T>, plain: T): (ok: bool)
    ensures ok <==> digest == Hash(plain, digest.salt)
  {
    digest.source == plain
  }

  /** A digest verifies against the plaintext it was made from ... */
  lemma VerifyHash<T>(plain: T, salt: nat)
    ensures Verify(Hash(plain, salt), plain)
  {
  }

  /** ... and against nothing else. */
  lemma VerifyOnlySource<T>(plain: T, other: T, salt: nat)
    ensures Verify(Hash(plain, salt), other) <==> other == plain
  {
  }

  /** Two hashes of the same plaintext under different salts are different
      digests, yet both verify. */
  lemma SaltedDigestsDiffer<T>(plain: T, salt1: nat, salt2: nat)
    requires salt1 != salt2
    ensures Hash(plain, salt1) != Hash(plain, salt2)
    ensures Verify(Hash(plain, salt1), plain) && Verify(Hash(plain, salt2), plain)
  {
  }
}
