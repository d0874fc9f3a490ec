/**
 * An idealised stand-in for bcrypt. A digest records the random salt it was
 * made with and is matched only by the plaintext it was made from; the cost
 * factor, the slowness and the real one-way function are not modelled.
 */
module Crypto {

  datatype Digest = Digest(salt: string, secret: string)

  /** `bcrypt.hash(plain, 10)`, with the random salt passed in. */
  function Hash(plain: string, salt: string): (d: Digest)
    ensures d.salt == salt
  {
    Digest(salt, plain)
  }

  /** `bcrypt.compare(plain, digest)`. */
  predicate Matches(plain: string, d: Digest) {
    d.secret == plain
  }

  /** The two facts the controllers rely on: a digest is matched by its own
      plaintext, and by no other, whatever the salt. */
  lemma HashMatchesExactly(plain: string, other: string, salt: string)
    ensures Matches(plain, Hash(plain, salt))
    ensures Matches(other, Hash(plain, salt)) <==> other == plain
  {
  }
}
