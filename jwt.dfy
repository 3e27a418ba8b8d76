/**
 * A symbolic model of `JwtService.signAsync`.
 *
 * A `Token` records what a signed JWT carries: the payload, the lifetime
 * given as `expiresIn`, the issued-at clock reading the signer stamps into
 * it, and the secret its signature was computed with. `Decode` is what a
 * verifier holding a given secret accepts: the payload of a token signed
 * with that secret, nothing for any other token. Expiry is not checked.
 */
module Jwt {
  import opened Wrappers

  /** The `{ sub, email }` claims object. */
  datatype JwtPayload = JwtPayload(sub: nat, email: string)

  datatype Token = Token(payload: JwtPayload, expiresIn: string, issuedAt: nat, key: string)

  function Sign(payload: JwtPayload, secret: string, expiresIn: string, now: nat): (t: Token)
    ensures Decode(t, secret) == Some(payload)
    ensures t.expiresIn == expiresIn && t.issuedAt == now
  {
    Token(payload, expiresIn, now, secret)
  }

  function Decode(token: Token, secret: string): Option<JwtPayload>
  {
    if token.key == secret then Some(token.payload) else None
  }

  /** A token decodes, under the secret it was signed with, to its payload. */
  lemma DecodeSign(payload: JwtPayload, secret: string, expiresIn: string, now: nat)
    ensures Decode(Sign(payload, secret, expiresIn, now), secret) == Some(payload)
  {
  }

  /** A verifier holding another secret rejects it. */
  lemma DecodeOtherSecret(payload: JwtPayload, secret: string, other: string, expiresIn: string, now: nat)
    requires other != secret
    ensures Decode(Sign(payload, secret, expiresIn, now), other) == None
  {
  }

  /** Tokens over the same claims issued at different instants differ. */
  lemma SignTimeVariant(payload: JwtPayload, secret: string, expiresIn: string, t1: nat, t2: nat)
    requires t1 != t2
    ensures Sign(payload, secret, expiresIn, t1) != Sign(payload, secret, expiresIn, t2)
  {
  }
}
