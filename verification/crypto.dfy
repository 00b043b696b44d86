/** Password hashing (bcrypt) and signed session tokens (JSON Web Tokens), as the two
    auth services use them. The primitives are not modelled; they are a parameter of
    every operation, and the properties of the services are proved for any primitives
    that satisfy `Sound`. */
module Crypto {

  import opened Wrappers

  /** A signed token as it travels in a header: never empty and free of spaces
      (a JSON Web Token is three base64url segments joined by dots). */
  predicate IsTokenShaped(t: string)
  {
    t != "" && ' ' !in t
  }

  /** The four primitives, for tokens whose claims have type `C`.
      `hash(password, salt)`: the salt stands for bcrypt's fresh random salt.
      `compare(password, hash)`: bcrypt's check of a password against a stored hash.
      `sign(claims, now)`: the signer, with the issue time it stamps into the token.
      `verify(token)`: the claims of a token carrying a good signature, `None` for a
      malformed, foreign-signed or otherwise rejected token. */
  datatype Primitives<!C> = Primitives(
    hash: (string, nat) -> string,
    compare: (string, string) -> bool,
    sign: (C, nat) -> string,
    verify: string -> Option<C>)

  /** What the services rely on: a password matches its own hash, a token the server
      signed verifies to the claims it was signed with, and a signed token is
      header-shaped. */
  ghost predicate Sound<C(!new)>(c: Primitives<C>)
  {
    && (forall p, salt :: c.compare(p, c.hash(p, salt)))
    && (forall cl, now :: c.verify(c.sign(cl, now)) == Some(cl))
    && (forall cl, now :: IsTokenShaped(c.sign(cl, now)))
  }

}
