/** The boundary with the JWT and hashing libraries.  Their algorithms are not part
    of this model: a `Crypto` value bundles them as plain functions, and every
    operation that needs them takes one as a parameter. */
module Jwt {

  /** The `alg` a decoded token header names. */
  datatype SigningMethod = Hmac(bits: nat) | Asymmetric(name: string) | Unsecured

  /** The claims the services put into a token: `id`, `subject` and `exp`. */
  datatype Claims = Claims(id: nat, subject: string, exp: int)

  datatype Decoded = Decoded(alg: SigningMethod, claims: Claims)

  /** The outcome of a library call: a value, or the message of the error it returned. */
  datatype Foreign<+T> = Done(value: T) | Failed(message: string)

  /** The library functions the services rely on.
      `hash` is the hex-formatted SHA-256 of a password;
      `sign` signs claims with HS256 under a key;
      `decode` splits a raw token and reads its header and claims, without checking anything;
      `verify` checks the signature under a key and the time-based claims at a given second. */
  datatype Crypto = Crypto(
    hash: string -> string,
    sign: (string, Claims) -> Foreign<string>,
    decode: string -> Foreign<Decoded>,
    verify: (string, string, int) -> Foreign<()>)

  /** What the services take for granted of the library: a token it signed decodes to
      an HS256 header and exactly the claims signed, and it verifies under the same key
      at any second before its `exp`. */
  ghost predicate Faithful(c: Crypto) {
    && (forall key, claims ::
          c.sign(key, claims).Done? ==>
            c.decode(c.sign(key, claims).value) == Done(Decoded(Hmac(256), claims)))
    && (forall key, claims, now ::
          c.sign(key, claims).Done? && now < claims.exp ==>
            c.verify(key, c.sign(key, claims).value, now).Done?)
  }
}
