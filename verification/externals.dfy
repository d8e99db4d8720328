/**
 * The foreign capabilities the server calls but whose internals are not part of
 * this model: JSON Web Token signing and verification, bcrypt hashing, and the
 * string-format checks of the validation libraries. They are uninterpreted: every
 * handler receives them as a record of total functions and assumes nothing else.
 */
module Externals {
  import opened Wrappers

  /** The payload the server signs into a session token (`{ userId, email }`). */
  datatype Claims = Claims(userId: string, email: string)

  datatype Oracles = Oracles(
    /** `jwt.verify` with the server secret: the claims, or `None` for a bad or expired token. */
    verifyToken: string -> Option<Claims>,
    /** `jwt.sign` with the server secret and a seven-day expiry. */
    signToken: Claims -> string,
    /** bcrypt hashing of a password (the random salt is not modelled). */
    hashPassword: string -> string,
    /** zod's `.email()` format check. */
    isEmail: string -> bool,
    /** The e-mail regular expression of the user schema. */
    emailPattern: string -> bool,
    /** zod's `.url()` format check. */
    isUrl: string -> bool
  )

  /** `bcrypt.compare(candidate, stored)`. */
  predicate PasswordMatches(o: Oracles, candidate: string, stored: string) {
    o.hashPassword(candidate) == stored
  }
}
