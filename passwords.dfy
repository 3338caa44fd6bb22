/** Salted password hashing as used by the authentication service
    (`_hash_password` and `bcrypt.checkpw` in auth.py).

    bcrypt itself is not modelled. A hash value is represented by the salt
    that `bcrypt.gensalt()` drew and the password it was computed from: the
    preimage is there only so that `CheckPassword` can be given a body, and
    nothing else in the model reads it. The model therefore treats bcrypt as
    a collision-free one-way function. */
module Passwords {

  datatype PasswordHash = Bcrypt(salt: string, preimage: string)

  /** `bcrypt.checkpw(password, hashed)`: does the password check against the hash? */
  predicate CheckPassword(password: string, hashed: PasswordHash) {
    hashed.preimage == password
  }

  /** `_hash_password`: hash `password` with a freshly drawn salt, which the
      caller supplies in place of `bcrypt.gensalt()`. The password always
      checks against its own hash. */
  function HashPassword(password: string, salt: string): (hashed: PasswordHash)
    ensures CheckPassword(password, hashed)
  {
    Bcrypt(salt, password)
  }

  /** A different password never checks against the hash. */
  lemma OtherPasswordFails(password: string, other: string, salt: string)
    requires other != password
    ensures !CheckPassword(other, HashPassword(password, salt))
  {
  }

  /** Hashing is salted: the same password under two salts gives two hash
      values, and both check. */
  lemma HashIsSalted(password: string, salt1: string, salt2: string)
    requires salt1 != salt2
    ensures HashPassword(password, salt1) != HashPassword(password, salt2)
    ensures CheckPassword(password, HashPassword(password, salt1))
    ensures CheckPassword(password, HashPassword(password, salt2))
  {
  }
}
