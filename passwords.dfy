/** Password material and its verification (src/services/password_service.py).
    The key-derivation function (pbkdf2_hmac, then url-safe base64) is foreign
    crypto: it is a parameter of the service, and the random salt is a
    parameter of every call that hashes. */
module Passwords {

  /** The four password columns of a user row. */
  datatype Password = Password(hashName: string, iters: int, salt: string, passwordHash: string)

  /** (hash name, plaintext, salt, iterations) to encoded digest. */
  type Kdf = (string, string, string, int) -> string

  /** `PasswordService` with the configured defaults `hash_name_password` and
      `iters_password`. */
  datatype PasswordService = PasswordService(kdf: Kdf, hashName: string, iters: int)
  {
    /** `compute_hash(password, hash_name, iters, salt)` with a given salt. */
    function ComputeHashWith(password: string, name: string, count: int, salt: string): (p: Password)
      ensures p.hashName == name && p.iters == count && p.salt == salt
    {
      Password(name, count, salt, kdf(name, password, salt, count))
    }

    /** `compute_hash(password)`: the configured algorithm and iteration count,
        with `salt` standing for the fresh random salt. */
    function ComputeHash(password: string, salt: string): (p: Password)
      ensures p.hashName == hashName && p.iters == iters && p.salt == salt
    {
      ComputeHashWith(password, hashName, iters, salt)
    }

    /** `check_password`: recompute with the stored algorithm, iterations and
        salt, and compare digests. */
    predicate CheckPassword(password: string, target: Password)
    {
      ComputeHashWith(password, target.hashName, target.iters, target.salt).passwordHash == target.passwordHash
    }
  }

  /** A password always verifies against a hash computed from it, even one made
      under other configured defaults: verification reads the parameters stored
      with the hash. */
  lemma CheckAcceptsOwnHash(ps: PasswordService, password: string, name: string, count: int, salt: string)
    ensures ps.CheckPassword(password, ps.ComputeHashWith(password, name, count, salt))
  {
  }

  /** When the digest tells the two plaintexts apart, the other one is refused. */
  lemma CheckRefusesOtherPassword(ps: PasswordService, password: string, other: string, salt: string)
    requires ps.kdf(ps.hashName, other, salt, ps.iters) != ps.kdf(ps.hashName, password, salt, ps.iters)
    ensures !ps.CheckPassword(other, ps.ComputeHash(password, salt))
  {
  }
}
