/** The password hasher (bcrypt). Hashing and comparison are foreign code:
    the model takes them as two functions, and assumes nothing about them
    except where a lemma says so in its hypotheses. */
module Bcrypt {

  /** Work factor passed to genSalt at registration. */
  const SaltRounds: nat := 10

  /** A salt: its cost factor and the random bits drawn for it. */
  datatype Salt = Salt(rounds: nat, seed: nat)

  /** genSalt(rounds), with the randomness it draws given as `seed`. */
  function GenSalt(rounds: nat, seed: nat): Salt
  {
    Salt(rounds, seed)
  }

  /** bcrypt.hash(password, salt) and bcrypt.compare(password, digest); the
      digest is the string stored as the user's `password`. */
  datatype Hasher = Hasher(
    hash: (string, Salt) -> string,
    compare: (string, string) -> bool)

  /** Hypothesis used by lemmas: compare accepts a password against a digest
      of that same password, whatever the salt. */
  ghost predicate AcceptsHashed(hasher: Hasher)
  {
    forall password: string, salt: Salt :: hasher.compare(password, hasher.hash(password, salt))
  }
}
