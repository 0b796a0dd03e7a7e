/**
 * Password hashing as bcrypt does it. A hash is the salt followed by a digest of the
 * salt and the raw password; checking a candidate re-hashes it with the salt that the
 * stored hash carries. The digest itself (the key-stretching cipher) is a parameter.
 */
module Bcrypt {

  /** The length of a salt from `genSalt(10)`: the prefix "$2a$10$" and 22 characters. */
  const SaltLength: nat := 29

  /** The one-way digest of a salt and a raw password. */
  type Digest = (string, string) -> string

  /** `bcrypt.hash(raw, salt)`: the stored form carries its salt in front. */
  function Hash(digest: Digest, salt: string, raw: string): (h: string)
    requires |salt| == SaltLength
    ensures |h| >= SaltLength && h[..SaltLength] == salt
  {
    salt + digest(salt, raw)
  }

  /** `bcrypt.compare(raw, stored)`: hash the candidate with the stored salt and compare. */
  predicate Compare(digest: Digest, raw: string, stored: string) {
    |stored| >= SaltLength && Hash(digest, stored[..SaltLength], raw) == stored
  }

  /** A password always matches its own hash, whatever the salt. */
  lemma CompareHash(digest: Digest, salt: string, raw: string)
    requires |salt| == SaltLength
    ensures Compare(digest, raw, Hash(digest, salt, raw))
  {
  }

  /** A candidate matches a stored value exactly when the stored value is a hash of it. */
  lemma CompareIsHashOf(digest: Digest, raw: string, stored: string)
    ensures Compare(digest, raw, stored) <==>
            exists salt :: |salt| == SaltLength && stored == Hash(digest, salt, raw)
  {
    if Compare(digest, raw, stored) {
      var salt := stored[..SaltLength];
      assert stored == Hash(digest, salt, raw);
    }
    if exists salt :: |salt| == SaltLength && stored == Hash(digest, salt, raw) {
      var salt :| |salt| == SaltLength && stored == Hash(digest, salt, raw);
      assert stored[..SaltLength] == salt;
    }
  }
}
