/**
  The two cryptographic collaborators of the server, bcrypt and JSON Web Tokens,
  modelled by what the server relies on rather than by how they compute:
  a password verifies against the digest made from it and against no digest
  made from a different password, and a token decodes, under the key that signed it, to exactly the
  claim it was signed with.
*/
module Crypto {
  import opened Wrappers

  /** A bcrypt digest. bcrypt's output is self-describing: it records the work
      factor and the salt next to the one-way image of the password, here
      `image`. A digest is a type of its own, so a password can never be
      stored where a digest belongs. */
  datatype Digest = Bcrypt(cost: nat, salt: nat, image: string)

  /** The bcrypt work factor the server hashes with. */
  const WorkFactor: nat := 10

  /** Hashing a password; bcrypt draws the salt at random, here it is an input. */
  function Hash(password: string, salt: nat): (d: Digest)
    ensures d.cost == WorkFactor && d.salt == salt
    ensures Verify(password, d)
  {
    Bcrypt(WorkFactor, salt, password)
  }

  /** Checking a password against a stored digest. */
  predicate Verify(password: string, d: Digest)
  {
    d.image == password
  }

  /** A password verifies against a digest made from a different password for no salt. */
  lemma VerifyRejectsOtherPassword(password: string, other: string, salt: nat)
    requires password != other
    ensures !Verify(password, Hash(other, salt))
  {
  }

  /** The identity claim a session token carries. The id is None when the signed
      payload's id is null; every token the server itself issues carries an id. */
  datatype Claim = Claim(id: Option<int>, email: string, username: string, avatarUrl: string)

  /** A session token as presented in the `token` cookie: either one signed
      with some key over a claim, or any other text, which no key verifies. */
  datatype Token = Signed(key: string, claim: Claim) | Opaque(text: string)

  /** Issuing a token over a claim with a key. */
  function Sign(claim: Claim, key: string): (t: Token)
    ensures t != Opaque("")
  {
    Signed(key, claim)
  }

  /** Verifying a token with a key: the claim when the signature checks out, None when it does not. */
  function Decode(t: Token, key: string): (r: Option<Claim>)
    ensures r.Some? <==> exists c :: Sign(c, key) == t
    ensures r.Some? ==> Sign(r.value, key) == t
  {
    if t.Signed? && t.key == key then
      assert Sign(t.claim, key) == t;
      Some(t.claim)
    else
      None
  }

  /** Verifying a token under the key that signed it gives back the signed claim. */
  lemma DecodeSign(c: Claim, key: string)
    ensures Decode(Sign(c, key), key) == Some(c)
  {
  }

  /** A token signed with another key (a forged or stale one) does not verify. */
  lemma DecodeOtherKey(c: Claim, signer: string, key: string)
    requires signer != key
    ensures Decode(Sign(c, signer), key) == None
  {
  }
}
