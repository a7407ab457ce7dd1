/** The two cryptographic collaborators of the controllers, kept symbolic.

    bcrypt (`passwordEncrypt`, `bcrypt.compare`): a digest records the
    password and the salt it was made from, so `Compare` can recognise the
    password again. The model is thereby collision-free, which is stronger
    than what bcrypt promises; nothing else about the digest is used.

    jsonwebtoken (`jwt.sign`): a session token records the account id it
    asserts and the secret it was signed with. */
module Crypto {

  type Salt = string

  /** A bcrypt digest. It is a value of its own type, so a stored hash can
      never be a plaintext password. */
  datatype Digest = Digest(preimage: string, salt: Salt)

  /** `passwordEncrypt(password)`, with the random salt made explicit. */
  function Hash(password: string, salt: Salt): Digest
  {
    Digest(password, salt)
  }

  /** `bcrypt.compare(password, hash)`. */
  predicate Compare(password: string, h: Digest)
  {
    h.preimage == password
  }

  /** A password matches every digest made from it, whatever the salt,
      and (in this model) no digest made from another password. */
  lemma CompareHash(password: string, other: string, salt: Salt)
    ensures Compare(password, Hash(password, salt))
    ensures Compare(other, Hash(password, salt)) <==> other == password
  {
  }

  /** A signed session token; only the `_id` claim is modelled. */
  datatype SessionToken = Jwt(subject: string, secret: string)

  /** `jwt.sign({ _id: id }, secret)`. */
  function Sign(id: string, secret: string): SessionToken
  {
    Jwt(id, secret)
  }
}
