/** nacl/box, symbolically (docs/format.md section 4).

    A secret key has one public key.  A sealed value carries its nonce and its text, and the
    two public keys whose owners share the box: either of them, and nobody else, can open it.
  */
module Box {
  import opened Text

  type Secret = nat

  datatype Public = PublicOf(secret: Secret)

  // Any value under a DHT key: a box, or bytes that nobody sealed.
  datatype Value = Sealed(shared: set<Public>, nonce: nat, text: Bytes) | Junk(raw: Bytes)

  function Seal(text: Bytes, recipient: Public, sender: Secret, nonce: nat): Value {
    Sealed({recipient, PublicOf(sender)}, nonce, text)
  }

  // The two keys that share a value.
  function SharedOf(v: Value): set<Public> { if v.Sealed? then v.shared else {} }

  function Open(v: Value, sender: Public, recipient: Secret): Option<Bytes> {
    if v.Sealed? && v.shared == {sender, PublicOf(recipient)} then Some(v.text) else None
  }

  // A box opens for exactly the key pair it was sealed for; given the recipient, that is
  // decided by the sender, and the other way round.
  lemma OpensIff(text: Bytes, to: Secret, sender: Secret, nonce: nat, expected: Public, recipient: Secret)
    ensures recipient == to ==>
      (Open(Seal(text, PublicOf(to), sender, nonce), expected, recipient) == Some(text)
       <==> expected == PublicOf(sender))
    ensures expected == PublicOf(sender) ==>
      (Open(Seal(text, PublicOf(to), sender, nonce), expected, recipient) == Some(text) <==> recipient == to)
    ensures Open(Seal(text, PublicOf(to), sender, nonce), expected, recipient) in {None, Some(text)}
  {
    var shared, asked := {PublicOf(to), PublicOf(sender)}, {expected, PublicOf(recipient)};
    if shared == asked {
      assert expected in shared && PublicOf(recipient) in shared && PublicOf(to) in asked && PublicOf(sender) in asked;
    }
    if recipient == to && expected == PublicOf(sender) { assert shared == asked; }
  }
}
