/** The envelope cipher: encrypts one plaintext under a fresh data key from
    the key service and serialises the result as the version-1 wire format

      "EJK1]" ";" base64(wrapped data key) ";" base64(nonce ++ sealed box)

    and decrypts such text back, checking in order: the layout, the key
    service's unwrapping of the data key, the data key's length, and the
    authenticity of the sealed box. */
module Crypto {
  import opened Wrappers
  import opened Primitives
  import Base64
  import Text

  /** The first field of the wire format: the format's version marker. */
  const VersionTag: string := "EJK1]"
  const Separator: char := ';'

  /** A cipher is bound once to a key-service client, the master key id and
      the encryption context, and holds nothing else. */
  datatype Cipher = Cipher(client: KeyService, keyId: string, context: EncryptionContext)

  datatype CipherError =
    | DataKeyUnavailable(cause: string)
    | NonceUnavailable(cause: string)
    | InvalidFormat
    | KeyCiphertextRejected(cause: string)
    | KeySizeMismatch(expected: nat, actual: nat)
    | NotAuthentic

  /** The text each error reports; a wrapped error is its prefix, ": " and
      the underlying error's text. */
  function Message(e: CipherError): string
  {
    match e
    case DataKeyUnavailable(cause) => "Unable to generate data key: " + cause
    case NonceUnavailable(cause) => "Unable to generate nonce: " + cause
    case InvalidFormat => "Invalid format for encoded string"
    case KeyCiphertextRejected(cause) => "Unable to decrypt key ciphertext: " + cause
    case KeySizeMismatch(expected, actual) =>
      "Expected key size of " + Text.NatToString(expected) + ", got " + Text.NatToString(actual)
    case NotAuthentic => "Unable to decrypt ciphertext"
  }

  /** The wire text for a wrapped data key and a nonce-prefixed sealed box. */
  function Wire(keyCiphertext: Bytes, payload: Bytes): (s: string)
    ensures Text.Split(s, Separator) == [VersionTag, Base64.Encode(keyCiphertext), Base64.Encode(payload)]
  {
    assert Separator !in VersionTag;
    assert !Base64.IsEncodingChar(Separator);
    Base64.EncodeAlphabet(keyCiphertext);
    Base64.EncodeAlphabet(payload);
    Text.SplitThree(VersionTag, Base64.Encode(keyCiphertext), Base64.Encode(payload), Separator);
    VersionTag + [Separator] + Base64.Encode(keyCiphertext) + [Separator] + Base64.Encode(payload)
  }

  /** Reads the wrapped data key and the payload back out of wire text: the
      text must split on ';' into exactly three fields, the first being the
      version marker and the other two valid base64. */
  function ParseWire(encoded: string): Option<(Bytes, Bytes)>
  {
    var fields := Text.Split(encoded, Separator);
    if |fields| != 3 || fields[0] != VersionTag then None
    else
      match (Base64.Decode(fields[1]), Base64.Decode(fields[2]))
      case (Some(keyCiphertext), Some(payload)) => Some((keyCiphertext, payload))
      case _ => None
  }

  /** What ParseWire accepts: text that splits on ';' into exactly three
      fields, namely the version marker and two valid base64 texts that decode
      to the two results. */
  lemma ParseWireAccepts(encoded: string)
    ensures ParseWire(encoded).Some? ==>
      var fields := Text.Split(encoded, Separator);
      && |fields| == 3
      && encoded == VersionTag + [Separator] + fields[1] + [Separator] + fields[2]
      && Base64.Decode(fields[1]) == Some(ParseWire(encoded).value.0)
      && Base64.Decode(fields[2]) == Some(ParseWire(encoded).value.1)
  {
    var fields := Text.Split(encoded, Separator);
    Text.JoinSplit(encoded, Separator);
    if ParseWire(encoded).Some? {
      assert fields[1..][1..] == [fields[2]];
      assert Text.Join(fields[1..], Separator) == fields[1] + [Separator] + fields[2];
      assert encoded == fields[0] + [Separator] + (fields[1] + [Separator] + fields[2]);
    }
  }

  /** Reading back what Wire wrote gives the same two octet strings. */
  lemma ParseWireOfWire(keyCiphertext: Bytes, payload: Bytes)
    ensures ParseWire(Wire(keyCiphertext, payload)) == Some((keyCiphertext, payload))
  {
    var a, b := Base64.Encode(keyCiphertext), Base64.Encode(payload);
    assert Separator !in VersionTag;
    assert !Base64.IsEncodingChar(Separator);
    Base64.EncodeAlphabet(keyCiphertext);
    Base64.EncodeAlphabet(payload);
    Text.SplitThree(VersionTag, a, b, Separator);
    Base64.EncodeDecode(keyCiphertext);
    Base64.EncodeDecode(payload);
  }

  /** Encrypt: ask the key service for a data key, then draw a nonce from
      the random source, then seal the plaintext and write the wire text.
      Each failure is reported with its own error, the key service's first. */
  function Encrypt(c: Cipher, box: SecretBox, random: Result<Nonce, string>, plaintext: Bytes): (r: Result<string, CipherError>)
    ensures c.client.generateDataKey(c.keyId, c.context).Failure? ==>
      r == Failure(DataKeyUnavailable(c.client.generateDataKey(c.keyId, c.context).error))
    ensures c.client.generateDataKey(c.keyId, c.context).Success? && random.Failure? ==>
      r == Failure(NonceUnavailable(random.error))
  {
    match c.client.generateDataKey(c.keyId, c.context)
    case Failure(cause) => Failure(DataKeyUnavailable(cause))
    case Success(dataKey) =>
      match random
      case Failure(cause) => Failure(NonceUnavailable(cause))
      case Success(nonce) =>
        Success(Wire(dataKey.ciphertextBlob, nonce + box.seal(dataKey.plaintext, nonce, plaintext)))
  }

  /** Decrypt: parse the wire text, unwrap the data key with the key
      service, insist that it is 32 bytes long, then split the payload into
      its 24-byte nonce and the sealed box and open the box. */
  function Decrypt(c: Cipher, box: SecretBox, encoded: string): (r: Result<Bytes, CipherError>)
    ensures r.Failure? ==> !r.error.DataKeyUnavailable? && !r.error.NonceUnavailable?
  {
    match ParseWire(encoded)
    case None => Failure(InvalidFormat)
    case Some((keyCiphertext, payload)) =>
      match c.client.decrypt(keyCiphertext, c.context)
      case Failure(cause) => Failure(KeyCiphertextRejected(cause))
      case Success(key) =>
        if |key| != KeySize then Failure(KeySizeMismatch(KeySize, |key|))
        else if |payload| < NonceSize then Failure(NotAuthentic)
        else
          match box.open(key, payload[..NonceSize], payload[NonceSize..])
          case None => Failure(NotAuthentic)
          case Some(plaintext) => Success(plaintext)
  }

  /** What Encrypt produces, when it succeeds: the version marker, the
      wrapped data key the service generated and a payload that starts with
      the nonce drawn and continues with a sealed box 16 bytes longer than
      the plaintext (for a sound box and a consistent service). */
  lemma EncryptLayout(c: Cipher, box: SecretBox, random: Result<Nonce, string>, plaintext: Bytes)
    ensures var r := Encrypt(c, box, random, plaintext);
      r.Success? <==> c.client.generateDataKey(c.keyId, c.context).Success? && random.Success?
    ensures var r := Encrypt(c, box, random, plaintext);
      r.Success? ==>
        var parsed := ParseWire(r.value);
        && parsed.Some?
        && r.value[..|VersionTag| + 1] == VersionTag + [Separator]
        && parsed.value.0 == c.client.generateDataKey(c.keyId, c.context).value.ciphertextBlob
        && var payload := parsed.value.1;
        && |payload| >= NonceSize
        && payload[..NonceSize] == random.value
        && (Consistent(c.client) && Sound(box) ==> |payload| == NonceSize + |plaintext| + Overhead)
  {
    var r := Encrypt(c, box, random, plaintext);
    if r.Success? {
      var dataKey := c.client.generateDataKey(c.keyId, c.context).value;
      var nonce: Nonce := random.value;
      var sealed: Bytes := box.seal(dataKey.plaintext, nonce, plaintext);
      var payload: Bytes := nonce + sealed;
      ParseWireOfWire(dataKey.ciphertextBlob, payload);
      assert payload[..NonceSize] == nonce;
    }
  }

  /** The text Encrypt writes begins with the version marker, the base64 of
      the wrapped key and, after the second separator, the base64 of the
      nonce: a 24-byte nonce fills whole base64 groups, so its encoding is
      a prefix of the payload's. */
  lemma EncryptPrefix(c: Cipher, box: SecretBox, random: Result<Nonce, string>, plaintext: Bytes)
    requires Encrypt(c, box, random, plaintext).Success?
    ensures VersionTag + [Separator] + Base64.Encode(c.client.generateDataKey(c.keyId, c.context).value.ciphertextBlob)
      + [Separator] + Base64.Encode(random.value) <= Encrypt(c, box, random, plaintext).value
  {
    var dataKey := c.client.generateDataKey(c.keyId, c.context).value;
    var nonce: Nonce := random.value;
    var sealed: Bytes := box.seal(dataKey.plaintext, nonce, plaintext);
    Base64.EncodeAppend(nonce, sealed);
    var head := VersionTag + [Separator] + Base64.Encode(dataKey.ciphertextBlob) + [Separator];
    assert Encrypt(c, box, random, plaintext).value == head + Base64.Encode(nonce) + Base64.Encode(sealed);
  }

  /** Round trip: with a consistent key service and a sound secret box,
      decrypting what Encrypt produced, under the same cipher, gives back
      the plaintext. */
  lemma EncryptDecrypt(c: Cipher, box: SecretBox, random: Result<Nonce, string>, plaintext: Bytes)
    requires Consistent(c.client) && Sound(box)
    requires Encrypt(c, box, random, plaintext).Success?
    ensures Decrypt(c, box, Encrypt(c, box, random, plaintext).value) == Success(plaintext)
  {
    var dataKey := c.client.generateDataKey(c.keyId, c.context).value;
    var nonce: Nonce := random.value;
    var sealed: Bytes := box.seal(dataKey.plaintext, nonce, plaintext);
    var payload: Bytes := nonce + sealed;
    ParseWireOfWire(dataKey.ciphertextBlob, payload);
    assert payload[..NonceSize] == nonce && payload[NonceSize..] == sealed;
  }

  /** The order of Decrypt's guards. The layout is checked before the key
      service is called; the key service's failure is reported before the
      key size is looked at; a wrongly sized data key is reported, with both
      sizes, before the secret box is consulted. Last, a payload too short
      to hold a nonce, or a box that does not open, is not authentic, and a
      box that opens gives its message. */
  lemma DecryptGuardOrder(c: Cipher, other: KeyService, box: SecretBox, otherBox: SecretBox, encoded: string)
    ensures ParseWire(encoded).None? ==>
      Decrypt(c, box, encoded) == Decrypt(Cipher(other, c.keyId, c.context), otherBox, encoded) == Failure(InvalidFormat)
    ensures ParseWire(encoded).Some? && c.client.decrypt(ParseWire(encoded).value.0, c.context).Failure? ==>
      Decrypt(c, box, encoded) == Failure(KeyCiphertextRejected(c.client.decrypt(ParseWire(encoded).value.0, c.context).error))
    ensures ParseWire(encoded).Some? && c.client.decrypt(ParseWire(encoded).value.0, c.context).Success? ==>
      var key := c.client.decrypt(ParseWire(encoded).value.0, c.context).value;
      |key| != KeySize ==>
        Decrypt(c, box, encoded) == Decrypt(c, otherBox, encoded) == Failure(KeySizeMismatch(KeySize, |key|))
    ensures ParseWire(encoded).Some? && c.client.decrypt(ParseWire(encoded).value.0, c.context).Success? ==>
      var key := c.client.decrypt(ParseWire(encoded).value.0, c.context).value;
      var payload := ParseWire(encoded).value.1;
      |key| == KeySize ==>
        && (|payload| < NonceSize ==> Decrypt(c, box, encoded) == Failure(NotAuthentic))
        && (|payload| >= NonceSize ==>
              match box.open(key, payload[..NonceSize], payload[NonceSize..])
              case None => Decrypt(c, box, encoded) == Failure(NotAuthentic)
              case Some(p) => Decrypt(c, box, encoded) == Success(p))
  {
  }
}
