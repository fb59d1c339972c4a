/** The two collaborators the envelope cipher drives, given by their
    interface only: the remote key-management service and the secret-box
    authenticated cipher (XSalsa20-Poly1305 with a 32-byte key and a 24-byte
    nonce). Neither is implemented here; each is a value holding its
    operations, and the properties the cipher's correctness rests on are
    predicates that the theorems take as premises. */
module Primitives {
  import opened Wrappers

  /** Length of a secret-box key, and of the data key the cipher insists on. */
  const KeySize: nat := 32
  /** Length of a secret-box nonce. */
  const NonceSize: nat := 24
  /** Length of the authenticator a sealed box adds to its message. */
  const Overhead: nat := 16

  type Nonce = b: Bytes | |b| == NonceSize witness seq(24, i => 0)

  /** Additional authenticated context sent with every key-service call:
      string keys to optional string values. */
  type EncryptionContext = map<string, Option<string>>

  /** A freshly generated data key: its wrapped form, to be stored, and its
      raw form, to be used once. */
  datatype DataKey = DataKey(ciphertextBlob: Bytes, plaintext: Bytes)

  /** The remote key service: generate a data key under a master key id and
      a context, or unwrap a wrapped data key under a context. Either call
      may fail with an error text. */
  datatype KeyService = KeyService(
    generateDataKey: (string, EncryptionContext) -> Result<DataKey, string>,
    decrypt: (Bytes, EncryptionContext) -> Result<Bytes, string>)

  /** What the key service promises: a generated data key is 32 bytes long,
      and unwrapping its wrapped form under the same context gives it back. */
  ghost predicate Consistent(kms: KeyService)
  {
    forall keyId, context ::
      var generated := kms.generateDataKey(keyId, context);
      generated.Success? ==>
        |generated.value.plaintext| == KeySize &&
        kms.decrypt(generated.value.ciphertextBlob, context) == Success(generated.value.plaintext)
  }

  /** The secret box: seal a message under a key and a nonce, and open a
      sealed box, which fails when the box does not authenticate. */
  datatype SecretBox = SecretBox(
    seal: (Bytes, Nonce, Bytes) -> Bytes,
    open: (Bytes, Nonce, Bytes) -> Option<Bytes>)

  /** What the secret box promises for a 32-byte key: opening what was
      sealed under the same key and nonce gives the message back, and a
      sealed box is the message's length plus the authenticator. */
  ghost predicate Sound(box: SecretBox)
  {
    forall key, nonce, message {:trigger box.seal(key, nonce, message)} ::
      |key| == KeySize ==>
        box.open(key, nonce, box.seal(key, nonce, message)) == Some(message) &&
        |box.seal(key, nonce, message)| == |message| + Overhead
  }
}
