/** The credential store's scenarios: a new store, the membership query,
    adding with the stand-in key service and the constant nonce, adding when
    the random source fails, and exporting an empty store, a store of two
    credentials and a store whose key service refuses to unwrap. */
module StoreVectors {
  import opened Wrappers
  import opened Primitives
  import Crypto
  import Model
  import opened TestData
  import Vectors

  const TestName: string := "my_cred"
  const TestDescription: string := "Some description."
  const TestName2: string := "my_other_cred"
  const TestDescription2: string := "Some other description."
  const TestPlaintext2: Bytes := Octets("ghijklm")

  /** A new store carries the key id, version 1, the context and no
      credentials. */
  method NewStoreScenario() returns (store: Model.Store)
    ensures store.kmsKeyId == TestKeyId && store.version == 1
    ensures store.encryptionContext == TestContext && store.credentials == []
  {
    store := new Model.Store(TestKeyId, TestContext);
  }

  /** Membership is by exact name: a store holding only "test_cred" holds
      "test_cred" and not "other". */
  method ContainsScenario() returns (present: bool, absent: bool)
    ensures present && !absent
  {
    var store := new Model.Store(TestKeyId, TestContext);
    store.credentials := [Model.Credential("test_cred", "", 0, None, "")];
    present := store.Contains("test_cred");
    absent := store.Contains("other");
    assert "other" != "test_cred";
  }

  /** Adding "abcdef" to a new store with the stand-in key service and the
      constant nonce stores exactly one credential: the given name and
      description, the current second, never rotated, and the test vector
      as its ciphertext. */
  method AddScenario(box: SecretBox, now: int) returns (store: Model.Store, err: Option<Model.StoreError>)
    requires box.seal(TestKeyPlaintext, TestNonce, TestPlaintext) == TestSealed
    ensures err == None
    ensures store.credentials ==
      [Model.Credential(TestName, TestDescription, Model.TruncateToSecond(now), None, TestCiphertext)]
    ensures now - Model.NanosPerSecond < store.credentials[0].addedAt <= now
  {
    store := new Model.Store(TestKeyId, TestContext);
    Vectors.EncryptTestVector(box);
    err := store.Add(Vectors.MockKms(TestKeyPlaintext), box, Success(TestNonce), now,
                     TestPlaintext, TestName, TestDescription);
  }

  /** Every encryption failure of the store is reported under the same
      heading, and every decryption failure under its own. */
  lemma EncryptFailedMessage(cause: Crypto.CipherError)
    ensures Model.StoreMessage(Model.EncryptFailed(cause))[..28] == "Unable to encrypt credential"
  {
  }

  lemma DecryptFailedMessage(cause: Crypto.CipherError)
    ensures Model.StoreMessage(Model.DecryptFailed(cause))[..28] == "Unable to decrypt credential"
  {
  }

  /** When the random source fails, Add reports an encryption failure
      caused by the nonce and stores nothing. */
  method AddFailingScenario(box: SecretBox, now: int) returns (store: Model.Store, err: Option<Model.StoreError>)
    ensures err == Some(Model.EncryptFailed(Crypto.NonceUnavailable("testing errors")))
    ensures Model.StoreMessage(err.value)[..28] == "Unable to encrypt credential"
    ensures store.credentials == []
  {
    store := new Model.Store(TestKeyId, TestContext);
    err := store.Add(Vectors.MockKms(TestKeyPlaintext), box, Failure("testing errors"), now,
                     TestPlaintext, TestName, TestDescription);
    EncryptFailedMessage(err.value.cause);
  }

  /** With a key service that refuses every request, the export of
      well-formed credentials fails with the refusal of the first one. */
  lemma RefusedExport(box: SecretBox, message: string, creds: seq<Model.Credential>)
    requires |creds| > 0 && Crypto.ParseWire(creds[0].ciphertext).Some?
    ensures Model.ExportAll(Vectors.TestCipher(Vectors.FailingKms(message)), box, creds) ==
      Failure(Model.DecryptFailed(Crypto.KeyCiphertextRejected(message)))
  {
    var cipher := Vectors.TestCipher(Vectors.FailingKms(message));
    assert Crypto.Decrypt(cipher, box, creds[0].ciphertext) == Failure(Crypto.KeyCiphertextRejected(message));
    var k := Model.ExportFailsAtFirstFailure(cipher, box, creds);
  }

  /** For a consistent key service that grants the data key and a sound
      box, the plaintext encrypts to well-formed text that decrypts back. */
  lemma Sealable(cipher: Crypto.Cipher, box: SecretBox, nonce: Nonce, plaintext: Bytes) returns (encoded: string)
    requires Consistent(cipher.client) && Sound(box)
    requires cipher.client.generateDataKey(cipher.keyId, cipher.context).Success?
    ensures Crypto.Encrypt(cipher, box, Success(nonce), plaintext) == Success(encoded)
    ensures Crypto.Decrypt(cipher, box, encoded) == Success(plaintext)
    ensures Crypto.ParseWire(encoded).Some?
  {
    encoded := Crypto.Encrypt(cipher, box, Success(nonce), plaintext).value;
    Crypto.EncryptLayout(cipher, box, Success(nonce), plaintext);
    Crypto.EncryptDecrypt(cipher, box, Success(nonce), plaintext);
  }

  /** Two credentials that decrypt export as their names with their
      plaintexts, in order. */
  lemma ExportTwo(cipher: Crypto.Cipher, box: SecretBox, creds: seq<Model.Credential>, plaintext1: Bytes, plaintext2: Bytes)
    requires |creds| == 2
    requires Crypto.Decrypt(cipher, box, creds[0].ciphertext) == Success(plaintext1)
    requires Crypto.Decrypt(cipher, box, creds[1].ciphertext) == Success(plaintext2)
    ensures Model.ExportAll(cipher, box, creds) ==
      Success([Model.Item(creds[0].name, plaintext1), Model.Item(creds[1].name, plaintext2)])
  {
    var item1 := Model.Item(creds[0].name, plaintext1);
    Model.ExportAppend(cipher, box, [], creds[0], [], plaintext1);
    assert [] + [creds[0]] == [creds[0]] && [] + [item1] == [item1];
    Model.ExportAppend(cipher, box, [creds[0]], creds[1], [item1], plaintext2);
    assert [creds[0]] + [creds[1]] == creds;
    assert [item1] + [Model.Item(creds[1].name, plaintext2)] == [item1, Model.Item(creds[1].name, plaintext2)];
  }

  /** The "working" step: two adds to the empty store, then an export,
      for a cipher under which the two secrets encrypt, to `first` and
      `second`, and decrypt back. */
  method AddTwoAndExport(store: Model.Store, client: KeyService, box: SecretBox, nonce1: Nonce, nonce2: Nonce,
                         now: int, ghost first: string, ghost second: string)
    returns (working: Result<seq<Model.Item>, Model.StoreError>)
    requires store.credentials == []
    requires Crypto.Encrypt(store.CipherFor(client), box, Success(nonce1), TestPlaintext) == Success(first)
    requires Crypto.Decrypt(store.CipherFor(client), box, first) == Success(TestPlaintext)
    requires Crypto.Encrypt(store.CipherFor(client), box, Success(nonce2), TestPlaintext2) == Success(second)
    requires Crypto.Decrypt(store.CipherFor(client), box, second) == Success(TestPlaintext2)
    modifies store`credentials
    ensures working == Success([Model.Item(TestName, TestPlaintext), Model.Item(TestName2, TestPlaintext2)])
    ensures |store.credentials| == 2 && store.credentials[0].ciphertext == first
  {
    var err := store.Add(client, box, Success(nonce1), now, TestPlaintext, TestName, TestDescription);
    err := store.Add(client, box, Success(nonce2), now, TestPlaintext2, TestName2, TestDescription2);
    ExportTwo(store.CipherFor(client), box, store.credentials, TestPlaintext, TestPlaintext2);
    working := store.ExportPlaintext(client, box);
  }

  /** The "fails" step: one more add, then an export with a key service
      that refuses to unwrap. */
  method AddAndExportRefused(store: Model.Store, box: SecretBox, nonce: Nonce, now: int)
    returns (failing: Result<seq<Model.Item>, Model.StoreError>)
    requires store.kmsKeyId == TestKeyId && store.encryptionContext == TestContext
    requires |store.credentials| > 0 && Crypto.ParseWire(store.credentials[0].ciphertext).Some?
    modifies store`credentials
    ensures failing == Failure(Model.DecryptFailed(Crypto.KeyCiphertextRejected("testing error")))
  {
    var first := store.credentials[0];
    var err := store.Add(Vectors.MockKms(TestKeyPlaintext), box, Success(nonce), now,
                         TestPlaintext, TestName, TestDescription);
    assert store.credentials[0] == first;
    var refusing := Vectors.FailingKms("testing error");
    failing := store.ExportPlaintext(refusing, box);
    RefusedExport(box, "testing error", store.credentials);
  }

  /** One store through three exports, as one test runs them. Empty, it
      exports nothing. After two adds (with any nonces), it exports the two
      credentials in order, names with their plaintexts, for a sound secret
      box. After a third add, a key service that refuses every request
      makes the export fail with the refusal of the first credential. */
  method ExportPlaintextScenario(box: SecretBox, nonce1: Nonce, nonce2: Nonce, nonce3: Nonce, now: int)
    returns (empty: Result<seq<Model.Item>, Model.StoreError>,
             working: Result<seq<Model.Item>, Model.StoreError>,
             failing: Result<seq<Model.Item>, Model.StoreError>)
    requires Sound(box)
    ensures empty == Success([])
    ensures working == Success([Model.Item(TestName, TestPlaintext), Model.Item(TestName2, TestPlaintext2)])
    ensures failing == Failure(Model.DecryptFailed(Crypto.KeyCiphertextRejected("testing error")))
    ensures Model.StoreMessage(failing.error)[..28] == "Unable to decrypt credential"
  {
    var store := new Model.Store(TestKeyId, TestContext);
    var client := Vectors.MockKms(TestKeyPlaintext);
    Vectors.MockKmsConsistent();
    empty := store.ExportPlaintext(client, box);
    ghost var cipher := store.CipherFor(client);
    ghost var first := Sealable(cipher, box, nonce1, TestPlaintext);
    ghost var second := Sealable(cipher, box, nonce2, TestPlaintext2);
    working := AddTwoAndExport(store, client, box, nonce1, nonce2, now, first, second);
    failing := AddAndExportRefused(store, box, nonce3, now);
    DecryptFailedMessage(failing.error.cause);
  }
}
