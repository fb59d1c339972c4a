# ejson-kms core, modelled in Dafny

ejson-kms keeps secrets in a JSON credentials file. Each secret is
envelope-encrypted. A fresh data key is requested from the key-management
service (KMS). The data key seals the secret with NaCl secretbox. The
stored text keeps the KMS-wrapped data key next to the nonce and the sealed
box, as

    "EJK1]" ";" base64(wrapped data key) ";" base64(nonce ++ sealed box)

This project models three parts of the tool and proves properties about
them:

- **The envelope cipher** (`crypto.dfy`, module `Crypto`). Encrypt
  requests a data key, draws a 24-byte nonce, seals and writes the wire
  text. Decrypt parses the layout, asks the KMS to unwrap the key, checks
  that the key is 32 bytes and opens the box. Each step has its own error.
  Base64 follows section 4 of RFC 4648: the standard alphabet, with
  padding (`base64.dfy`). The split on `;` is in `text.dfy`.
- **The credential store** (`store.dfy`, module `Model`, class
  `Model.Store`). A store holds a key id, a schema version, an encryption
  context and an ordered sequence of credentials.
  - The constructor creates an empty store.
  - `Contains` tests for an exact name.
  - `Add` encrypts, then appends one credential stamped with the current
    second.
  - `ExportPlaintext` decrypts every credential in order. It reports the
    first failure and delivers nothing in that case.
- **The `add` command** (`add.dfy`, module `Cli`, class `Cli.AddCmd`).
  - `Parse` runs the validation chain, loads the store and refuses a name
    the store already holds.
  - `Execute` encrypts the secret and appends exactly one credential, then
    saves. Nothing is appended when encryption fails.

Two collaborators are given by their interface only (`primitives.dfy`):

- the KMS, as a pair of function values `generateDataKey` and `decrypt`;
- secretbox, as a pair `seal` and `open`.

Their promises are the predicates `Consistent` and `Sound`. The round-trip
theorems take these predicates as premises.

The known-answer tests of the source are restated as lemmas and methods:

- `vectors.dfy` covers the cipher's test vector and its error cases;
- `store_vectors.dfy` covers the store scenarios.

The test vector's 22-byte sealed box is the secretbox output, which this
model does not compute. So the lemmas about the vector take as a premise
that `seal` produces those bytes, or that `open` accepts them.

Module layout:

- `Wrappers`: Option and Result.
- `Text`: splitting a string on a separator, and decimal numerals.
- `Base64`.
- `Primitives`.
- `Crypto`.
- `Model`.
- `Cli`.
- `TestData`, `WireVectors`, `Vectors` and `StoreVectors`: the test
  constants and the scenarios.

## Model

| member | source | states |
|---|---|---|
| Crypto.ParseWireOfWire | crypto/main_test.go:20 | Parsing the wire text of a wrapped key and a payload gives back exactly that key and payload. |
| Crypto.Wire | crypto/main_test.go:20 | Splitting the wire text on `;` gives exactly three fields: the marker, the base64 of the wrapped key and the base64 of the payload. |
| Crypto.ParseWireAccepts | crypto/main_test.go:81-90 | Text that parses splits into exactly three fields. It is the marker, `;`, a field, `;`, a field, and the two fields are valid base64 that decodes to the two results. |
| Crypto.Encrypt | crypto/main_test.go:40-64 | A KMS failure is reported as DataKeyUnavailable with its cause, whatever the random source holds. With a data key granted, a random-source failure is reported as NonceUnavailable with its cause. EncryptLayout and EncryptDecrypt state the success case. |
| Crypto.Decrypt | crypto/main_test.go:81-114 | Decrypt never reports an encryption-side error (no data key, no nonce). DecryptGuardOrder states its checks in order, and EncryptDecrypt states that it inverts Encrypt. |
| Crypto.EncryptLayout | crypto/main_test.go:16-20 | Encrypt succeeds iff the KMS grants a data key and the random source gives a nonce. The text then starts with `EJK1];`. Its second field is the wrapped key the KMS returned. Its payload starts with the nonce drawn. For a sound box and a consistent KMS, the payload is the nonce plus the plaintext plus 16 bytes. |
| Crypto.EncryptPrefix | crypto/main_test.go:16-20 | The text Encrypt writes begins with the marker, the base64 of the wrapped key, `;` and the base64 of the nonce. |
| Crypto.EncryptDecrypt | crypto/main_test.go:69-79 | For a consistent KMS and a sound box, decrypting what Encrypt produced under the same cipher gives back the plaintext. |
| Crypto.DecryptGuardOrder | crypto/main_test.go:81-114 | Decrypt checks in order: a bad layout fails with InvalidFormat whatever the KMS and box are; then a KMS refusal is reported with its cause; then a data key not 32 bytes long fails with both sizes, whatever the box does. Last, a payload shorter than the 24-byte nonce, or a box that does not open, fails as NotAuthentic, and a box that opens gives its message. |
| Base64.Encode | crypto/main_test.go:20 | The encoding of n octets has 4·⌈n/3⌉ characters. Its inverse is Decode (EncodeDecode). |
| Base64.Decode | crypto/main_test.go:20 | Text that decodes has exactly 4·⌈n/3⌉ characters for the n octets it decodes to. |
| Text.Split | crypto/main_test.go:81-90 | There is at least one field, and no field contains the separator. |
| Text.JoinSplit | crypto/main_test.go:81-90 | Joining the fields with the separator between them gives the text back. |
| Base64.EncodeDecode | crypto/main_test.go:20 | Decoding the base64 encoding of any octet string gives it back. |
| Base64.EncodeAppend | crypto/main_test.go:20 | When the first part's length is a multiple of 3, the encoding of a concatenation is the concatenation of the encodings. This is why the nonce's base64 is a prefix of the payload field. |
| Base64.EncodeAlphabet | crypto/main_test.go:20 | Encoded text uses only the 64 alphabet characters and `=`, and so never contains the `;` separator. |
| WireVectors.TestCiphertextLayout | crypto/main_test.go:15-20 | The wire text of `ciphertextblob` and of the nonce followed by the sealed box is exactly the test ciphertext. |
| WireVectors.ParseTestCiphertext | crypto/main_test.go:20 | The test ciphertext parses back to `ciphertextblob` and to the nonce followed by the sealed box. |
| Vectors.EncryptTestVector | crypto/main_test.go:23-38 | With the stand-in KMS, the constant nonce and a box that seals `abcdef` to the 22 test octets, Encrypt yields exactly the test ciphertext. |
| Vectors.DecryptTestVector | crypto/main_test.go:69-79 | With the stand-in KMS, decrypting the test ciphertext yields `abcdef` for a box that opens the sealed octets to it. |
| Vectors.MockKmsConsistent | crypto/main_test.go:27 | The stand-in KMS keeps the KMS promise for the 32-byte test key. |
| Vectors.EncryptWithKmsError | crypto/main_test.go:40-49 | A failing KMS makes Encrypt fail with DataKeyUnavailable, whatever the random source holds. The message starts "Unable to generate data key". |
| Vectors.EncryptWithNonceError | crypto/main_test.go:51-64 | A failing random source makes Encrypt fail with NonceUnavailable. The message starts "Unable to generate nonce". |
| Vectors.DecryptMalformed | crypto/main_test.go:81-90 | "abc" is rejected with "Invalid format for encoded string" under any client. |
| Vectors.DecryptWithKmsError | crypto/main_test.go:92-102 | A KMS refusal while decrypting the test ciphertext is reported as KeyCiphertextRejected with its cause. |
| Vectors.DecryptWithWrongSizedKey | crypto/main_test.go:104-114 | A data key whose length is not 32 makes Decrypt of the test ciphertext fail with KeySizeMismatch(32, length), whatever the box. |
| Vectors.DecryptWithShortKey | crypto/main_test.go:104-114 | The 13-byte key `notlongenough` gives "Expected key size of 32, got 13". |
| Model.TruncateToSecond | cli/add.go:92 | The stamp is a whole second, at most the instant, and less than one second before it. |
| Model.HasName | model/store_test.go:84-93 | True iff some credential's name equals the given name exactly. |
| Model.CountName | cli/add.go:71-73 | At most the number of credentials, and zero iff no credential has the name. |
| Model.CountNameAppend | cli/add.go:108 | Appending a credential adds one to the count of its own name and nothing to any other name's count. |
| Model.AppendFreshName | cli/add.go:71-108 | Appending a credential whose name is absent keeps names unique and leaves exactly one credential with that name. |
| Model.ExportAll | model/store_test.go:173-235 | A successful export has one item per credential, in store order. Each item is the credential's name with its decryption. |
| Model.ExportSucceeds | model/store_test.go:188-215 | When every credential decrypts, the export succeeds. |
| Model.ExportFailsAtFirstFailure | model/store_test.go:217-233 | A failed export carries the error of a credential that fails to decrypt, and every earlier credential decrypts. |
| Model.ExportFailureIsFinal | model/store_test.go:217-233 | Once a prefix fails to export, the whole store fails with the same error. |
| Model.ExportAppend | model/store_test.go:188-215 | Appending a credential that decrypts extends the export by its name and plaintext. |
| Model.ExportAfterAdd | model/store_test.go:188-215 | For a consistent KMS and a sound box, the credential Add builds decrypts to the added plaintext. The export grows by that name and plaintext. |
| Model.ExportOfEncrypted | model/store_test.go:188-215 | Credentials whose ciphertexts Encrypt produced export as their names paired with the encrypted plaintexts, in order. |
| Model.Store.constructor | model/store_test.go:30-37 | A new store has the given key id and context, version 1 and no credentials. |
| Model.Store.Contains | model/store_test.go:84-93 | True iff some credential has exactly this name. |
| Model.Store.Add | model/store_test.go:134-169 | On an encryption failure, reports EncryptFailed with the cause and leaves the credentials unchanged. Otherwise appends exactly one credential at the end: the given name and description, the current second, never rotated, and the new ciphertext. |
| Model.Store.ExportPlaintext | model/store_test.go:173-235 | The loop's result equals ExportAll of the credentials: every item in order, or the first failure and no items. |
| Cli.ParseVerdict | cli/add.go:47-76 | No error iff the path check, the argument check and the name check pass, the store loads, and the name is not already present. The first failing step decides the error, in this order: path check, argument check, name check, loading, duplicate name. A name the loaded store contains gives NameTaken once every earlier step passes. NameTaken means some credential carries the name. |
| Cli.AddCmd.Parse | cli/add.go:47-76 | Returns ParseVerdict, so the first failing step decides the error (path, argument, name, load, then duplicate name). Records the name once the argument check passes, and the store once it loads. On success the store does not contain the name. |
| Cli.AddCmd.Execute | cli/add.go:78-118 | Input, client and encryption failures return their error and append nothing. On success exactly one credential is appended, stamped with the truncated time. A save failure is then reported. Name uniqueness is preserved, and the new name occurs exactly once. |
| StoreVectors.NewStoreScenario | model/store_test.go:30-37 | A store made with the test key id and context has version 1 and no credentials. |
| StoreVectors.ContainsScenario | model/store_test.go:84-93 | A store holding `test_cred` contains `test_cred` and not `other`. |
| StoreVectors.AddScenario | model/store_test.go:136-155 | With the stand-in KMS and the constant nonce, adding to a new store gives exactly one credential. It has the test name and description, the current second (within one second of now), no rotation, and the test ciphertext. |
| StoreVectors.AddFailingScenario | model/store_test.go:157-169 | A failing random source makes Add report "Unable to encrypt credential", caused by the nonce, and store nothing. |
| StoreVectors.RefusedExport | model/store_test.go:217-233 | A KMS that refuses everything makes the export of well-formed credentials fail with the refusal of the first credential. |
| StoreVectors.ExportTwo | model/store_test.go:188-215 | Two credentials that decrypt export as their two names with their plaintexts, in order. |
| StoreVectors.ExportPlaintextScenario | model/store_test.go:173-235 | One store goes through three exports. Empty, it exports no items. After two adds it exports (`my_cred`, `abcdef`) then (`my_other_cred`, `ghijklm`). After a third add, a refusing KMS makes the export fail with "Unable to decrypt credential". |

## Left out

- The secretbox primitive itself (XSalsa20-Poly1305) is an abstract seal/open pair. `Sound` states only its round trip and its 16-byte overhead.
- The real KMS client (`kms.NewClient`) and the KMS test mocks are left out. The mocks become `Vectors.MockKms` and `Vectors.FailingKms`.
- The random reader is a parameter, `Result<Nonce, string>`. Reading the standard input, the clock, constructing the client, loading the store and saving it are all supplied as outcomes.
- `NewCipher` only binds a client, a key id and a context. It is the datatype constructor `Crypto.Cipher`.
- Vectors.EncryptTestVector and Vectors.DecryptTestVector: the 22 sealed octets are a premise, because the model does not compute secretbox.
- `Load` and `Save` are left out: file I/O and JSON (de)serialisation, including the version and timestamp formats.
- Model.Store.ExportPlaintext returns a sequence or an error. The Go code delivers items over a channel from a goroutine. Items sent before a failure are not modelled.
- Cobra wiring, flag defaults and the printed progress lines are left out.
- The bodies of `utils.ValidCredentialsPath`, `utils.HasOneArgument` and `utils.ValidName` are not part of this model. They are function-valued parameters of `Cli.Validators`.
- Go's base64 decoder also skips newline characters. This model's decoder rejects them. Like Go's default decoder, it accepts non-zero padding bits.
- Plaintexts are octet strings. Go converts between `string` and `[]byte` without UTF-8 validation.
- Error texts are modelled as the prefixes the tests check plus the cause. A wrapped error's stack formatting is not modelled.
- Model.TruncateToSecond: instants are integers counted in nanoseconds from an epoch. Time zones, including the conversion to UTC, are not modelled.
- A payload shorter than 24 bytes fails as not authentic, after the KMS and key-size checks. `crypto/main.go` is not part of this model, so this is a choice. The layout split follows `strings.Split` on `;`: exactly three fields.
- A `rotate` command is left out. Nothing in the modelled files shows one, apart from the text of the duplicate-name error.
- `cli/add.go:108` appends a `model.Credential` value, while the store tests use `[]*Credential`. Credentials are modelled as values. Aliasing between credential pointers is not modelled.
