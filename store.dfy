/** The credential store: a document bound to one master key id and one
    encryption context, holding an ordered sequence of credentials whose
    secrets are each an envelope-cipher text. A store is created empty,
    grows by Add (encrypt, then append) and is read back by
    ExportPlaintext (decrypt every credential, in order). */
module Model {
  import opened Wrappers
  import opened Primitives
  import opened Crypto

  /** The document schema version a new store carries. */
  const CurrentVersion: int := 1

  /** Instants are whole nanoseconds counted from a fixed epoch. */
  const NanosPerSecond: int := 1_000_000_000

  /** An instant rounded down to a whole second, as timestamps are stored. */
  function TruncateToSecond(t: int): (r: int)
    ensures r % NanosPerSecond == 0
    ensures r <= t < r + NanosPerSecond
  {
    t - t % NanosPerSecond
  }

  datatype Credential = Credential(
    name: string,
    description: string,
    addedAt: int,
    rotatedAt: Option<int>,
    ciphertext: string)

  /** One decrypted credential, as ExportPlaintext delivers it. */
  datatype Item = Item(name: string, plaintext: Bytes)

  datatype StoreError =
    | EncryptFailed(cause: CipherError)
    | DecryptFailed(cause: CipherError)

  function StoreMessage(e: StoreError): string
  {
    match e
    case EncryptFailed(cause) => "Unable to encrypt credential: " + Message(cause)
    case DecryptFailed(cause) => "Unable to decrypt credential: " + Message(cause)
  }

  /** Scans the credentials, first to last, for one with exactly this name. */
  function HasName(creds: seq<Credential>, name: string): (b: bool)
    ensures b <==> exists i :: 0 <= i < |creds| && creds[i].name == name
    decreases |creds|
  {
    if |creds| == 0 then false
    else creds[0].name == name || HasName(creds[1..], name)
  }

  /** How many credentials carry this name. */
  function CountName(creds: seq<Credential>, name: string): (n: nat)
    ensures n <= |creds|
    ensures n == 0 <==> !HasName(creds, name)
    decreases |creds|
  {
    if |creds| == 0 then 0
    else (if creds[0].name == name then 1 else 0) + CountName(creds[1..], name)
  }

  /** The store invariant the add command maintains: no two credentials
      share a name. */
  ghost predicate UniqueNames(creds: seq<Credential>)
  {
    forall i, j :: 0 <= i < j < |creds| ==> creds[i].name != creds[j].name
  }

  lemma {:induction false} CountNameAppend(creds: seq<Credential>, c: Credential, name: string)
    ensures CountName(creds + [c], name) == CountName(creds, name) + (if c.name == name then 1 else 0)
    decreases |creds|
  {
    if |creds| == 0 {
      assert creds + [c] == [c];
    } else {
      assert (creds + [c])[1..] == creds[1..] + [c];
      CountNameAppend(creds[1..], c, name);
    }
  }

  /** Appending a credential whose name is not yet present keeps the names
      unique, and leaves exactly one credential with that name. */
  lemma AppendFreshName(creds: seq<Credential>, c: Credential)
    requires UniqueNames(creds) && !HasName(creds, c.name)
    ensures UniqueNames(creds + [c])
    ensures CountName(creds + [c], c.name) == 1
  {
    CountNameAppend(creds, c, c.name);
    var s := creds + [c];
    forall i, j | 0 <= i < j < |s| ensures s[i].name != s[j].name {
      if j == |creds| {
        assert s[i] == creds[i];
      }
    }
  }

  /** Decrypts every credential in store order; the first credential that
      does not decrypt ends the export with its error and nothing else is
      delivered. */
  function ExportAll(cipher: Cipher, box: SecretBox, creds: seq<Credential>): (r: Result<seq<Item>, StoreError>)
    ensures r.Success? ==>
      && |r.value| == |creds|
      && forall i :: 0 <= i < |creds| ==>
           r.value[i].name == creds[i].name &&
           Decrypt(cipher, box, creds[i].ciphertext) == Success(r.value[i].plaintext)
    decreases |creds|
  {
    if |creds| == 0 then Success([])
    else
      var last := creds[|creds| - 1];
      match ExportAll(cipher, box, creds[..|creds| - 1])
      case Failure(e) => Failure(e)
      case Success(items) =>
        match Decrypt(cipher, box, last.ciphertext)
        case Failure(e) => Failure(DecryptFailed(e))
        case Success(p) => Success(items + [Item(last.name, p)])
  }

  /** The converse: when every credential decrypts, the export succeeds. */
  lemma {:induction false} ExportSucceeds(cipher: Cipher, box: SecretBox, creds: seq<Credential>)
    requires forall i :: 0 <= i < |creds| ==> Decrypt(cipher, box, creds[i].ciphertext).Success?
    ensures ExportAll(cipher, box, creds).Success?
    decreases |creds|
  {
    if |creds| > 0 {
      var prefix := creds[..|creds| - 1];
      assert forall i :: 0 <= i < |prefix| ==> prefix[i] == creds[i];
      ExportSucceeds(cipher, box, prefix);
    }
  }

  /** A failed export reports the error of the first credential that does
      not decrypt: every credential before it decrypts. */
  lemma {:induction false} ExportFailsAtFirstFailure(cipher: Cipher, box: SecretBox, creds: seq<Credential>)
    returns (k: nat)
    requires ExportAll(cipher, box, creds).Failure?
    ensures k < |creds|
    ensures Decrypt(cipher, box, creds[k].ciphertext).Failure?
    ensures ExportAll(cipher, box, creds).error == DecryptFailed(Decrypt(cipher, box, creds[k].ciphertext).error)
    ensures forall j :: 0 <= j < k ==> Decrypt(cipher, box, creds[j].ciphertext).Success?
    decreases |creds|
  {
    var prefix := creds[..|creds| - 1];
    assert creds == prefix + [creds[|creds| - 1]];
    if ExportAll(cipher, box, prefix).Failure? {
      k := ExportFailsAtFirstFailure(cipher, box, prefix);
      assert forall j :: 0 <= j <= k ==> prefix[j] == creds[j];
    } else {
      k := |creds| - 1;
      assert forall j :: 0 <= j < k ==> prefix[j] == creds[j];
    }
  }

  /** Once a prefix of the credentials fails to export, the whole sequence
      fails with the same error. */
  lemma {:induction false} ExportFailureIsFinal(cipher: Cipher, box: SecretBox, creds: seq<Credential>, k: nat)
    requires k <= |creds|
    requires ExportAll(cipher, box, creds[..k]).Failure?
    ensures ExportAll(cipher, box, creds) == ExportAll(cipher, box, creds[..k])
    decreases |creds| - k
  {
    if k < |creds| {
      assert creds[..k + 1][..k] == creds[..k];
      ExportFailureIsFinal(cipher, box, creds, k + 1);
    } else {
      assert creds[..k] == creds;
    }
  }

  /** Exporting after one more credential was appended yields the earlier
      items followed by the new credential's name and plaintext. */
  lemma ExportAppend(cipher: Cipher, box: SecretBox, creds: seq<Credential>, c: Credential, items: seq<Item>, plaintext: Bytes)
    requires ExportAll(cipher, box, creds) == Success(items)
    requires Decrypt(cipher, box, c.ciphertext) == Success(plaintext)
    ensures ExportAll(cipher, box, creds + [c]) == Success(items + [Item(c.name, plaintext)])
  {
    assert (creds + [c])[..|creds|] == creds;
  }

  /** What Add appends decrypts to the plaintext it encrypted, so the
      export grows by the new name and that plaintext (for a consistent key
      service and a sound secret box). */
  lemma ExportAfterAdd(cipher: Cipher, box: SecretBox, creds: seq<Credential>, random: Result<Nonce, string>,
                       now: int, plaintext: Bytes, name: string, description: string)
    requires Consistent(cipher.client) && Sound(box)
    requires Encrypt(cipher, box, random, plaintext).Success?
    requires ExportAll(cipher, box, creds).Success?
    ensures var added := Credential(name, description, TruncateToSecond(now), None, Encrypt(cipher, box, random, plaintext).value);
      && Decrypt(cipher, box, added.ciphertext) == Success(plaintext)
      && ExportAll(cipher, box, creds + [added]) == Success(ExportAll(cipher, box, creds).value + [Item(name, plaintext)])
  {
    EncryptDecrypt(cipher, box, random, plaintext);
    var added := Credential(name, description, TruncateToSecond(now), None, Encrypt(cipher, box, random, plaintext).value);
    ExportAppend(cipher, box, creds, added, ExportAll(cipher, box, creds).value, plaintext);
  }

  /** Add/export round trip: credentials whose ciphertexts were produced by
      Encrypt under the store's cipher export, in order, as their names
      paired with the plaintexts that were encrypted. */
  lemma ExportOfEncrypted(cipher: Cipher, box: SecretBox, creds: seq<Credential>, nonces: seq<Result<Nonce, string>>, plaintexts: seq<Bytes>)
    requires Consistent(cipher.client) && Sound(box)
    requires |nonces| == |plaintexts| == |creds|
    requires forall i :: 0 <= i < |creds| ==>
      Encrypt(cipher, box, nonces[i], plaintexts[i]) == Success(creds[i].ciphertext)
    ensures ExportAll(cipher, box, creds) ==
      Success(seq(|creds|, i requires 0 <= i < |creds| => Item(creds[i].name, plaintexts[i])))
  {
    forall i | 0 <= i < |creds|
      ensures Decrypt(cipher, box, creds[i].ciphertext) == Success(plaintexts[i])
    {
      EncryptDecrypt(cipher, box, nonces[i], plaintexts[i]);
    }
    ExportSucceeds(cipher, box, creds);
    var r := ExportAll(cipher, box, creds);
    var expected := seq(|creds|, i requires 0 <= i < |creds| => Item(creds[i].name, plaintexts[i]));
    assert |r.value| == |expected|;
    forall i | 0 <= i < |creds| ensures r.value[i] == expected[i] {
      assert Decrypt(cipher, box, creds[i].ciphertext) == Success(r.value[i].plaintext);
    }
    assert r.value == expected;
  }

  class Store {
    var kmsKeyId: string
    var version: int
    var encryptionContext: EncryptionContext
    var credentials: seq<Credential>

    /** A fresh store: version 1, no credentials, no remote call made. */
    constructor (kmsKeyId: string, encryptionContext: EncryptionContext)
      ensures this.kmsKeyId == kmsKeyId && this.encryptionContext == encryptionContext
      ensures version == CurrentVersion
      ensures credentials == []
    {
      this.kmsKeyId := kmsKeyId;
      this.encryptionContext := encryptionContext;
      version := CurrentVersion;
      credentials := [];
    }

    /** The cipher this store's operations use: the given client bound to
        the store's own key id and context. */
    function CipherFor(client: KeyService): (c: Cipher)
      reads this`kmsKeyId, this`encryptionContext
    {
      Cipher(client, kmsKeyId, encryptionContext)
    }

    /** True iff some credential has exactly this name. */
    function Contains(name: string): (b: bool)
      reads this
      ensures b <==> exists i :: 0 <= i < |credentials| && credentials[i].name == name
    {
      HasName(credentials, name)
    }

    /** Encrypts the plaintext with the store's cipher and, only if that
        succeeds, appends one new, never-rotated credential stamped with the
        current second. It does not check for a duplicate name. */
    method Add(client: KeyService, box: SecretBox, random: Result<Nonce, string>, now: int,
               plaintext: Bytes, name: string, description: string)
      returns (err: Option<StoreError>)
      modifies this`credentials
      ensures var encrypted := Encrypt(CipherFor(client), box, random, plaintext);
        match encrypted
        case Failure(e) => err == Some(EncryptFailed(e)) && credentials == old(credentials)
        case Success(ciphertext) =>
          err == None &&
          credentials == old(credentials) + [Credential(name, description, TruncateToSecond(now), None, ciphertext)]
    {
      var cipher := Cipher(client, kmsKeyId, encryptionContext);
      var encrypted := Encrypt(cipher, box, random, plaintext);
      if encrypted.Failure? {
        return Some(EncryptFailed(encrypted.error));
      }
      var cred := Credential(name, description, TruncateToSecond(now), None, encrypted.value);
      credentials := credentials + [cred];
      err := None;
    }

    /** Decrypts every credential in store order with the store's cipher;
        on the first failure, reports it and delivers no items. */
    method ExportPlaintext(client: KeyService, box: SecretBox) returns (r: Result<seq<Item>, StoreError>)
      ensures r == ExportAll(CipherFor(client), box, credentials)
    {
      var cipher := Cipher(client, kmsKeyId, encryptionContext);
      var items: seq<Item> := [];
      var i := 0;
      while i < |credentials|
        invariant 0 <= i <= |credentials|
        invariant ExportAll(cipher, box, credentials[..i]) == Success(items)
      {
        var cred := credentials[i];
        var plaintext := Decrypt(cipher, box, cred.ciphertext);
        assert credentials[..i + 1][..i] == credentials[..i];
        if plaintext.Failure? {
          ExportFailureIsFinal(cipher, box, credentials, i + 1);
          return Failure(DecryptFailed(plaintext.error));
        }
        items := items + [Item(cred.name, plaintext.value)];
        i := i + 1;
      }
      assert credentials[..i] == credentials;
      r := Success(items);
    }
  }
}
