/** The values the cipher's behaviour is pinned to: a key-service stand-in
    that hands out one known data key, a constant nonce, and the exact wire
    text they produce for the plaintext "abcdef". The secret box's output for
    these inputs is the 22 octets TestSealed; the lemmas take that as their
    premise about the box rather than compute XSalsa20-Poly1305. */
module TestData {
  import opened Wrappers
  import opened Primitives

  /** The octets of a text whose characters are all below 256. */
  function Octets(s: string): (b: Bytes)
    requires forall i :: 0 <= i < |s| ==> s[i] as int < 256
    ensures |b| == |s| && forall i :: 0 <= i < |s| ==> b[i] == s[i] as int
  {
    seq(|s|, i requires 0 <= i < |s| => s[i] as int)
  }

  /** The listed values, each of which must fit an octet, as octets. */
  function Listed(xs: seq<int>): (b: Bytes)
    requires forall i :: 0 <= i < |xs| ==> 0 <= xs[i] < 256
    ensures |b| == |xs| && forall i :: 0 <= i < |xs| ==> b[i] == xs[i]
  {
    seq(|xs|, i requires 0 <= i < |xs| => xs[i])
  }

  const TestKeyId: string := "my-key-id"
  const TestContext: EncryptionContext := map["ABC" := None]
  const TestKeyPlaintext: Bytes := Octets("-abcdefabcdefabcdefabcdefabcdef-")
  const TestKeyCiphertext: Bytes := Octets("ciphertextblob")
  const TestNonce: Nonce := Octets("abcdefabcdefabcdefabcdef")
  const TestPlaintext: Bytes := Octets("abcdef")
  /** What the secret box makes of TestPlaintext under TestKeyPlaintext and
      TestNonce: the 6 octets of the message plus the 16-octet
      authenticator. */
  const TestSealed: Bytes :=
    Octets("\U{94}\U{f9}\U{8f}\U{e8}\U{85}\U{9f}\U{2b}\U{b5}\U{89}\U{32}\U{e5}\U{d5}\U{8b}\U{c6}\U{90}\U{ed}\U{36}\U{6e}\U{f2}\U{f0}\U{a4}\U{54}")

  /** The base64 text of the wrapped key, of the nonce and of the sealed box. */
  const KeyCiphertextField: string := "Y2lwaGVydGV4dGJsb2I="
  const NonceField: string := "YWJjZGVmYWJjZGVmYWJjZGVmYWJjZGVm"
  const SealedField: string := "lPmP6IWfK7WJMuXVi8aQ7TZu8vCkVA=="

  /** The expected wire text, written field by field. */
  const TestCiphertext: string :=
    "EJK1]" + ";" + KeyCiphertextField + ";" + (NonceField + SealedField)

  /** The octets of TestSealed, one by one. */
  lemma SealedOctets(b: Bytes)
    requires b == TestSealed
    ensures |b| == 22
    ensures b[0] == 148 && b[1] == 249 && b[2] == 143 && b[3] == 232 && b[4] == 133 && b[5] == 159
    ensures b[6] == 43 && b[7] == 181 && b[8] == 137 && b[9] == 50 && b[10] == 229 && b[11] == 213
    ensures b[12] == 139 && b[13] == 198 && b[14] == 144 && b[15] == 237 && b[16] == 54 && b[17] == 110
    ensures b[18] == 242 && b[19] == 240 && b[20] == 164 && b[21] == 84
  {
  }
}

/** The base64 fields of the test vector, computed group by group. */
module WireVectors {
  import opened Wrappers
  import opened Primitives
  import opened Crypto
  import Base64
  import opened TestData

  /** One step of the encoder from position k: a full group, then the rest. */
  lemma Step(b: Bytes, k: nat, q: string, rest: string)
    requires k + 3 <= |b|
    requires Base64.EncodeQuantum(b[k], b[k + 1], b[k + 2]) == q
    requires Base64.Encode(b[k + 3..]) == rest
    ensures Base64.Encode(b[k..]) == q + rest
  {
    assert b[k..][3..] == b[k + 3..];
  }

  lemma StepFirst(b: Bytes, q: string, rest: string)
    requires 3 <= |b|
    requires Base64.EncodeQuantum(b[0], b[1], b[2]) == q
    requires Base64.Encode(b[3..]) == rest
    ensures Base64.Encode(b) == q + rest
  {
  }

  lemma KeyCiphertextFrom9(b: Bytes)
    requires |b| == 14
    requires b[9] == 116 && b[10] == 98 && b[11] == 108 && b[12] == 111 && b[13] == 98
    ensures Base64.Encode(b[9..]) == "dGJs" + "b2I="
  {
    assert 116 / 4 == 29 && (116 % 4) * 16 + 98 / 16 == 6 && (98 % 16) * 4 + 108 / 64 == 9 && 108 % 64 == 44;
    assert Base64.Encode(b[12..]) == "b2I=" by {
      assert 111 / 4 == 27 && (111 % 4) * 16 + 98 / 16 == 54 && (98 % 16) * 4 == 8;
      assert b[12..] == [111, 98];
    }
    Step(b, 9, "dGJs", "b2I=");
  }

  lemma KeyCiphertextFrom6(b: Bytes)
    requires |b| == 14
    requires b[6] == 116 && b[7] == 101 && b[8] == 120 && b[9] == 116 && b[10] == 98 && b[11] == 108
    requires b[12] == 111 && b[13] == 98
    ensures Base64.Encode(b[6..]) == "dGV4" + ("dGJs" + "b2I=")
  {
    assert 116 / 4 == 29 && (116 % 4) * 16 + 101 / 16 == 6 && (101 % 16) * 4 + 120 / 64 == 21 && 120 % 64 == 56;
    KeyCiphertextFrom9(b);
    Step(b, 6, "dGV4", "dGJs" + "b2I=");
  }

  lemma KeyCiphertextFrom3(b: Bytes)
    requires |b| == 14
    requires b[3] == 104 && b[4] == 101 && b[5] == 114 && b[6] == 116 && b[7] == 101 && b[8] == 120
    requires b[9] == 116 && b[10] == 98 && b[11] == 108 && b[12] == 111 && b[13] == 98
    ensures Base64.Encode(b[3..]) == "aGVy" + ("dGV4" + ("dGJs" + "b2I="))
  {
    assert 104 / 4 == 26 && (104 % 4) * 16 + 101 / 16 == 6 && (101 % 16) * 4 + 114 / 64 == 21 && 114 % 64 == 50;
    KeyCiphertextFrom6(b);
    Step(b, 3, "aGVy", "dGV4" + ("dGJs" + "b2I="));
  }

  lemma KeyCiphertextFrom0(b: Bytes)
    requires |b| == 14
    requires b[0] == 99 && b[1] == 105 && b[2] == 112 && b[3] == 104 && b[4] == 101 && b[5] == 114
    requires b[6] == 116 && b[7] == 101 && b[8] == 120 && b[9] == 116 && b[10] == 98 && b[11] == 108
    requires b[12] == 111 && b[13] == 98
    ensures Base64.Encode(b) == "Y2lw" + ("aGVy" + ("dGV4" + ("dGJs" + "b2I=")))
  {
    assert 99 / 4 == 24 && (99 % 4) * 16 + 105 / 16 == 54 && (105 % 16) * 4 + 112 / 64 == 37 && 112 % 64 == 48;
    KeyCiphertextFrom3(b);
    StepFirst(b, "Y2lw", "aGVy" + ("dGV4" + ("dGJs" + "b2I=")));
  }

  lemma NonceFrom21(b: Bytes)
    requires |b| == 24
    requires b[21] == 100 && b[22] == 101 && b[23] == 102
    ensures Base64.Encode(b[21..]) == "ZGVm"
  {
    assert 100 / 4 == 25 && (100 % 4) * 16 + 101 / 16 == 6 && (101 % 16) * 4 + 102 / 64 == 21 && 102 % 64 == 38;
    assert b[24..] == [];
    Step(b, 21, "ZGVm", "");
  }

  lemma NonceFrom18(b: Bytes)
    requires |b| == 24
    requires b[18] == 97 && b[19] == 98 && b[20] == 99 && b[21] == 100 && b[22] == 101 && b[23] == 102
    ensures Base64.Encode(b[18..]) == "YWJj" + "ZGVm"
  {
    assert 97 / 4 == 24 && (97 % 4) * 16 + 98 / 16 == 22 && (98 % 16) * 4 + 99 / 64 == 9 && 99 % 64 == 35;
    NonceFrom21(b);
    Step(b, 18, "YWJj", "ZGVm");
  }

  lemma NonceFrom15(b: Bytes)
    requires |b| == 24
    requires b[15] == 100 && b[16] == 101 && b[17] == 102 && b[18] == 97 && b[19] == 98 && b[20] == 99
    requires b[21] == 100 && b[22] == 101 && b[23] == 102
    ensures Base64.Encode(b[15..]) == "ZGVm" + ("YWJj" + "ZGVm")
  {
    assert 100 / 4 == 25 && (100 % 4) * 16 + 101 / 16 == 6 && (101 % 16) * 4 + 102 / 64 == 21 && 102 % 64 == 38;
    NonceFrom18(b);
    Step(b, 15, "ZGVm", "YWJj" + "ZGVm");
  }

  lemma NonceFrom12(b: Bytes)
    requires |b| == 24
    requires b[12] == 97 && b[13] == 98 && b[14] == 99 && b[15] == 100 && b[16] == 101 && b[17] == 102
    requires b[18] == 97 && b[19] == 98 && b[20] == 99 && b[21] == 100 && b[22] == 101 && b[23] == 102
    ensures Base64.Encode(b[12..]) == "YWJj" + ("ZGVm" + ("YWJj" + "ZGVm"))
  {
    assert 97 / 4 == 24 && (97 % 4) * 16 + 98 / 16 == 22 && (98 % 16) * 4 + 99 / 64 == 9 && 99 % 64 == 35;
    NonceFrom15(b);
    Step(b, 12, "YWJj", "ZGVm" + ("YWJj" + "ZGVm"));
  }

  lemma NonceFrom9(b: Bytes)
    requires |b| == 24
    requires b[9] == 100 && b[10] == 101 && b[11] == 102 && b[12] == 97 && b[13] == 98 && b[14] == 99
    requires b[15] == 100 && b[16] == 101 && b[17] == 102 && b[18] == 97 && b[19] == 98 && b[20] == 99
    requires b[21] == 100 && b[22] == 101 && b[23] == 102
    ensures Base64.Encode(b[9..]) == "ZGVm" + ("YWJj" + ("ZGVm" + ("YWJj" + "ZGVm")))
  {
    assert 100 / 4 == 25 && (100 % 4) * 16 + 101 / 16 == 6 && (101 % 16) * 4 + 102 / 64 == 21 && 102 % 64 == 38;
    NonceFrom12(b);
    Step(b, 9, "ZGVm", "YWJj" + ("ZGVm" + ("YWJj" + "ZGVm")));
  }

  lemma NonceFrom6(b: Bytes)
    requires |b| == 24
    requires b[6] == 97 && b[7] == 98 && b[8] == 99 && b[9] == 100 && b[10] == 101 && b[11] == 102
    requires b[12] == 97 && b[13] == 98 && b[14] == 99 && b[15] == 100 && b[16] == 101 && b[17] == 102
    requires b[18] == 97 && b[19] == 98 && b[20] == 99 && b[21] == 100 && b[22] == 101 && b[23] == 102
    ensures Base64.Encode(b[6..]) == "YWJj" + ("ZGVm" + ("YWJj" + ("ZGVm" + ("YWJj" + "ZGVm"))))
  {
    assert 97 / 4 == 24 && (97 % 4) * 16 + 98 / 16 == 22 && (98 % 16) * 4 + 99 / 64 == 9 && 99 % 64 == 35;
    NonceFrom9(b);
    Step(b, 6, "YWJj", "ZGVm" + ("YWJj" + ("ZGVm" + ("YWJj" + "ZGVm"))));
  }

  lemma NonceFrom3(b: Bytes)
    requires |b| == 24
    requires b[3] == 100 && b[4] == 101 && b[5] == 102 && b[6] == 97 && b[7] == 98 && b[8] == 99
    requires b[9] == 100 && b[10] == 101 && b[11] == 102 && b[12] == 97 && b[13] == 98 && b[14] == 99
    requires b[15] == 100 && b[16] == 101 && b[17] == 102 && b[18] == 97 && b[19] == 98 && b[20] == 99
    requires b[21] == 100 && b[22] == 101 && b[23] == 102
    ensures Base64.Encode(b[3..]) == "ZGVm" + ("YWJj" + ("ZGVm" + ("YWJj" + ("ZGVm" + ("YWJj" + "ZGVm")))))
  {
    assert 100 / 4 == 25 && (100 % 4) * 16 + 101 / 16 == 6 && (101 % 16) * 4 + 102 / 64 == 21 && 102 % 64 == 38;
    NonceFrom6(b);
    Step(b, 3, "ZGVm", "YWJj" + ("ZGVm" + ("YWJj" + ("ZGVm" + ("YWJj" + "ZGVm")))));
  }

  lemma NonceFrom0(b: Bytes)
    requires |b| == 24
    requires b[0] == 97 && b[1] == 98 && b[2] == 99 && b[3] == 100 && b[4] == 101 && b[5] == 102
    requires b[6] == 97 && b[7] == 98 && b[8] == 99 && b[9] == 100 && b[10] == 101 && b[11] == 102
    requires b[12] == 97 && b[13] == 98 && b[14] == 99 && b[15] == 100 && b[16] == 101 && b[17] == 102
    requires b[18] == 97 && b[19] == 98 && b[20] == 99 && b[21] == 100 && b[22] == 101 && b[23] == 102
    ensures Base64.Encode(b) == "YWJj" + ("ZGVm" + ("YWJj" + ("ZGVm" + ("YWJj" + ("ZGVm" + ("YWJj" + "ZGVm"))))))
  {
    assert 97 / 4 == 24 && (97 % 4) * 16 + 98 / 16 == 22 && (98 % 16) * 4 + 99 / 64 == 9 && 99 % 64 == 35;
    NonceFrom3(b);
    StepFirst(b, "YWJj", "ZGVm" + ("YWJj" + ("ZGVm" + ("YWJj" + ("ZGVm" + ("YWJj" + "ZGVm"))))));
  }

  lemma SealedFrom18(b: Bytes)
    requires |b| == 22
    requires b[18] == 242 && b[19] == 240 && b[20] == 164 && b[21] == 84
    ensures Base64.Encode(b[18..]) == "8vCk" + "VA=="
  {
    assert 242 / 4 == 60 && (242 % 4) * 16 + 240 / 16 == 47 && (240 % 16) * 4 + 164 / 64 == 2 && 164 % 64 == 36;
    assert Base64.Encode(b[21..]) == "VA==" by {
      assert 84 / 4 == 21 && (84 % 4) * 16 == 0;
      assert b[21..] == [84];
    }
    Step(b, 18, "8vCk", "VA==");
  }

  lemma SealedFrom15(b: Bytes)
    requires |b| == 22
    requires b[15] == 237 && b[16] == 54 && b[17] == 110 && b[18] == 242 && b[19] == 240 && b[20] == 164
    requires b[21] == 84
    ensures Base64.Encode(b[15..]) == "7TZu" + ("8vCk" + "VA==")
  {
    assert 237 / 4 == 59 && (237 % 4) * 16 + 54 / 16 == 19 && (54 % 16) * 4 + 110 / 64 == 25 && 110 % 64 == 46;
    SealedFrom18(b);
    Step(b, 15, "7TZu", "8vCk" + "VA==");
  }

  lemma SealedFrom12(b: Bytes)
    requires |b| == 22
    requires b[12] == 139 && b[13] == 198 && b[14] == 144 && b[15] == 237 && b[16] == 54 && b[17] == 110
    requires b[18] == 242 && b[19] == 240 && b[20] == 164 && b[21] == 84
    ensures Base64.Encode(b[12..]) == "i8aQ" + ("7TZu" + ("8vCk" + "VA=="))
  {
    assert 139 / 4 == 34 && (139 % 4) * 16 + 198 / 16 == 60 && (198 % 16) * 4 + 144 / 64 == 26 && 144 % 64 == 16;
    SealedFrom15(b);
    Step(b, 12, "i8aQ", "7TZu" + ("8vCk" + "VA=="));
  }

  lemma SealedFrom9(b: Bytes)
    requires |b| == 22
    requires b[9] == 50 && b[10] == 229 && b[11] == 213 && b[12] == 139 && b[13] == 198 && b[14] == 144
    requires b[15] == 237 && b[16] == 54 && b[17] == 110 && b[18] == 242 && b[19] == 240 && b[20] == 164
    requires b[21] == 84
    ensures Base64.Encode(b[9..]) == "MuXV" + ("i8aQ" + ("7TZu" + ("8vCk" + "VA==")))
  {
    assert 50 / 4 == 12 && (50 % 4) * 16 + 229 / 16 == 46 && (229 % 16) * 4 + 213 / 64 == 23 && 213 % 64 == 21;
    SealedFrom12(b);
    Step(b, 9, "MuXV", "i8aQ" + ("7TZu" + ("8vCk" + "VA==")));
  }

  lemma SealedFrom6(b: Bytes)
    requires |b| == 22
    requires b[6] == 43 && b[7] == 181 && b[8] == 137 && b[9] == 50 && b[10] == 229 && b[11] == 213
    requires b[12] == 139 && b[13] == 198 && b[14] == 144 && b[15] == 237 && b[16] == 54 && b[17] == 110
    requires b[18] == 242 && b[19] == 240 && b[20] == 164 && b[21] == 84
    ensures Base64.Encode(b[6..]) == "K7WJ" + ("MuXV" + ("i8aQ" + ("7TZu" + ("8vCk" + "VA=="))))
  {
    assert 43 / 4 == 10 && (43 % 4) * 16 + 181 / 16 == 59 && (181 % 16) * 4 + 137 / 64 == 22 && 137 % 64 == 9;
    SealedFrom9(b);
    Step(b, 6, "K7WJ", "MuXV" + ("i8aQ" + ("7TZu" + ("8vCk" + "VA=="))));
  }

  lemma SealedFrom3(b: Bytes)
    requires |b| == 22
    requires b[3] == 232 && b[4] == 133 && b[5] == 159 && b[6] == 43 && b[7] == 181 && b[8] == 137
    requires b[9] == 50 && b[10] == 229 && b[11] == 213 && b[12] == 139 && b[13] == 198 && b[14] == 144
    requires b[15] == 237 && b[16] == 54 && b[17] == 110 && b[18] == 242 && b[19] == 240 && b[20] == 164
    requires b[21] == 84
    ensures Base64.Encode(b[3..]) == "6IWf" + ("K7WJ" + ("MuXV" + ("i8aQ" + ("7TZu" + ("8vCk" + "VA==")))))
  {
    assert 232 / 4 == 58 && (232 % 4) * 16 + 133 / 16 == 8 && (133 % 16) * 4 + 159 / 64 == 22 && 159 % 64 == 31;
    SealedFrom6(b);
    Step(b, 3, "6IWf", "K7WJ" + ("MuXV" + ("i8aQ" + ("7TZu" + ("8vCk" + "VA==")))));
  }

  lemma SealedFrom0(b: Bytes)
    requires |b| == 22
    requires b[0] == 148 && b[1] == 249 && b[2] == 143 && b[3] == 232 && b[4] == 133 && b[5] == 159
    requires b[6] == 43 && b[7] == 181 && b[8] == 137 && b[9] == 50 && b[10] == 229 && b[11] == 213
    requires b[12] == 139 && b[13] == 198 && b[14] == 144 && b[15] == 237 && b[16] == 54 && b[17] == 110
    requires b[18] == 242 && b[19] == 240 && b[20] == 164 && b[21] == 84
    ensures Base64.Encode(b) == "lPmP" + ("6IWf" + ("K7WJ" + ("MuXV" + ("i8aQ" + ("7TZu" + ("8vCk" + "VA=="))))))
  {
    assert 148 / 4 == 37 && (148 % 4) * 16 + 249 / 16 == 15 && (249 % 16) * 4 + 143 / 64 == 38 && 143 % 64 == 15;
    SealedFrom3(b);
    StepFirst(b, "lPmP", "6IWf" + ("K7WJ" + ("MuXV" + ("i8aQ" + ("7TZu" + ("8vCk" + "VA=="))))));
  }

  lemma KeyCiphertextFieldGroups()
    ensures KeyCiphertextField == "Y2lw" + ("aGVy" + ("dGV4" + ("dGJs" + "b2I=")))
  {
  }

  lemma KeyCiphertextEncoding(b: Bytes)
    requires b == TestKeyCiphertext
    ensures Base64.Encode(b) == KeyCiphertextField
  {
    KeyCiphertextFrom0(b);
    KeyCiphertextFieldGroups();
  }

  lemma NonceFieldGroups()
    ensures NonceField == "YWJj" + ("ZGVm" + ("YWJj" + ("ZGVm" + ("YWJj" + ("ZGVm" + ("YWJj" + "ZGVm"))))))
  {
  }

  lemma NonceEncoding(b: Bytes)
    requires b == TestNonce
    ensures Base64.Encode(b) == NonceField
  {
    NonceFrom0(b);
    NonceFieldGroups();
  }

  lemma SealedFieldGroups()
    ensures SealedField == "lPmP" + ("6IWf" + ("K7WJ" + ("MuXV" + ("i8aQ" + ("7TZu" + ("8vCk" + "VA=="))))))
  {
  }

  lemma SealedEncoding(b: Bytes)
    requires b == TestSealed
    ensures Base64.Encode(b) == SealedField
  {
    SealedOctets(b);
    SealedFrom0(b);
    SealedFieldGroups();
  }

  /** The test vector is the wire text of the wrapped key and of the nonce
      followed by the sealed box. */
  lemma TestCiphertextLayout(keyCiphertext: Bytes, nonce: Bytes, sealed: Bytes)
    requires keyCiphertext == TestKeyCiphertext && nonce == TestNonce && sealed == TestSealed
    ensures Wire(keyCiphertext, nonce + sealed) == TestCiphertext
  {
    KeyCiphertextEncoding(keyCiphertext);
    NonceEncoding(nonce);
    SealedEncoding(sealed);
    Base64.EncodeAppend(nonce, sealed);
  }

  /** Reading the test vector gives back the wrapped key and the payload. */
  lemma ParseTestCiphertext(keyCiphertext: Bytes, nonce: Bytes, sealed: Bytes)
    requires keyCiphertext == TestKeyCiphertext && nonce == TestNonce && sealed == TestSealed
    ensures ParseWire(TestCiphertext) == Some((keyCiphertext, nonce + sealed))
  {
    TestCiphertextLayout(keyCiphertext, nonce, sealed);
    ParseWireOfWire(keyCiphertext, nonce + sealed);
  }
}

module Vectors {
  import opened Wrappers
  import opened Primitives
  import opened Crypto
  import Base64
  import Text
  import opened TestData
  import WireVectors

  /** The key-service stand-in: it generates TestKeyCiphertext wrapping
      `keyPlaintext` for TestKeyId and TestContext, and unwraps
      TestKeyCiphertext under TestContext to `keyPlaintext`; any other
      request fails. */
  function MockKms(keyPlaintext: Bytes): KeyService
  {
    KeyService(
      (keyId: string, context: EncryptionContext) =>
        if keyId == TestKeyId && context == TestContext
        then Success(DataKey(TestKeyCiphertext, keyPlaintext))
        else Failure("unexpected generate-data-key request"),
      (blob: Bytes, context: EncryptionContext) =>
        if blob == TestKeyCiphertext && context == TestContext
        then Success(keyPlaintext)
        else Failure("unexpected decrypt request"))
  }

  /** A key service whose every call fails with `message`. */
  function FailingKms(message: string): KeyService
  {
    KeyService((keyId: string, context: EncryptionContext) => Failure(message),
               (blob: Bytes, context: EncryptionContext) => Failure(message))
  }

  function TestCipher(client: KeyService): Cipher
  {
    Cipher(client, TestKeyId, TestContext)
  }

  /** The known-answer test: with the stand-in key service and the constant
      nonce, encrypting "abcdef" gives exactly the test vector. */
  lemma EncryptTestVector(box: SecretBox)
    requires box.seal(TestKeyPlaintext, TestNonce, TestPlaintext) == TestSealed
    ensures Encrypt(TestCipher(MockKms(TestKeyPlaintext)), box, Success(TestNonce), TestPlaintext) == Success(TestCiphertext)
  {
    WireVectors.TestCiphertextLayout(TestKeyCiphertext, TestNonce, TestSealed);
  }

  /** Decrypting the test vector with the stand-in key service gives back
      "abcdef", for any box that opens TestSealed to it. */
  lemma DecryptTestVector(box: SecretBox)
    requires box.open(TestKeyPlaintext, TestNonce, TestSealed) == Some(TestPlaintext)
    ensures Decrypt(TestCipher(MockKms(TestKeyPlaintext)), box, TestCiphertext) == Success(TestPlaintext)
  {
    WireVectors.ParseTestCiphertext(TestKeyCiphertext, TestNonce, TestSealed);
    var payload: Bytes := TestNonce + TestSealed;
    assert payload[..NonceSize] == TestNonce && payload[NonceSize..] == TestSealed;
  }

  /** The stand-in key service keeps the key-service promise when the key
      it hands out is 32 bytes long. */
  lemma MockKmsConsistent()
    ensures Consistent(MockKms(TestKeyPlaintext))
  {
  }

  /** A key-service failure on Encrypt is reported as such, whatever the
      random source holds: the data key is requested first. */
  lemma EncryptWithKmsError(box: SecretBox, random: Result<Nonce, string>, plaintext: Bytes)
    ensures Encrypt(TestCipher(FailingKms("testing errors")), box, random, plaintext) ==
      Failure(DataKeyUnavailable("testing errors"))
    ensures Message(DataKeyUnavailable("testing errors"))[..27] == "Unable to generate data key"
  {
  }

  /** A random-source failure on Encrypt is reported as a nonce failure. */
  lemma EncryptWithNonceError(box: SecretBox, cause: string, plaintext: Bytes)
    ensures Encrypt(TestCipher(MockKms(TestKeyPlaintext)), box, Failure(cause), plaintext) ==
      Failure(NonceUnavailable(cause))
    ensures Message(NonceUnavailable(cause))[..24] == "Unable to generate nonce"
  {
  }

  /** "abc" is not in the wire layout: rejected before any key-service
      call, so with any client at all. */
  lemma DecryptMalformed(client: KeyService, box: SecretBox)
    ensures Decrypt(TestCipher(client), box, "abc") == Failure(InvalidFormat)
    ensures Message(InvalidFormat) == "Invalid format for encoded string"
  {
    Text.SplitWithoutSeparator("abc", Separator);
  }

  /** A key-service failure on Decrypt of the test vector is reported as
      such. */
  lemma DecryptWithKmsError(box: SecretBox)
    ensures Decrypt(TestCipher(FailingKms("testing errors")), box, TestCiphertext) ==
      Failure(KeyCiphertextRejected("testing errors"))
    ensures Message(KeyCiphertextRejected("testing errors"))[..32] == "Unable to decrypt key ciphertext"
  {
    WireVectors.ParseTestCiphertext(TestKeyCiphertext, TestNonce, TestSealed);
  }

  /** A data key of any length but 32 is refused, with both sizes. */
  lemma DecryptWithWrongSizedKey(box: SecretBox, key: Bytes)
    requires |key| != KeySize
    ensures Decrypt(TestCipher(MockKms(key)), box, TestCiphertext) == Failure(KeySizeMismatch(KeySize, |key|))
  {
    WireVectors.ParseTestCiphertext(TestKeyCiphertext, TestNonce, TestSealed);
  }

  lemma ShortKeyMessage()
    ensures Message(KeySizeMismatch(32, 13)) == "Expected key size of 32, got 13"
  {
    assert Text.NatToString(32) == "32";
    assert Text.NatToString(13) == "13";
  }

  /** A 13-byte data key ("notlongenough") is refused with both sizes in the
      message, whatever the secret box would have done. */
  lemma DecryptWithShortKey(box: SecretBox)
    ensures Decrypt(TestCipher(MockKms(Octets("notlongenough"))), box, TestCiphertext) ==
      Failure(KeySizeMismatch(32, 13))
    ensures Message(KeySizeMismatch(32, 13)) == "Expected key size of 32, got 13"
  {
    DecryptWithWrongSizedKey(box, Octets("notlongenough"));
    ShortKeyMessage();
  }
}
