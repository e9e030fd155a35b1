/**
 * lib/encryption.ts: the encrypted-secret envelope `hex(iv) ":" base64(ciphertext)`.
 *
 * The Node calls it is built from are opaque here and are passed in as a
 * `CryptoLib`: PBKDF2 (section 5.2 of RFC 8018), and AES-256-CBC encryption
 * and decryption (FIPS 197 with section 6.2 of NIST SP 800-38A, PKCS#7
 * padding), each including the UTF-8 conversion of the plaintext. What is
 * assumed of them is `Sound`: the key has the length asked for, and
 * decryption undoes encryption under the same key and IV. The random IV of
 * `crypto.randomBytes(16)` is an input.
 */
module Encryption {
  import opened Wrappers
  import opened Codec
  import Utils

  /** The fallback of `process.env.JWT_SECRET || "..."` (lib/encryption.ts:4). */
  const DefaultSecret := "seu_segredo_jwt_super_secreto"
  const IvLength := 16
  const Salt := "salt"
  const Iterations := 100000
  const KeyLength := 32
  const Digest := "sha512"

  datatype CryptoLib = CryptoLib(
    /** `crypto.pbkdf2Sync(password, salt, iterations, keylen, digest)` */
    pbkdf2: (string, string, nat, nat, string) -> Bytes,
    /** `createCipheriv("aes-256-cbc", key, iv)`, then `update(p, "utf8")` and `final()` */
    encipher: (Bytes, Bytes, string) -> Bytes,
    /** `createDecipheriv("aes-256-cbc", key, iv)`, then `update(ct)` and `final("utf8")`;
        `None` when `final` throws (bad padding, wrong block length) */
    decipher: (Bytes, Bytes, Bytes) -> Option<string>)

  ghost predicate Sound(lib: CryptoLib)
  {
    && (forall password, salt, iterations, keylen, digest ::
          |lib.pbkdf2(password, salt, iterations, keylen, digest)| == keylen)
    && (forall key, iv, plaintext :: |key| == KeyLength && |iv| == IvLength ==>
          lib.decipher(key, iv, lib.encipher(key, iv, plaintext)) == Some(plaintext))
  }

  /** How `decryptPassword` fails: every failure is thrown by a library call, none by a format check. */
  datatype DecryptError =
    | InvalidIv          // createDecipheriv: the first part did not hex-decode to 16 bytes
    | MissingCiphertext  // decipher.update(undefined): there was no ':' and so no second part
    | BadDecrypt         // decipher.final: padding or block length rejected

  /** The key material; an unset or empty `JWT_SECRET` falls back to a literal, so it is never empty. */
  function KeyMaterial(jwtSecret: Option<string>): (material: string)
    ensures material != []
    ensures jwtSecret.Some? && jwtSecret.value != [] ==> material == jwtSecret.value
    ensures jwtSecret.None? || jwtSecret.value == [] ==> material == DefaultSecret
  {
    if jwtSecret.Some? && jwtSecret.value != [] then jwtSecret.value else DefaultSecret
  }

  /** The key both functions derive, with the same constant arguments; a 32-byte AES-256 key under a sound library. */
  function DeriveKey(lib: CryptoLib, material: string): (key: Bytes)
    ensures Sound(lib) ==> |key| == KeyLength
  {
    lib.pbkdf2(material, Salt, Iterations, KeyLength, Digest)
  }

  /** The text `encryptPassword` returns for a given IV and ciphertext: the only ':' follows the IV's hex digits. */
  function Envelope(iv: Bytes, ciphertext: Bytes): (envelope: string)
    ensures |envelope| == 2 * |iv| + 1 + |Base64Encode(ciphertext)|
    ensures envelope[2 * |iv|] == ':'
    ensures forall i :: 0 <= i < |envelope| && i != 2 * |iv| ==> envelope[i] != ':'
  {
    HexEncode(iv) + ":" + Base64Encode(ciphertext)
  }

  /** What `decryptPassword` computes, step by step as lib/encryption.ts:27-41 does it. */
  function Decrypt(lib: CryptoLib, jwtSecret: Option<string>, encryptedData: string): (decrypted: Result<string, DecryptError>)
    ensures decrypted == Failure(InvalidIv) <==> |HexDecode(Split(encryptedData, ':')[0])| != IvLength
    ensures decrypted == Failure(MissingCiphertext) <==>
      |HexDecode(Split(encryptedData, ':')[0])| == IvLength && ':' !in encryptedData
    ensures decrypted.Success? ==> ':' in encryptedData
  {
    var textParts := Split(encryptedData, ':');
    var iv := HexDecode(textParts[0]);
    var key := DeriveKey(lib, KeyMaterial(jwtSecret));
    if |iv| != IvLength then Failure(InvalidIv)
    else if |textParts| < 2 then Failure(MissingCiphertext)
    else
      match lib.decipher(key, iv, Base64Decode(textParts[1]))
      case Some(plaintext) => Success(plaintext)
      case None => Failure(BadDecrypt)
  }

  /** Neither alphabet has ':', so an envelope splits into exactly its two encodings, and each decodes back. */
  lemma EnvelopeParts(iv: Bytes, ciphertext: Bytes)
    ensures Split(Envelope(iv, ciphertext), ':') == [HexEncode(iv), Base64Encode(ciphertext)]
    ensures HexDecode(HexEncode(iv)) == iv
    ensures Base64Decode(Base64Encode(ciphertext)) == ciphertext
  {
    var h, b := HexEncode(iv), Base64Encode(ciphertext);
    assert ':' !in h;
    assert ':' !in b;
    SplitAfterPrefix(h, ':', b);
    SplitWithoutSeparator(b, ':');
    HexRoundTrip(iv);
    Base64RoundTrip(ciphertext);
  }

  /** decrypt(encrypt(p)) = p: an envelope made with any 16-byte IV decrypts to its plaintext. */
  lemma DecryptEnvelope(lib: CryptoLib, jwtSecret: Option<string>, iv: Bytes, password: string)
    requires Sound(lib) && |iv| == IvLength
    ensures Decrypt(lib, jwtSecret, Envelope(iv, lib.encipher(DeriveKey(lib, KeyMaterial(jwtSecret)), iv, password)))
            == Success(password)
  {
    var key := DeriveKey(lib, KeyMaterial(jwtSecret));
    EnvelopeParts(iv, lib.encipher(key, iv, password));
  }

  /** Parts after the second are never read: anything after a second ':' is ignored. */
  lemma DecryptIgnoresExtraParts(lib: CryptoLib, jwtSecret: Option<string>, a: string, b: string, rest: string)
    requires ':' !in a && ':' !in b
    ensures Decrypt(lib, jwtSecret, a + ":" + b + ":" + rest) == Decrypt(lib, jwtSecret, a + ":" + b)
  {
    SplitAfterPrefix(a, ':', b + ":" + rest);
    SplitAfterPrefix(b, ':', rest);
    SplitAfterPrefix(a, ':', b);
    SplitWithoutSeparator(b, ':');
    assert a + ":" + b + ":" + rest == a + [':'] + (b + [':'] + rest);
    assert a + ":" + b == a + [':'] + b;
  }

  /** Text without ':' never decrypts: it fails on the IV or, failing that, on the missing ciphertext. */
  lemma DecryptWithoutDelimiter(lib: CryptoLib, jwtSecret: Option<string>, data: string)
    requires ':' !in data
    ensures Decrypt(lib, jwtSecret, data)
            == if |HexDecode(data)| == IvLength then Failure(MissingCiphertext) else Failure(InvalidIv)
  {
    SplitWithoutSeparator(data, ':');
  }

  /** "not-a-valid-envelope" is rejected while creating the decipher: its IV decodes to no bytes. */
  lemma DecryptNotAnEnvelope(lib: CryptoLib, jwtSecret: Option<string>)
    ensures Decrypt(lib, jwtSecret, "not-a-valid-envelope") == Failure(InvalidIv)
  {
    DecryptWithoutDelimiter(lib, jwtSecret, "not-a-valid-envelope");
  }

  method EncryptPassword(lib: CryptoLib, jwtSecret: Option<string>, iv: Bytes, password: string) returns (envelope: string)
    requires Sound(lib)
    requires |iv| == IvLength
    ensures envelope == Envelope(iv, lib.encipher(DeriveKey(lib, KeyMaterial(jwtSecret)), iv, password))
    ensures |envelope| > 2 * IvLength && envelope[2 * IvLength] == ':'
    ensures forall i :: 0 <= i < 2 * IvLength ==> '0' <= envelope[i] <= '9' || 'a' <= envelope[i] <= 'f'
    ensures Decrypt(lib, jwtSecret, envelope) == Success(password)
  {
    var key := lib.pbkdf2(KeyMaterial(jwtSecret), "salt", 100000, 32, "sha512");
    var encrypted := Base64Encode(lib.encipher(key, iv, password));
    envelope := HexEncode(iv) + ":" + encrypted;
    DecryptEnvelope(lib, jwtSecret, iv, password);
  }

  method DecryptPassword(lib: CryptoLib, jwtSecret: Option<string>, encryptedData: string)
    returns (decrypted: Result<string, DecryptError>)
    ensures decrypted == Decrypt(lib, jwtSecret, encryptedData)
  {
    var textParts := Split(encryptedData, ':');
    var iv := HexDecode(textParts[0]);
    var key := lib.pbkdf2(KeyMaterial(jwtSecret), "salt", 100000, 32, "sha512");
    if |iv| != IvLength {
      return Failure(InvalidIv);
    }
    if |textParts| < 2 {
      return Failure(MissingCiphertext);
    }
    var encryptedText := textParts[1];
    match lib.decipher(key, iv, Base64Decode(encryptedText)) {
      case Some(plaintext) => decrypted := Success(plaintext);
      case None => decrypted := Failure(BadDecrypt);
    }
  }

  /** The copy of the scoring function in lib/encryption.ts:44-87; it agrees with lib/utils.ts on every input. */
  method CalculatePasswordStrength(password: string) returns (score: int)
    ensures score == Utils.Strength(password)
    ensures 0 <= score <= 100
  {
    if password == [] {
      return 0;
    }
    score := 0;
    score := score + Utils.Min(Utils.Utf16Length(password) * 4, 40);
    if Utils.Contains(password, Utils.Lower) {
      score := score + 10;
    }
    if Utils.Contains(password, Utils.Upper) {
      score := score + 10;
    }
    if Utils.Contains(password, Utils.Digit) {
      score := score + 10;
    }
    if Utils.Contains(password, Utils.Special) {
      score := score + 15;
    }
    if Utils.EitherOrder(password, Utils.Lower, Utils.Upper) {
      score := score + 5;
    }
    if Utils.EitherOrder(password, Utils.Digit, Utils.Letter) {
      score := score + 5;
    }
    if Utils.EitherOrder(password, Utils.Special, Utils.Alnum) {
      score := score + 5;
    }
    score := Utils.Min(score, 100);
  }
}
