/**
 The encryption lifecycle of one submission: a fresh AES-GCM key, the raw key
 exported as base64, the key imported back from base64, and authenticated
 encryption and decryption with a 12-byte IV, every binary value crossing into
 text as base64.

 AES-GCM (NIST SP 800-38D, reached through the W3C Web Cryptography API) and the
 UTF-8 `TextEncoder`/`TextDecoder` are not modelled: they are functions carried
 by a `Platform` value, and `Platform.Valid` states the only facts the model
 relies on.
 */
module CryptoService {
  import opened Wrappers
  import opened Base64
  import opened Types

  /** Key size requested from `generateKey`, in bits. */
  const KeyLengthBits: nat := 256

  /** Size of the IV drawn for each encryption, in bytes. */
  const IvLength: nat := 12

  /** 32 bytes delivered by the platform's key generator. */
  type KeyMaterial = s: seq<uint8> | |s| == 32 witness seq(32, _ => 0)

  /** `IvLength` bytes delivered by `crypto.getRandomValues(new Uint8Array(12))`. */
  type IvBytes = s: seq<uint8> | |s| == IvLength witness seq(IvLength, _ => 0)

  /**
   The longest plaintext, in bytes, that AES-GCM is guaranteed to seal: 2^39 - 256
   bits (section 5.2.1.1 of NIST SP 800-38D). Beyond it the platform throws.
   */
  const MaxPlaintextBytes: nat := 0x10_0000_0000 - 32

  /** U+FEFF, the byte order mark. */
  const Bom: char := '\U{FEFF}'

  /**
   What `new TextDecoder()` returns for the UTF-8 encoding of `s`. With the
   default `ignoreBOM` of false, the decoder consumes a leading byte order mark
   (the "decode" algorithm of the WHATWG Encoding Standard), which
   `TextEncoder` had written out as EF BB BF.
   */
  function WithoutLeadingBom(s: string): (r: string)
    ensures |s| > 0 && s[0] == Bom ==> r == s[1..]
    ensures |s| == 0 || s[0] != Bom ==> r == s
  {
    if |s| > 0 && s[0] == Bom then s[1..] else s
  }

  datatype KeyUsage = Encrypt | Decrypt

  /** A `CryptoKey` of algorithm AES-GCM. */
  datatype CryptoKey = CryptoKey(raw: seq<uint8>, extractable: bool, usages: set<KeyUsage>)

  /**
   The foreign primitives: AES-GCM seal and open over (raw key, IV, bytes), and
   UTF-8 encoding and decoding. `seal` gives `None` when the platform refuses
   the plaintext.
   */
  datatype Platform = Platform(
    seal: (seq<uint8>, seq<uint8>, seq<uint8>) -> Option<seq<uint8>>,
    open: (seq<uint8>, seq<uint8>, seq<uint8>) -> Option<seq<uint8>>,
    encodeUtf8: string -> seq<uint8>,
    decodeUtf8: seq<uint8> -> string)
  {
    /**
     Every plaintext up to `MaxPlaintextBytes` can be sealed; opening a sealed
     message under the same key and IV gives back the plaintext; `open`
     succeeds only on a ciphertext that is the seal of what it returns; and
     UTF-8 decoding inverts encoding except for a leading byte order mark,
     which it drops.
     */
    ghost predicate Valid() {
      && (forall k, iv, p :: |p| <= MaxPlaintextBytes ==> seal(k, iv, p).Some?)
      && (forall k, iv, p :: seal(k, iv, p).Some? ==> open(k, iv, seal(k, iv, p).value) == Some(p))
      && (forall k, iv, c :: open(k, iv, c).Some? ==> seal(k, iv, open(k, iv, c).value) == Some(c))
      && (forall s :: decodeUtf8(encodeUtf8(s)) == WithoutLeadingBom(s))
    }
  }

  /** Raw key lengths the Web Cryptography API accepts for AES: 128, 192 or 256 bits. */
  predicate IsAesKeyLength(n: nat) {
    n == 16 || n == 24 || n == 32
  }

  // ---------------------------------------------------------------------------
  // Binary/text codec

  /** The loop that builds the binary string: character `i` is `String.fromCharCode(bytes[i])`. */
  method BinaryString(bytes: seq<uint8>) returns (binary: string)
    ensures |binary| == |bytes|
    ensures forall i :: 0 <= i < |bytes| ==> binary[i] as int == bytes[i]
    ensures binary == Latin1(bytes)
    ensures Btoa(binary).Some?
  {
    binary := "";
    var i := 0;
    while i < |bytes|
      invariant 0 <= i <= |bytes|
      invariant |binary| == i
      invariant forall j :: 0 <= j < i ==> binary[j] as int == bytes[j]
    {
      binary := binary + [bytes[i] as char];
      i := i + 1;
    }
  }

  /** `arrayBufferToBase64`: the RFC 4648 base64 of the bytes, via a binary string that `btoa` always accepts. */
  function ArrayBufferToBase64(buffer: seq<uint8>): (s: string)
    ensures s == Encode(buffer)
    ensures |s| == 4 * ((|buffer| + 2) / 3)
  {
    var binary := Latin1(buffer);
    assert CodeUnits(binary) == buffer;
    Btoa(binary).value
  }

  /** The store `bytes[i] = charCodeAt(i)` into a `Uint8Array`, which keeps the value modulo 256. */
  function ToUint8Array(binary: string): (bytes: seq<uint8>)
    ensures |bytes| == |binary|
    ensures forall i :: 0 <= i < |binary| ==> bytes[i] == binary[i] as int % 256
  {
    seq(|binary|, i requires 0 <= i < |binary| => binary[i] as int % 256)
  }

  /** The loop that fills the `Uint8Array` from the decoded binary string. */
  method FillBytes(binary: string) returns (bytes: seq<uint8>)
    requires IsBinaryString(binary)
    ensures |bytes| == |binary|
    ensures bytes == ToUint8Array(binary)
    ensures Latin1(bytes) == binary
  {
    bytes := [];
    var i := 0;
    while i < |binary|
      invariant 0 <= i <= |binary|
      invariant |bytes| == i
      invariant forall j :: 0 <= j < i ==> bytes[j] == binary[j] as int
    {
      bytes := bytes + [binary[i] as int % 256];
      i := i + 1;
    }
  }

  /** `base64ToArrayBuffer`: `atob`, then one byte per decoded character; `atob`'s rejection propagates. */
  function Base64ToArrayBuffer(base64: string): (r: Result<seq<uint8>, Exception>)
    ensures r.Err? <==> ForgivingDecode(base64).None?
    ensures r.Err? ==> r.error == InvalidCharacterError
    ensures r.Ok? ==> r.value == ForgivingDecode(base64).value
  {
    match Atob(base64)
    case None => Err(InvalidCharacterError)
    case Some(binary) =>
      Uint8ArrayOfLatin1(ForgivingDecode(base64).value);
      Ok(ToUint8Array(binary))
  }

  /** Storing a binary string into a `Uint8Array` recovers the bytes it was made from. */
  lemma Uint8ArrayOfLatin1(data: seq<uint8>)
    ensures ToUint8Array(Latin1(data)) == data
  {
  }

  /**
   No byte is truncated: the `% 256` of the store never changes a character
   `atob` produced, and the buffer fails exactly when `atob` throws.
   */
  lemma NoTruncation(base64: string)
    ensures Base64ToArrayBuffer(base64).Ok? <==> Atob(base64).Some?
    ensures Atob(base64).Some? ==>
      Latin1(Base64ToArrayBuffer(base64).value) == Atob(base64).value
  {
  }

  /** `base64ToArrayBuffer(arrayBufferToBase64(b)) == b` for every byte string. */
  lemma BufferRoundTrip(buffer: seq<uint8>)
    ensures Base64ToArrayBuffer(ArrayBufferToBase64(buffer)) == Ok(buffer)
  {
    DecodeEncode(buffer);
  }

  // ---------------------------------------------------------------------------
  // Keys

  /**
   `generateKey`: an extractable 256-bit AES-GCM key for encrypt and decrypt;
   `None` from the generator is the platform's failure, which propagates.
   */
  function GenerateKey(material: Option<KeyMaterial>): (r: Result<CryptoKey, Exception>)
    ensures r.Ok? <==> material.Some?
    ensures r.Ok? ==> |r.value.raw| * 8 == KeyLengthBits && r.value.raw == material.value
    ensures r.Ok? ==> r.value.extractable && r.value.usages == {Encrypt, Decrypt}
  {
    match material
    case None => Err(OperationError)
    case Some(raw) => Ok(CryptoKey(raw, true, {Encrypt, Decrypt}))
  }

  /** `exportKey`: the raw key bytes as base64; a key that is not extractable is refused. */
  function ExportKey(key: CryptoKey): (r: Result<string, Exception>)
    ensures r.Ok? <==> key.extractable
    ensures r.Err? ==> r.error == InvalidAccessError
    ensures r.Ok? ==> Base64ToArrayBuffer(r.value) == Ok(key.raw)
  {
    if !key.extractable then Err(InvalidAccessError)
    else
      BufferRoundTrip(key.raw);
      Ok(ArrayBufferToBase64(key.raw))
  }

  /**
   `importKey`: decode the base64 (rejection propagates), then hand the bytes to
   the platform's raw AES import, which takes any 16-, 24- or 32-byte key. The
   code adds no length check of its own.
   */
  function ImportKey(base64Key: string): (r: Result<CryptoKey, Exception>)
    ensures r.Ok? <==> Base64ToArrayBuffer(base64Key).Ok? && IsAesKeyLength(|Base64ToArrayBuffer(base64Key).value|)
    ensures r.Ok? ==> r.value == CryptoKey(Base64ToArrayBuffer(base64Key).value, true, {Encrypt, Decrypt})
    ensures ForgivingDecode(base64Key).None? ==> r == Err(InvalidCharacterError)
    ensures r.Err? && ForgivingDecode(base64Key).Some? ==> r.error == DataError
  {
    var buffer :- Base64ToArrayBuffer(base64Key);
    if IsAesKeyLength(|buffer|) then Ok(CryptoKey(buffer, true, {Encrypt, Decrypt}))
    else Err(DataError)
  }

  // ---------------------------------------------------------------------------
  // Encryption and decryption

  /**
   `encryptData`: UTF-8 encode, seal under the key with the IV, and return both
   ciphertext and IV as base64. A key without the encrypt usage is refused, and
   a plaintext the platform cannot seal is an `OperationError`.
   */
  function EncryptData(platform: Platform, data: string, key: CryptoKey, iv: IvBytes): (r: Result<EncryptedResult, Exception>)
    ensures r.Ok? <==> Encrypt in key.usages && platform.seal(key.raw, iv, platform.encodeUtf8(data)).Some?
    ensures Encrypt !in key.usages ==> r == Err(InvalidAccessError)
    ensures Encrypt in key.usages && r.Err? ==> r.error == OperationError
    ensures r.Ok? ==> Base64ToArrayBuffer(r.value.iv) == Ok(iv)
    ensures r.Ok? ==> Base64ToArrayBuffer(r.value.encryptedData) == Ok(platform.seal(key.raw, iv, platform.encodeUtf8(data)).value)
  {
    if Encrypt !in key.usages then Err(InvalidAccessError)
    else
      var encodedData := platform.encodeUtf8(data);
      match platform.seal(key.raw, iv, encodedData)
      case None => Err(OperationError)
      case Some(encryptedData) =>
        BufferRoundTrip(encryptedData);
        BufferRoundTrip(iv);
        Ok(EncryptedResult(ArrayBufferToBase64(encryptedData), ArrayBufferToBase64(iv)))
  }

  /**
   `decryptData`: decode both base64 strings (neither length is checked), open
   under the key, and UTF-8 decode. A failed tag check is an `OperationError`
   and yields no plaintext.
   */
  function DecryptData(platform: Platform, encryptedDataB64: string, ivB64: string, key: CryptoKey): (r: Result<string, Exception>)
    ensures r.Ok? <==>
      && Base64ToArrayBuffer(encryptedDataB64).Ok?
      && Base64ToArrayBuffer(ivB64).Ok?
      && Decrypt in key.usages
      && platform.open(key.raw, Base64ToArrayBuffer(ivB64).value, Base64ToArrayBuffer(encryptedDataB64).value).Some?
    ensures r.Ok? ==>
      r.value == platform.decodeUtf8(
        platform.open(key.raw, Base64ToArrayBuffer(ivB64).value, Base64ToArrayBuffer(encryptedDataB64).value).value)
  {
    var encryptedData :- Base64ToArrayBuffer(encryptedDataB64);
    var iv :- Base64ToArrayBuffer(ivB64);
    if Decrypt !in key.usages then Err(InvalidAccessError)
    else
      match platform.open(key.raw, iv, encryptedData)
      case None => Err(OperationError)
      case Some(decrypted) => Ok(platform.decodeUtf8(decrypted))
  }

  // ---------------------------------------------------------------------------
  // Properties

  /** The IV string of every encryption is 16 alphabet characters, without padding. */
  lemma IvStringShape(platform: Platform, data: string, key: CryptoKey, iv: IvBytes)
    ensures EncryptData(platform, data, key, iv).Ok? ==>
      var s := EncryptData(platform, data, key, iv).value.iv;
      |s| == 16 && forall i :: 0 <= i < |s| ==> IsAlphabetChar(s[i])
  {
    EncodeTwelveBytes(iv);
  }

  /** A generated key exports to 44 characters: 43 alphabet characters and exactly one `=`. */
  lemma ExportedKeyShape(material: KeyMaterial)
    ensures GenerateKey(Some(material)).Ok?
    ensures var s := ExportKey(GenerateKey(Some(material)).value);
      && s.Ok? && |s.value| == 44 && s.value[43] == Pad
      && forall i :: 0 <= i < 43 ==> IsAlphabetChar(s.value[i])
  {
    EncodeThirtyTwoBytes(material);
  }

  /** Importing an exported key gives a key with the same raw bytes, extractable, for encrypt and decrypt. */
  lemma KeyRoundTrip(key: CryptoKey)
    requires key.extractable && IsAesKeyLength(|key.raw|)
    ensures ExportKey(key).Ok?
    ensures ImportKey(ExportKey(key).value) == Ok(CryptoKey(key.raw, true, {Encrypt, Decrypt}))
  {
  }

  /** For a generated key the import is the very same key. */
  lemma GeneratedKeyRoundTrip(material: KeyMaterial)
    ensures var key := GenerateKey(Some(material)).value;
      ExportKey(key).Ok? && ImportKey(ExportKey(key).value) == Ok(key)
  {
    KeyRoundTrip(GenerateKey(Some(material)).value);
  }

  /**
   Decrypting what `encryptData` returned, with the same key, gives back the
   original string, less a leading byte order mark; and `encryptData` succeeds
   on every string whose UTF-8 encoding is within AES-GCM's limit.
   */
  lemma EncryptDecryptRoundTrip(platform: Platform, data: string, key: CryptoKey, iv: IvBytes)
    requires platform.Valid()
    requires key.usages == {Encrypt, Decrypt}
    ensures |platform.encodeUtf8(data)| <= MaxPlaintextBytes ==> EncryptData(platform, data, key, iv).Ok?
    ensures EncryptData(platform, data, key, iv).Ok? ==>
      var e := EncryptData(platform, data, key, iv).value;
      DecryptData(platform, e.encryptedData, e.iv, key) == Ok(WithoutLeadingBom(data))
  {
    var sealed := platform.seal(key.raw, iv, platform.encodeUtf8(data));
    if sealed.Some? {
      var e := EncryptData(platform, data, key, iv).value;
      assert Base64ToArrayBuffer(e.encryptedData) == Ok(sealed.value);
      assert Base64ToArrayBuffer(e.iv) == Ok(iv);
      assert platform.open(key.raw, iv, sealed.value) == Some(platform.encodeUtf8(data));
    }
  }

  /** A string that starts with a byte order mark comes back without it: "\uFEFFhi" decrypts to "hi". */
  lemma LeadingBomDropped(platform: Platform, key: CryptoKey, iv: IvBytes)
    requires platform.Valid()
    requires key.usages == {Encrypt, Decrypt}
    requires |platform.encodeUtf8([Bom] + "hi")| <= MaxPlaintextBytes
    ensures var e := EncryptData(platform, [Bom] + "hi", key, iv);
      e.Ok? && DecryptData(platform, e.value.encryptedData, e.value.iv, key) == Ok("hi")
  {
    EncryptDecryptRoundTrip(platform, [Bom] + "hi", key, iv);
    assert ([Bom] + "hi")[1..] == "hi";
  }

  /**
   Whatever key is used, a successful decryption returns the decoding of a
   plaintext whose seal under that key and the stored IV is exactly the stored
   ciphertext: no unauthenticated plaintext is ever returned.
   */
  lemma DecryptIsAuthenticated(platform: Platform, encryptedDataB64: string, ivB64: string, key: CryptoKey)
    requires platform.Valid()
    requires DecryptData(platform, encryptedDataB64, ivB64, key).Ok?
    ensures var ct := Base64ToArrayBuffer(encryptedDataB64).value;
      var iv := Base64ToArrayBuffer(ivB64).value;
      exists p :: platform.seal(key.raw, iv, p) == Some(ct)
        && DecryptData(platform, encryptedDataB64, ivB64, key) == Ok(platform.decodeUtf8(p))
  {
    var ct := Base64ToArrayBuffer(encryptedDataB64).value;
    var iv := Base64ToArrayBuffer(ivB64).value;
    var p := platform.open(key.raw, iv, ct).value;
    assert platform.seal(key.raw, iv, p) == Some(ct);
  }

  /** Every way `decryptData` can fail, and the error it throws. */
  lemma DecryptFailures(platform: Platform, encryptedDataB64: string, ivB64: string, key: CryptoKey)
    ensures ForgivingDecode(encryptedDataB64).None? ==> DecryptData(platform, encryptedDataB64, ivB64, key) == Err(InvalidCharacterError)
    ensures ForgivingDecode(ivB64).None? ==> DecryptData(platform, encryptedDataB64, ivB64, key) == Err(InvalidCharacterError)
    ensures
      && ForgivingDecode(encryptedDataB64).Some? && ForgivingDecode(ivB64).Some? && Decrypt in key.usages
      && platform.open(key.raw, ForgivingDecode(ivB64).value, ForgivingDecode(encryptedDataB64).value).None?
      ==> DecryptData(platform, encryptedDataB64, ivB64, key) == Err(OperationError)
    ensures
      && ForgivingDecode(encryptedDataB64).Some? && ForgivingDecode(ivB64).Some? && Decrypt !in key.usages
      ==> DecryptData(platform, encryptedDataB64, ivB64, key) == Err(InvalidAccessError)
  {
  }

  /** The import does not insist on 256 bits: a 128-bit key in base64 is accepted. */
  lemma ImportAcceptsShortKey(raw: seq<uint8>)
    requires |raw| == 16
    ensures ImportKey(ArrayBufferToBase64(raw)) == Ok(CryptoKey(raw, true, {Encrypt, Decrypt}))
  {
    BufferRoundTrip(raw);
  }

  /** Nor does it insist on padding: the 43 characters of a key export without its `=` import the same key. */
  lemma ImportAcceptsUnpaddedKey(material: KeyMaterial)
    ensures ImportKey(EncodeUnpadded(material)) == Ok(CryptoKey(material, true, {Encrypt, Decrypt}))
  {
    DecodeUnpaddedInput(material);
  }
}
