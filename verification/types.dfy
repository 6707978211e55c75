/**
 Records shared by the components: the stored submission, the result of an
 encryption, the plaintext payload, the errors the platform throws, and the
 browser's `localStorage` and string length as plain values.
 */
module Types {
  import opened Wrappers

  /** A stored submission: an identifier and two base64 strings. Nothing else is stored. */
  datatype Submission = Submission(id: string, encryptedData: string, iv: string)

  /** What `encryptData` returns: the base64 of the ciphertext and the base64 of the IV. */
  datatype EncryptedResult = EncryptedResult(encryptedData: string, iv: string)

  /**
   The object serialised before encryption and parsed after decryption.
   `signature` is `None` for JavaScript's `null`.
   */
  datatype Payload = Payload(name: string, message: string, signature: Option<string>, submittedAt: string)

  /** The exceptions the modelled code can meet. */
  datatype Exception =
    | InvalidCharacterError  // `atob`/`btoa` rejected the string
    | DataError              // raw key bytes of a length AES does not have
    | InvalidAccessError     // key not extractable, or lacking the needed usage
    | OperationError         // key generation failed, or the AES-GCM tag did not verify
    | SyntaxError            // `JSON.parse` rejected the text

  /** `JSON.stringify` / `JSON.parse` restricted to payloads; their internals are not modelled. */
  datatype JsonCodec = JsonCodec(stringify: Payload -> string, parse: string -> Option<Payload>) {
    /**
     Parsing what was serialised gives back the same payload, and the text of
     a serialised object starts with `{`.
     */
    ghost predicate Valid() {
      && (forall p :: parse(stringify(p)) == Some(p))
      && (forall p :: |stringify(p)| > 0 && stringify(p)[0] == '{')
    }
  }

  /** The browser's `localStorage`, as a value passed in and out. */
  type Storage = map<string, string>

  /** The key under which the password is stored. */
  const PasswordKey: string := "app-password"

  /** `localStorage.getItem(k)`: the stored string, or `None` for `null`. */
  function GetItem(storage: Storage, k: string): (r: Option<string>)
    ensures r.Some? <==> k in storage
    ensures r.Some? ==> r.value == storage[k]
  {
    if k in storage then Some(storage[k]) else None
  }

  /** JavaScript's `.length`: UTF-16 code units, two for a character outside the basic plane. */
  function JsLength(s: string): (n: nat)
    ensures |s| <= n <= 2 * |s|
  {
    if |s| == 0 then 0
    else (if s[0] as int >= 0x10000 then 2 else 1) + JsLength(s[1..])
  }
}
