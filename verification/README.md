# Encrypted form app: the per-submission encryption lifecycle in Dafny

This project models the encrypted-form web app. A sender fills in a name, a
message, a drawn signature and the app password. The app generates a fresh
256-bit AES-GCM key and serialises the payload as JSON. It encrypts the JSON
under a random 12-byte IV and stores only `{id, encryptedData, iv}`, with both
binary fields in base64. It shows the base64 of the raw key once, in a modal.
A recipient pastes that key into a submission card. The card imports the key,
decrypts the card's own ciphertext with the card's own IV, and parses the JSON
for display.

Modules, one per source file, plus `Wrappers` for the error types, `Base64`
for the browser's `btoa`/`atob`, and `Lifecycle` for the components wired
together:

- `Wrappers` holds `Option` and `Result`. A thrown exception becomes an `Err`.
- `Base64` models `btoa` and `atob`. Encoding follows RFC 4648 section 4, with
  `=` padding as in section 3.2. Decoding is the "forgiving-base64 decode" of
  the WHATWG Infra standard, which is what `atob` runs. It ignores ASCII
  whitespace and accepts missing padding. It rejects a string when one
  character is left over or a character outside the alphabet remains.
- `Types` holds the `Submission`, `EncryptedResult` and `Payload` records, the
  exceptions, `localStorage` as a map, and JavaScript's `.length` (UTF-16 code
  units).
- `CryptoService` models `arrayBufferToBase64`, `base64ToArrayBuffer`,
  `generateKey`, `exportKey`, `importKey`, `encryptData` and `decryptData`.
- `App` is the shell state machine:
  `(submissions, generatedKey, isKeyModalOpen, passwordIsSet)`.
- `SubmissionsList` covers the decrypt flow of one card and the newest-first
  list.
- `SubmissionForm` covers submit validation and the reset after submit.
- `PasswordSetup` covers the length check and the store step.
- `Lifecycle` wires the components together as the shell does.

The foreign primitives are fields of a `Platform` value: AES-GCM seal and open,
and UTF-8 encode and decode. `Platform.Valid()` states everything the proofs
assume:

- every plaintext up to 2^39 - 256 bits (the AES-GCM limit of section 5.2.1.1
  of NIST SP 800-38D) can be sealed, and a longer one may be refused;
- opening a sealed message with the same key and IV gives back the plaintext;
- `open` succeeds only on a ciphertext that is the seal of what it returns;
- UTF-8 decoding inverts encoding, except that `new TextDecoder()` (its
  `ignoreBOM` defaults to false) drops a leading U+FEFF, which `TextEncoder`
  had written out.

JSON is a `JsonCodec` value whose `Valid()` is the parse-after-stringify round
trip. Randomness, the clock and `crypto.randomUUID()` are inputs to the
handlers. These are the key generator's bytes (`None` when it fails), the IV
bytes, the timestamp and the id.

Behaviours of the code that the model makes explicit:

- `importKey` checks no key length. The platform's raw AES import accepts 16,
  24 or 32 bytes, so a 128-bit key is accepted
  (`CryptoService.ImportAcceptsShortKey`).
- Nothing checks the IV's length. `atob` accepts unpadded input
  (`CryptoService.ImportAcceptsUnpaddedKey`) and ignores ASCII whitespace.
- The card shows one message for every failure: bad base64, rejected key, tag
  failure and JSON parse failure alike.

- A stored empty string counts as "no password" for the gate (`!!`).
- An empty-string signature counts as missing (`!signature`).
- An empty decryption key only sets the error. Content decrypted earlier stays
  on screen.
- The shell's `handleFormSubmit` catches every error, so the form's `onSubmit`
  always resolves. The form therefore clears its fields even when encryption
  failed (`Lifecycle.FormClearsEvenWhenEncryptionFails`).
- Password length counts UTF-16 code units. Two characters outside the basic
  plane pass the 4-character minimum.

## Model

| member | source | states |
|---|---|---|
| Base64.Encode | services/cryptoService.ts:15 | `btoa`'s base64 of n bytes has 4*ceil(n/3) characters. All are alphabet characters except a tail of 0-2 `=` that fills the last quantum. |
| Base64.Btoa | services/cryptoService.ts:15 | `btoa` fails exactly when a character is above 255. Otherwise its output length is 4*ceil(n/3). |
| Base64.ForgivingDecode | services/cryptoService.ts:20 | `atob` succeeds exactly when the input, with whitespace and final padding removed, leaves no lone character and only alphabet characters. The output length is then fixed by that character count. |
| Base64.Atob | services/cryptoService.ts:20 | `atob` fails exactly when the forgiving decode fails. Otherwise it returns the binary string whose character i has the code of decoded byte i. |
| Base64.ValueOfCharOf | services/cryptoService.ts:15-20 | The alphabet of section 4 of RFC 4648 is one-to-one: `atob` maps each character `btoa` writes back to its 6-bit value. |
| Base64.ValuesChars | services/cryptoService.ts:15-20 | Reading back the characters written for a sequence of 6-bit groups gives those groups. |
| Base64.SextetsLength | services/cryptoService.ts:15 | Splitting n bytes gives 4 groups per full 3-byte quantum, plus 2 or 3 groups for a final 1 or 2 bytes. |
| Base64.BytesSextets | services/cryptoService.ts:15-20 | Regrouping the 6-bit groups of any byte string into bytes gives back exactly that byte string. |
| Base64.SextetsPadBitsZero | services/cryptoService.ts:15 | The bits added to fill a final short group are zero: the low four bits after one leftover byte, the low two after two. These are the bits the decoder discards. |
| Base64.StripPaddingOfEncode | services/cryptoService.ts:15-20 | The decoder's padding removal takes off exactly the `=` the encoder added. |
| Base64.DecodeEncode | services/cryptoService.ts:8-27 | Decoding the base64 encoding of any byte string gives back exactly those bytes. |
| Base64.AtobBtoa | services/cryptoService.ts:15-20 | `atob(btoa(s)) == s` for every binary string. |
| Base64.DecodeUnpaddedInput | services/cryptoService.ts:20 | `atob` accepts an encoding with its padding removed and decodes it to the same bytes. |
| Base64.RejectsForeignCharacter | services/cryptoService.ts:20 | A character that is not in the alphabet, not whitespace and not `=` makes `atob` throw. |
| Base64.RejectsNotBase64 | services/cryptoService.ts:20 | `atob("not-base64!!")` throws. |
| Base64.EncodeTwelveBytes | services/cryptoService.ts:59-72 | A 12-byte IV encodes to 16 alphabet characters with no padding. |
| Base64.EncodeThirtyTwoBytes | services/cryptoService.ts:40-42 | A 32-byte key encodes to 44 characters: 43 alphabet characters and one final `=`. |
| CryptoService.BinaryString | services/cryptoService.ts:9-14 | The loop builds exactly the Latin-1 string of the buffer (character i has code byte i), so `btoa` never rejects it. |
| CryptoService.ArrayBufferToBase64 | services/cryptoService.ts:8-16 | Going through the binary string and `btoa` yields exactly the RFC 4648 base64 of the bytes, of length 4*ceil(n/3). |
| CryptoService.ToUint8Array | services/cryptoService.ts:22-25 | The `Uint8Array` has one element per character, each the character code modulo 256. |
| CryptoService.FillBytes | services/cryptoService.ts:20-26 | The fill loop computes exactly the modulo-256 store of every character. On a binary string its result's Latin-1 string is that string, so no value is truncated. |
| CryptoService.Base64ToArrayBuffer | services/cryptoService.ts:19-27 | It throws `InvalidCharacterError` exactly when `atob` rejects. Otherwise it returns the bytes the forgiving decode yields. |
| CryptoService.NoTruncation | services/cryptoService.ts:20-26 | The buffer is produced exactly when `atob` succeeds, and the modulo-256 store never changes a byte that `atob` produced. |
| CryptoService.BufferRoundTrip | services/cryptoService.ts:8-27 | `base64ToArrayBuffer(arrayBufferToBase64(b)) == b` for every byte string b. |
| CryptoService.GenerateKey | services/cryptoService.ts:29-38 | On success the key is 256 bits of generator output, extractable, for encrypt and decrypt. A generator failure propagates. |
| CryptoService.ExportKey | services/cryptoService.ts:40-43 | It succeeds exactly for extractable keys, and the string decodes back to the raw key bytes. |
| CryptoService.ImportKey | services/cryptoService.ts:45-56 | It succeeds exactly when the string decodes to 16, 24 or 32 bytes. The key is then those bytes, extractable, for encrypt and decrypt. Bad base64 throws `InvalidCharacterError`; a bad length throws `DataError`. |
| CryptoService.EncryptData | services/cryptoService.ts:58-74 | It succeeds exactly when the key can encrypt and the platform seals the UTF-8 plaintext. A key without the encrypt usage gives `InvalidAccessError`, and a refused seal gives `OperationError`. The `iv` field decodes to the IV used, and `encryptedData` decodes to the seal. |
| CryptoService.DecryptData | services/cryptoService.ts:76-90 | It succeeds exactly when both fields are valid base64, the key can decrypt, and the platform's open accepts the decoded ciphertext under the decoded IV. The result is then the UTF-8 decoding of the opened plaintext. |
| CryptoService.IvStringShape | services/cryptoService.ts:58-73 | The returned `iv` is always 16 alphabet characters with no padding. |
| CryptoService.ExportedKeyShape | services/cryptoService.ts:29-43 | A generated key exports to 44 characters ending in exactly one `=`. |
| CryptoService.KeyRoundTrip | services/cryptoService.ts:40-56 | Importing an exported AES-sized key gives the same raw bytes, extractable, for encrypt and decrypt. |
| CryptoService.GeneratedKeyRoundTrip | services/cryptoService.ts:29-56 | `importKey(exportKey(k))` is k itself for every generated key. |
| CryptoService.EncryptDecryptRoundTrip | services/cryptoService.ts:58-90 | Under the AEAD and UTF-8 assumptions, `encryptData` succeeds on every string within AES-GCM's length limit. Decrypting the two fields it returned, with the same key, gives back the original string, less a leading U+FEFF that `TextDecoder` drops. |
| CryptoService.LeadingBomDropped | services/cryptoService.ts:58-89 | A string that starts with U+FEFF comes back from encrypt-then-decrypt without it: "\uFEFFhi" gives "hi". |
| CryptoService.DecryptIsAuthenticated | services/cryptoService.ts:76-90 | Under any key, a successful decryption returns the decoding of a plaintext whose seal under that key and IV is exactly the stored ciphertext. |
| CryptoService.DecryptFailures | services/cryptoService.ts:76-90 | Either field not valid base64 gives `InvalidCharacterError`. A key without the decrypt usage gives `InvalidAccessError`. A failed tag check gives `OperationError`, with no plaintext. |
| CryptoService.ImportAcceptsShortKey | services/cryptoService.ts:45-56 | The base64 of a 16-byte key imports successfully, so no 256-bit length is enforced. |
| CryptoService.ImportAcceptsUnpaddedKey | services/cryptoService.ts:45-56 | A key export with its `=` removed imports the same key. |
| App.InitialState | App.tsx:12-20 | On load the modal is closed and no key is shown. The gate is open exactly when `app-password` holds a non-empty string. |
| App.CreateSubmission | App.tsx:25-43 | It fails, with `OperationError`, exactly when key generation fails or the platform refuses to seal the payload. On success the record is `{uuid, encryptedData, iv}` from encrypting the JSON of `{name, message, signature, submittedAt}` under the generated key, and the returned string is that key's export. |
| App.HandleFormSubmit | App.tsx:22-54 | It fails exactly when key generation or encryption fails, and then the state is unchanged. On success exactly one record is appended, with earlier records unchanged and in order, and the modal opens on the base64 export of the generated key bytes. The gate flag is never touched. |
| App.HandleCloseModal | App.tsx:56-59 | Closing sets the modal closed and the key to null. Submissions and gate stay as they were. |
| App.Render | App.tsx:61-91 | Only the password-setup view exists while `passwordIsSet` is false. Otherwise the main view shows the stored submissions and the modal state. |
| App.Step | App.tsx:56-63 | While the gate is closed, only the setup callback changes the state. An open gate stays open. |
| App.GateOpensOnlyOnSetup | App.tsx:61-63 | Over any sequence of events, an open gate stays open, and a closed gate ends open only if the setup callback was among the events. |
| App.SubmissionsOnlyGrow | App.tsx:45 | Over any sequence of events the stored list only grows, and every earlier list is a prefix of the later one. |
| App.ShownKeyOpensNewRecord | App.tsx:25-47 | Import the key shown in the modal and apply it to the new record's own `encryptedData` and `iv`. The result is the serialised payload, which parses back to the submitted fields. |
| App.SmallPayloadEncrypts | App.tsx:25-43 | With a working key generator, every payload whose UTF-8 form is within AES-GCM's limit is encrypted and stored. |
| App.NewRecordFields | App.tsx:34-46 | The new record's `encryptedData` and `iv` are exactly the fields `encryptData` returned. Its `iv` has 16 characters and the shown key has 44. |
| SubmissionsList.AttemptDecrypt | components/SubmissionsList.tsx:31-39 | It succeeds exactly when the key imports, the card's own ciphertext and IV decrypt under it, and the text parses. Its value is that parse. |
| SubmissionsList.HandleDecrypt | components/SubmissionsList.tsx:23-46 | An empty key sets "Please enter a decryption key." and starts no crypto. Otherwise error and content are first cleared with `isDecrypting` set. The attempt ends with `isDecrypting` false and either content or the single failure message. |
| SubmissionsList.DecryptOutcome | components/SubmissionsList.tsx:31-42 | A rejected key or a failed decryption gives null content and the failure message. A successful decryption gives the parse of the decrypted text. |
| SubmissionsList.Reverse | components/SubmissionsList.tsx:150-151 | The reversed copy has the same length, and position i holds element n-1-i. |
| SubmissionsList.ReverseKeepsElements | components/SubmissionsList.tsx:150-151 | The reversed copy holds the same submissions, as a multiset. |
| SubmissionsList.RenderList | components/SubmissionsList.tsx:140-161 | An empty list renders the placeholder and no cards. Otherwise one card per submission is shown, newest first. |
| SubmissionsList.AppendShowsFirst | components/SubmissionsList.tsx:145-157 | After an append the new record is the first card, and the earlier cards follow in their previous order. |
| SubmissionForm.Validate | components/SubmissionForm.tsx:20-29 | The form passes exactly when name, message, password and signature are all truthy and the password equals the stored `app-password`. |
| SubmissionForm.HandleSubmit | components/SubmissionForm.tsx:16-41 | A failed check sets its error and does not call `onSubmit`. Otherwise `onSubmit` gets exactly name, message and signature, and no password. If it resolves, all fields reset. `isSubmitting` ends false and the error is cleared in either case. |
| SubmissionForm.MissingFieldsFirst | components/SubmissionForm.tsx:20-29 | A missing field is reported before any password check. |
| SubmissionForm.WrongPasswordRefused | components/SubmissionForm.tsx:25-29 | With all fields filled, a password that differs from the stored one, or a missing stored password, is refused without calling `onSubmit`. |
| SubmissionForm.EmptySignatureIsMissing | components/SubmissionForm.tsx:20-23 | An empty-string signature is treated as missing. |
| PasswordSetup.HandleSetPassword | components/PasswordSetup.tsx:11-24 | Under 4 code units sets the length error, stores nothing and skips the callback. A storage failure sets the save error and skips the callback. Otherwise the password is stored verbatim under `app-password`, other keys are untouched, and only then is the callback called. |
| PasswordSetup.FourCharactersAccepted | components/PasswordSetup.tsx:13 | A password of exactly 4 characters is accepted. |
| PasswordSetup.ThreeCharactersRefused | components/PasswordSetup.tsx:13-16 | A password of 3 characters gets the length error. |
| PasswordSetup.TwoAstralCharactersAccepted | components/PasswordSetup.tsx:13 | Two characters outside the basic plane count as length 4 and are accepted. |
| PasswordSetup.AcceptedPasswordNonEmpty | components/PasswordSetup.tsx:13-19 | An accepted password is never empty. |
| Lifecycle.SubmitFromForm | components/SubmissionForm.tsx:31-40 | The shell changes only when validation passed, and then exactly as `handleFormSubmit` does. The shell's handler catches every failure, so the form's callback is taken as never rejecting. |
| Lifecycle.FormClearsEvenWhenEncryptionFails | App.tsx:48-51 | When key generation or encryption fails, nothing is stored, yet the form still resets every field. |
| Lifecycle.SetupOpensGateAndForm | App.tsx:18-20 | After the setup screen stores a password, a reload opens the gate and the form accepts that same password. |
| Lifecycle.SubmitThenDecrypt | App.tsx:22-47 | After a valid submit the new record is the first card. Entering the key shown in the modal into that card displays exactly the submitted name, message, signature and timestamp. |

## Left out

- AES-GCM itself, the platform key generator and `crypto.getRandomValues`. These are foreign primitives. Seal and open are abstract functions; key bytes and IV bytes are inputs.
- Probabilistic properties: IV uniqueness, tamper detection with high probability, and failure under a different key. `CryptoService.DecryptIsAuthenticated` is the part these properties leave that can be proved: any plaintext returned is authenticated under the key used.
- AES-GCM's limits on `open`: a 16-byte minimum ciphertext and an IV length an implementation refuses. `open` is abstract and may return `None` for any input. `seal` may refuse any plaintext longer than the NIST SP 800-38D limit; the exact length at which a browser refuses is not modelled.
- `TextEncoder`/`TextDecoder`, `JSON.stringify`/`JSON.parse`: only their round trips, the decoder's dropping of a leading U+FEFF and the leading `{` of serialised JSON are assumed. `JSON.parse` is modelled as returning a payload or failing. Valid JSON that is not a payload object is not modelled.
- Strings are sequences of Unicode scalar values. A JavaScript string holding a lone surrogate has no counterpart; `TextEncoder` would replace it with U+FFFD, so such a string would not survive the round trip in a browser either.
- `useLocalStorage` and how the submissions list is persisted. The list is part of the shell state, and `localStorage` is a map passed in and out.
- `crypto.randomUUID()`, `new Date().toISOString()` and `toLocaleString()` are inputs, or not modelled. Uniqueness of ids is not modelled.
- Rendering, CSS, `alert`, `console`, the signature canvas, the key modal's clipboard and timer, and the header. The signature is an opaque string.
- Async scheduling: each handler is one atomic transition. The disabled buttons that prevent a second click while a call is pending are not modelled.
- App.Step: a form or modal event while the gate is closed is modelled as no change, because those components are not mounted then.
- CryptoService.GenerateKey: a failure of the platform's generator is modelled as an `OperationError`. The exact exception the browser throws is not modelled.
