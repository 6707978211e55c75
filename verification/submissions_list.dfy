/**
 The list of stored submissions, newest first, and the decrypt flow of one
 submission card.
 */
module SubmissionsList {
  import opened Wrappers
  import opened Types
  import opened CryptoService

  const EmptyKeyError: string := "Please enter a decryption key."
  const DecryptFailedError: string := "Decryption failed. The key is likely incorrect."

  /** The local state of one card. `content` is `None` for `null`. */
  datatype CardState = CardState(
    isDecrypting: bool,
    decryptionKey: string,
    content: Option<Payload>,
    error: Option<string>)

  /**
   The `try` body of `handleDecrypt`: import the typed key, decrypt the card's
   own ciphertext with the card's own IV, and parse the text.
   */
  function AttemptDecrypt(platform: Platform, json: JsonCodec, submission: Submission, keyText: string)
    : (r: Result<Payload, Exception>)
    ensures r.Ok? <==>
      && ImportKey(keyText).Ok?
      && DecryptData(platform, submission.encryptedData, submission.iv, ImportKey(keyText).value).Ok?
      && json.parse(DecryptData(platform, submission.encryptedData, submission.iv, ImportKey(keyText).value).value).Some?
    ensures r.Ok? ==>
      r.value == json.parse(DecryptData(platform, submission.encryptedData, submission.iv, ImportKey(keyText).value).value).value
  {
    var key :- ImportKey(keyText);
    var decrypted :- DecryptData(platform, submission.encryptedData, submission.iv, key);
    match json.parse(decrypted)
    case None => Err(SyntaxError)
    case Some(parsedContent) => Ok(parsedContent)
  }

  /**
   One click of Decrypt: the state while the platform works (`pending`), the
   state after it (`final`), and whether any import or decrypt was started.
   */
  datatype DecryptTrace = DecryptTrace(pending: CardState, final: CardState, cryptoInvoked: bool)

  /** `handleDecrypt` as one transition. */
  function HandleDecrypt(card: CardState, platform: Platform, json: JsonCodec, submission: Submission)
    : (t: DecryptTrace)
    ensures card.decryptionKey == "" ==>
      && !t.cryptoInvoked
      && t.final == t.pending == card.(error := Some(EmptyKeyError))
    ensures card.decryptionKey != "" ==>
      && t.cryptoInvoked
      && t.pending == card.(isDecrypting := true, error := None, content := None)
      && !t.final.isDecrypting
      && t.final.decryptionKey == card.decryptionKey
      && (t.final.content.Some? <==> t.final.error.None?)
      && (t.final.error.Some? ==> t.final.error == Some(DecryptFailedError))
  {
    if card.decryptionKey == "" then
      var errored := card.(error := Some(EmptyKeyError));
      DecryptTrace(errored, errored, false)
    else
      var pending := card.(isDecrypting := true, error := None, content := None);
      var final :=
        match AttemptDecrypt(platform, json, submission, card.decryptionKey)
        case Ok(parsedContent) => pending.(content := Some(parsedContent))
        case Err(_) => pending.(error := Some(DecryptFailedError));
      DecryptTrace(pending, final.(isDecrypting := false), true)
  }

  /**
   What the card shows after a non-empty attempt is decided by the import, the
   decryption of the card's own fields and the parse: content exactly when all
   three succeed, and then the parsed value; otherwise the one failure message,
   whatever failed.
   */
  lemma DecryptOutcome(card: CardState, platform: Platform, json: JsonCodec, submission: Submission)
    requires card.decryptionKey != ""
    ensures var f := HandleDecrypt(card, platform, json, submission).final;
      var key := ImportKey(card.decryptionKey);
      && (key.Err? ==> f.content.None? && f.error == Some(DecryptFailedError))
      && (key.Ok? && DecryptData(platform, submission.encryptedData, submission.iv, key.value).Err? ==>
            f.content.None? && f.error == Some(DecryptFailedError))
      && (key.Ok? && DecryptData(platform, submission.encryptedData, submission.iv, key.value).Ok? ==>
            f.content == json.parse(DecryptData(platform, submission.encryptedData, submission.iv, key.value).value))
  {
  }

  /** `[...submissions].reverse()`: a reversed copy. */
  function Reverse<T>(s: seq<T>): (r: seq<T>)
    ensures |r| == |s|
    ensures forall i :: 0 <= i < |s| ==> r[i] == s[|s| - 1 - i]
  {
    if |s| == 0 then [] else Reverse(s[1..]) + [s[0]]
  }

  lemma ReverseKeepsElements<T>(s: seq<T>)
    ensures multiset(Reverse(s)) == multiset(s)
  {
    if |s| > 0 {
      ReverseKeepsElements(s[1..]);
      assert s == [s[0]] + s[1..];
    }
  }

  /** What the list renders: the placeholder, or one card per submission in the given order. */
  datatype ListView = Placeholder | Cards(cards: seq<Submission>)

  /** `SubmissionsList`: placeholder for an empty list, otherwise the cards newest first. */
  function RenderList(submissions: seq<Submission>): (v: ListView)
    ensures v.Placeholder? <==> |submissions| == 0
    ensures v.Cards? ==> |v.cards| == |submissions|
    ensures v.Cards? ==> forall i :: 0 <= i < |submissions| ==> v.cards[i] == submissions[|submissions| - 1 - i]
  {
    if |submissions| == 0 then Placeholder else Cards(Reverse(submissions))
  }

  /** Appending a record puts it first on screen and shifts the earlier cards down by one. */
  lemma {:induction false} AppendShowsFirst(submissions: seq<Submission>, newest: Submission)
    ensures RenderList(submissions + [newest]).Cards?
    ensures RenderList(submissions + [newest]).cards[0] == newest
    ensures RenderList(submissions + [newest]).cards[1..] == Reverse(submissions)
  {
    var all := submissions + [newest];
    var cards := RenderList(all).cards;
    assert |cards[1..]| == |Reverse(submissions)|;
    forall i | 0 <= i < |submissions|
      ensures cards[1..][i] == Reverse(submissions)[i]
    {
      assert cards[i + 1] == all[|all| - 1 - (i + 1)];
    }
  }
}
