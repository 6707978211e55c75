/**
 The browser's `btoa` and `atob`: base64 as defined in section 4 of RFC 4648,
 with `=` padding (section 3.2) on the way out, and the forgiving decoder of the
 WHATWG Infra standard ("forgiving-base64 decode") on the way in. Strings are
 "binary strings": one character per byte, every character below 256.
 */
module Base64 {
  import opened Wrappers

  /** One element of a `Uint8Array`. */
  type uint8 = x: int | 0 <= x < 256

  /** A 6-bit group: the value one base64 character carries. */
  type sextet = x: int | 0 <= x < 64

  /** The padding character of RFC 4648 section 3.2. */
  const Pad: char := '='

  /** The 64 characters of the base64 alphabet (RFC 4648 section 4, table 1). */
  predicate IsAlphabetChar(c: char) {
    ('A' <= c <= 'Z') || ('a' <= c <= 'z') || ('0' <= c <= '9') || c == '+' || c == '/'
  }

  /** ASCII whitespace as the Infra standard defines it: tab, line feed, form feed, carriage return, space. */
  predicate IsAsciiWhitespace(c: char) {
    c == '\t' || c == '\n' || c as int == 0x0C || c == '\r' || c == ' '
  }

  /** The alphabet character that encodes the 6-bit value `v`. */
  function CharOf(v: sextet): (c: char)
    ensures IsAlphabetChar(c)
  {
    if v < 26 then ('A' as int + v) as char
    else if v < 52 then ('a' as int + (v - 26)) as char
    else if v < 62 then ('0' as int + (v - 52)) as char
    else if v == 62 then '+'
    else '/'
  }

  /** The 6-bit value an alphabet character encodes; the inverse of `CharOf`. */
  function ValueOf(c: char): (v: sextet)
    requires IsAlphabetChar(c)
    ensures CharOf(v) == c
  {
    if 'A' <= c <= 'Z' then c as int - 'A' as int
    else if 'a' <= c <= 'z' then c as int - 'a' as int + 26
    else if '0' <= c <= '9' then c as int - '0' as int + 52
    else if c == '+' then 62
    else 63
  }

  lemma ValueOfCharOf(v: sextet)
    ensures ValueOf(CharOf(v)) == v
  {
  }

  // ---------------------------------------------------------------------------
  // Bytes and 6-bit groups

  /**
   The 6-bit groups of `data`, most significant bits first: three bytes give
   four groups, and a final one or two bytes give two or three groups whose
   last one is filled with zero bits.
   */
  function Sextets(data: seq<uint8>): (vs: seq<sextet>) {
    if |data| == 0 then []
    else if |data| == 1 then [data[0] / 4, (data[0] % 4) * 16]
    else if |data| == 2 then [data[0] / 4, (data[0] % 4) * 16 + data[1] / 16, (data[1] % 16) * 4]
    else
      [data[0] / 4, (data[0] % 4) * 16 + data[1] / 16, (data[1] % 16) * 4 + data[2] / 64, data[2] % 64]
      + Sextets(data[3..])
  }

  /**
   The bytes of one group of two, three or four 6-bit values: the leading 8, 16
   or 24 of their bits. The low bits left over in a short group are discarded.
   */
  function GroupBytes(g: seq<sextet>): (r: seq<uint8>)
    requires 2 <= |g| <= 4
    ensures |r| == |g| - 1
  {
    var v0: int, v1: int := g[0], g[1];
    if |g| == 2 then [v0 * 4 + v1 / 16]
    else
      var v2: int := g[2];
      if |g| == 3 then [v0 * 4 + v1 / 16, (v1 % 16) * 16 + v2 / 4]
      else [v0 * 4 + v1 / 16, (v1 % 16) * 16 + v2 / 4, (v2 % 4) * 64 + g[3]]
  }

  /** The bytes of a sequence of 6-bit values, four at a time, then the final short group. */
  function Bytes(vs: seq<sextet>): (data: seq<uint8>)
    requires |vs| % 4 != 1
  {
    if |vs| == 0 then []
    else if |vs| < 4 then GroupBytes(vs)
    else GroupBytes(vs[..4]) + Bytes(vs[4..])
  }

  // ---------------------------------------------------------------------------
  // 6-bit groups and characters

  /** One alphabet character per 6-bit value. */
  function Chars(vs: seq<sextet>): (s: string)
    ensures |s| == |vs|
    ensures forall i :: 0 <= i < |s| ==> IsAlphabetChar(s[i])
  {
    seq(|vs|, i requires 0 <= i < |vs| => CharOf(vs[i]))
  }

  /** The 6-bit value of each alphabet character. */
  function Values(d: string): (vs: seq<sextet>)
    requires forall i :: 0 <= i < |d| ==> IsAlphabetChar(d[i])
    ensures |vs| == |d|
    ensures Chars(vs) == d
  {
    seq(|d|, i requires 0 <= i < |d| => ValueOf(d[i]))
  }

  lemma ValuesChars(vs: seq<sextet>)
    ensures Values(Chars(vs)) == vs
  {
    forall i | 0 <= i < |vs|
      ensures Values(Chars(vs))[i] == vs[i]
    {
      ValueOfCharOf(vs[i]);
    }
  }

  // ---------------------------------------------------------------------------
  // Encoding

  /** The number of characters an unpadded encoding of `n` bytes has. */
  function UnpaddedLength(n: nat): (m: nat) {
    4 * (n / 3) + (if n % 3 == 0 then 0 else n % 3 + 1)
  }

  /** How many `=` complete the final quantum of an encoding of `n` bytes (RFC 4648 section 4). */
  function PaddingLength(n: nat): (p: nat) {
    (3 - n % 3) % 3
  }

  /** The encoding of `data` without its padding. */
  function EncodeUnpadded(data: seq<uint8>): (s: string)
    ensures forall i :: 0 <= i < |s| ==> IsAlphabetChar(s[i])
  {
    Chars(Sextets(data))
  }

  lemma {:induction false} SextetsLength(data: seq<uint8>)
    ensures |Sextets(data)| == UnpaddedLength(|data|)
  {
    if |data| >= 3 {
      SextetsLength(data[3..]);
      assert |data| / 3 == |data[3..]| / 3 + 1 && |data| % 3 == |data[3..]| % 3;
    }
  }

  /**
   The bits the encoder adds to fill a final short group are zero (section 3.5
   of RFC 4648): after one leftover byte the last group's low four bits, after
   two its low two bits. These are the bits the decoder discards.
   */
  lemma {:induction false} SextetsPadBitsZero(data: seq<uint8>)
    ensures |data| % 3 == 1 ==> |Sextets(data)| >= 2 && Sextets(data)[|Sextets(data)| - 1] % 16 == 0
    ensures |data| % 3 == 2 ==> |Sextets(data)| >= 3 && Sextets(data)[|Sextets(data)| - 1] % 4 == 0
  {
    if |data| > 3 {
      var rest := Sextets(data[3..]);
      SextetsPadBitsZero(data[3..]);
      assert |data| % 3 == |data[3..]| % 3;
      assert Sextets(data)[4..] == rest;
    }
  }

  /** Every full quantum adds four groups, the final short one two or three: never one more than a multiple of four. */
  lemma {:induction false} SextetsNotOneMod4(data: seq<uint8>)
    ensures |Sextets(data)| % 4 != 1
  {
    if |data| >= 3 {
      SextetsNotOneMod4(data[3..]);
    }
  }

  lemma EncodeUnpaddedLength(data: seq<uint8>)
    ensures |EncodeUnpadded(data)| == UnpaddedLength(|data|)
  {
    SextetsLength(data);
  }

  lemma EncodedLength(n: nat)
    ensures UnpaddedLength(n) + PaddingLength(n) == 4 * ((n + 2) / 3)
    ensures PaddingLength(n) <= 2
    ensures UnpaddedLength(n) % 4 != 1
    ensures (UnpaddedLength(n) + PaddingLength(n)) % 4 == 0
  {
    var q, r := n / 3, n % 3;
    assert n == 3 * q + r;
    if r == 0 {
      assert (n + 2) / 3 == q;
    } else if r == 1 {
      assert (n + 2) / 3 == q + 1;
    } else {
      assert (n + 2) / 3 == q + 1;
    }
    assert UnpaddedLength(n) + PaddingLength(n) == 4 * (n / 3) + (if r == 0 then 0 else 4);
  }

  /**
   The base64 encoding of `data`: `4*ceil(n/3)` characters, alphabet characters
   followed by zero, one or two `=` that fill the last quantum.
   */
  function Encode(data: seq<uint8>): (s: string)
    ensures |s| == 4 * ((|data| + 2) / 3)
    ensures |s| % 4 == 0 && PaddingLength(|data|) <= 2
    ensures forall i :: 0 <= i < |s| - PaddingLength(|data|) ==> IsAlphabetChar(s[i])
    ensures forall i :: |s| - PaddingLength(|data|) <= i < |s| ==> s[i] == Pad
  {
    var u, p := EncodeUnpadded(data), PaddingLength(|data|);
    EncodeUnpaddedLength(data);
    EncodedLength(|data|);
    assert |u| + p == 4 * ((|data| + 2) / 3) && (|u| + p) % 4 == 0;
    var s := Padded(u, p);
    assert |s| - p == |u|;
    s
  }

  /** Alphabet characters followed by `p` padding characters. */
  function Padded(u: string, p: nat): (s: string)
    requires forall i :: 0 <= i < |u| ==> IsAlphabetChar(u[i])
    ensures |s| == |u| + p
    ensures forall i :: 0 <= i < |u| ==> s[i] == u[i] && IsAlphabetChar(s[i])
    ensures forall i :: |u| <= i < |s| ==> s[i] == Pad
  {
    u + seq(p, _ => Pad)
  }

  // ---------------------------------------------------------------------------
  // Forgiving decoding

  /** `s` with every ASCII whitespace character removed, the rest kept in order. */
  function StripWhitespace(s: string): (r: string)
    ensures |r| <= |s|
    ensures forall i :: 0 <= i < |r| ==> !IsAsciiWhitespace(r[i])
    ensures forall c :: c in r <==> c in s && !IsAsciiWhitespace(c)
  {
    if |s| == 0 then []
    else (if IsAsciiWhitespace(s[0]) then [] else [s[0]]) + StripWhitespace(s[1..])
  }

  /** When the length is a multiple of four, drop one or two trailing `=`. */
  function StripPadding(s: string): (d: string) {
    if |s| % 4 == 0 && |s| >= 2 && s[|s| - 2] == Pad && s[|s| - 1] == Pad then s[..|s| - 2]
    else if |s| % 4 == 0 && |s| >= 1 && s[|s| - 1] == Pad then s[..|s| - 1]
    else s
  }

  /** The number of bytes the decoder produces from `m` alphabet characters. */
  function DecodedLength(m: nat): (n: nat) {
    3 * (m / 4) + (if m % 4 == 0 then 0 else m % 4 - 1)
  }

  /** Decodes alphabet characters four at a time, then the final short group. */
  function DecodeUnpadded(d: string): (data: seq<uint8>)
    requires |d| % 4 != 1
    requires forall i :: 0 <= i < |d| ==> IsAlphabetChar(d[i])
  {
    Bytes(Values(d))
  }

  lemma {:induction false} BytesLength(vs: seq<sextet>)
    requires |vs| % 4 != 1
    ensures |Bytes(vs)| == DecodedLength(|vs|)
  {
    if |vs| >= 4 {
      BytesLength(vs[4..]);
      assert |vs| / 4 == |vs[4..]| / 4 + 1 && |vs| % 4 == |vs[4..]| % 4;
    }
  }

  lemma DecodeUnpaddedLength(d: string)
    requires |d| % 4 != 1
    requires forall i :: 0 <= i < |d| ==> IsAlphabetChar(d[i])
    ensures |DecodeUnpadded(d)| == DecodedLength(|d|)
  {
    BytesLength(Values(d));
  }

  /**
   Forgiving-base64 decode: whitespace is ignored, padding is optional, and the
   input is rejected (`None`, an `InvalidCharacterError` from `atob`) when one
   character is left over or a character outside the alphabet remains.
   */
  function ForgivingDecode(s: string): (r: Option<seq<uint8>>)
    ensures r.Some? <==>
      var d := StripPadding(StripWhitespace(s));
      |d| % 4 != 1 && forall i :: 0 <= i < |d| ==> IsAlphabetChar(d[i])
    ensures r.Some? ==> |r.value| == DecodedLength(|StripPadding(StripWhitespace(s))|)
  {
    var d := StripPadding(StripWhitespace(s));
    if |d| % 4 == 1 then None
    else if exists i :: 0 <= i < |d| && !IsAlphabetChar(d[i]) then None
    else
      DecodeUnpaddedLength(d);
      Some(DecodeUnpadded(d))
  }

  // ---------------------------------------------------------------------------
  // Binary strings, btoa and atob

  /** True when every character of `s` is a Latin-1 code unit, i.e. `s` is a binary string. */
  predicate IsBinaryString(s: string) {
    forall i :: 0 <= i < |s| ==> s[i] as int < 256
  }

  /** The binary string with one character per byte: character `i` has code `data[i]`. */
  function Latin1(data: seq<uint8>): (s: string)
    ensures |s| == |data|
    ensures forall i :: 0 <= i < |s| ==> s[i] as int == data[i]
    ensures IsBinaryString(s)
  {
    seq(|data|, i requires 0 <= i < |data| => data[i] as char)
  }

  /** The byte values of a binary string. */
  function CodeUnits(s: string): (data: seq<uint8>)
    requires IsBinaryString(s)
    ensures Latin1(data) == s
  {
    seq(|s|, i requires 0 <= i < |s| => s[i] as int)
  }

  /** `btoa`: fails (`InvalidCharacterError`) on a character above 255, otherwise base64-encodes the code units. */
  function Btoa(s: string): (r: Option<string>)
    ensures r.Some? <==> IsBinaryString(s)
    ensures r.Some? ==> |r.value| == 4 * ((|s| + 2) / 3)
  {
    if IsBinaryString(s) then Some(Encode(CodeUnits(s))) else None
  }

  /** `atob`: forgiving-base64 decode, each decoded byte returned as one character. */
  function Atob(s: string): (r: Option<string>)
    ensures r.Some? <==> ForgivingDecode(s).Some?
    ensures r.Some? ==> IsBinaryString(r.value) && |r.value| == |ForgivingDecode(s).value|
    ensures r.Some? ==> r.value == Latin1(ForgivingDecode(s).value)
  {
    match ForgivingDecode(s)
    case None => None
    case Some(data) => Some(Latin1(data))
  }

  // ---------------------------------------------------------------------------
  // Round trip

  /** A leading group of four values decodes on its own. */
  lemma BytesCons(g: seq<sextet>, rest: seq<sextet>)
    requires |g| == 4 && |rest| % 4 != 1
    ensures Bytes(g + rest) == GroupBytes(g) + Bytes(rest)
  {
    var vs := g + rest;
    assert vs[..4] == g;
    assert vs[4..] == rest;
  }

  /** The 6-bit groups of one, two or three bytes decode back to those bytes. */
  lemma GroupRoundTrip(data: seq<uint8>)
    requires 1 <= |data| <= 3
    ensures |Sextets(data[..|data|])| == |data| + 1
    ensures GroupBytes(Sextets(data[..|data|])) == data
  {
    assert data[..|data|] == data;
    var a := data[0];
    if |data| >= 2 {
      var b := data[1];
      assert ((a % 4) * 16 + b / 16) / 16 == a % 4;
      assert ((a % 4) * 16 + b / 16) % 16 == b / 16;
      if |data| == 3 {
        var c := data[2];
        assert ((b % 16) * 4 + c / 64) / 4 == b % 16;
        assert ((b % 16) * 4 + c / 64) % 4 == c / 64;
      }
    } else {
      assert ((a % 4) * 16) / 16 == a % 4;
    }
  }

  /** Decoding the 6-bit groups of any byte string gives back exactly those bytes. */
  lemma {:induction false} BytesSextets(data: seq<uint8>)
    ensures |Sextets(data)| % 4 != 1
    ensures Bytes(Sextets(data)) == data
  {
    SextetsNotOneMod4(data);
    if 1 <= |data| <= 3 {
      GroupRoundTrip(data);
      assert data[..|data|] == data;
    } else if |data| > 3 {
      var head := data[..3];
      var g := Sextets(head);
      GroupRoundTrip(head);
      assert head[..|head|] == head;
      assert Sextets(data) == g + Sextets(data[3..]);
      BytesSextets(data[3..]);
      BytesCons(g, Sextets(data[3..]));
      assert data == head + data[3..];
    }
  }

  /** Decoding an unpadded encoding gives back exactly the bytes encoded. */
  lemma DecodeEncodeUnpadded(data: seq<uint8>)
    ensures |EncodeUnpadded(data)| % 4 != 1
    ensures DecodeUnpadded(EncodeUnpadded(data)) == data
  {
    BytesSextets(data);
    ValuesChars(Sextets(data));
  }

  lemma StripWhitespaceNone(s: string)
    requires forall i :: 0 <= i < |s| ==> !IsAsciiWhitespace(s[i])
    ensures StripWhitespace(s) == s
  {
    if |s| > 0 {
      StripWhitespaceNone(s[1..]);
      assert s == [s[0]] + s[1..];
    }
  }

  /** The padding of an encoding is exactly what the forgiving decoder removes. */
  lemma StripPaddingOfEncode(data: seq<uint8>)
    ensures StripPadding(Encode(data)) == EncodeUnpadded(data)
  {
    EncodeUnpaddedLength(data);
    EncodedLength(|data|);
    StripPaddingOfPadded(EncodeUnpadded(data), PaddingLength(|data|));
  }

  /** One or two `=` that complete a quantum are removed, and nothing else is. */
  lemma StripPaddingOfPadded(u: string, p: nat)
    requires forall i :: 0 <= i < |u| ==> IsAlphabetChar(u[i])
    requires p <= 2 && (|u| + p) % 4 == 0
    ensures StripPadding(Padded(u, p)) == u
  {
    var s := Padded(u, p);
    if p == 0 {
      assert s == u;
      StripPaddingNoPad(u);
    } else if p == 2 {
      assert s[|s| - 2] == Pad && s[|s| - 1] == Pad;
      assert s[..|s| - 2] == u;
    } else {
      assert s[|s| - 2] == u[|u| - 1];
      assert IsAlphabetChar(s[|s| - 2]);
      assert s[..|s| - 1] == u;
    }
  }

  /** `atob`'s decoder inverts `btoa`'s encoder on every byte string. */
  lemma {:induction false} DecodeEncode(data: seq<uint8>)
    ensures ForgivingDecode(Encode(data)) == Some(data)
  {
    var s := Encode(data);
    forall i | 0 <= i < |s|
      ensures !IsAsciiWhitespace(s[i])
    {
    }
    StripWhitespaceNone(s);
    StripPaddingOfEncode(data);
    DecodeEncodeUnpadded(data);
  }

  /** `atob(btoa(s)) == s` for every binary string. */
  lemma AtobBtoa(s: string)
    requires IsBinaryString(s)
    ensures Btoa(s).Some? && Atob(Btoa(s).value) == Some(s)
  {
    DecodeEncode(CodeUnits(s));
  }

  // ---------------------------------------------------------------------------
  // Sizes

  /** A 12-byte value encodes to 16 alphabet characters with no padding. */
  lemma EncodeTwelveBytes(data: seq<uint8>)
    requires |data| == 12
    ensures |Encode(data)| == 16
    ensures forall i :: 0 <= i < 16 ==> IsAlphabetChar(Encode(data)[i])
  {
  }

  /** A 32-byte value encodes to 44 characters, the last one a single `=`. */
  lemma EncodeThirtyTwoBytes(data: seq<uint8>)
    requires |data| == 32
    ensures |Encode(data)| == 44
    ensures forall i :: 0 <= i < 43 ==> IsAlphabetChar(Encode(data)[i])
    ensures Encode(data)[43] == Pad
  {
  }

  /** Padding is optional for `atob`: the unpadded encoding decodes to the same bytes. */
  lemma DecodeUnpaddedInput(data: seq<uint8>)
    ensures ForgivingDecode(EncodeUnpadded(data)) == Some(data)
  {
    var u := EncodeUnpadded(data);
    StripWhitespaceNone(u);
    StripPaddingNoPad(u);
    DecodeEncodeUnpadded(data);
  }

  /** Padding removal leaves a string of alphabet characters alone. */
  lemma StripPaddingNoPad(u: string)
    requires forall i :: 0 <= i < |u| ==> IsAlphabetChar(u[i])
    ensures StripPadding(u) == u
  {
    if |u| > 0 {
      assert IsAlphabetChar(u[|u| - 1]);
    }
  }

  /** A character that is neither in the alphabet, nor whitespace, nor `=` makes `atob` fail. */
  lemma RejectsForeignCharacter(s: string, c: char)
    requires c in s && !IsAlphabetChar(c) && !IsAsciiWhitespace(c) && c != Pad
    ensures ForgivingDecode(s).None?
  {
    var w := StripWhitespace(s);
    assert c in w;
    var k :| 0 <= k < |w| && w[k] == c;
    var d := StripPadding(w);
    StripPaddingDropsOnlyPad(w);
    assert k < |d| && d[k] == c;
  }

  /** Stripping keeps a prefix and removes only `=` characters. */
  lemma StripPaddingDropsOnlyPad(w: string)
    ensures |StripPadding(w)| <= |w|
    ensures forall i :: 0 <= i < |StripPadding(w)| ==> StripPadding(w)[i] == w[i]
    ensures forall i :: |StripPadding(w)| <= i < |w| ==> w[i] == Pad
  {
  }

  lemma RejectsNotBase64()
    ensures ForgivingDecode("not-base64!!").None?
  {
    RejectsForeignCharacter("not-base64!!", '-');
  }
}
