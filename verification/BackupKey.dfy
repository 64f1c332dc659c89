/** The textual forms of a 32-byte backup key. */
module BackupKey {
  import opened Numerals

  const HUMAN_KEY_ALPHABET: string := "23456789ABCDEFGHJKMNPQRSTUVWXYZ"
  const BASE: nat := 31
  const HUMAN_KEY_DATA_LENGTH: nat := 52
  const HUMAN_KEY_GROUP_SIZE: nat := 4
  const SEPARATOR: char := '-'
  const KEY_BYTES: nat := 32

  datatype KeyError =
    | Empty | NotBase64 | NotKeyLength
    | NotHumanLength | NotInAlphabet(character: char) | OutOfRange | NotKeyBytes

  datatype Result<T> = Ok(value: T) | Err(error: KeyError)

  predicate IsKey(key: seq<nat>) {
    |key| == KEY_BYTES && AreDigits(256, key)
  }

  // ----- Letters -----

  function IndexOf(c: char): (i: nat)
    ensures i <= BASE
    ensures i < BASE ==> HUMAN_KEY_ALPHABET[i] == c
    ensures i == BASE ==> c !in HUMAN_KEY_ALPHABET
  {
    IndexFrom(c, 0)
  }

  function IndexFrom(c: char, from: nat): (i: nat)
    requires from <= BASE
    ensures from <= i <= BASE
    ensures i < BASE ==> HUMAN_KEY_ALPHABET[i] == c
    ensures forall j :: from <= j < i ==> HUMAN_KEY_ALPHABET[j] != c
    decreases BASE - from
  {
    if from == BASE || HUMAN_KEY_ALPHABET[from] == c then from else IndexFrom(c, from + 1)
  }

  lemma {:induction false} AlphabetAscends(i: nat, j: nat)
    requires i < j < BASE
    ensures HUMAN_KEY_ALPHABET[i] < HUMAN_KEY_ALPHABET[j]
    decreases j - i
  {
    if i + 1 < j {
      AlphabetAscends(i, j - 1);
    }
  }

  lemma AlphabetDistinct(i: nat, j: nat)
    requires i < BASE && j < BASE && HUMAN_KEY_ALPHABET[i] == HUMAN_KEY_ALPHABET[j]
    ensures i == j
  {
    if i < j {
      AlphabetAscends(i, j);
    } else if j < i {
      AlphabetAscends(j, i);
    }
  }

  predicate IsLetter(c: char) {
    c in HUMAN_KEY_ALPHABET
  }

  lemma LetterIsPlain(c: char)
    requires IsLetter(c)
    ensures c != SEPARATOR && !IsSpace(c)
  {
    assert '2' <= c <= 'Z' by {
      var i :| 0 <= i < |HUMAN_KEY_ALPHABET| && HUMAN_KEY_ALPHABET[i] == c;
      if 0 < i { AlphabetAscends(0, i); }
      if i < BASE - 1 { AlphabetAscends(i, BASE - 1); }
    }
    hide IsLetter;
  }

  function Letters(d: seq<nat>): (s: string)
    requires AreDigits(BASE, d)
    ensures |s| == |d|
  {
    seq(|d|, i requires 0 <= i < |d| => HUMAN_KEY_ALPHABET[d[i]])
  }

  predicate AllLetters(s: string) {
    forall i :: 0 <= i < |s| ==> IsLetter(s[i])
  }

  function Indices(s: string): (d: seq<nat>)
    requires AllLetters(s)
    ensures |d| == |s| && AreDigits(BASE, d)
  {
    seq(|s|, i requires 0 <= i < |s| => IndexOf(s[i]))
  }

  lemma IndicesOfLetters(d: seq<nat>)
    requires AreDigits(BASE, d)
    ensures AllLetters(Letters(d)) && Indices(Letters(d)) == d
  {
    forall i | 0 <= i < |d|
      ensures IsLetter(Letters(d)[i]) && IndexOf(Letters(d)[i]) == d[i]
    {
      AlphabetDistinct(IndexOf(Letters(d)[i]), d[i]);
    }
  }

  lemma LettersOfIndices(s: string)
    requires AllLetters(s)
    ensures Letters(Indices(s)) == s
  {
  }

  // ----- Grouping -----

  /** The text cut into groups of four, joined by the separator. */
  function Grouped(s: string): string {
    if |s| <= HUMAN_KEY_GROUP_SIZE then s
    else s[..HUMAN_KEY_GROUP_SIZE] + [SEPARATOR] + Grouped(s[HUMAN_KEY_GROUP_SIZE..])
  }

  /** `_normalize_human_backup_key`: separators and spaces removed. */
  function Normalized(s: string): string {
    if s == [] then []
    else Kept(s[0]) + Normalized(s[1..])
  }

  function Kept(c: char): string {
    if c == SEPARATOR || c == ' ' then [] else [c]
  }

  lemma {:induction false} NormalizedConcat(s: string, t: string)
    ensures Normalized(s + t) == Normalized(s) + Normalized(t)
  {
    if s == [] {
      assert s + t == t;
    } else {
      hide Kept;
      NormalizedConcat(s[1..], t);
      assert (s + t)[0] == s[0] && (s + t)[1..] == s[1..] + t;
      var head, rest, more := Kept(s[0]), Normalized(s[1..]), Normalized(t);
      assert head + (rest + more) == (head + rest) + more;
    }
  }

  lemma {:induction false} NormalizedLetters(s: string)
    requires AllLetters(s)
    ensures Normalized(s) == s
  {
    hide IsLetter;
    if s != [] {
      LetterIsPlain(s[0]);
      assert ' ' != s[0] by { assert IsSpace(' '); }
      NormalizedLetters(s[1..]);
      assert s == [s[0]] + s[1..];
    }
  }

  lemma {:induction false} NormalizedGrouped(s: string)
    requires AllLetters(s)
    ensures Normalized(Grouped(s)) == s
  {
    hide IsLetter;
    if |s| <= HUMAN_KEY_GROUP_SIZE {
      NormalizedLetters(s);
    } else {
      var head, tail := s[..HUMAN_KEY_GROUP_SIZE], s[HUMAN_KEY_GROUP_SIZE..];
      NormalizedConcat(head + [SEPARATOR], Grouped(tail));
      NormalizedConcat(head, [SEPARATOR]);
      NormalizedLetters(head);
      NormalizedGrouped(tail);
      assert Normalized([SEPARATOR]) == [];
      assert s == head + tail;
    }
  }

  lemma {:induction false} NormalizedShrinks(s: string)
    ensures |Normalized(s)| <= |s|
  {
    if s != [] {
      NormalizedShrinks(s[1..]);
    }
  }

  /** Grouping a text of letters leaves no blank at either end. */
  lemma {:induction false} GroupedEnds(s: string)
    requires AllLetters(s) && s != []
    ensures Grouped(s) != [] && Grouped(s)[0] == s[0] && Grouped(s)[|Grouped(s)| - 1] == s[|s| - 1]
  {
    hide IsLetter;
    if |s| > HUMAN_KEY_GROUP_SIZE {
      GroupedEnds(s[HUMAN_KEY_GROUP_SIZE..]);
    }
  }

  // ----- Whitespace and base64url -----

  predicate IsSpace(c: char) {
    || '\t' <= c <= '\r' || '\U{1c}' <= c <= ' ' || c == '\U{85}' || c == '\U{a0}' || c == '\U{1680}'
    || '\U{2000}' <= c <= '\U{200a}' || c == '\U{2028}' || c == '\U{2029}' || c == '\U{202f}' || c == '\U{205f}' || c == '\U{3000}'
  }

  function Strip(s: string): string {
    if s == [] then []
    else if IsSpace(s[0]) then Strip(s[1..])
    else if IsSpace(s[|s| - 1]) then Strip(s[..|s| - 1])
    else s
  }

  /** Value of a base64 character; `-` and `_` are translated, and `+` and `/` stay valid. */
  function Sextet(c: char): (v: nat)
    ensures v <= 64
  {
    if 'A' <= c <= 'Z' then c as int - 'A' as int
    else if 'a' <= c <= 'z' then c as int - 'a' as int + 26
    else if '0' <= c <= '9' then c as int - '0' as int + 52
    else if c == '+' || c == '-' then 62
    else if c == '/' || c == '_' then 63
    else 64
  }

  /** The text before its trailing pad characters. */
  function Unpadded(s: string): (t: string)
    ensures |t| <= |s|
  {
    if s != [] && s[|s| - 1] == '=' then Unpadded(s[..|s| - 1]) else s
  }

  /** Three octets for each group of four sextets, and the whole octets of a partial group. */
  function Octets(d: seq<nat>): (o: seq<nat>)
    requires AreDigits(64, d)
    ensures AreDigits(256, o)
    ensures |o| == |d| / 4 * 3 + (if |d| % 4 == 0 then 0 else |d| % 4 - 1)
  {
    if |d| < 2 then []
    else if |d| == 2 then [d[0] * 4 + d[1] / 16]
    else if |d| == 3 then [d[0] * 4 + d[1] / 16, d[1] % 16 * 16 + d[2] / 4]
    else [d[0] * 4 + d[1] / 16, d[1] % 16 * 16 + d[2] / 4, d[2] % 4 * 64 + d[3]] + Octets(d[4..])
  }

  /** Strict base64 decoding: only alphabet characters, and exactly the padding required. */
  function Base64Decode(s: string): (r: Result<seq<nat>>)
    ensures r.Ok? ==> AreDigits(256, r.value)
  {
    var data := Unpadded(s);
    if |s| % 4 != 0 || |s| - |data| > 2 || exists i :: 0 <= i < |data| && Sextet(data[i]) == 64 then Err(NotBase64)
    else Ok(Octets(seq(|data|, i requires 0 <= i < |data| => Sextet(data[i]))))
  }

  function Padding(n: nat): string {
    seq((4 - n % 4) % 4, _ => '=')
  }

  // ----- Encoding and decoding -----

  /** The human-readable form of a key. */
  function Encoded(key: seq<nat>): string
    requires IsKey(key)
  {
    Grouped(Letters(Digits(BASE, Value(256, key), HUMAN_KEY_DATA_LENGTH)))
  }

  predicate LooksHuman(s: string) {
    |Normalized(s)| == HUMAN_KEY_DATA_LENGTH || SEPARATOR in s
  }

  /** The first character outside the alphabet, if any. */
  function FirstStranger(s: string): (i: nat)
    ensures i <= |s|
    ensures AllLetters(s[..i])
    ensures i < |s| ==> !IsLetter(s[i])
  {
    if s == [] then 0
    else
      var init := FirstStranger(s[..|s| - 1]);
      if init < |s| - 1 then assert s[..|s| - 1][..init] == s[..init]; init
      else if IsLetter(s[|s| - 1]) then assert s[..|s|] == s[..|s| - 1][..init] + [s[|s| - 1]]; |s|
      else assert s[..|s| - 1][..init] == s[..init]; |s| - 1
  }

  function DecodedHuman(s: string): Result<seq<nat>> {
    var data := Normalized(s);
    if |data| != HUMAN_KEY_DATA_LENGTH then Err(NotHumanLength)
    else
      var stranger := FirstStranger(data);
      if stranger < |data| then Err(NotInAlphabet(data[stranger]))
      else
        assert data[..stranger] == data;
        var number := Value(BASE, Indices(data));
        if number >= Pow(256, KEY_BYTES) then Err(OutOfRange) else Ok(Digits(256, number, KEY_BYTES))
  }

  function Decoded(s: string): Result<seq<nat>> {
    var text := Strip(s);
    if text == [] then Err(Empty)
    else
      var decoded := Base64Decode(text + Padding(|text|));
      if decoded.Ok? && |decoded.value| == KEY_BYTES then decoded
      else if LooksHuman(text) then DecodedHuman(text)
      else if decoded.Err? then Err(NotBase64)
      else Err(NotKeyLength)
  }

  /** 52 letters of a 31-letter alphabet carry more than 256 bits. */
  lemma AlphabetIsLargeEnough()
    ensures Pow(256, KEY_BYTES) <= Pow(BASE, HUMAN_KEY_DATA_LENGTH)
  {
    assert Pow(31, 3) == 29_791;
    PowSum(31, 3, 3);
    assert Pow(31, 6) == 887_503_681;
    PowSum(31, 6, 6);
    assert Pow(31, 13) == 31 * Pow(31, 12);
    assert Pow(31, 13) == 24_417_546_297_445_042_591;
    assert Pow(256, 4) == 4_294_967_296;
    PowSum(256, 4, 4);
    assert Pow(256, 8) == 18_446_744_073_709_551_616;
    PowSum(31, 13, 13);
    PowSum(256, 8, 8);
    Squares(Pow(256, 8), Pow(31, 13));
    PowSum(31, 26, 26);
    PowSum(256, 16, 16);
    Squares(Pow(256, 16), Pow(31, 26));
  }

  /** `encode_backup_key`; the branch for a key too large for the format is never taken. */
  method EncodeBackupKey(key: seq<nat>) returns (r: Result<string>)
    requires AreDigits(256, key)
    ensures r == if IsKey(key) then Ok(Encoded(key)) else Err(NotKeyBytes)
  {
    hide Value, Quotient, Remainder, Digits, Pow, Grouped;
    if |key| != KEY_BYTES { return Err(NotKeyBytes); }
    var value: nat := Value(256, key);
    ghost var all := Digits(BASE, value, HUMAN_KEY_DATA_LENGTH);
    ValueFits(256, key);
    AlphabetIsLargeEnough();
    var chars: string := "";
    ghost var low: seq<nat> := [];  // the digits behind `chars`, most significant first
    for i := 0 to HUMAN_KEY_DATA_LENGTH
      invariant value < Pow(BASE, HUMAN_KEY_DATA_LENGTH - i)
      invariant |chars| == |low| == i && AreDigits(BASE, low)
      invariant all == Digits(BASE, value, HUMAN_KEY_DATA_LENGTH - i) + low
      invariant forall k :: 0 <= k < i ==> chars[k] == HUMAN_KEY_ALPHABET[low[i - 1 - k]]
    {
      DivideOnce(BASE, value, HUMAN_KEY_DATA_LENGTH - i);
      var index := Remainder(value, BASE);
      chars := chars + [HUMAN_KEY_ALPHABET[index]];
      low := [index] + low;
      value := Quotient(value, BASE);
    }
    PowZero(BASE);
    if value != 0 {
      assert false;
    }
    assert low == all;
    var encoded := seq(HUMAN_KEY_DATA_LENGTH, k requires 0 <= k < HUMAN_KEY_DATA_LENGTH => chars[HUMAN_KEY_DATA_LENGTH - 1 - k]);
    assert encoded == Letters(all);
    r := Ok(Grouped(encoded));
  }

  lemma PowZero(base: nat)
    ensures Pow(base, 0) == 1
  {
  }

  /** `_decode_human_backup_key`. */
  method DecodeHumanBackupKey(s: string) returns (r: Result<seq<nat>>)
    ensures r == DecodedHuman(s)
  {
    hide Value, Normalized, FirstStranger, IndexOf;
    var data := Normalized(s);
    if |data| != HUMAN_KEY_DATA_LENGTH { return Err(NotHumanLength); }
    var number: nat := 0;
    var i := 0;
    NoLetters();
    assert data[..0] == [];
    while i < |data|
      invariant i <= |data| && AllLetters(data[..i])
      invariant number == Value(BASE, Indices(data[..i]))
    {
      var digit := IndexOf(data[i]);
      if digit == BASE {
        StrangerAt(data, i);
        return Err(NotInAlphabet(data[i]));
      }
      OneMoreLetter(data, i);
      number := number * BASE + digit;
      i := i + 1;
    }
    assert data[..i] == data;
    StrangerAt(data, i);
    if number >= Pow(256, KEY_BYTES) { return Err(OutOfRange); }
    r := Ok(Digits(256, number, KEY_BYTES));
  }

  lemma NoLetters()
    ensures Value(BASE, Indices([])) == 0
  {
  }

  lemma OneMoreLetter(s: string, i: nat)
    requires i < |s| && AllLetters(s[..i]) && IndexOf(s[i]) < BASE
    ensures AllLetters(s[..i + 1])
    ensures Value(BASE, Indices(s[..i + 1])) == Value(BASE, Indices(s[..i])) * BASE + IndexOf(s[i])
  {
    assert s[..i + 1] == s[..i] + [s[i]];
    assert AllLetters(s[..i + 1]);
    assert Indices(s[..i + 1])[..i] == Indices(s[..i]);
  }

  /** The first stranger is where the first failing lookup happens. */
  lemma StrangerAt(s: string, i: nat)
    requires i <= |s| && AllLetters(s[..i]) && (i < |s| ==> !IsLetter(s[i]))
    ensures FirstStranger(s) == i
  {
    var j := FirstStranger(s);
    hide FirstStranger, IsLetter;
    assert forall k :: 0 <= k < i ==> IsLetter(s[k]) by {
      forall k | 0 <= k < i ensures IsLetter(s[k]) { assert IsLetter(s[..i][k]); }
    }
    assert forall k :: 0 <= k < j ==> IsLetter(s[k]) by {
      forall k | 0 <= k < j ensures IsLetter(s[k]) { assert IsLetter(s[..j][k]); }
    }
  }

  /** `decode_backup_key`. */
  method DecodeBackupKey(s: string) returns (r: Result<seq<nat>>)
    ensures r == Decoded(s)
    ensures r.Ok? <==> SpellsOctets(Strip(s)) || SpellsLetters(Strip(s))
    ensures r.Ok? ==> IsKey(r.value)
    ensures SpellsLetters(Strip(s)) ==> Encoded(r.value) == Grouped(Normalized(Strip(s)))
  {
    hide SpellsOctets, SpellsLetters, Encoded, Base64Decode, Normalized, Strip, LooksHuman, DecodedHuman;
    AcceptedExactly(s);
    KeyOfAccepted(s);
    var text := Strip(s);
    if text == [] { return Err(Empty); }
    var decoded := Base64Decode(text + Padding(|text|));
    if decoded.Ok? && |decoded.value| == KEY_BYTES { return decoded; }
    if LooksHuman(text) {
      r := DecodeHumanBackupKey(text);
    } else {
      r := if decoded.Err? then Err(NotBase64) else Err(NotKeyLength);
    }
  }

  // ----- Theorems -----

  lemma {:induction false} PaddingOnly(s: string)
    ensures Unpadded(s) <= s && forall i :: |Unpadded(s)| <= i < |s| ==> s[i] == '='
  {
    if s != [] && s[|s| - 1] == '=' {
      PaddingOnly(s[..|s| - 1]);
    }
  }

  /** A text of 52 or more characters never decodes from base64url to a key. */
  lemma LongTextIsNotBase64Key(text: string)
    requires |text| >= HUMAN_KEY_DATA_LENGTH
    ensures var decoded := Base64Decode(text + Padding(|text|)); decoded.Ok? ==> |decoded.value| != KEY_BYTES
  {
  }

  /** The base64url attempt never captures a text that the human decoder would accept. */
  lemma HumanKeyIsNotCaptured(s: string)
    ensures DecodedHuman(Strip(s)).Ok? ==> Decoded(s) == DecodedHuman(Strip(s))
  {
    hide Base64Decode, Normalized, Strip, FirstStranger, Value, Indices;
    var text := Strip(s);
    if DecodedHuman(text).Ok? {
      NormalizedShrinks(text);
      LongTextIsNotBase64Key(text);
    }
  }

  lemma StripLetters(s: string)
    requires s != [] && !IsSpace(s[0]) && !IsSpace(s[|s| - 1])
    ensures Strip(s) == s
  {
  }

  /** Decoding the human-readable form of any key gives the key back. */
  lemma DecodeEncoded(key: seq<nat>)
    requires IsKey(key)
    ensures Decoded(Encoded(key)) == Ok(key)
  {
    hide Value, Digits, Pow, Normalized, Grouped, FirstStranger, Strip, Base64Decode, IsLetter, IsSpace, Letters, Indices, Decoded, DecodedHuman;
    var number := Value(256, key);
    ValueFits(256, key);
    AlphabetIsLargeEnough();
    var d := Digits(BASE, number, HUMAN_KEY_DATA_LENGTH);
    var data := Letters(d);
    IndicesOfLetters(d);
    ValueOfDigits(BASE, number, HUMAN_KEY_DATA_LENGTH);
    DigitsOfValue(256, key);
    NormalizedGrouped(data);
    GroupedEnds(data);
    LetterIsPlain(data[0]);
    LetterIsPlain(data[|data| - 1]);
    var text := Encoded(key);
    StripLetters(text);
    DecodedLetters(text);
    HumanKeyIsNotCaptured(text);
  }

  /** The human decoder on a text whose normal form is 52 letters. */
  lemma DecodedLetters(text: string)
    requires |Normalized(text)| == HUMAN_KEY_DATA_LENGTH && AllLetters(Normalized(text))
    ensures var number := Value(BASE, Indices(Normalized(text)));
      DecodedHuman(text) == if number >= Pow(256, KEY_BYTES) then Err(OutOfRange) else Ok(Digits(256, number, KEY_BYTES))
  {
    hide Value, Digits, Pow, Normalized, FirstStranger, IsLetter, Indices;
    var data := Normalized(text);
    assert data[..|data|] == data;
    StrangerAt(data, |data|);
  }

  /** Encoding what was decoded from an accepted human text regroups that text. */
  lemma EncodeDecoded(s: string)
    ensures DecodedHuman(Strip(s)).Ok? ==>
              && Decoded(s).Ok? && IsKey(Decoded(s).value)
              && Encoded(Decoded(s).value) == Grouped(Normalized(Strip(s)))
  {
    hide Value, Digits, Pow, Normalized, Strip, Base64Decode, IsLetter, IsSpace;
    if DecodedHuman(Strip(s)).Ok? {
      HumanKeyIsNotCaptured(s);
      var data := Normalized(Strip(s));
      assert data[..FirstStranger(data)] == data;
      hide FirstStranger, Indices, Letters;
      var d := Indices(data);
      var number := Value(BASE, d);
      ValueOfDigits(256, number, KEY_BYTES);
      DigitsOfValue(BASE, d);
      LettersOfIndices(data);
    }
  }

  /** The text is base64url of a key, with or without its padding. */
  predicate SpellsOctets(text: string) {
    text != [] && Base64Decode(text + Padding(|text|)).Ok? && |Base64Decode(text + Padding(|text|)).value| == KEY_BYTES
  }

  /** The text holds 52 letters of the alphabet, whose number fits a key. */
  predicate SpellsLetters(text: string) {
    && |Normalized(text)| == HUMAN_KEY_DATA_LENGTH && AllLetters(Normalized(text))
    && Value(BASE, Indices(Normalized(text))) < Pow(256, KEY_BYTES)
  }

  lemma LettersSpell(text: string)
    ensures DecodedHuman(text).Ok? <==> SpellsLetters(text)
  {
    hide Normalized, Value, Indices, IsLetter;
    var data := Normalized(text);
    if AllLetters(data) {
      assert data[..|data|] == data;
      StrangerAt(data, |data|);
    } else {
      assert data[..|data|] == data;
    }
  }

  /** Exactly which texts are keys, and a text never is one in both ways. */
  lemma AcceptedExactly(s: string)
    ensures Decoded(s).Ok? <==> SpellsOctets(Strip(s)) || SpellsLetters(Strip(s))
    ensures !(SpellsOctets(Strip(s)) && SpellsLetters(Strip(s)))
  {
    hide Base64Decode, Normalized, Strip, SpellsLetters, DecodedHuman;
    var text := Strip(s);
    HumanKeyIsNotCaptured(s);
    LettersSpell(text);
    if SpellsLetters(text) {
      assert |Normalized(text)| == HUMAN_KEY_DATA_LENGTH by { LettersAreMany(text); }
      NormalizedShrinks(text);
      LongTextIsNotBase64Key(text);
    }
  }

  lemma LettersAreMany(text: string)
    requires SpellsLetters(text)
    ensures |Normalized(text)| == HUMAN_KEY_DATA_LENGTH
  {
  }

  /** What is accepted is a key; if its text has letters, the key is the one whose form they are. */
  lemma KeyOfAccepted(s: string)
    ensures Decoded(s).Ok? ==> IsKey(Decoded(s).value)
    ensures SpellsLetters(Strip(s)) ==> Decoded(s).Ok? && Encoded(Decoded(s).value) == Grouped(Normalized(Strip(s)))
  {
    hide Base64Decode, Normalized, Strip, SpellsLetters, DecodedHuman, Encoded, Grouped;
    LettersSpell(Strip(s));
    EncodeDecoded(s);
  }
}
