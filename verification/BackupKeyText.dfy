/** The texts of a backup key character by character, and the base64url form of section 5 of RFC 4648. */
module BackupKeyText {
  import opened Numerals
  import opened BackupKey

  // ----- Base64url -----

  /** The alphabet of base64url. */
  function Base64Char(v: nat): char
    requires v < 64
  {
    if v < 26 then 'A' + v as char
    else if v < 52 then 'a' + (v - 26) as char
    else if v < 62 then '0' + (v - 52) as char
    else if v == 62 then '-' else '_'
  }

  /** Octets cut into groups of six bits, filled up with zero bits at the end. */
  function Sextets(o: seq<nat>): (d: seq<nat>)
    requires AreDigits(256, o)
    ensures AreDigits(64, d)
    ensures |d| == |o| / 3 * 4 + (if |o| % 3 == 0 then 0 else |o| % 3 + 1)
  {
    if o == [] then []
    else if |o| == 1 then [o[0] / 4, o[0] % 4 * 16]
    else if |o| == 2 then [o[0] / 4, o[0] % 4 * 16 + o[1] / 16, o[1] % 16 * 4]
    else [o[0] / 4, o[0] % 4 * 16 + o[1] / 16, o[1] % 16 * 4 + o[2] / 64, o[2] % 64] + Sextets(o[3..])
  }

  function Base64Text(o: seq<nat>): (s: string)
    requires AreDigits(256, o)
  {
    var d := Sextets(o);
    seq(|d|, i requires 0 <= i < |d| => Base64Char(d[i]))
  }

  lemma SextetOfChar(v: nat)
    requires v < 64
    ensures Sextet(Base64Char(v)) == v && Base64Char(v) != '=' && !IsSpace(Base64Char(v))
  {
  }

  /** Decoding the groups gives the octets back. */
  lemma {:induction false} OctetsOfSextets(o: seq<nat>)
    requires AreDigits(256, o)
    ensures Octets(Sextets(o)) == o
  {
    if |o| >= 3 {
      OctetsOfSextets(o[3..]);
      var d := Sextets(o);
      assert d[4..] == Sextets(o[3..]);
      assert o == [o[0], o[1], o[2]] + o[3..];
    }
  }

  lemma Base64Decodes(o: seq<nat>)
    requires AreDigits(256, o)
    ensures var text := Base64Text(o); Base64Decode(text + Padding(|text|)) == Ok(o)
  {
    var text, d := Base64Text(o), Sextets(o);
    forall i | 0 <= i < |text|
      ensures Sextet(text[i]) == d[i] && text[i] != '='
    {
      SextetOfChar(d[i]);
    }
    PaddingFits(|o|, |text|);
    OctetsOfSextets(o);
    hide Sextet, Base64Char, Octets, Sextets, Base64Text;
    ReadsSextets(text, d, |Padding(|text|)|);
    assert Padding(|text|) == seq(|Padding(|text|)|, _ => '=');
  }

  /** Base64 decoding of characters whose padding completes a group. */
  lemma ReadsSextets(text: string, d: seq<nat>, pad: nat)
    requires |d| == |text| && AreDigits(64, d) && (|text| + pad) % 4 == 0 && pad <= 2
    requires forall i :: 0 <= i < |text| ==> Sextet(text[i]) == d[i] && text[i] != '='
    ensures Base64Decode(text + seq(pad, _ => '=')) == Ok(Octets(d))
  {
    UnpaddedText(text, pad);
    hide Sextet, Octets, Unpadded;
    assert !exists i :: 0 <= i < |text| && Sextet(text[i]) == 64;
    assert seq(|text|, i requires 0 <= i < |text| => Sextet(text[i])) == d;
  }

  lemma PaddingFits(octets: nat, sextets: nat)
    requires sextets == octets / 3 * 4 + (if octets % 3 == 0 then 0 else octets % 3 + 1)
    ensures |Padding(sextets)| <= 2 && (sextets + |Padding(sextets)|) % 4 == 0
  {
    var rest := if octets % 3 == 0 then 0 else octets % 3 + 1;
    RestOfGroups(octets / 3, rest);
    assert |Padding(sextets)| == (4 - rest) % 4;
    RestOfGroups(octets / 3 + 1, 0);
  }

  lemma RestOfGroups(groups: nat, rest: nat)
    requires rest < 4
    ensures (groups * 4 + rest) % 4 == rest
  {
  }

  lemma {:induction false} UnpaddedText(text: string, n: nat)
    requires text != [] ==> text[|text| - 1] != '='
    ensures Unpadded(text + seq(n, _ => '=')) == text
    decreases n
  {
    var s := text + seq(n, _ => '=');
    if n == 0 {
      assert s == text;
    } else {
      assert s[..|s| - 1] == text + seq(n - 1, _ => '=');
      UnpaddedText(text, n - 1);
    }
  }

  /** The base64url form of any key, with or without its padding, is decoded to the key. */
  lemma DecodeBase64(key: seq<nat>)
    requires IsKey(key)
    ensures Decoded(Base64Text(key)) == Ok(key)
    ensures Decoded(Base64Text(key) + "=") == Ok(key)
  {
    var text, d := Base64Text(key), Sextets(key);
    assert |text| == 43;
    SextetOfChar(d[0]);
    SextetOfChar(d[42]);
    assert text[0] == Base64Char(d[0]) && text[42] == Base64Char(d[42]);
    Base64Decodes(key);
    hide Base64Text, Sextets, Base64Decode, IsSpace, Base64Char;
    assert Padding(|text|) == "=";
    StripLetters(text);
    var padded := text + "=";
    assert padded[0] == text[0] && padded[43] == '=';
    assert !IsSpace('=') by { PadIsPlain(); }
    StripLetters(padded);
    assert padded + Padding(|padded|) == padded;
  }

  lemma PadIsPlain()
    ensures !IsSpace('=')
  {
  }

  // ----- Blanks, separators and groups -----

  /** What is stripped is white space at both ends, all of it and nothing else. */
  lemma {:induction false} StripExactly(s: string) returns (i: nat, j: nat)
    ensures i <= j <= |s| && Strip(s) == s[i..j]
    ensures forall k :: 0 <= k < i || j <= k < |s| ==> IsSpace(s[k])
    ensures i < j ==> !IsSpace(s[i]) && !IsSpace(s[j - 1])
  {
    hide IsSpace;
    if s == [] {
      i, j := 0, 0;
    } else if IsSpace(s[0]) {
      i, j := StripExactly(s[1..]);
      i, j := i + 1, j + 1;
    } else if IsSpace(s[|s| - 1]) {
      var init := s[..|s| - 1];
      i, j := StripExactly(init);
      assert init[i..j] == s[i..j];
    } else {
      i, j := 0, |s|;
    }
  }

  /** Separators and spaces may stand anywhere: normalizing drops them and keeps every other character. */
  lemma NormalizedExactly(s: string, c: char, t: string)
    ensures Normalized(s + [c] + t) == if c == '-' || c == ' ' then Normalized(s + t) else Normalized(s) + [c] + Normalized(t)
  {
    assert Normalized([c]) == if c == '-' || c == ' ' then [] else [c];
    hide Normalized;
    NormalizedConcat(s + [c], t);
    NormalizedConcat(s, [c]);
    NormalizedConcat(s, t);
  }

  /** The human form is cut into groups of four by separators, with none at its ends. */
  lemma {:induction false} GroupedAt(s: string, i: nat)
    requires s != []
    ensures |Grouped(s)| == |s| + (|s| - 1) / 4
    ensures i < |Grouped(s)| ==> i % 5 != 4 ==> i - i / 5 < |s|
    ensures i < |Grouped(s)| ==> Grouped(s)[i] == if i % 5 == 4 then '-' else s[i - i / 5]
  {
    if |s| > 4 {
      GroupedAt(s[4..], if i < 5 then 0 else i - 5);
    }
  }

  // ----- Why a text is refused -----

  /** Each error has its own cause, and the causes exclude each other. */
  lemma RefusedExactly(s: string)
    ensures var text, data := Strip(s), Normalized(Strip(s));
      var human := |data| == 52 || '-' in text;
      && (Decoded(s) == Err(Empty) <==> text == [])
      && (Decoded(s) == Err(NotBase64) <==>
            text != [] && !human && Base64Decode(text + Padding(|text|)).Err?)
      && (Decoded(s) == Err(NotKeyLength) <==>
            text != [] && !human && Base64Decode(text + Padding(|text|)).Ok? && !SpellsOctets(text))
      && (Decoded(s) == Err(NotHumanLength) <==> '-' in text && |data| != 52 && !SpellsOctets(text))
      && (Decoded(s) == Err(OutOfRange) <==>
            && |data| == 52 && AllLetters(data) && Pow(256, 32) <= Value(31, Indices(data)))
  {
    var text := Strip(s);
    AcceptedExactly(s);
    LettersSpell(text);
    HumanTextIsLong(text);
    hide Base64Decode, Strip, Normalized, Value, Indices, IsLetter, Padding;
    var data := Normalized(text);
    if AllLetters(data) {
      StrangerAt(data, |data|);
    }
    assert data[..|data|] == data;
  }

  lemma HumanTextIsLong(text: string)
    ensures |Normalized(text)| == 52 ==> !SpellsOctets(text) && text != []
  {
    NormalizedShrinks(text);
    if |Normalized(text)| == 52 {
      LongTextIsNotBase64Key(text);
    }
  }

  /** The character that is blamed is the first outside the alphabet. */
  lemma BlamedExactly(s: string, i: nat)
    requires var data := Normalized(Strip(s)); |data| == 52 && i < 52 && AllLetters(data[..i]) && !IsLetter(data[i])
    ensures Decoded(s) == Err(NotInAlphabet(Normalized(Strip(s))[i]))
  {
    HumanTextIsLong(Strip(s));
    hide Base64Decode, Strip, Normalized, IsLetter, Value, Indices;
    StrangerAt(Normalized(Strip(s)), i);
  }
}
