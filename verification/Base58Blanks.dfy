/** White space around a Base58 string is ignored, inside it is refused, and nothing else is accepted. */
module Base58Blanks {
  import opened Common
  import opened Base58Model
  import opened Base58Check

  /** Nothing but white space. */
  predicate Blank(s: string) {
    forall i :: 0 <= i < |s| ==> IsSpace(s[i])
  }

  lemma BlankCharacters(c: char)
    ensures IsSpace(c) <==> c as int in {9, 10, 11, 12, 13, 32}
  {
  }

  /** The letters are the alphanumeric characters without 0, O, I and l. */
  lemma LettersExactly(c: char)
    ensures c in ALPHABET <==> ('0' <= c <= '9' || 'A' <= c <= 'Z' || 'a' <= c <= 'z') && c !in {'0', 'O', 'I', 'l'}
  {
    InLetters('1', 9, c);
    InLetters('A', 8, c);
    InLetters('J', 5, c);
    InLetters('P', 11, c);
    InLetters('a', 11, c);
    InLetters('m', 14, c);
  }

  lemma InLetters(first: char, n: nat, c: char)
    requires first as int + n <= 128
    ensures c in Letters(first, n) <==> first as int <= c as int < first as int + n
  {
    if first as int <= c as int < first as int + n {
      assert Letters(first, n)[c as int - first as int] == c;
    }
  }

  lemma {:induction false} SkipBlank(a: string, s: string)
    requires Blank(a) && (s != [] ==> !IsSpace(s[0]))
    ensures SkipSpaces(a + s) == s
  {
    if a == [] {
      assert a + s == s;
    } else {
      assert (a + s)[1..] == a[1..] + s;
      SkipBlank(a[1..], s);
    }
  }

  lemma WordEnds(w: string, s: string)
    requires Spaceless(w) && (s != [] ==> IsSpace(s[0]))
    ensures Word(w + s) == |w|
  {
    var t := w + s;
    assert forall i :: 0 <= i < |w| ==> t[i] == w[i];
    assert s != [] ==> t[|w|] == s[0];
    hide IsSpace;
  }

  /** What is decoded is the word between blanks, if only blanks follow it. */
  lemma DecodeParts(a: string, w: string, s: string)
    requires Blank(a) && Spaceless(w) && (s != [] ==> IsSpace(s[0])) && (w == [] ==> s == [])
    ensures Decode(a + w + s) == if SkipSpaces(s) != [] then None else DecodeWord(w)
  {
    hide DecodeWord; hide IsSpace;
    var t := w + s;
    assert a + w + s == a + t;
    SkipBlank(a, t);
    WordEnds(w, s);
    assert t[|w|..] == s && t[..|w|] == w;
  }

  lemma NothingSpelled(b: string)
    requires Blank(b)
    ensures SkipSpaces(b) == []
  {
    assert b + [] == b;
    SkipBlank(b, []);
  }

  /** Blanks before and after change nothing. */
  lemma BlanksIgnored(a: string, w: string, b: string)
    requires Blank(a) && Blank(b) && Spaceless(w)
    ensures Decode(a + w + b) == Decode(w)
  {
    hide DecodeWord; hide IsSpace; hide Decode;
    DecodeSpaceless(w);
    if w == [] {
      assert a + w + b == (a + b) + [] + [];
      DecodeParts(a + b, [], []);
      NothingSpelled([]);
    } else {
      DecodeParts(a, w, b);
      NothingSpelled(b);
    }
  }

  /** Anything after a blank that follows the word is refused. */
  lemma BlankInside(a: string, w: string, b: string, c: char, rest: string)
    requires Blank(a) && Spaceless(w) && w != [] && Blank(b) && b != [] && !IsSpace(c)
    ensures Decode(a + w + b + [c] + rest) == None
  {
    hide DecodeWord; hide IsSpace; hide Decode;
    var s := b + ([c] + rest);
    assert a + w + b + [c] + rest == a + w + s;
    assert ([c] + rest)[0] == c && s[0] == b[0];
    DecodeParts(a, w, s);
    SkipBlank(b, [c] + rest);
  }

  lemma {:induction false} LeadingBlank(s: string) returns (a: string)
    ensures Blank(a) && s == a + SkipSpaces(s)
    ensures SkipSpaces(s) != [] ==> !IsSpace(SkipSpaces(s)[0])
  {
    if s != [] && IsSpace(s[0]) {
      var rest := LeadingBlank(s[1..]);
      a := [s[0]] + rest;
      assert s == [s[0]] + s[1..];
    } else {
      a := [];
    }
  }

  /** The strings that decode to `bytes`: its encoding between blanks, and no others. */
  ghost predicate Spells(s: string, bytes: seq<nat>)
    requires AreDigits(bytes, 256)
  {
    exists a, b :: Blank(a) && Blank(b) && s == a + Encode(bytes) + b
  }

  lemma DecodesExactly(s: string, bytes: seq<nat>)
    requires AreDigits(bytes, 256)
    ensures Decode(s) == Some(bytes) <==> Spells(s, bytes)
  {
    hide Encode; hide Decode; hide Blank;
    if Spells(s, bytes) {
      var a, b :| Blank(a) && Blank(b) && s == a + Encode(bytes) + b;
      EncodedSpaceless(bytes);
      BlanksIgnored(a, Encode(bytes), b);
      DecodeEncode(bytes);
    }
    if Decode(s) == Some(bytes) {
      var a, b := DecodedParts(s, bytes);
    }
  }

  lemma EncodedSpaceless(bytes: seq<nat>)
    requires AreDigits(bytes, 256)
    ensures Spaceless(Encode(bytes))
  {
    hide Encode; hide Spaceless; hide Number; hide Digits; hide ZeroCount; hide Letters;
    EncodeLetters(bytes);
    LettersSpaceless(Encode(bytes));
  }

  lemma DecodedParts(s: string, bytes: seq<nat>) returns (a: string, b: string)
    requires AreDigits(bytes, 256) && Decode(s) == Some(bytes)
    ensures Blank(a) && Blank(b) && s == a + Encode(bytes) + b
  {
    hide Encode; hide DecodeWord; hide IsSpace; hide Letters; hide FromLetters;
    a := LeadingBlank(s);
    var t := SkipSpaces(s);
    var n := Word(t);
    var w := t[..n];
    b := t[n..];
    var c := LeadingBlank(b);
    assert b == c + [];
    WordEncodes(w, bytes);
    assert s == a + (w + b);
  }

  lemma WordEncodes(w: string, bytes: seq<nat>)
    requires AreDigits(bytes, 256) && DecodeWord(w) == Some(bytes)
    ensures w == Encode(bytes)
  {
    hide Encode; hide Decode; hide Number; hide Digits; hide Letters;
    LettersSpaceless(w);
    DecodeSpaceless(w);
    EncodeDecode(w);
  }

  // ----- With a checksum -----

  lemma CheckBlanksIgnored(a: string, w: string, b: string, h: seq<nat> -> seq<nat>)
    requires Blank(a) && Blank(b) && Spaceless(w) && IsHash(h)
    ensures DecodeCheck(a + w + b, h) == DecodeCheck(w, h)
  {
    hide Decode; hide Blank; hide Spaceless;
    BlanksIgnored(a, w, b);
  }

  lemma CheckBlankInside(a: string, w: string, b: string, c: char, rest: string, h: seq<nat> -> seq<nat>)
    requires Blank(a) && Spaceless(w) && w != [] && Blank(b) && b != [] && !IsSpace(c) && IsHash(h)
    ensures DecodeCheck(a + w + b + [c] + rest, h) == None
  {
    hide Decode; hide Blank; hide Spaceless;
    BlankInside(a, w, b, c, rest);
  }

  /** A pasted address reads back with blanks around it, whatever they are. */
  lemma PastedReadsBack(a: string, bytes: seq<nat>, b: string, h: seq<nat> -> seq<nat>)
    requires Blank(a) && Blank(b) && AreDigits(bytes, 256) && IsHash(h)
    ensures DecodeCheck(a + EncodeCheck(bytes, h) + b, h) == Some(bytes)
  {
    hide Decode; hide Encode; hide Blank; hide DecodeCheck;
    EncodedSpaceless(bytes + h(bytes)[..4]);
    CheckBlanksIgnored(a, EncodeCheck(bytes, h), b, h);
    CheckRoundTrip(bytes, h);
  }
}
