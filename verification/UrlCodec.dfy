/** Percent-encoding of C strings (section 2.1 of RFC 3986), as url_encode_decode.c does it. */
module UrlCodec {
  import opened Basics
  import opened CStrings

  const BURSIZE: nat := 1024

  /** A signed `char`. */
  newtype schar = x: int | -128 <= x < 128

  const NUL: schar := 0
  const PERCENT: schar := 37

  /** The value of a byte that has been stored in a `char`. */
  function Unsigned(c: schar): (j: nat)
    ensures j < 256
  {
    if c < 0 then c as int + 256 else c as int
  }

  /** `num` stored in a `char`. */
  function ToChar(num: int): (c: schar)
    requires -128 <= num < 256
  {
    if num >= 128 then (num - 256) as schar else num as schar
  }

  /** Letters, digits, '/' and '.', which are not encoded. */
  predicate Plain(c: schar) {
    (48 <= c && c <= 57) || (97 <= c && c <= 122) || (65 <= c && c <= 90) || c == 47 || c == 46
  }

  function HexToDec(c: schar): (v: int)
    ensures -1 <= v < 16
  {
    if 48 <= c && c <= 57 then (c - 48) as int
    else if 97 <= c && c <= 102 then (c - 97) as int + 10
    else if 65 <= c && c <= 70 then (c - 65) as int + 10
    else -1
  }

  function DecToHex(v: int): schar {
    if 0 <= v && v <= 9 then (v + 48) as schar
    else if 10 <= v && v <= 15 then (v + 65 - 10) as schar
    else -1
  }

  function EncodeChar(c: schar): (e: seq<schar>)
    ensures 1 <= |e| <= 3
  {
    if Plain(c) then [c]
    else
      var i1 := Unsigned(c) / 16;
      [PERCENT, DecToHex(i1), DecToHex(Unsigned(c) - i1 * 16)]
  }

  function Encode(s: seq<schar>): seq<schar> {
    if s == [] then [] else EncodeChar(s[0]) + Encode(s[1..])
  }

  /** What follows the '%' and the two digits at the start, of which the second may be the terminator. */
  function AfterTriple(t: seq<schar>): seq<schar> {
    if |t| >= 3 then t[3..] else []
  }

  /** Every '%' is followed by a character; behind a last '%' the source reads past the terminator. */
  predicate WellFormed(t: seq<schar>)
    decreases |t|
  {
    if t == [] then true
    else if t[0] != PERCENT then WellFormed(t[1..])
    else |t| >= 2 && WellFormed(AfterTriple(t))
  }

  function DecodeTriple(c1: schar, c0: schar): schar {
    ToChar(HexToDec(c1) * 16 + HexToDec(c0))
  }

  /** The character at a position of a C string, which may be its terminator. */
  function CharAt(t: seq<schar>, i: nat): schar
    requires i <= |t|
  {
    if i < |t| then t[i] else NUL
  }

  function DecodeAll(t: seq<schar>): (s: seq<schar>)
    requires WellFormed(t)
    ensures |s| <= |t|
    decreases |t|
  {
    if t == [] then []
    else if t[0] != PERCENT then [t[0]] + DecodeAll(t[1..])
    else [DecodeTriple(t[1], CharAt(t, 2))] + DecodeAll(AfterTriple(t))
  }

  /** The C string that is left: a decoded NUL ends it. */
  function Decode(t: seq<schar>): seq<schar>
    requires WellFormed(t)
  {
    UpToNul(DecodeAll(t), NUL)
  }

  // ----- what an encoding looks like

  predicate UpperHex(c: schar) {
    (48 <= c && c <= 57) || (65 <= c && c <= 70)
  }

  /** Plain characters and upper-case triples; a triple stands for a character that needs one, and not for NUL. */
  predicate Canonical(t: seq<schar>) {
    if t == [] then true
    else if t[0] != PERCENT then Plain(t[0]) && Canonical(t[1..])
    else
      |t| >= 3 && UpperHex(t[1]) && UpperHex(t[2]) &&
      !Plain(DecodeTriple(t[1], t[2])) && DecodeTriple(t[1], t[2]) != NUL && Canonical(t[3..])
  }

  lemma TripleRoundTrip(c: schar)
    requires !Plain(c)
    ensures var e := EncodeChar(c);
      |e| == 3 && e[0] == PERCENT && UpperHex(e[1]) && UpperHex(e[2]) && DecodeTriple(e[1], e[2]) == c
  {
    var i1 := Unsigned(c) / 16;
    var i0 := Unsigned(c) - i1 * 16;
    assert 0 <= i1 <= 15 && 0 <= i0 <= 15;
    assert HexToDec(DecToHex(i1)) == i1 && HexToDec(DecToHex(i0)) == i0;
  }

  lemma HexRoundTrip(x: schar)
    requires UpperHex(x)
    ensures 0 <= HexToDec(x) < 16 && DecToHex(HexToDec(x)) == x
  {
  }

  /** A byte in a signed `char` and back. */
  lemma CharRoundTrip(num: int)
    requires 0 <= num < 256
    ensures Unsigned(ToChar(num)) == num
  {
  }

  lemma DigitsOf(i1: int, i0: int)
    requires 0 <= i1 < 16 && 0 <= i0 < 16
    ensures (i1 * 16 + i0) / 16 == i1 && i1 * 16 + i0 < 256
  {
  }

  lemma TripleEncodes(x: schar, y: schar)
    requires UpperHex(x) && UpperHex(y) && !Plain(DecodeTriple(x, y))
    ensures EncodeChar(DecodeTriple(x, y)) == [PERCENT, x, y]
  {
    HexRoundTrip(x);
    HexRoundTrip(y);
    DigitsOf(HexToDec(x), HexToDec(y));
    CharRoundTrip(HexToDec(x) * 16 + HexToDec(y));
  }

  lemma {:induction false} EncodingShape(s: seq<schar>)
    requires NUL !in s
    ensures Canonical(Encode(s)) && |s| <= |Encode(s)| <= 3 * |s| && NUL !in Encode(s)
  {
    if s != [] {
      EncodingShape(s[1..]);
      if !Plain(s[0]) {
        TripleRoundTrip(s[0]);
        assert Encode(s)[3..] == Encode(s[1..]);
      } else {
        assert Encode(s)[1..] == Encode(s[1..]);
      }
    }
  }

  /** A text is its own encoding exactly when it consists of plain characters. */
  lemma {:induction false} KeptIff(s: seq<schar>)
    ensures Encode(s) == s <==> forall c | c in s :: Plain(c)
  {
    if s != [] {
      KeptIff(s[1..]);
      LengthGrows(s[1..]);
      assert s == [s[0]] + s[1..];
    }
  }

  lemma {:induction false} LengthGrows(s: seq<schar>)
    ensures |Encode(s)| >= |s|
  {
    if s != [] {
      LengthGrows(s[1..]);
    }
  }

  /** Letters of both cases, digits, slash and full stop are kept, and no other character. */
  lemma KeptCharacters(c: schar)
    ensures Encode([c]) == [c] <==>
            c > 0 && var ch := c as int as char;
              ('a' <= ch <= 'z') || ('A' <= ch <= 'Z') || ('0' <= ch <= '9') || ch == '/' || ch == '.'
  {
    KeptIff([c]);
    assert [c][0] == c;
  }

  const LOWER: seq<schar> := [48, 49, 50, 51, 52, 53, 54, 55, 56, 57, 97, 98, 99, 100, 101, 102]
  const UPPER: seq<schar> := [48, 49, 50, 51, 52, 53, 54, 55, 56, 57, 65, 66, 67, 68, 69, 70]

  /** Digits of both cases decode alike, the first one counting 16; a character that is no digit counts as -1. */
  lemma DigitsOfBothCases(x: nat, y: nat)
    requires x < 16 && y < 16
    ensures Unsigned(DecodeTriple(LOWER[x], LOWER[y])) == 16 * x + y
    ensures Unsigned(DecodeTriple(UPPER[x], UPPER[y])) == 16 * x + y
    ensures Unsigned(DecodeTriple(UPPER[x], NUL)) == (16 * x + 255) % 256
  {
    DigitValues(x);
    DigitValues(y);
    CharRoundTrip(16 * x + y);
  }

  lemma DigitValues(x: nat)
    requires x < 16
    ensures HexToDec(LOWER[x]) == x == HexToDec(UPPER[x])
  {
  }

  /** A character is a digit exactly if it is listed in one of the two cases. */
  lemma OnlyDigitsCount(c: schar)
    ensures HexToDec(c) == -1 <==> c !in LOWER && c !in UPPER
  {
    if HexToDec(c) >= 0 {
      assert c == LOWER[HexToDec(c)] || c == UPPER[HexToDec(c)];
    } else {
      forall x | 0 <= x < 16 ensures c != LOWER[x] && c != UPPER[x] {
        DigitValues(x);
      }
    }
  }

  /** Decoding changes triples only: a text without '%', also one with '+', is its own decoding. */
  lemma {:induction false} NoPercentNoChange(t: seq<schar>)
    requires PERCENT !in t
    ensures WellFormed(t) && DecodeAll(t) == t
  {
    if t != [] {
      NoPercentNoChange(t[1..]);
    }
  }

  /** Hyphen, asterisk and underscore are not among them, and the slash is. */
  lemma DocumentedCharactersChange()
    ensures Encode([45]) == [PERCENT, 50, 68] && Encode([42]) == [PERCENT, 50, 65] && Encode([95]) == [PERCENT, 53, 70]
    ensures Encode([47]) == [47]
  {
    assert EncodeChar(45) == [PERCENT, 50, 68] && EncodeChar(42) == [PERCENT, 50, 65];
    assert EncodeChar(95) == [PERCENT, 53, 70] && EncodeChar(47) == [47];
  }

  lemma {:induction false} CanonicalIsWellFormed(t: seq<schar>)
    requires Canonical(t)
    ensures WellFormed(t) && NUL !in DecodeAll(t)
    decreases |t|
  {
    if t != [] {
      CanonicalIsWellFormed(if t[0] != PERCENT then t[1..] else t[3..]);
    }
  }

  // ----- round trips

  lemma {:induction false} DecodeAllEncode(s: seq<schar>)
    ensures WellFormed(Encode(s)) && DecodeAll(Encode(s)) == s
  {
    if s != [] {
      DecodeAllEncode(s[1..]);
      if Plain(s[0]) {
        assert Encode(s)[1..] == Encode(s[1..]);
      } else {
        TripleRoundTrip(s[0]);
        assert Encode(s)[3..] == Encode(s[1..]);
      }
    }
  }

  lemma {:induction false} UpToNulAll(s: seq<schar>)
    requires NUL !in s
    ensures UpToNul(s, NUL) == s
  {
    if s != [] {
      UpToNulAll(s[1..]);
    }
  }

  /** Decoding undoes encoding, for every C string. */
  lemma {:induction false} DecodeEncode(s: seq<schar>)
    requires NUL !in s
    ensures WellFormed(Encode(s)) && Decode(Encode(s)) == s
  {
    DecodeAllEncode(s);
    UpToNulAll(s);
  }

  lemma {:induction false} EncodeDecodeAll(t: seq<schar>)
    requires Canonical(t) && WellFormed(t)
    ensures Encode(DecodeAll(t)) == t
    decreases |t|
  {
    if t == [] {
    } else if t[0] != PERCENT {
      EncodeDecodeAll(t[1..]);
    } else {
      EncodeDecodeAll(t[3..]);
      TripleEncodes(t[1], t[2]);
      assert t == [PERCENT, t[1], t[2]] + t[3..];
    }
  }

  /** Encoding undoes decoding exactly on canonical texts. */
  lemma {:induction false} EncodeDecodeIff(t: seq<schar>)
    requires WellFormed(t)
    ensures Encode(Decode(t)) == t <==> Canonical(t)
  {
    EncodingShape(Decode(t));
    if Canonical(t) {
      CanonicalIsWellFormed(t);
      UpToNulAll(DecodeAll(t));
      EncodeDecodeAll(t);
    }
  }

  // ----- the code

  lemma {:induction false} EncodeAppend(s: seq<schar>, t: seq<schar>)
    ensures Encode(s + t) == Encode(s) + Encode(t)
    decreases |s|
  {
    if s == [] {
      assert s + t == t;
    } else {
      EncodeAppend(s[1..], t);
      assert (s + t)[0] == s[0] && (s + t)[1..] == s[1..] + t;
      Regroup(EncodeChar(s[0]), Encode(s[1..]), Encode(t));
    }
  }

  lemma EncodeSnoc(s: seq<schar>, i: nat)
    requires i < |s|
    ensures Encode(s[..i + 1]) == Encode(s[..i]) + EncodeChar(s[i])
  {
    EncodeAppend(s[..i], [s[i]]);
    assert s[..i] + [s[i]] == s[..i + 1];
  }

  lemma {:induction false} EncodeMonotone(s: seq<schar>, i: nat)
    requires i <= |s|
    ensures |Encode(s[..i])| <= |Encode(s)|
    decreases |s| - i
  {
    if i < |s| {
      EncodeSnoc(s, i);
      EncodeMonotone(s, i + 1);
    } else {
      assert s[..i] == s;
    }
  }

  /** What the encoding loop appends for one character. */
  method AppendEncoded(res: array<schar>, resLen: nat, c: schar) returns (newLen: nat)
    requires resLen + |EncodeChar(c)| <= res.Length
    modifies res
    ensures newLen == resLen + |EncodeChar(c)| && res[..newLen] == old(res[..resLen]) + EncodeChar(c)
  {
    if Plain(c) {
      res[resLen] := c;
      newLen := resLen + 1;
    } else {
      var j := c as int;
      if j < 0 {
        j := j + 256;
      }
      var i1 := j / 16;
      var i0 := j - i1 * 16;
      res[resLen], res[resLen + 1], res[resLen + 2] := PERCENT, DecToHex(i1), DecToHex(i0);
      newLen := resLen + 3;
    }
  }

  /** urlencode, for a text whose encoding fits both the work buffer and the caller's. */
  method UrlEncode(url: array<schar>, ghost text: seq<schar>)
    requires IsText(url[..], text, NUL) && |Encode(text)| < BURSIZE && |Encode(text)| < url.Length
    modifies url
    ensures IsText(url[..], Encode(text), NUL)
  {
    var len := StrLen(url, NUL, text);
    var res := new schar[BURSIZE];
    var resLen := 0;
    var i := 0;
    while i < len
      invariant 0 <= i <= len && url[..len] == text
      invariant resLen == |Encode(text[..i])| < BURSIZE && res[..resLen] == Encode(text[..i])
    {
      EncodeSnoc(text, i);
      EncodeMonotone(text, i + 1);
      var c := url[i];
      assert c == url[..len][i];
      resLen := AppendEncoded(res, resLen, c);
      i := i + 1;
    }
    assert text[..i] == text;
    EncodingShape(text);
    UpToNulAll(Encode(text));
    FinishCopy(url, res, resLen, Encode(text));
  }

  /** The end of both functions: the work buffer is terminated and copied back. */
  method FinishCopy(url: array<schar>, res: array<schar>, resLen: nat, ghost text: seq<schar>)
    requires url != res && resLen < res.Length && res[..resLen] == text && |UpToNul(text, NUL)| < url.Length
    modifies url, res
    ensures IsText(url[..], UpToNul(text, NUL), NUL)
  {
    res[resLen] := NUL;
    assert res[..resLen] == text;
    StrCpy(url, res, NUL, resLen);
  }

  /** The text from a position on; the loop may step over the terminator. */
  function From(text: seq<schar>, i: nat): seq<schar> {
    if i <= |text| then text[i..] else []
  }

  lemma DecodeTurn(text: seq<schar>, i: nat)
    requires i < |text| && WellFormed(From(text, i))
    ensures text[i] != PERCENT ==>
              WellFormed(From(text, i + 1)) && DecodeAll(From(text, i)) == [text[i]] + DecodeAll(From(text, i + 1))
    ensures text[i] == PERCENT ==>
              i + 1 < |text| && WellFormed(From(text, i + 3)) &&
              DecodeAll(From(text, i)) ==
              [DecodeTriple(text[i + 1], CharAt(text, i + 2))] + DecodeAll(From(text, i + 3))
  {
    var t := From(text, i);
    if text[i] != PERCENT {
      assert t[1..] == From(text, i + 1);
    } else {
      assert t[1] == text[i + 1] && CharAt(t, 2) == CharAt(text, i + 2);
      assert AfterTriple(t) == From(text, i + 3);
    }
  }

  lemma TextAt(buf: seq<schar>, text: seq<schar>, k: nat)
    requires IsText(buf, text, NUL) && k <= |text|
    ensures buf[k] == CharAt(text, k)
  {
  }

  /** One turn of the decoding loop: the next character, and how far it reaches. */
  method DecodeNext(url: array<schar>, i: nat, ghost text: seq<schar>) returns (c: schar, next: nat)
    requires IsText(url[..], text, NUL) && i < |text| && WellFormed(From(text, i))
    ensures i < next <= |text| + 1 && WellFormed(From(text, next))
    ensures DecodeAll(From(text, i)) == [c] + DecodeAll(From(text, next))
  {
    DecodeTurn(text, i);
    TextAt(url[..], text, i);
    c := url[i];
    if c != PERCENT {
      return c, i + 1;
    }
    TextAt(url[..], text, i + 1);
    TextAt(url[..], text, i + 2);
    var c1 := url[i + 1];
    var c0 := url[i + 2];
    var num := HexToDec(c1) * 16 + HexToDec(c0);
    return ToChar(num), i + 3;
  }

  /** `prefix` is the decoding of `text` before position `i`. */
  ghost predicate Decoded(prefix: seq<schar>, text: seq<schar>, i: nat)
    requires WellFormed(text)
  {
    WellFormed(From(text, i)) && prefix + DecodeAll(From(text, i)) == DecodeAll(text)
  }

  lemma DecodedTurn(prefix: seq<schar>, text: seq<schar>, i: nat, c: schar, next: nat)
    requires WellFormed(text) && Decoded(prefix, text, i) && WellFormed(From(text, next))
    requires DecodeAll(From(text, i)) == [c] + DecodeAll(From(text, next))
    ensures Decoded(prefix + [c], text, next) && |prefix| < |DecodeAll(text)|
  {
    Regroup(prefix, [c], DecodeAll(From(text, next)));
    assert |prefix + DecodeAll(From(text, i))| == |DecodeAll(text)|;
  }

  /** urldecode, for a text in which every '%' is followed by a character, and whose decoding fits. */
  method UrlDecode(url: array<schar>, ghost text: seq<schar>)
    requires IsText(url[..], text, NUL) && WellFormed(text) && |DecodeAll(text)| < BURSIZE
    modifies url
    ensures IsText(url[..], Decode(text), NUL)
  {
    var len := StrLen(url, NUL, text);
    var res := new schar[BURSIZE];
    var resLen := 0;
    var i := 0;
    while i < len
      invariant 0 <= i <= len + 1 && IsText(url[..], text, NUL)
      invariant resLen < BURSIZE && Decoded(res[..resLen], text, i)
    {
      ghost var before := res[..resLen];
      var c, next := DecodeNext(url, i, text);
      DecodedTurn(before, text, i, c, next);
      DecodedLength(before + [c], text, next);
      res[resLen] := c;
      resLen := resLen + 1;
      i := next;
      assert res[..resLen] == before + [c];
    }
    assert From(text, i) == [];
    assert res[..resLen] == DecodeAll(text);
    FinishCopy(url, res, resLen, DecodeAll(text));
  }

  lemma DecodedLength(prefix: seq<schar>, text: seq<schar>, i: nat)
    requires WellFormed(text) && Decoded(prefix, text, i)
    ensures |prefix| <= |DecodeAll(text)|
  {
    assert |prefix + DecodeAll(From(text, i))| == |DecodeAll(text)|;
  }
}
