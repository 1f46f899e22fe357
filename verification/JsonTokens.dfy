/** The scalar tokens of JSON by their grammar: sections 3, 6 and 7 of RFC 8259, and Python's three constants. */
module JsonTokens {
  import opened Text
  import opened Wrappers
  import opened JsonLexer

  // ---------------------------------------------------------------------- strings

  /** `c` is the hexadecimal digit for `d`, in either case. */
  ghost predicate HexIs(c: char, d: int) {
    0 <= d < 16 && (c == "0123456789abcdef"[d] || c == "0123456789ABCDEF"[d])
  }

  /** `s` is `\u` and the four hexadecimal digits of `code`. */
  ghost predicate UnitIs(s: string, code: int) {
    |s| == 6 && s[0] == '\\' && s[1] == 'u'
    && exists a, b, c, d :: HexIs(s[2], a) && HexIs(s[3], b) && HexIs(s[4], c) && HexIs(s[5], d)
                            && code == ((a * 16 + b) * 16 + c) * 16 + d
  }

  /** The escapes of one letter. */
  ghost predicate ShortIs(raw: string, c: char) {
    && |raw| == 2 && raw[0] == '\\'
    && (raw[1], c as int) in {('"', 0x22), ('\\', 0x5C), ('/', 0x2F), ('b', 8), ('t', 9), ('n', 10), ('f', 12), ('r', 13)}
  }

  /** Two code units that stand for one character beyond the first 65536. */
  ghost predicate PairIs(raw: string, c: char) {
    && |raw| == 12
    && exists high, low ::
      && UnitIs(raw[..6], high) && UnitIs(raw[6..], low)
      && 0xD800 <= high <= 0xDBFF && 0xDC00 <= low <= 0xDFFF
      && c as int == 0x10000 + (high - 0xD800) * 1024 + (low - 0xDC00)
  }

  /** A character of a string as it may be written: itself, after a backslash, or by its code units. */
  ghost predicate IsPiece(raw: string, c: char) {
    (raw == [c] && c as int >= 32 && c != '"' && c != '\\') || ShortIs(raw, c) || UnitIs(raw, c as int) || PairIs(raw, c)
  }

  lemma HexIsDigit(c: char, d: int)
    ensures HexIs(c, d) <==> 0 <= d && HexDigit(c) == Some(d)
  {
    assert |"0123456789abcdef"| == 16 && |"0123456789ABCDEF"| == 16;
  }

  lemma {:induction false} UnitIsHex(s: string, code: int)
    requires |s| >= 4
    ensures UnitIs("\\u" + s[..4], code) <==> 0 <= code && Hex4(s) == Some(code)
  {
    hide HexIs, HexDigit;
    var u := "\\u" + s[..4];
    assert u[2] == s[0] && u[3] == s[1] && u[4] == s[2] && u[5] == s[3];
    forall c, d ensures HexIs(c, d) <==> 0 <= d && HexDigit(c) == Some(d) {
      HexIsDigit(c, d);
    }
    if Hex4(s) == Some(code) {
      var a, b, c, d := HexDigit(s[0]).value, HexDigit(s[1]).value, HexDigit(s[2]).value, HexDigit(s[3]).value;
      assert HexIs(u[2], a) && HexIs(u[3], b) && HexIs(u[4], c) && HexIs(u[5], d);
    }
  }

  lemma UnitTail(s: string, code: int)
    requires UnitIs(s, code)
    ensures |s| == 6 && s == "\\u" + s[2..][..4]
  {
  }

  lemma {:induction false} UnicodeIsPiece(s: string, c: char, k: nat)
    requires UnicodeEscape(s) == Some((c, k))
    ensures k <= |s| && IsPiece("\\u" + s[..k], c)
  {
    hide UnitIs, Hex4, ShortIs;
    var raw := "\\u" + s[..k];
    UnitIsHex(s, Hex4(s).value);
    if k == 10 {
      assert raw[..6] == "\\u" + s[..4];
      UnitIsHex(s[6..], Hex4(s[6..]).value);
      assert raw[6..] == "\\u" + s[6..][..4];
    }
  }

  lemma ShortEscapeIs(letter: char, c: char)
    ensures ShortEscape(letter) == Some(c) <==> ShortIs(['\\', letter], c)
  {
  }

  /** What is read next is a way to write a character ... */
  lemma {:induction false} NextIsPiece(s: string, c: char, k: nat)
    requires NextChar(s) == Some((c, k))
    ensures k <= |s| && IsPiece(s[..k], c)
  {
    hide UnitIs, PairIs, ShortIs, UnicodeEscape, ShortEscape;
    if s[0] != '\\' {
      assert s[..1] == [c];
    } else if s[1..][0] == 'u' {
      UnicodeIsPiece(s[2..], c, k - 2);
      assert s[1..][1..] == s[2..];
      assert s[..k] == "\\u" + s[2..][..k - 2];
    } else {
      ShortEscapeIs(s[1], c);
      assert s[..k] == ['\\', s[1]];
    }
  }

  lemma {:induction false} UnitIsNext(raw: string, c: char, rest: string)
    requires UnitIs(raw, c as int)
    ensures NextChar(raw + rest) == Some((c, 6))
  {
    hide Hex4;
    var s := (raw + rest)[2..];
    UnitTail(raw, c as int);
    assert s[..4] == raw[2..][..4];
    UnitIsHex(s, c as int);
    assert (raw + rest)[1..][1..] == s;
    assert UnicodeEscape(s) == Some((c, 4));
  }

  lemma {:induction false} PairIsNext(raw: string, c: char, rest: string)
    requires PairIs(raw, c)
    ensures NextChar(raw + rest) == Some((c, 12))
  {
    hide Hex4, UnitIs;
    var high, low :| UnitIs(raw[..6], high) && UnitIs(raw[6..], low)
      && 0xD800 <= high <= 0xDBFF && 0xDC00 <= low <= 0xDFFF
      && c as int == 0x10000 + (high - 0xD800) * 1024 + (low - 0xDC00);
    var s := (raw + rest)[2..];
    UnitTail(raw[..6], high);
    UnitTail(raw[6..], low);
    assert raw[0] == raw[..6][0] && raw[1] == raw[..6][1];
    assert s[..4] == raw[..6][2..][..4] && s[6..][..4] == raw[6..][2..][..4];
    UnitIsHex(s, high);
    UnitIsHex(s[6..], low);
    assert s[4] == raw[6..][0] && s[5] == raw[6..][1];
    assert (raw + rest)[1..][1..] == s;
    assert UnicodeEscape(s) == Some((c, 10));
  }

  /** ... and every way to write one is read as it. */
  lemma {:induction false} PieceIsNext(raw: string, c: char, rest: string)
    requires IsPiece(raw, c)
    ensures NextChar(raw + rest) == Some((c, |raw|)) && raw != "" && raw[0] != '"'
  {
    hide UnitIs, PairIs, Hex4, UnicodeEscape, ShortEscape;
    if UnitIs(raw, c as int) {
      UnitTail(raw, c as int);
      UnitIsNext(raw, c, rest);
    } else if PairIs(raw, c) {
      PairIsNext(raw, c, rest);
      PairStarts(raw, c);
    } else if ShortIs(raw, c) {
      assert raw == ['\\', raw[1]];
      ShortEscapeIs(raw[1], c);
      assert (raw + rest)[1..][0] == raw[1] && raw[1] != 'u';
    }
  }

  lemma PairStarts(raw: string, c: char)
    requires PairIs(raw, c)
    ensures |raw| == 12 && raw[0] == '\\'
  {
    assert raw[..6][0] == raw[0];
  }

  function Concat(parts: seq<string>): string {
    if parts == [] then "" else parts[0] + Concat(parts[1..])
  }

  /** The text `v` written character by character. */
  ghost predicate Writes(raws: seq<string>, v: string) {
    |raws| == |v| && forall i :: 0 <= i < |v| ==> IsPiece(raws[i], v[i])
  }

  lemma {:induction false} BodyIsWritten(s: string, v: string) returns (raws: seq<string>)
    requires ScanBody(s) == Some((v, |s|))
    ensures Writes(raws, v) && s == Concat(raws) + "\""
    decreases |s|
  {
    hide NextChar, IsPiece;
    if s[0] == '"' {
      raws := [];
      assert s == "\"";
    } else {
      var (c, k) := NextChar(s).value;
      NextIsPiece(s, c, k);
      var more := BodyIsWritten(s[k..], v[1..]);
      raws := [s[..k]] + more;
      assert raws[1..] == more;
      assert s == s[..k] + s[k..];
    }
  }

  lemma {:induction false} WrittenIsBody(raws: seq<string>, v: string)
    requires Writes(raws, v)
    ensures ScanBody(Concat(raws) + "\"") == Some((v, |Concat(raws)| + 1))
    decreases |raws|
  {
    hide NextChar, IsPiece;
    if raws == [] {
      assert Concat(raws) + "\"" == "\"";
    } else {
      var rest := Concat(raws[1..]) + "\"";
      var s := Concat(raws) + "\"";
      assert s == raws[0] + rest;
      PieceIsNext(raws[0], v[0], rest);
      WrittenIsBody(raws[1..], v[1..]);
      assert s[|raws[0]|..] == rest;
      BodyStep(s, v[1..], |rest|);
      assert [v[0]] + v[1..] == v;
    }
  }

  /** A string token is its text, written character by character, between quotes. */
  ghost predicate IsStringToken(token: string, v: string) {
    exists raws :: Writes(raws, v) && token == "\"" + Concat(raws) + "\""
  }

  lemma {:induction false} StringTokens(token: string, v: string)
    ensures ScanString(token) == Some((v, |token|)) <==> IsStringToken(token, v)
  {
    hide Writes, ScanBody;
    if ScanString(token) == Some((v, |token|)) {
      var raws := BodyIsWritten(token[1..], v);
      assert token == "\"" + Concat(raws) + "\"";
    }
    if IsStringToken(token, v) {
      var raws :| Writes(raws, v) && token == "\"" + Concat(raws) + "\"";
      WrittenIsBody(raws, v);
      assert token[1..] == Concat(raws) + "\"";
    }
  }

  // ---------------------------------------------------------------------- numbers

  ghost predicate IsFraction(s: string) {
    s == "" || (|s| >= 2 && s[0] == '.' && AllDigits(s[1..]))
  }

  ghost predicate IsExponent(s: string) {
    || s == ""
    || (|s| >= 2 && (s[0] == 'e' || s[0] == 'E')
        && (AllDigits(s[1..]) || (|s| >= 3 && (s[1] == '+' || s[1] == '-') && AllDigits(s[2..]))))
  }

  ghost predicate IsWhole(s: string) {
    Canonical(s) || (|s| >= 2 && s[0] == '-' && Canonical(s[1..]))
  }

  /** A number with a fraction, an exponent, or both. */
  ghost predicate NumberIs(token: string, whole: string, fraction: string, exponent: string) {
    && token == whole + fraction + exponent
    && IsWhole(whole) && IsFraction(fraction) && IsExponent(exponent) && fraction + exponent != ""
  }

  lemma {:induction false} WholeLength(s: string)
    ensures IntLength(s) > 0 ==> IsWhole(s[..IntLength(s)])
  {
    hide DigitRun;
    var m, a := MinusLength(s), IntLength(s);
    if a > 0 {
      assert s[m..a] == s[..a][m..];
      assert m == 0 ==> s[m..a] == s[..a];
      assert s[m] == s[m..a][0];
    }
  }

  lemma {:induction false} WholeIsRead(whole: string, rest: string)
    requires IsWhole(whole) && (rest == "" || !IsDigit(rest[0]))
    ensures IntLength(whole + rest) == |whole|
  {
    hide DigitRun;
    var s := whole + rest;
    var m := MinusLength(s);
    var digits := whole[m..];
    assert Canonical(digits);
    assert s[m..] == digits + rest && s[m] == digits[0];
    if digits[0] != '0' {
      assert s[m..][..|digits|] == digits;
      DigitRunIs(s[m..], |digits|);
    }
  }

  lemma {:induction false} RunHere(s: string, n: nat)
    requires n <= |s| && AllDigits(s[..n]) && (n == |s| || !IsDigit(s[n]))
    ensures DigitRun(s) == n
  {
    DigitRunIs(s, n);
  }

  lemma {:induction false} FractionLengthIs(s: string)
    ensures IsFraction(s[..FractionLength(s)])
  {
    hide DigitRun;
    var n := FractionLength(s);
    if n > 0 {
      assert s[..n][1..] == s[1..][..n - 1];
      assert n >= 2 by { RunStarts(s[1..]); }
    }
  }

  lemma RunStarts(s: string)
    requires s != "" && IsDigit(s[0])
    ensures DigitRun(s) > 0
  {
  }

  lemma {:induction false} FractionIsRead(fraction: string, rest: string)
    requires IsFraction(fraction) && (rest == "" || rest[0] == 'e' || rest[0] == 'E')
    ensures FractionLength(fraction + rest) == |fraction|
  {
    hide DigitRun;
    var s := fraction + rest;
    if fraction != "" {
      var digits := fraction[1..];
      assert s[1..] == digits + rest && s[1] == digits[0];
      assert s[1..][..|digits|] == digits;
      RunHere(s[1..], |digits|);
    }
  }

  lemma {:induction false} ExponentLengthIs(s: string)
    ensures IsExponent(s[..ExponentLength(s)])
  {
    hide DigitRun;
    var n := ExponentLength(s);
    if n > 0 {
      var g := SignLength(s[1..]);
      assert s[1 + g..][..n - 1 - g] == s[..n][1 + g..];
      assert g == 1 ==> s[..n][1] == s[1..][0];
    }
  }

  lemma {:induction false} ExponentIsRead(exponent: string)
    requires IsExponent(exponent)
    ensures ExponentLength(exponent) == |exponent|
  {
    hide DigitRun;
    if exponent != "" {
      var g := if AllDigits(exponent[1..]) then 0 else 1;
      var digits := exponent[1 + g..];
      assert exponent[1] == exponent[1..][0];
      assert g == 1 ==> AllDigits(exponent[2..]);
      assert digits[..|digits|] == digits;
      assert SignLength(exponent[1..]) == g;
      RunHere(digits, |digits|);
    }
  }

  lemma TailStarts(fraction: string, exponent: string)
    requires IsFraction(fraction) && IsExponent(exponent)
    ensures fraction + exponent == "" || !IsDigit((fraction + exponent)[0])
    ensures exponent == "" || exponent[0] == 'e' || exponent[0] == 'E'
  {
  }

  lemma {:induction false} NumberIsRead(token: string, whole: string, fraction: string, exponent: string)
    requires NumberIs(token, whole, fraction, exponent)
    ensures ScanScalar(token) == Some((Other(token), |token|))
  {
    hide IntLength, FractionLength, ExponentLength, IsWhole, IsFraction, IsExponent, IntOf;
    var tail := fraction + exponent;
    assert token == whole + tail && token[|whole|..] == tail && tail[|fraction|..] == exponent;
    TailStarts(fraction, exponent);
    WholeIsRead(whole, tail);
    FractionIsRead(fraction, exponent);
    ExponentIsRead(exponent);
    assert IntLength(token) == |whole| && TailLength(tail) == |tail|;
    assert token[..|token|] == token;
    WholeIsText(whole);
    assert ScanNumber(token) == Some((Other(token), |token|));
    NumberIsNoConstant(token);
    assert token[0] == whole[0];
  }

  lemma WholeIsText(whole: string)
    requires IsWhole(whole)
    ensures |whole| > 0 && whole[0] != '"'
  {
  }

  lemma {:induction false} ReadIsNumber(token: string, v: Json) returns (whole: string, fraction: string, exponent: string)
    requires ScanNumber(token) == Some((v, |token|)) && v.Other?
    ensures NumberIs(token, whole, fraction, exponent) && v == Other(token)
  {
    hide IntLength, FractionLength, ExponentLength, IsWhole, IsFraction, IsExponent, IntOf;
    var a := IntLength(token);
    var tail := token[a..];
    var b := FractionLength(tail);
    WholeLength(token);
    FractionLengthIs(tail);
    ExponentLengthIs(tail[b..]);
    whole, fraction, exponent := token[..a], tail[..b], tail[b..];
    assert TailLength(tail) == |tail|;
    assert tail[b..][..ExponentLength(tail[b..])] == tail[b..];
    assert tail == fraction + exponent && token == whole + tail;
    assert token[..|token|] == token;
  }

  // ---------------------------------------------------------------------- scalars

  ghost predicate IsConstant(token: string) {
    token in {"null", "true", "false", "NaN", "Infinity", "-Infinity"}
  }

  lemma ConstantsAre(token: string)
    ensures ScanConstant(token) == Some((Other(token), |token|)) <==> IsConstant(token)
    ensures IsConstant(token) ==> |token| > 0 && token[0] != '"'
  {
  }

  lemma ConstantIsWhole(token: string, v: Json)
    requires ScanConstant(token) == Some((v, |token|))
    ensures v == Other(token)
  {
  }

  /** A number with a fraction or an exponent, or a constant. */
  ghost predicate IsOtherToken(token: string) {
    IsConstant(token) || exists whole, fraction, exponent :: NumberIs(token, whole, fraction, exponent)
  }

  /** A token is a scalar with a value exactly when it is the value's text between quotes, its decimal digits, or a
  number with a fraction or an exponent or one of six constants, which stand for themselves. */
  lemma {:induction false} ScalarsAreGrammar(token: string, v: Json)
    ensures ScanScalar(token) == Some((v, |token|)) <==>
      || (v.Str? && IsStringToken(token, v.s))
      || (v.Int? && (token == SignedDecimal(v.n) || (token == "-0" && v.n == 0)))
      || (v == Other(token) && IsOtherToken(token))
  {
    match v
    case Str(s) => StringScalars(token, s);
    case Int(n) => IntTokens(token, n);
    case Other(t) => OtherScalars(token, t);
    case Array(_) => NoBrackets(token, v);
    case Object(_) => NoBrackets(token, v);
  }

  lemma NoBrackets(token: string, v: Json)
    requires v.Array? || v.Object?
    ensures ScanScalar(token) != Some((v, |token|))
  {
    hide IntLength, TailLength;
  }

  lemma {:induction false} StringScalars(token: string, s: string)
    ensures ScanScalar(token) == Some((Str(s), |token|)) <==> IsStringToken(token, s)
  {
    hide IsStringToken, ScanString, ScanNumber;
    StringTokens(token, s);
    StringStarts(token);
    NumbersAreNoText(token);
  }

  lemma StringStarts(token: string)
    ensures ScanString(token).Some? ==> token != "" && token[0] == '"'
  {
  }

  lemma NumbersAreNoText(token: string)
    ensures ScanNumber(token).Some? ==> !ScanNumber(token).value.0.Str?
  {
    hide IntLength, TailLength;
  }

  lemma {:induction false} OtherScalars(token: string, t: string)
    ensures ScanScalar(token) == Some((Other(t), |token|)) <==> t == token && IsOtherToken(token)
  {
    hide ScanConstant, ScanNumber, ScanString, IsConstant, NumberIs;
    ConstantsAre(token);
    if ScanScalar(token) == Some((Other(t), |token|)) {
      if ScanConstant(token).Some? {
        ConstantIsWhole(token, Other(t));
      } else {
        var whole, fraction, exponent := ReadIsNumber(token, Other(t));
      }
    }
    if IsOtherToken(token) && !IsConstant(token) {
      var whole, fraction, exponent :| NumberIs(token, whole, fraction, exponent);
      NumberIsRead(token, whole, fraction, exponent);
    }
  }

  // --------------------------------------------------------------------- printing

  /** Printing writes every character in a shortest way, and code units in lower case. */
  lemma {:induction false} EscapeIsShortest(c: char, raw: string)
    ensures IsPiece(EscapeChar(c), c)
    ensures IsPiece(raw, c) ==> |EscapeChar(c)| <= |raw|
    ensures forall i :: 0 <= i < |EscapeChar(c)| && |EscapeChar(c)| > 1 ==> !('A' <= EscapeChar(c)[i] <= 'F')
  {
    hide UnitIs, PairIs;
    if ShortLetter(c).None? && c < ' ' {
      ControlUnit(c);
    }
    if UnitIs(raw, c as int) { UnitTail(raw, c as int); }
    if PairIs(raw, c) { PairStarts(raw, c); }
  }

  lemma ControlUnit(c: char)
    requires c < ' '
    ensures UnitIs(['\\', 'u', '0', '0', HexChar(c as nat / 16), HexChar(c as nat % 16)], c as int)
  {
    var s := ['\\', 'u', '0', '0', HexChar(c as nat / 16), HexChar(c as nat % 16)];
    HexIsDigit(s[4], c as int / 16);
    HexIsDigit(s[5], c as int % 16);
    HexIsDigit('0', 0);
    assert HexIs(s[2], 0) && HexIs(s[3], 0) && HexIs(s[4], c as int / 16) && HexIs(s[5], c as int % 16);
  }

  /** The way each character of a text is printed. */
  function Escapes(s: string): (raws: seq<string>)
    ensures |raws| == |s| && forall i :: 0 <= i < |s| ==> raws[i] == EscapeChar(s[i])
  {
    if s == "" then [] else [EscapeChar(s[0])] + Escapes(s[1..])
  }

  /** A printed string is its characters, each in a shortest way, between quotes. */
  lemma {:induction false} DumpsIsShortest(s: string, raws: seq<string>)
    ensures Dumps(Str(s)) == "\"" + Concat(Escapes(s)) + "\"" && Writes(Escapes(s), s)
    ensures Writes(raws, s) ==> forall i :: 0 <= i < |s| ==> |Escapes(s)[i]| <= |raws[i]|
  {
    hide IsPiece, EscapeChar;
    EscapesConcat(s);
    forall i | 0 <= i < |s| ensures IsPiece(Escapes(s)[i], s[i]) && (Writes(raws, s) ==> |Escapes(s)[i]| <= |raws[i]|) {
      EscapeIsShortest(s[i], if Writes(raws, s) then raws[i] else "");
    }
  }

  lemma {:induction false} EscapesConcat(s: string)
    ensures Concat(Escapes(s)) == EscapeText(s)
  {
    hide EscapeChar;
    if s != "" { EscapesConcat(s[1..]); }
  }
}
