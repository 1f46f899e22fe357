/** JSON scalars: reading one from the front of a text, and printing one.

The grammar is that of section 2, 3, 6 and 7 of RFC 8259, with the constants `NaN`,
`Infinity` and `-Infinity` that Python's decoder also reads. */
module JsonLexer {
  import opened Text
  import opened Wrappers

  /** A number with a fraction or an exponent, and a constant, is kept as its token. */
  datatype Json =
    | Str(s: string)
    | Int(n: int)
    | Other(token: string)
    | Array(items: seq<Json>)
    | Object(fields: map<string, Json>)

  // ---------------------------------------------------------------------- strings

  function HexDigit(c: char): (r: Option<nat>)
    ensures r.Some? ==> r.value < 16
  {
    if '0' <= c <= '9' then Some((c - '0') as nat)
    else if 'a' <= c <= 'f' then Some((c - 'a') as nat + 10)
    else if 'A' <= c <= 'F' then Some((c - 'A') as nat + 10)
    else None
  }

  function Hex4(s: string): (r: Option<nat>)
    ensures r.Some? ==> |s| >= 4 && r.value < 0x10000
  {
    if |s| < 4 then None
    else
      var a, b, c, d := HexDigit(s[0]), HexDigit(s[1]), HexDigit(s[2]), HexDigit(s[3]);
      if a.None? || b.None? || c.None? || d.None? then None
      else Some(a.value * 4096 + b.value * 256 + c.value * 16 + d.value)
  }

  /** The character of a `\u` escape whose hex digits start `s`, and the characters used. */
  function UnicodeEscape(s: string): (r: Option<(char, nat)>)
    ensures r.Some? ==> 0 < r.value.1 <= |s|
  {
    var code := Hex4(s);
    if code.None? then None
    else if code.value < 0xD800 || 0xE000 <= code.value then Some((code.value as char, 4))
    else if code.value < 0xDC00 && |s| >= 10 && s[4] == '\\' && s[5] == 'u' then
      var low := Hex4(s[6..]);
      if low.Some? && 0xDC00 <= low.value < 0xE000 then
        Some(((0x10000 + (code.value - 0xD800) * 0x400 + (low.value - 0xDC00)) as char, 10))
      else None
    else None
  }

  /** What a one-letter escape stands for. */
  function ShortEscape(letter: char): Option<char> {
    match letter
    case '"' => Some('"')
    case '\\' => Some('\\')
    case '/' => Some('/')
    case 'b' => Some('\U{8}')
    case 'f' => Some('\U{C}')
    case 'n' => Some('\n')
    case 'r' => Some('\r')
    case 't' => Some('\t')
    case _ => None
  }

  /** The character of the escape after a backslash, and the characters used. */
  function Escape(s: string): (r: Option<(char, nat)>)
    ensures r.Some? ==> 0 < r.value.1 <= |s|
  {
    if s == "" then None
    else if s[0] == 'u' then
      match UnicodeEscape(s[1..])
      case None => None
      case Some((c, k)) => Some((c, k + 1))
    else match ShortEscape(s[0])
      case None => None
      case Some(c) => Some((c, 1))
  }

  /** The next character of a string body, plain or escaped, and the characters used. */
  function NextChar(s: string): (r: Option<(char, nat)>)
    ensures r.Some? ==> 0 < r.value.1 <= |s|
  {
    if s == "" || s[0] == '"' || s[0] < ' ' then None
    else if s[0] != '\\' then Some((s[0], 1))
    else match Escape(s[1..])
      case None => None
      case Some((c, k)) => Some((c, k + 1))
  }

  /** A string body after its opening quote: the value, and the characters used with the closing quote. */
  function ScanBody(s: string): (r: Option<(string, nat)>)
    ensures r.Some? ==> 0 < r.value.1 <= |s|
    decreases |s|
  {
    if s != "" && s[0] == '"' then Some(("", 1))
    else match NextChar(s)
      case None => None
      case Some((c, k)) =>
        match ScanBody(s[k..])
        case None => None
        case Some((v, n)) => Some(([c] + v, k + n))
  }

  function ScanString(s: string): (r: Option<(string, nat)>)
    ensures r.Some? ==> 0 < r.value.1 <= |s|
  {
    if s == "" || s[0] != '"' then None
    else match ScanBody(s[1..])
      case None => None
      case Some((v, n)) => Some((v, n + 1))
  }

  // ---------------------------------------------------------------------- numbers

  function DigitRun(s: string): (n: nat)
    ensures n <= |s| && AllDigits(s[..n])
  {
    if s == "" || !IsDigit(s[0]) then 0
    else
      var n := DigitRun(s[1..]);
      assert s[..n + 1] == [s[0]] + s[1..][..n];
      n + 1
  }

  function MinusLength(s: string): nat {
    if s != "" && s[0] == '-' then 1 else 0
  }

  /** Length of `-?(0|[1-9][0-9]*)` at the front, or 0. */
  function IntLength(s: string): (n: nat)
    ensures n <= |s|
    ensures n > 0 ==> MinusLength(s) < n && AllDigits(s[MinusLength(s)..n])
  {
    var m := MinusLength(s);
    if |s| == m || !IsDigit(s[m]) then 0
    else if s[m] == '0' then m + 1
    else
      var n := DigitRun(s[m..]);
      assert s[m..m + n] == s[m..][..n];
      m + n
  }

  function FractionLength(s: string): (n: nat)
    ensures n <= |s|
  {
    if |s| >= 2 && s[0] == '.' && IsDigit(s[1]) then 1 + DigitRun(s[1..]) else 0
  }

  function SignLength(s: string): (n: nat)
    ensures n <= |s|
  {
    if s != "" && (s[0] == '+' || s[0] == '-') then 1 else 0
  }

  function ExponentLength(s: string): (n: nat)
    ensures n <= |s|
  {
    if s == "" || (s[0] != 'e' && s[0] != 'E') then 0
    else
      var digits := DigitRun(s[1 + SignLength(s[1..])..]);
      if digits == 0 then 0 else 1 + SignLength(s[1..]) + digits
  }

  /** Length of fraction and exponent. */
  function TailLength(s: string): (n: nat)
    ensures n <= |s|
  {
    var b := FractionLength(s);
    b + ExponentLength(s[b..])
  }

  /** The integer at the front. */
  function IntOf(s: string): int
    requires IntLength(s) > 0
  {
    var n: int := Number(s[MinusLength(s)..IntLength(s)]);
    if MinusLength(s) == 1 then -n else n
  }

  function ScanNumber(s: string): (r: Option<(Json, nat)>)
    ensures r.Some? ==> 0 < r.value.1 <= |s|
  {
    var a := IntLength(s);
    if a == 0 then None
    else
      var n := TailLength(s[a..]);
      if n > 0 then Some((Other(s[..a + n]), a + n)) else Some((Int(IntOf(s)), a))
  }

  // ---------------------------------------------------------------------- scalars

  /** The constant that starts with `c`, if there is one. */
  function ConstantFor(c: char): string {
    match c
    case 'n' => "null"
    case 't' => "true"
    case 'f' => "false"
    case 'N' => "NaN"
    case 'I' => "Infinity"
    case '-' => "-Infinity"
    case _ => ""
  }

  function ScanConstant(s: string): (r: Option<(Json, nat)>)
    ensures r.Some? ==> 0 < r.value.1 <= |s|
  {
    if s == "" then None
    else
      var constant := ConstantFor(s[0]);
      if constant != "" && constant <= s then Some((Other(constant), |constant|)) else None
  }

  /** `raw_decode` where no bracket stands: the value and the characters used. */
  function ScanScalar(s: string): (r: Option<(Json, nat)>)
    ensures r.Some? ==> 0 < r.value.1 <= |s|
  {
    if s != "" && s[0] == '"' then
      match ScanString(s)
      case None => None
      case Some((v, n)) => Some((Str(v), n))
    else
      var constant := ScanConstant(s);
      if constant.Some? then constant else ScanNumber(s)
  }

  predicate IsSpace(c: char) {
    c == ' ' || c == '\n' || c == '\r' || c == '\t'
  }

  /** What may follow a scalar. */
  predicate IsBoundary(s: string) {
    s == "" || IsSpace(s[0]) || s[0] == ',' || s[0] == '}' || s[0] == ']'
  }

  // ----------------------------------------------- a token is read by itself alone

  lemma Hex4Local(s: string, t: string)
    requires Hex4(s).Some? && |t| >= 4 && t[..4] == s[..4]
    ensures Hex4(t) == Hex4(s)
  {
    assert forall i :: 0 <= i < 4 ==> t[i] == t[..4][i] && s[i] == s[..4][i];
  }

  lemma EscapeLocal(s: string, t: string)
    requires Escape(s).Some?
    requires var k := Escape(s).value.1; |t| >= k && t[..k] == s[..k]
    ensures Escape(t) == Escape(s)
  {
    var k := Escape(s).value.1;
    assert forall i :: 0 <= i < k ==> t[i] == t[..k][i] && s[i] == s[..k][i];
    if s[0] == 'u' {
      var s', t' := s[1..], t[1..];
      assert t'[..4] == s'[..4] by { assert forall i :: 0 <= i < 4 ==> t'[i] == t[i + 1] && s'[i] == s[i + 1]; }
      Hex4Local(s', t');
      if k == 11 {
        assert t'[4] == t[5] && s'[4] == s[5] && t'[5] == t[6] && s'[5] == s[6];
        assert t'[6..][..4] == s'[6..][..4] by {
          assert forall i :: 0 <= i < 4 ==> t'[6..][i] == t[i + 7] && s'[6..][i] == s[i + 7];
        }
        Hex4Local(s'[6..], t'[6..]);
      }
    }
  }

  lemma SameTail(s: string, t: string, k: nat, j: nat)
    requires j <= k <= |s| && k <= |t| && t[..k] == s[..k]
    ensures t[j..][..k - j] == s[j..][..k - j]
    ensures forall i :: 0 <= i < k ==> t[i] == s[i]
  {
    assert t[j..][..k - j] == t[..k][j..] && s[j..][..k - j] == s[..k][j..];
    assert forall i :: 0 <= i < k ==> t[i] == t[..k][i] && s[i] == s[..k][i];
  }

  lemma SameHead(s: string, t: string, k: nat, j: nat)
    requires j <= k <= |s| && k <= |t| && t[..k] == s[..k]
    ensures t[..j] == s[..j]
  {
    assert t[..j] == t[..k][..j] && s[..j] == s[..k][..j];
  }

  lemma NextCharLocal(s: string, t: string, k: nat)
    requires NextChar(s).Some? && NextChar(s).value.1 <= k <= |s| && k <= |t| && t[..k] == s[..k]
    ensures NextChar(t) == NextChar(s)
  {
    SameTail(s, t, k, 1);
    if s[0] == '\\' {
      var e := Escape(s[1..]).value.1;
      SameHead(s[1..], t[1..], k - 1, e);
      EscapeLocal(s[1..], t[1..]);
    }
  }

  lemma BodyStep(s: string, v: string, n: nat)
    requires NextChar(s).Some? && ScanBody(s[NextChar(s).value.1..]) == Some((v, n))
    ensures ScanBody(s) == Some(([NextChar(s).value.0] + v, NextChar(s).value.1 + n))
  {
    hide NextChar;
    NoQuote(s);
  }

  lemma NoQuote(s: string)
    requires NextChar(s).Some?
    ensures s != "" && s[0] != '"'
  {
  }

  lemma {:induction false} ScanBodyLocal(s: string, t: string, v: string, k: nat)
    requires ScanBody(s) == Some((v, k)) && k <= |t| && t[..k] == s[..k]
    ensures ScanBody(t) == Some((v, k))
    decreases |s|
  {
    hide NextChar;
    SameTail(s, t, k, 0);
    if s[0] != '"' {
      var (c, e) := NextChar(s).value;
      var (w, n) := ScanBody(s[e..]).value;
      NextCharLocal(s, t, k);
      SameTail(s, t, k, e);
      ScanBodyLocal(s[e..], t[e..], w, n);
      BodyStep(t, w, n);
    }
  }

  lemma ScanStringLocal(s: string, t: string)
    requires ScanString(s).Some?
    requires var k := ScanString(s).value.1; |t| >= k && t[..k] == s[..k]
    ensures ScanString(t) == ScanString(s)
  {
    var (v, k) := ScanString(s).value;
    SameTail(s, t, k, 1);
    ScanBodyLocal(s[1..], t[1..], v, k - 1);
  }

  lemma {:induction false} DigitRunIs(s: string, n: nat)
    requires n <= |s| && AllDigits(s[..n]) && (n == |s| || !IsDigit(s[n]))
    ensures DigitRun(s) == n
  {
    if n > 0 {
      assert s[0] == s[..n][0];
      assert s[1..][..n - 1] == s[..n][1..];
      DigitRunIs(s[1..], n - 1);
    }
  }

  lemma DigitRunLocal(s: string, t: string)
    requires var n := DigitRun(s); |t| >= n && t[..n] == s[..n] && (|t| == n || !IsDigit(t[n]))
    ensures DigitRun(t) == DigitRun(s)
  {
    DigitRunIs(t, DigitRun(s));
  }

  lemma IntLengthLocal(s: string, t: string)
    requires var n := IntLength(s); n > 0 && |t| >= n && t[..n] == s[..n] && (|t| == n || !IsDigit(t[n]))
    ensures IntLength(t) == IntLength(s) && MinusLength(t) == MinusLength(s)
  {
    var n, m := IntLength(s), MinusLength(s);
    SameTail(s, t, n, m);
    if s[m] != '0' {
      DigitRunLocal(s[m..], t[m..]);
    }
  }

  lemma FractionLocal(s: string, t: string)
    requires var n := FractionLength(s); n > 0 && |t| >= n && t[..n] == s[..n] && (|t| == n || !IsDigit(t[n]))
    ensures FractionLength(t) == FractionLength(s)
  {
    var n := FractionLength(s);
    assert DigitRun(s[1..]) > 0;
    assert t[0] == t[..n][0] && s[0] == s[..n][0] && t[1] == t[..n][1] && s[1] == s[..n][1];
    assert t[1..][..n - 1] == t[..n][1..] && s[1..][..n - 1] == s[..n][1..];
    DigitRunLocal(s[1..], t[1..]);
  }

  lemma ExponentLocal(s: string, t: string)
    requires var n := ExponentLength(s); n > 0 && |t| >= n && t[..n] == s[..n] && (|t| == n || !IsDigit(t[n]))
    ensures ExponentLength(t) == ExponentLength(s)
  {
    var n := ExponentLength(s);
    var g := SignLength(s[1..]);
    assert t[0] == t[..n][0] && s[0] == s[..n][0] && t[1] == t[..n][1] && s[1] == s[..n][1];
    assert t[1..][0] == t[1] && s[1..][0] == s[1];
    assert SignLength(t[1..]) == g;
    assert t[1 + g..][..n - 1 - g] == t[..n][1 + g..] && s[1 + g..][..n - 1 - g] == s[..n][1 + g..];
    DigitRunLocal(s[1 + g..], t[1 + g..]);
  }

  lemma TailLocal(s: string, t: string)
    requires var k := TailLength(s); k <= |t| && t[..k] == s[..k] && IsBoundary(t[k..])
    ensures TailLength(t) == TailLength(s)
  {
    var k, b := TailLength(s), FractionLength(s);
    SameTail(s, t, k, b);
    SameHead(s, t, k, b);
    assert |t| > k ==> t[k..][0] == t[k];
    assert k > b ==> s[b..][0] == s[b] && t[b..][0] == t[b];
    if b > 0 {
      FractionLocal(s, t);
    }
    if k > b {
      ExponentLocal(s[b..], t[b..]);
    } else {
      assert t[b..] == t[k..];
    }
  }

  lemma NumberStarts(s: string)
    requires TailLength(s) > 0
    ensures s != "" && !IsDigit(s[0])
  {
    if FractionLength(s) == 0 { assert s[0..] == s; }
  }

  lemma IntOfLocal(s: string, t: string)
    requires IntLength(s) > 0 && IntLength(t) == IntLength(s) && MinusLength(t) == MinusLength(s)
    requires t[..IntLength(s)] == s[..IntLength(s)]
    ensures IntOf(t) == IntOf(s)
  {
    var a, m := IntLength(s), MinusLength(s);
    assert t[m..a] == t[..a][m..] && s[m..a] == s[..a][m..];
  }

  lemma IntStartLocal(s: string, t: string, k: nat)
    requires IntLength(s) > 0 && k == IntLength(s) + TailLength(s[IntLength(s)..])
    requires k <= |t| && t[..k] == s[..k] && IsBoundary(t[k..])
    ensures IntLength(t) == IntLength(s) && IntOf(t) == IntOf(s)
  {
    var a := IntLength(s);
    SameTail(s, t, k, a);
    SameHead(s, t, k, a);
    assert |t| > k ==> t[k..][0] == t[k];
    if k > a {
      NumberStarts(s[a..]);
      assert s[a..][0] == s[a];
    }
    IntLengthLocal(s, t);
    IntOfLocal(s, t);
  }

  lemma ScanNumberLocal(s: string, t: string)
    requires ScanNumber(s).Some?
    requires var k := ScanNumber(s).value.1; |t| >= k && t[..k] == s[..k] && IsBoundary(t[k..])
    ensures ScanNumber(t) == ScanNumber(s)
  {
    hide MinusLength, IntLength, TailLength, IntOf, IsBoundary;
    var k := ScanNumber(s).value.1;
    var a := IntLength(s);
    IntStartLocal(s, t, k);
    SameTail(s, t, k, a);
    assert t[a..][k - a..] == t[k..];
    TailLocal(s[a..], t[a..]);
  }

  lemma NumberIsNoConstant(s: string)
    requires ScanNumber(s).Some?
    ensures ScanConstant(s).None?
  {
    assert s[0] == '-' ==> IsDigit(s[1]) && ConstantFor(s[0])[1] == 'I';
  }

  /** A scalar is determined by its own characters, once something that may follow a scalar follows. */
  lemma ScanScalarLocal(s: string, t: string)
    requires ScanScalar(s).Some?
    requires var k := ScanScalar(s).value.1; |t| >= k && t[..k] == s[..k] && IsBoundary(t[k..])
    ensures ScanScalar(t) == ScanScalar(s)
  {
    var k := ScanScalar(s).value.1;
    assert t[0] == t[..k][0] && s[0] == s[..k][0];
    if s[0] == '"' {
      ScanStringLocal(s, t);
    } else {
      if ScanConstant(s).Some? {
        assert ConstantFor(s[0]) == s[..k];
        assert ConstantFor(t[0]) <= t;
      } else {
        ScanNumberLocal(s, t);
        NumberIsNoConstant(t);
      }
    }
  }

  // -------------------------------------------------------------------- printing

  function HexChar(n: nat): char
    requires n < 16
  {
    if n < 10 then '0' + n as char else 'a' + (n - 10) as char
  }

  /** The letter that escapes `c`, for the characters that have one. */
  function ShortLetter(c: char): Option<char> {
    match c
    case '"' => Some('"')
    case '\\' => Some('\\')
    case '\n' => Some('n')
    case '\r' => Some('r')
    case '\t' => Some('t')
    case '\U{C}' => Some('f')
    case '\U{8}' => Some('b')
    case _ => None
  }

  function EscapeChar(c: char): (e: string)
    ensures e != ""
  {
    var letter := ShortLetter(c);
    if letter.Some? then ['\\', letter.value]
    else if c < ' ' then ['\\', 'u', '0', '0', HexChar(c as nat / 16), HexChar(c as nat % 16)]
    else [c]
  }

  function EscapeText(s: string): string {
    if s == "" then "" else EscapeChar(s[0]) + EscapeText(s[1..])
  }

  /** `json.dumps(value, ensure_ascii=False)` for a string or an integer. */
  function Dumps(v: Json): string
    requires v.Str? || v.Int?
  {
    match v
    case Str(s) => ['"'] + (EscapeText(s) + ['"'])
    case Int(n) => SignedDecimal(n)
  }

  lemma HexPair(c: char, rest: string)
    requires c < ' '
    ensures Escape(['u', '0', '0', HexChar(c as nat / 16), HexChar(c as nat % 16)] + rest) == Some((c, 5))
  {
    var s := ['u', '0', '0', HexChar(c as nat / 16), HexChar(c as nat % 16)] + rest;
    var hex := s[1..];
    assert hex[0] == '0' && hex[1] == '0' && hex[2] == HexChar(c as nat / 16) && hex[3] == HexChar(c as nat % 16);
    assert HexDigit(hex[2]) == Some(c as nat / 16) && HexDigit(hex[3]) == Some(c as nat % 16);
    assert Hex4(hex) == Some(c as nat);
  }

  lemma NextCharOfEscaped(c: char, rest: string)
    ensures NextChar(EscapeChar(c) + rest) == Some((c, |EscapeChar(c)|))
    ensures EscapeChar(c)[0] != '"'
  {
    var e := EscapeChar(c);
    var tail := (e + rest)[1..];
    if ShortLetter(c).Some? {
      assert tail[0] == ShortLetter(c).value;
    } else if c < ' ' {
      assert tail == ['u', '0', '0', HexChar(c as nat / 16), HexChar(c as nat % 16)] + rest;
      HexPair(c, rest);
    }
  }

  lemma {:induction false} ScanEscapedText(v: string, text: string, rest: string)
    requires text == EscapeText(v) + ['"'] + rest
    ensures ScanBody(text) == Some((v, |EscapeText(v)| + 1))
  {
    hide NextChar, EscapeChar;
    if v == "" {
      assert text[0] == '"';
    } else {
      var e, tail := EscapeChar(v[0]), EscapeText(v[1..]) + ['"'] + rest;
      ScanEscapedText(v[1..], tail, rest);
      assert text == e + tail;
      assert text[|e|..] == tail;
      NextCharOfEscaped(v[0], tail);
      BodyStep(text, v[1..], |EscapeText(v[1..])| + 1);
      assert [v[0]] + v[1..] == v;
    }
  }

  lemma IntRoundTrip(n: int)
    ensures ScanScalar(SignedDecimal(n)) == Some((Int(n), |SignedDecimal(n)|))
  {
    var d := SignedDecimal(n);
    var m: nat := if n < 0 then 1 else 0;
    var size: nat := if n < 0 then -n else n;
    NumberOfDecimal(size);
    assert d[m..] == Decimal(size);
    assert MinusLength(d) == m;
    assert Decimal(size)[..|Decimal(size)|] == Decimal(size);
    DigitRunIs(Decimal(size), |Decimal(size)|);
    assert d[m] == Decimal(size)[0];
    assert IntLength(d) == |d|;
    assert d[m..|d|] == d[m..] && d[|d|..] == "";
    assert IntOf(d) == n;
    assert ScanNumber(d) == Some((Int(n), |d|));
    NumberIsNoConstant(d);
  }

  /** Printing and reading again gives the value and uses exactly the printed characters. */
  lemma DumpsRoundTrip(v: Json)
    requires v.Str? || v.Int?
    ensures ScanScalar(Dumps(v)) == Some((v, |Dumps(v)|))
  {
    if v.Str? {
      var body := EscapeText(v.s) + ['"'];
      assert Dumps(v)[1..] == body && body == body + "";
      ScanEscapedText(v.s, body, "");
    } else {
      IntRoundTrip(v.n);
    }
  }

  lemma IntTokenDigits(token: string)
    requires ScanScalar(token).Some? && ScanScalar(token).value.0.Int? && ScanScalar(token).value.1 == |token|
    ensures var m := MinusLength(token);
      && Canonical(token[m..])
      && var k: int := Number(token[m..]); ScanScalar(token).value.0.n == if m == 1 then -k else k
  {
    hide TailLength, DigitRun;
    var m := MinusLength(token);
    assert ScanNumber(token) == ScanScalar(token) && IntLength(token) == |token|;
    assert token[m..|token|] == token[m..];
  }

  /** An integer has one token, its decimal digits after an optional minus; zero alone has a second one. */
  lemma {:induction false} IntTokens(token: string, n: int)
    ensures ScanScalar(token) == Some((Int(n), |token|)) <==> token == SignedDecimal(n) || (token == "-0" && n == 0)
  {
    hide ScanScalar, IntLength, TailLength, DigitRun;
    IntRoundTrip(n);
    MinusZero();
    if ScanScalar(token) == Some((Int(n), |token|)) {
      IntTokenDigits(token);
      var m := MinusLength(token);
      DecimalOfNumber(token[m..]);
      assert m == 0 ==> token[m..] == token;
      assert m == 1 ==> token == "-" + token[m..];
      assert Number(token[m..]) == 0 ==> token[m..] == "0";
    }
  }

  lemma MinusZero()
    ensures ScanScalar("-0") == Some((Int(0), 2))
  {
    var s := "-0";
    assert s[1..2] == "0" && s[2..] == "" && s[1] == '0';
    assert IntLength(s) == 2 && TailLength(s[2..]) == 0;
    assert Number("0") == 0 by {
      var z := "0";
      assert z[..|z| - 1] == "" && z[|z| - 1] == '0';
    }
    assert ScanNumber(s) == Some((Int(0), 2));
    NumberIsNoConstant(s);
  }
}
