/** Character sequences: splitting at a separator, and decimal numbers. */
module Text {

  // ------------------------------------------------------------------ separators

  /** `s.split(sep)`. */
  function Split(sep: char, s: string): (parts: seq<string>)
    ensures parts != []
  {
    if s == "" then [""]
    else if s[0] == sep then [""] + Split(sep, s[1..])
    else var rest := Split(sep, s[1..]); [[s[0]] + rest[0]] + rest[1..]
  }

  function Join(sep: char, parts: seq<string>): string
    requires parts != []
  {
    if |parts| == 1 then parts[0] else parts[0] + [sep] + Join(sep, parts[1..])
  }

  lemma {:induction false} SplitAfterPart(sep: char, part: string, rest: string)
    requires sep !in part
    ensures Split(sep, part + [sep] + rest) == [part] + Split(sep, rest)
  {
    var s := part + [sep] + rest;
    if part == "" {
      assert s[1..] == rest;
    } else {
      assert s[1..] == part[1..] + [sep] + rest;
      SplitAfterPart(sep, part[1..], rest);
      assert Split(sep, s[1..])[1..] == Split(sep, rest);
      assert [s[0]] + part[1..] == part;
    }
  }

  lemma {:induction false} SplitPart(sep: char, part: string)
    requires sep !in part
    ensures Split(sep, part) == [part]
  {
    if part != "" {
      SplitPart(sep, part[1..]);
      assert [part[0]] + part[1..] == part;
    }
  }

  lemma {:induction false} SplitJoin(sep: char, parts: seq<string>)
    requires parts != []
    requires forall i :: 0 <= i < |parts| ==> sep !in parts[i]
    ensures Split(sep, Join(sep, parts)) == parts
  {
    if |parts| == 1 {
      SplitPart(sep, parts[0]);
    } else {
      SplitJoin(sep, parts[1..]);
      SplitAfterPart(sep, parts[0], Join(sep, parts[1..]));
    }
  }

  lemma {:induction false} PartsOf(sep: char, s: string)
    ensures Join(sep, Split(sep, s)) == s
    ensures forall i :: 0 <= i < |Split(sep, s)| ==> sep !in Split(sep, s)[i]
    ensures forall i, c :: 0 <= i < |Split(sep, s)| && c in Split(sep, s)[i] ==> c in s
  {
    if s != "" {
      PartsOf(sep, s[1..]);
      var rest := Split(sep, s[1..]);
      var parts := Split(sep, s);
      if s[0] == sep {
        assert parts[1..] == rest;
        assert "" + [sep] + s[1..] == s;
      } else {
        assert parts[1..] == rest[1..];
        assert parts[0] == [s[0]] + rest[0];
        if |rest| == 1 {
          assert [s[0]] + s[1..] == s;
        } else {
          assert Join(sep, rest) == rest[0] + [sep] + Join(sep, rest[1..]);
          assert Join(sep, parts) == [s[0]] + Join(sep, rest);
          assert [s[0]] + s[1..] == s;
        }
      }
      forall i, c | 0 <= i < |parts| && c in parts[i] ensures c in s {
        if i > 0 || s[0] == sep {
          assert parts[i] == rest[if s[0] == sep then i - 1 else i];
        } else if c != s[0] {
          assert c in rest[0];
        }
      }
    }
  }

  lemma {:induction false} SplitAtEnd(sep: char, s: string)
    ensures Split(sep, s + [sep]) == Split(sep, s) + [""]
  {
    if s == "" {
      assert s + [sep] == [sep] && [sep][1..] == "";
    } else {
      SplitAtEnd(sep, s[1..]);
      assert (s + [sep])[1..] == s[1..] + [sep];
    }
  }

  lemma SplitInjective(sep: char, s: string, t: string)
    requires Split(sep, s) == Split(sep, t)
    ensures s == t
  {
    PartsOf(sep, s); PartsOf(sep, t);
  }

  lemma {:induction false} JoinChars(sep: char, parts: seq<string>, c: char)
    requires parts != [] && c != sep
    requires forall i :: 0 <= i < |parts| ==> c !in parts[i]
    ensures c !in Join(sep, parts)
  {
    if |parts| > 1 {
      JoinChars(sep, parts[1..], c);
    }
  }

  // -------------------------------------------------------------------- decimals

  predicate IsDigit(c: char) {
    '0' <= c <= '9'
  }

  predicate AllDigits(s: string) {
    forall i :: 0 <= i < |s| ==> IsDigit(s[i])
  }

  function Digit(d: nat): char
    requires d < 10
  {
    '0' + d as char
  }

  /** `str(n)`. */
  function Decimal(n: nat): string {
    if n < 10 then [Digit(n)] else Decimal(n / 10) + [Digit(n % 10)]
  }

  function SignedDecimal(n: int): string {
    if n < 0 then "-" + Decimal(-n) else Decimal(n)
  }

  /** `int(s)` on digits. */
  function Number(s: string): nat
    requires AllDigits(s)
  {
    if s == "" then 0 else Number(s[..|s| - 1]) * 10 + (s[|s| - 1] - '0') as nat
  }

  /** Digits without a superfluous leading zero. */
  predicate Canonical(s: string) {
    s != "" && AllDigits(s) && (s[0] == '0' ==> |s| == 1)
  }

  lemma {:induction false} NumberOfDecimal(n: nat)
    ensures Canonical(Decimal(n)) && Number(Decimal(n)) == n
    ensures Decimal(n)[0] == '0' ==> n == 0
  {
    if n >= 10 {
      NumberOfDecimal(n / 10);
      assert Decimal(n)[..|Decimal(n)| - 1] == Decimal(n / 10);
    }
  }

  lemma {:induction false} DecimalOfNumber(s: string)
    requires Canonical(s)
    ensures Decimal(Number(s)) == s
    ensures s[0] != '0' ==> Number(s) > 0
  {
    var init := s[..|s| - 1];
    if init == "" {
      assert s == [s[0]];
    } else {
      DecimalOfNumber(init);
      assert s == init + [s[|s| - 1]];
    }
  }
}
