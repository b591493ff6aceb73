/** The string operations the handlers and the access checks rely on, with JavaScript's
    meaning: `s.split(c)` on a one-character separator, `s.startsWith(prefix)` and
    `parseInt(s)` on decimal text. */
module Text {
  import opened Common

  predicate StartsWith(s: string, prefix: string)
  {
    |prefix| <= |s| && s[..|prefix|] == prefix
  }

  /** Number of occurrences of `c` in `s`. */
  function Occurrences(s: string, c: char): nat
  {
    if |s| == 0 then 0 else (if s[0] == c then 1 else 0) + Occurrences(s[1..], c)
  }

  /** `s.split(sep)`: the maximal pieces between separators, empty pieces included, so
      that "" splits into [""] and a trailing separator yields a trailing "". */
  function Split(s: string, sep: char): (r: seq<string>)
    ensures |r| == Occurrences(s, sep) + 1
    ensures forall i :: 0 <= i < |r| ==> sep !in r[i]
  {
    if |s| == 0 then [""]
    else
      var rest := Split(s[1..], sep);
      if s[0] == sep then [""] + rest
      else [[s[0]] + rest[0]] + rest[1..]
  }

  /** `pieces.join(sep)`. */
  function Join(pieces: seq<string>, sep: char): string
    requires |pieces| >= 1
  {
    if |pieces| == 1 then pieces[0] else pieces[0] + [sep] + Join(pieces[1..], sep)
  }

  /** Splitting loses nothing: joining the pieces back gives the original text. */
  lemma {:induction false} JoinSplit(s: string, sep: char)
    ensures Join(Split(s, sep), sep) == s
  {
    if |s| > 0 {
      var rest := Split(s[1..], sep);
      JoinSplit(s[1..], sep);
      if s[0] == sep {
        assert Split(s, sep) == [""] + rest;
        assert ([""] + rest)[1..] == rest;
        assert s == [] + [sep] + s[1..];
      } else {
        var r := Split(s, sep);
        assert r == [[s[0]] + rest[0]] + rest[1..];
        if |rest| == 1 {
          assert r == [[s[0]] + rest[0]];
        } else {
          assert r[1..] == rest[1..];
          assert Join(rest, sep) == rest[0] + [sep] + Join(rest[1..], sep);
        }
      }
    }
  }

  /** Text that does not contain the separator is one piece. */
  lemma {:induction false} SplitNoSeparator(s: string, sep: char)
    requires sep !in s
    ensures Split(s, sep) == [s]
  {
    if |s| > 0 {
      assert s[0] != sep && sep !in s[1..];
      SplitNoSeparator(s[1..], sep);
      assert [s[0]] + s[1..] == s;
    }
  }

  /** A prefix free of the separator, then the separator, then the rest: the prefix is
      the first piece and the rest's pieces follow. */
  lemma {:induction false} SplitAfterWord(w: string, sep: char, tail: string)
    requires sep !in w
    ensures Split(w + [sep] + tail, sep) == [w] + Split(tail, sep)
  {
    if |w| == 0 {
      assert w + [sep] + tail == [sep] + tail;
      assert ([sep] + tail)[1..] == tail;
    } else {
      SplitAfterWord(w[1..], sep, tail);
      assert (w + [sep] + tail)[1..] == w[1..] + [sep] + tail;
      assert [w[0]] + w[1..] == w;
    }
  }

  // ---------------------------------------------------------------------------
  // parseInt(s)

  predicate IsDigit(c: char) { '0' <= c <= '9' }

  /** Length of the run of decimal digits at the start of `s`. */
  function DigitRun(s: string): (n: nat)
    ensures n <= |s|
    ensures forall i :: 0 <= i < n ==> IsDigit(s[i])
    ensures n < |s| ==> !IsDigit(s[n])
  {
    if |s| == 0 || !IsDigit(s[0]) then 0 else 1 + DigitRun(s[1..])
  }

  function DigitValue(c: char): nat
    requires IsDigit(c)
  {
    c as int - '0' as int
  }

  function DigitChar(k: nat): (c: char)
    requires k < 10
    ensures IsDigit(c) && DigitValue(c) == k
  {
    ('0' as int + k) as char
  }

  /** The value of a string of decimal digits, most significant digit first. */
  function DecimalValue(d: string): nat
    requires forall i :: 0 <= i < |d| ==> IsDigit(d[i])
  {
    if |d| == 0 then 0 else 10 * DecimalValue(d[..|d| - 1]) + DigitValue(d[|d| - 1])
  }

  /** `parseInt(s)` for decimal text: an optional sign, then the longest run of digits,
      whatever follows it; with no digit there the result is NaN, here None. */
  function ParseInt(s: string): (r: Option<int>)
    ensures |s| == 0 || (!IsDigit(s[0]) && s[0] != '-' && s[0] != '+') ==> r.None?
    ensures |s| > 0 && IsDigit(s[0]) ==> r.Some? && r.value >= 0
  {
    var negative := |s| > 0 && s[0] == '-';
    var unsigned := if |s| > 0 && (s[0] == '-' || s[0] == '+') then s[1..] else s;
    var n := DigitRun(unsigned);
    if n == 0 then None
    else
      var magnitude: int := DecimalValue(unsigned[..n]);
      Some(if negative then -magnitude else magnitude)
  }

  /** The decimal text of a natural number, as `String(n)` writes it. */
  function DecimalText(n: nat): (d: string)
    ensures |d| >= 1 && forall i :: 0 <= i < |d| ==> IsDigit(d[i])
  {
    (if n < 10 then "" else DecimalText(n / 10)) + [DigitChar(n % 10)]
  }

  /** Reading back the decimal text of a number gives the number. */
  lemma {:induction false} DecimalRoundTrip(n: nat)
    ensures DecimalValue(DecimalText(n)) == n
  {
    var head := if n < 10 then "" else DecimalText(n / 10);
    if n >= 10 {
      DecimalRoundTrip(n / 10);
    }
    DecimalValueAppend(head, DigitChar(n % 10));
  }

  /** Appending a digit shifts the value one decimal place and adds the digit. */
  lemma DecimalValueAppend(d: string, c: char)
    requires forall i :: 0 <= i < |d| ==> IsDigit(d[i])
    requires IsDigit(c)
    ensures DecimalValue(d + [c]) == 10 * DecimalValue(d) + DigitValue(c)
  {
    assert (d + [c])[..|d|] == d;
  }

  /** parseInt reads a number's decimal text back, whatever non-digit text follows it
      ("2023" and "2023abc" both give 2023). */
  lemma ParseIntReadsDecimal(n: nat, rest: string)
    requires rest == "" || !IsDigit(rest[0])
    ensures ParseInt(DecimalText(n) + rest) == Some(n)
  {
    var d := DecimalText(n);
    var s := d + rest;
    assert IsDigit(s[0]);
    ParseIntUnsigned(s);
    DigitRunPrefix(d, rest);
    assert s[..|d|] == d;
    DecimalRoundTrip(n);
  }

  /** parseInt honours one leading sign: "-" before a number's decimal text gives its
      negation, "+" gives the number itself, and a sign with no digit after it is NaN. */
  lemma ParseIntSigned(n: nat, rest: string)
    requires rest == "" || !IsDigit(rest[0])
    ensures ParseInt("-" + DecimalText(n) + rest) == Some(-(n as int))
    ensures ParseInt("+" + DecimalText(n) + rest) == Some(n)
    ensures ParseInt("-") == None && ParseInt("+") == None
  {
    SignedDecimal('-', n, rest);
    SignedDecimal('+', n, rest);
    BareSignIsNaN();
  }

  /** A sign alone is NaN. */
  lemma BareSignIsNaN()
    ensures ParseInt("-") == None && ParseInt("+") == None
  {
    ParseIntAfterSign('-', "");
    ParseIntAfterSign('+', "");
    assert ['-'] + "" == "-" && ['+'] + "" == "+";
  }

  /** A sign before a number's decimal text, one sign at a time. */
  lemma SignedDecimal(sign: char, n: nat, rest: string)
    requires sign == '-' || sign == '+'
    requires rest == "" || !IsDigit(rest[0])
    ensures ParseInt([sign] + DecimalText(n) + rest) == Some(if sign == '-' then -(n as int) else n)
  {
    ParseIntReadsDecimal(n, rest);
    SignBeforeDigits(sign, DecimalText(n), rest);
  }

  /** A sign before digit-led text reads as that text's value, negated after "-". */
  lemma SignBeforeDigits(sign: char, d: string, rest: string)
    requires sign == '-' || sign == '+'
    requires |d| > 0 && IsDigit(d[0])
    ensures ParseInt(d + rest).Some?
    ensures ParseInt([sign] + d + rest) ==
      Some(if sign == '-' then -ParseInt(d + rest).value else ParseInt(d + rest).value)
  {
    assert [sign] + d + rest == [sign] + (d + rest);
    ParseIntAfterSign(sign, d + rest);
  }

  /** A sign followed by digits reads as the digits' value, negated after "-"; a sign
      followed by anything else (including nothing, or a second sign) is NaN. */
  lemma ParseIntAfterSign(sign: char, t: string)
    requires sign == '-' || sign == '+'
    ensures |t| == 0 || !IsDigit(t[0]) ==> ParseInt([sign] + t).None?
    ensures |t| > 0 && IsDigit(t[0]) ==>
      ParseInt([sign] + t) == Some(if sign == '-' then -ParseInt(t).value else ParseInt(t).value)
  {
    assert ([sign] + t)[1..] == t;
    if |t| > 0 && !IsDigit(t[0]) {
      assert DigitRun(t) == 0;
    }
  }

  /** Text that starts with a digit is read as the value of its leading digits. */
  lemma ParseIntUnsigned(s: string)
    requires |s| > 0 && IsDigit(s[0])
    ensures DigitRun(s) > 0 && ParseInt(s) == Some(DecimalValue(s[..DigitRun(s)]))
  {
    assert s[0] != '-' && s[0] != '+';
  }

  lemma {:induction false} DigitRunPrefix(d: string, rest: string)
    requires forall i :: 0 <= i < |d| ==> IsDigit(d[i])
    requires rest == "" || !IsDigit(rest[0])
    ensures DigitRun(d + rest) == |d|
  {
    if |d| > 0 {
      assert (d + rest)[1..] == d[1..] + rest;
      DigitRunPrefix(d[1..], rest);
    } else {
      assert d + rest == rest;
    }
  }
}
