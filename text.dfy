/** The string machinery the formatters and parsers share: Rust's decimal
    `format!` of integers (with the sign-aware `{:0N}` zero padding), Rust's
    `str::parse::<i64>`, `str::split` on one character and ASCII upper-casing. */
module Text {
  import opened Base

  predicate IsDigit(c: char) {
    '0' <= c <= '9'
  }

  predicate AllDigits(s: string) {
    forall i :: 0 <= i < |s| ==> IsDigit(s[i])
  }

  function DigitChar(d: int): (c: char)
    requires 0 <= d < 10
    ensures IsDigit(c)
  {
    (48 + d) as char
  }

  function DigitValue(c: char): (d: nat)
    requires IsDigit(c)
    ensures d < 10 && DigitChar(d) == c
  {
    c as int - 48
  }

  /** The shortest decimal spelling of `n`. */
  function NatToDigits(n: nat): (s: string)
    ensures |s| >= 1 && AllDigits(s)
    ensures s[0] == '0' ==> n == 0
    decreases n
  {
    if n < 10 then [DigitChar(n)] else NatToDigits(n / 10) + [DigitChar(n % 10)]
  }

  /** The value of a string of decimal digits, most significant first. */
  function DigitsValue(s: string): nat
    requires AllDigits(s)
  {
    if s == [] then 0 else DigitsValue(s[..|s| - 1]) * 10 + DigitValue(s[|s| - 1])
  }

  function Zeros(k: nat): (z: string)
    ensures |z| == k && AllDigits(z)
  {
    seq(k, _ => '0')
  }

  /** Left-pads `s` with '0' up to `width` characters. */
  function ZeroPad(s: string, width: nat): (r: string)
    ensures |r| == if |s| < width then width else |s|
    ensures r[|r| - |s|..] == s
    ensures forall i :: 0 <= i < |r| - |s| ==> r[i] == '0'
  {
    if |s| < width then Zeros(width - |s|) + s else s
  }

  /** Rust's `format!("{:0width$}", n)` for a signed integer: the sign counts
      toward the width and the zeros go between the sign and the digits
      (`width == 0` is the plain `{}`). */
  function FormatInt(n: int, width: nat): (r: string)
    ensures n >= 0 ==> AllDigits(r) && |r| >= width
    ensures n < 0 ==> |r| >= 2 && r[0] == '-' && AllDigits(r[1..])
    ensures |r| >= 1
  {
    if n < 0 then "-" + ZeroPad(NatToDigits(-n), if width > 0 then width - 1 else 0)
    else ZeroPad(NatToDigits(n), width)
  }

  lemma {:induction false} DigitsRoundTrip(n: nat)
    ensures DigitsValue(NatToDigits(n)) == n
    decreases n
  {
    if n >= 10 {
      var s := NatToDigits(n);
      assert s[..|s| - 1] == NatToDigits(n / 10);
      DigitsRoundTrip(n / 10);
    }
  }

  lemma {:induction false} ZerosValue(k: nat)
    ensures DigitsValue(Zeros(k)) == 0
  {
    if k > 0 {
      assert Zeros(k)[..k - 1] == Zeros(k - 1);
      ZerosValue(k - 1);
    }
  }

  /** Leading zeros do not change the value of a digit string. */
  lemma {:induction false} LeadingZerosValue(k: nat, s: string)
    requires AllDigits(s)
    ensures AllDigits(Zeros(k) + s) && DigitsValue(Zeros(k) + s) == DigitsValue(s)
    decreases |s|
  {
    var t := Zeros(k) + s;
    assert AllDigits(t);
    if s == [] {
      assert t == Zeros(k);
      ZerosValue(k);
    } else {
      assert t[..|t| - 1] == Zeros(k) + s[..|s| - 1];
      LeadingZerosValue(k, s[..|s| - 1]);
    }
  }

  /** Rust's `str::parse::<i64>`: an optional '+' or '-' followed by at least
      one decimal digit, whose value must fit an `i64`. */
  function ParseI64(s: string): (r: Option<int>)
    ensures r.Some? ==> InI64(r.value)
    ensures r.Some? ==> |s| >= 1 && AllDigits(s[1..]) && (IsDigit(s[0]) || s[0] == '+' || s[0] == '-')
  {
    if |s| >= 1 && (s[0] == '+' || s[0] == '-') then
      var body := s[1..];
      if |body| >= 1 && AllDigits(body) then
        var magnitude: int := DigitsValue(body);
        var v := if s[0] == '-' then -magnitude else magnitude;
        if InI64(v) then Some(v) else None
      else None
    else if |s| >= 1 && AllDigits(s) then
      if InI64(DigitsValue(s)) then Some(DigitsValue(s)) else None
    else None
  }

  /** What `FormatInt` prints for a non-negative `i64`, `ParseI64` reads back. */
  lemma {:induction false} ParseFormatted(n: nat, width: nat)
    requires n <= I64_MAX
    ensures ParseI64(FormatInt(n, width)) == Some(n)
  {
    var d := NatToDigits(n);
    var s := FormatInt(n, width);
    assert s == ZeroPad(d, width);
    DigitsRoundTrip(n);
    if |d| < width {
      assert s == Zeros(width - |d|) + d;
      LeadingZerosValue(width - |d|, d);
    } else {
      assert s == d;
    }
    ParseDigits(s, n);
  }

  /** A non-empty digit string whose value fits an `i64` parses to that value. */
  lemma ParseDigits(s: string, n: int)
    requires |s| >= 1 && AllDigits(s) && DigitsValue(s) == n && n <= I64_MAX
    ensures ParseI64(s) == Some(n)
  {
    assert IsDigit(s[0]);
    assert !(s[0] == '+' || s[0] == '-');
  }

  /** Occurrences of `c` in `s`. */
  function Count(s: string, c: char): nat {
    if s == [] then 0 else (if s[0] == c then 1 else 0) + Count(s[1..], c)
  }

  /** The inverse of splitting: the parts glued back with `sep` between them. */
  function JoinWith(parts: seq<string>, sep: char): string
    requires |parts| >= 1
  {
    if |parts| == 1 then parts[0] else parts[0] + [sep] + JoinWith(parts[1..], sep)
  }

  /** Rust's `s.split(sep).collect::<Vec<&str>>()`: the maximal pieces between
      occurrences of `sep`; an empty string gives one empty piece. */
  function SplitOn(s: string, sep: char): (parts: seq<string>)
    ensures |parts| == Count(s, sep) + 1
    ensures forall k :: 0 <= k < |parts| ==> sep !in parts[k]
    ensures JoinWith(parts, sep) == s
    decreases |s|
  {
    if s == [] then [[]]
    else
      var rest := SplitOn(s[1..], sep);
      if s[0] == sep then
        assert ([[]] + rest)[1..] == rest;
        [[]] + rest
      else
        var parts := [[s[0]] + rest[0]] + rest[1..];
        assert parts[1..] == rest[1..];
        assert s == [s[0]] + s[1..];
        parts
  }

  /** Splitting a prefix free of `sep` glues that prefix to the first piece. */
  lemma {:induction false} SplitOnPrefix(a: string, t: string, sep: char)
    requires sep !in a
    ensures SplitOn(a + t, sep) == [a + SplitOn(t, sep)[0]] + SplitOn(t, sep)[1..]
    decreases |a|
  {
    if a != [] {
      var p := SplitOn(t, sep);
      assert (a + t)[1..] == a[1..] + t;
      assert (a + t)[0] == a[0];
      SplitOnPrefix(a[1..], t, sep);
      var rest := SplitOn(a[1..] + t, sep);
      assert rest[0] == a[1..] + p[0] && rest[1..] == p[1..];
      assert SplitOn(a + t, sep) == [[a[0]] + rest[0]] + rest[1..];
      assert [a[0]] + (a[1..] + p[0]) == a + p[0];
    } else {
      var p := SplitOn(t, sep);
      assert a + t == t;
      assert a + p[0] == p[0];
      assert p == [p[0]] + p[1..];
    }
  }

  /** A string with exactly one separator splits into the two sides. */
  lemma {:induction false} SplitOnce(a: string, b: string, sep: char)
    requires sep !in a && sep !in b
    ensures SplitOn(a + [sep] + b, sep) == [a, b]
  {
    SplitAfterSeparator(b, sep);
    SplitOnPrefix(a, [sep] + b, sep);
    assert a + [sep] + b == a + ([sep] + b);
    var pieces: seq<string> := [[], b];
    assert a + pieces[0] == a && pieces[1..] == [b];
  }

  /** A separator followed by a piece free of it splits into an empty piece
      and that piece. */
  lemma SplitAfterSeparator(b: string, sep: char)
    requires sep !in b
    ensures SplitOn([sep] + b, sep) == [[], b]
  {
    SplitOnNone(b, sep);
    SplitOnLeading(b, sep);
  }

  /** A string free of `sep` is a single piece. */
  lemma {:induction false} SplitOnNone(b: string, sep: char)
    requires sep !in b
    ensures SplitOn(b, sep) == [b]
  {
    SplitOnPrefix(b, [], sep);
    assert b + [] == b;
  }

  /** A leading separator cuts off an empty first piece. */
  lemma SplitOnLeading(b: string, sep: char)
    ensures SplitOn([sep] + b, sep) == [[]] + SplitOn(b, sep)
  {
    assert ([sep] + b)[1..] == b;
  }

  function UpperChar(c: char): char {
    if 'a' <= c <= 'z' then (c as int - 32) as char else c
  }

  predicate IsLowerAscii(c: char) {
    'a' <= c <= 'z'
  }

  /** `str::to_uppercase` on ASCII letters; other characters are kept. */
  function Upper(s: string): (r: string)
    ensures |r| == |s|
    ensures forall i :: 0 <= i < |r| ==> !IsLowerAscii(r[i])
    ensures forall i :: 0 <= i < |r| ==> (r[i] == s[i] || (IsLowerAscii(s[i]) && r[i] as int == s[i] as int - 32))
  {
    seq(|s|, i requires 0 <= i < |s| => UpperChar(s[i]))
  }

  /** Upper-casing twice is upper-casing once. */
  lemma UpperIdempotent(s: string)
    ensures Upper(Upper(s)) == Upper(s)
  {
  }
}
