/**
 * The two pieces of Go's `fmt` that the token format uses: printing a
 * non-negative integer with `%d`, and `Sscanf` with a format made of literal
 * text and `%d` verbs. Scanning `%d` takes an optional sign and the longest
 * run of decimal digits, fails when there is no digit or when the value does
 * not fit Go's 64-bit `int`, and leaves whatever follows unread.
 */
module Fmt {
  import opened Wrappers
  import opened GoTypes

  predicate IsDigit(c: char) { '0' <= c <= '9' }

  predicate AllDigits(s: string) { forall i | 0 <= i < |s| :: IsDigit(s[i]) }

  function DigitChar(d: int): (c: char)
    requires 0 <= d < 10
    ensures IsDigit(c)
  {
    ('0' as int + d) as char
  }

  /** The value of a string of decimal digits, most significant first. */
  function DigitsValue(s: string): (n: nat)
    requires AllDigits(s)
    decreases |s|
  {
    if s == [] then 0
    else DigitsValue(s[..|s| - 1]) * 10 + (s[|s| - 1] as int - '0' as int)
  }

  /** `%d` of a non-negative integer: its shortest decimal representation. */
  function FormatNat(n: nat): (s: string)
    ensures |s| >= 1 && AllDigits(s)
    ensures |s| > 1 ==> s[0] != '0'
    decreases n
  {
    if n < 10 then [DigitChar(n)]
    else FormatNat(n / 10) + [DigitChar(n % 10)]
  }

  /** Printing then reading the digits gives the number back. */
  lemma {:induction false} DigitsValueFormatNat(n: nat)
    ensures DigitsValue(FormatNat(n)) == n
    decreases n
  {
    if n >= 10 {
      var s := FormatNat(n);
      assert s[..|s| - 1] == FormatNat(n / 10);
      DigitsValueFormatNat(n / 10);
    }
  }

  /** The length of the longest prefix of `s` made of digits. */
  function DigitRun(s: string): (k: nat)
    ensures k <= |s|
    ensures AllDigits(s[..k])
    ensures k < |s| ==> !IsDigit(s[k])
    decreases |s|
  {
    if s != [] && IsDigit(s[0]) then 1 + DigitRun(s[1..]) else 0
  }

  /** A digit run followed by a non-digit is read up to the non-digit. */
  lemma {:induction false} DigitRunPrefix(d: string, rest: string)
    requires AllDigits(d)
    requires rest == [] || !IsDigit(rest[0])
    ensures DigitRun(d + rest) == |d|
    decreases |d|
  {
    if d != [] {
      assert (d + rest)[1..] == d[1..] + rest;
      DigitRunPrefix(d[1..], rest);
    }
  }

  /** Matching a literal piece of a format: the input must start with it. */
  function ScanLiteral(lit: string, s: string): (r: Option<string>)
    ensures r.Some? <==> lit <= s
    ensures r.Some? ==> s == lit + r.value
  {
    if lit <= s then Some(s[|lit|..]) else None
  }

  /** A digit run that a non-digit or the end of input follows is the longest one. */
  lemma DigitRunUnique(s: string, k: nat)
    requires k <= |s| && AllDigits(s[..k])
    requires k == |s| || !IsDigit(s[k])
    ensures DigitRun(s) == k
  {
    AllDigitsPrefix(s, k);
    AllDigitsPrefix(s, DigitRun(s));
  }

  lemma AllDigitsPrefix(s: string, k: nat)
    requires k <= |s| && AllDigits(s[..k])
    ensures forall i | 0 <= i < k :: IsDigit(s[i])
  {
    forall i | 0 <= i < k
      ensures IsDigit(s[i])
    {
      assert s[..k][i] == s[i];
    }
  }

  /** `t` is a decimal integer with an optional sign, and `v` is its value. */
  predicate SignedDecimal(t: string, v: int) {
    if t != [] && (t[0] == '+' || t[0] == '-') then
      |t| >= 2 && AllDigits(t[1..])
      && (if t[0] == '-' then v == -(DigitsValue(t[1..]) as int) else v == DigitsValue(t[1..]))
    else
      t != [] && AllDigits(t) && v == DigitsValue(t)
  }

  /** `%d` can read `v` from the first `n` characters of `s`: a signed decimal that no digit follows. */
  predicate ReadsInt(s: string, n: nat, v: int) {
    n <= |s| && SignedDecimal(s[..n], v) && (n == |s| || !IsDigit(s[n]))
  }

  /** 1 when `s` starts with a sign that `%d` accepts, 0 otherwise. */
  function SignLen(s: string): (d: nat)
    ensures d <= |s|
  {
    if s != [] && (s[0] == '+' || s[0] == '-') then 1 else 0
  }

  /** The sign, the digit run after it and their value are a reading of `s`. */
  lemma ReadsDigitRun(s: string)
    requires DigitRun(s[SignLen(s)..]) > 0
    ensures
      var body := s[SignLen(s)..];
      var k := DigitRun(body);
      var magnitude: int := DigitsValue(body[..k]);
      && ReadsInt(s, SignLen(s) + k, if SignLen(s) == 1 && s[0] == '-' then -magnitude else magnitude)
      && s[SignLen(s) + k..] == body[k..]
  {
    var d := SignLen(s);
    var body := s[d..];
    var k := DigitRun(body);
    var n := d + k;
    assert s[..n] == s[..d] + body[..k];
    assert d == 1 ==> s[..n][1..] == body[..k];
    assert d == 0 ==> IsDigit(s[..n][0]);
    assert n < |s| ==> s[n] == body[k];
  }

  /**
   * Scanning `%d` into a Go `int`: the value and the unread rest of the input.
   * What was read is a signed decimal that no digit follows, and its value
   * fits the 64-bit `int`.
   */
  function ScanInt(s: string): (r: Option<(int, string)>)
    ensures r.Some? ==>
      var (v, rest) := r.value;
      && MIN_INT64 <= v <= MAX_INT64
      && |rest| < |s| && rest == s[|s| - |rest|..]
      && ReadsInt(s, |s| - |rest|, v)
  {
    var body := s[SignLen(s)..];
    var k := DigitRun(body);
    if k == 0 then None
    else
      ReadsDigitRun(s);
      var magnitude: int := DigitsValue(body[..k]);
      var v: int := if SignLen(s) == 1 && s[0] == '-' then -magnitude else magnitude;
      if MIN_INT64 <= v <= MAX_INT64 then Some((v, body[k..])) else None
  }

  /**
   * `%d` reads every signed decimal: when `s` starts with one that no digit
   * follows, scanning gives its value and the rest, or fails because the value
   * does not fit the 64-bit `int`.
   */
  lemma ScanIntComplete(s: string, n: nat, v: int)
    requires ReadsInt(s, n, v)
    ensures ScanInt(s) == if MIN_INT64 <= v <= MAX_INT64 then Some((v, s[n..])) else None
  {
    var d := SignLen(s);
    var body := s[d..];
    var t := s[..n];
    assert t[0] == s[0];
    if d == 1 {
      assert t[1..] == body[..n - 1];
      assert n < |s| ==> s[n] == body[n - 1];
      DigitRunUnique(body, n - 1);
      assert s[n..] == body[n - 1..];
    } else {
      assert t == body[..n];
      DigitRunUnique(body, n);
    }
  }

  /** Round trip: `%d` scanning reads back what `%d` printed, and stops where the digits end. */
  lemma ScanIntFormatNat(n: nat, rest: string)
    requires n <= MAX_INT64
    requires rest == [] || !IsDigit(rest[0])
    ensures ScanInt(FormatNat(n) + rest) == Some((n, rest))
  {
    var d := FormatNat(n);
    DigitRunPrefix(d, rest);
    assert (d + rest)[..|d|] == d;
    assert (d + rest)[|d|..] == rest;
    DigitsValueFormatNat(n);
  }

  /** `lit` then `%d`: `s` starts with `lit`, and `%d` reads `v` in range from what follows, leaving `rest`. */
  predicate FieldRead(lit: string, s: string, v: int, rest: string) {
    && lit <= s
    && |lit| + |rest| < |s|
    && rest == s[|s| - |rest|..]
    && ReadsInt(s[|lit|..], |s| - |lit| - |rest|, v)
    && MIN_INT64 <= v <= MAX_INT64
  }

  /** One literal followed by one `%d`: the value and the unread rest. */
  function ScanField(lit: string, s: string): (r: Option<(int, string)>)
    ensures r.Some? ==> FieldRead(lit, s, r.value.0, r.value.1)
  {
    var after :- ScanLiteral(lit, s);
    assert after == s[|lit|..];
    ScanInt(after)
  }

  /** A field that is there is read: scanning gives its value and the rest. */
  lemma ScanFieldComplete(lit: string, s: string, v: int, rest: string)
    requires FieldRead(lit, s, v, rest)
    ensures ScanField(lit, s) == Some((v, rest))
  {
    var t := s[|lit|..];
    ScanIntComplete(t, |t| - |rest|, v);
    assert t[|t| - |rest|..] == rest;
  }

  /** A printed field is read back, up to the first non-digit after it. */
  lemma ScanFieldFormatNat(lit: string, n: nat, rest: string)
    requires n <= MAX_INT64
    requires rest == [] || !IsDigit(rest[0])
    ensures ScanField(lit, lit + FormatNat(n) + rest) == Some((n, rest))
  {
    var d := FormatNat(n);
    assert lit + d + rest == lit + (d + rest);
    ScanIntFormatNat(n, rest);
  }

  /** A printed field is a field that `%d` reads, up to the first non-digit after it. */
  lemma FieldReadFormatNat(lit: string, n: nat, rest: string)
    requires n <= MAX_INT64
    requires rest == [] || !IsDigit(rest[0])
    ensures FieldRead(lit, lit + FormatNat(n) + rest, n, rest)
  {
    ScanFieldFormatNat(lit, n, rest);
  }

  /** `Sscanf(s, "v=%d", &version)`: `None` stands for the error it returns. */
  function ScanVersion(s: string): (r: Option<int>)
    ensures r.Some? ==> exists rest :: FieldRead("v=", s, r.value, rest)
  {
    var (v, rest) :- ScanField("v=", s);
    assert FieldRead("v=", s, v, rest);
    Some(v)
  }

  /** Every version field that is there scans; the text after it is never looked at. */
  lemma ScanVersionComplete(s: string, v: int, rest: string)
    requires FieldRead("v=", s, v, rest)
    ensures ScanVersion(s) == Some(v)
  {
    ScanFieldComplete("v=", s, v, rest);
  }

  /** `m=%d,t=%d,p=%d` reads (m, t, p) from `s`, one field after another, and leaves `c` unread. */
  predicate ParamsRead(s: string, m: int, t: int, p: int, a: string, b: string, c: string) {
    FieldRead("m=", s, m, a) && FieldRead(",t=", a, t, b) && FieldRead(",p=", b, p, c)
  }

  /** `Sscanf(s, "m=%d,t=%d,p=%d", &mem, &iters, &threads)`: `None` stands for its error. */
  function ScanParams(s: string): (r: Option<(int, int, int)>)
    ensures r.Some? ==> exists a, b, c :: ParamsRead(s, r.value.0, r.value.1, r.value.2, a, b, c)
  {
    var (m, a) :- ScanField("m=", s);
    var (t, b) :- ScanField(",t=", a);
    var (p, c) :- ScanField(",p=", b);
    assert ParamsRead(s, m, t, p, a, b, c);
    Some((m, t, p))
  }

  /** Every parameter block that is there scans, to its three values. */
  lemma ScanParamsComplete(s: string, m: int, t: int, p: int, a: string, b: string, c: string)
    requires ParamsRead(s, m, t, p, a, b, c)
    ensures ScanParams(s) == Some((m, t, p))
  {
    ScanFieldComplete("m=", s, m, a);
    ScanFieldComplete(",t=", a, t, b);
    ScanFieldComplete(",p=", b, p, c);
  }

  /**
   * The parameter block as `Hash` prints it. Besides the digits it only holds
   * the letters and punctuation of `m=`, `,t=` and `,p=`, so never a `$`;
   * `ScanParamsFormatParams` reads it back.
   */
  function FormatParams(m: nat, t: nat, p: nat): (s: string)
    ensures forall i | 0 <= i < |s| :: IsDigit(s[i]) || s[i] in "m=,tp"
  {
    var fm, ft, fp := FormatNat(m), FormatNat(t), FormatNat(p);
    "m=" + fm + ",t=" + ft + ",p=" + fp
  }

  /** `ScanVersion` reads back a printed version. */
  lemma ScanVersionFormatNat(n: nat)
    requires n <= MAX_INT64
    ensures ScanVersion("v=" + FormatNat(n)) == Some(n)
  {
    ScanFieldFormatNat("v=", n, []);
    assert "v=" + FormatNat(n) + [] == "v=" + FormatNat(n);
  }

  /** `ScanParams` reads back a printed parameter block. */
  lemma ScanParamsFormatParams(m: nat, t: nat, p: nat)
    requires m <= MAX_INT64 && t <= MAX_INT64 && p <= MAX_INT64
    ensures ScanParams(FormatParams(m, t, p)) == Some((m, t, p))
  {
    var fm, ft, fp := FormatNat(m), FormatNat(t), FormatNat(p);
    var tail2 := ",p=" + fp;
    var tail1 := ",t=" + ft + tail2;
    var s := FormatParams(m, t, p);
    assert FieldRead("m=", s, m, tail1) by {
      assert s == "m=" + fm + tail1;
      FieldReadFormatNat("m=", m, tail1);
    }
    assert FieldRead(",t=", tail1, t, tail2) by {
      FieldReadFormatNat(",t=", t, tail2);
    }
    assert FieldRead(",p=", tail2, p, []) by {
      FieldReadFormatNat(",p=", p, []);
      assert ",p=" + fp + [] == tail2;
    }
    ScanParamsComplete(s, m, t, p, tail1, tail2, []);
  }

  /** The version and the default parameter block as `Hash` prints them. */
  lemma FormatDefaults()
    ensures FormatNat(19) == "19"
    ensures FormatParams(65536, 3, 4) == "m=65536,t=3,p=4"
  {
    assert FormatNat(1) == "1";
    FormatNat65536();
    assert FormatNat(3) == "3" && FormatNat(4) == "4";
  }

  lemma FormatNat65536()
    ensures FormatNat(65536) == "65536"
  {
    assert FormatNat(6) == "6";
    assert FormatNat(65) == "65";
    assert FormatNat(655) == "655";
    assert FormatNat(6553) == "6553";
  }
}
