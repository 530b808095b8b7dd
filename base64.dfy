/**
 * Go's `base64.RawStdEncoding`: the standard alphabet of section 4 of RFC 4648,
 * with the padding omitted as section 3.2 of RFC 4648 allows. Decoding is the
 * `Strict()` variant: the bits left over in a final group of two or three
 * characters must be zero (section 3.5 of RFC 4648), so every byte string has
 * exactly one accepted encoding. Like Go's decoder, decoding skips every
 * '\r' and '\n' wherever they appear.
 */
module Base64 {
  import opened GoTypes
  import opened Wrappers

  /** The character for the 6-bit value `v`: A-Z, a-z, 0-9, '+', '/'. */
  function CharOf(v: int): (c: char)
    requires 0 <= v < 64
    ensures IndexOf(c) == Some(v)
  {
    if v < 26 then ('A' as int + v) as char
    else if v < 52 then ('a' as int + (v - 26)) as char
    else if v < 62 then ('0' as int + (v - 52)) as char
    else if v == 62 then '+'
    else '/'
  }

  /** The 6-bit value of an alphabet character; `None` for any other character. */
  function IndexOf(c: char): (r: Option<int>)
    ensures r.Some? ==> 0 <= r.value < 64
  {
    if 'A' <= c <= 'Z' then Some(c as int - 'A' as int)
    else if 'a' <= c <= 'z' then Some(c as int - 'a' as int + 26)
    else if '0' <= c <= '9' then Some(c as int - '0' as int + 52)
    else if c == '+' then Some(62)
    else if c == '/' then Some(63)
    else None
  }

  predicate InAlphabet(c: char) { IndexOf(c).Some? }

  lemma CharOfIndexOf(c: char)
    requires InAlphabet(c)
    ensures CharOf(IndexOf(c).value) == c
  {
  }

  /** Go's `EncodedLen` for an encoding without padding. */
  function EncodedLen(n: nat): nat {
    n / 3 * 4 + (n % 3 * 8 + 5) / 6
  }

  /** One group: 3 bytes become 4 characters, a final 2 bytes 3 characters, a final byte 2. */
  function EncodeQuantum(b: seq<byte>): (s: string)
    requires 1 <= |b| <= 3
    ensures |s| == |b| + 1
    ensures forall i | 0 <= i < |s| :: InAlphabet(s[i])
  {
    var b0 := b[0] as int;
    var b1 := if |b| > 1 then b[1] as int else 0;
    var b2 := if |b| > 2 then b[2] as int else 0;
    var s := [CharOf(b0 / 4), CharOf(b0 % 4 * 16 + b1 / 16), CharOf(b1 % 16 * 4 + b2 / 64), CharOf(b2 % 64)];
    s[..|b| + 1]
  }

  /** `EncodeToString`. */
  function Encode(b: seq<byte>): (s: string)
    ensures |s| == EncodedLen(|b|)
    ensures forall i | 0 <= i < |s| :: InAlphabet(s[i])
    decreases |b|
  {
    if |b| == 0 then []
    else if |b| <= 3 then EncodeQuantum(b)
    else EncodeQuantum(b[..3]) + Encode(b[3..])
  }

  /**
   * The input with every '\r' and '\n' removed, which is what Go's decoder
   * reads: no line break is left, every other character is kept as often as
   * it occurs, and `StripNewlinesAppend` says the order is kept too.
   */
  function StripNewlines(s: string): (r: string)
    ensures |r| <= |s|
    ensures forall i | 0 <= i < |r| :: r[i] != '\n' && r[i] != '\r'
    ensures forall c | c != '\n' && c != '\r' :: multiset(r)[c] == multiset(s)[c]
    ensures (forall i | 0 <= i < |s| :: s[i] != '\n' && s[i] != '\r') ==> r == s
  {
    if s == [] then []
    else
      assert s == [s[0]] + s[1..];
      if s[0] == '\n' || s[0] == '\r' then StripNewlines(s[1..])
      else [s[0]] + StripNewlines(s[1..])
  }

  /** Removing line breaks works piece by piece, so the kept characters stay in order. */
  lemma {:induction false} StripNewlinesAppend(a: string, b: string)
    ensures StripNewlines(a + b) == StripNewlines(a) + StripNewlines(b)
    decreases |a|
  {
    if a == [] {
      assert a + b == b;
    } else {
      assert (a + b)[0] == a[0] && (a + b)[1..] == a[1..] + b;
      StripNewlinesAppend(a[1..], b);
    }
  }

  /**
   * One group of 2 to 4 characters, strictly: every character in the alphabet,
   * and the bits a short final group leaves over all zero.
   */
  function DecodeQuantum(s: string): (r: Option<seq<byte>>)
    requires 2 <= |s| <= 4
    ensures r.Some? <==>
      && (forall i | 0 <= i < |s| :: InAlphabet(s[i]))
      && (|s| == 2 ==> IndexOf(s[1]).value % 16 == 0)
      && (|s| == 3 ==> IndexOf(s[2]).value % 4 == 0)
    ensures r.Some? ==> |r.value| == |s| - 1
  {
    if !(forall i | 0 <= i < |s| :: InAlphabet(s[i])) then None
    else
      var v0, v1 := IndexOf(s[0]).value, IndexOf(s[1]).value;
      var v2 := if |s| > 2 then IndexOf(s[2]).value else 0;
      var v3 := if |s| > 3 then IndexOf(s[3]).value else 0;
      if |s| == 2 && v1 % 16 != 0 then None
      else if |s| == 3 && v2 % 4 != 0 then None
      else Some([(v0 * 4 + v1 / 16) as byte, (v1 % 16 * 16 + v2 / 4) as byte, (v2 % 4 * 64 + v3) as byte][..|s| - 1])
  }

  /** Strict decoding of a string without line breaks, one 4-character group at a time. */
  function DecodeGroups(s: string): (r: Option<seq<byte>>)
    decreases |s|
  {
    if |s| == 0 then Some([])
    else if |s| == 1 then None
    else if |s| <= 4 then DecodeQuantum(s)
    else
      var q :- DecodeQuantum(s[..4]);
      var rest :- DecodeGroups(s[4..]);
      Some(q + rest)
  }

  /**
   * `Strict().DecodeString`: `None` stands for Go's `CorruptInputError`.
   * Whatever it accepts is, line breaks aside, the one encoding of the bytes
   * it returns.
   */
  function Decode(s: string): (r: Option<seq<byte>>)
    ensures r.Some? ==> Encode(r.value) == StripNewlines(s)
  {
    var t := StripNewlines(s);
    if DecodeGroups(t).Some? then
      EncodeDecodeGroups(t);
      DecodeGroups(t)
    else None
  }

  /** The arithmetic of one group, from bytes to 6-bit values and back. */
  lemma BytesToSextets(b0: int, b1: int, b2: int)
    requires 0 <= b0 < 256 && 0 <= b1 < 256 && 0 <= b2 < 256
    ensures (b0 / 4) * 4 + (b0 % 4 * 16 + b1 / 16) / 16 == b0
    ensures (b0 % 4 * 16 + b1 / 16) % 16 * 16 + (b1 % 16 * 4 + b2 / 64) / 4 == b1
    ensures (b1 % 16 * 4 + b2 / 64) % 4 * 64 + b2 % 64 == b2
    ensures b1 == 0 ==> (b0 % 4 * 16 + b1 / 16) % 16 == 0
    ensures b2 == 0 ==> (b1 % 16 * 4 + b2 / 64) % 4 == 0
  {
  }

  /** The arithmetic of one group, from 6-bit values to bytes and back. */
  lemma SextetsToBytes(v0: int, v1: int, v2: int, v3: int)
    requires 0 <= v0 < 64 && 0 <= v1 < 64 && 0 <= v2 < 64 && 0 <= v3 < 64
    ensures (v0 * 4 + v1 / 16) / 4 == v0
    ensures (v0 * 4 + v1 / 16) % 4 * 16 + (v1 % 16 * 16 + v2 / 4) / 16 == v1
    ensures (v1 % 16 * 16 + v2 / 4) % 16 * 4 + (v2 % 4 * 64 + v3) / 64 == v2
    ensures (v2 % 4 * 64 + v3) % 64 == v3
    ensures v1 % 16 == 0 ==> (v1 % 16 * 16 + v2 / 4) / 16 == 0
    ensures v2 % 4 == 0 ==> (v2 % 4 * 64 + v3) / 64 == 0
  {
  }

  lemma QuantumRoundTrip(b: seq<byte>)
    requires 1 <= |b| <= 3
    ensures DecodeQuantum(EncodeQuantum(b)) == Some(b)
  {
    var b0 := b[0] as int;
    var b1 := if |b| > 1 then b[1] as int else 0;
    var b2 := if |b| > 2 then b[2] as int else 0;
    BytesToSextets(b0, b1, b2);
    var full := [b0 as byte, b1 as byte, b2 as byte];
    assert b == full[..|b|];
  }

  /** The group's characters re-encode from its decoded bytes, given as integers. */
  lemma QuantumCanonicalValues(s: string, v0: int, v1: int, v2: int, v3: int)
    requires 2 <= |s| <= 4
    requires IndexOf(s[0]) == Some(v0) && IndexOf(s[1]) == Some(v1)
    requires |s| > 2 ==> IndexOf(s[2]) == Some(v2)
    requires |s| <= 2 ==> v2 == 0
    requires |s| > 3 ==> IndexOf(s[3]) == Some(v3)
    requires |s| <= 3 ==> v3 == 0
    requires |s| == 2 ==> v1 % 16 == 0
    requires |s| == 3 ==> v2 % 4 == 0
    ensures
      var b0, b1, b2 := v0 * 4 + v1 / 16, v1 % 16 * 16 + v2 / 4, v2 % 4 * 64 + v3;
      var c1 := if |s| > 2 then b1 else 0;
      var c2 := if |s| > 3 then b2 else 0;
      && 0 <= b0 < 256 && 0 <= b1 < 256 && 0 <= b2 < 256
      && CharOf(b0 / 4) == s[0]
      && CharOf(b0 % 4 * 16 + c1 / 16) == s[1]
      && (|s| > 2 ==> CharOf(c1 % 16 * 4 + c2 / 64) == s[2])
      && (|s| > 3 ==> CharOf(c2 % 64) == s[3])
  {
    SextetsToBytes(v0, v1, v2, v3);
    CharOfIndexOf(s[0]);
    CharOfIndexOf(s[1]);
    if |s| > 2 { CharOfIndexOf(s[2]); }
    if |s| > 3 { CharOfIndexOf(s[3]); }
  }

  /** The bytes of one decoded group, with the 6-bit values they come from. */
  lemma DecodeQuantumBytes(s: string)
    requires 2 <= |s| <= 4
    requires DecodeQuantum(s).Some?
    ensures forall i | 0 <= i < |s| :: InAlphabet(s[i])
    ensures
      var v0, v1 := IndexOf(s[0]).value, IndexOf(s[1]).value;
      var v2 := if |s| > 2 then IndexOf(s[2]).value else 0;
      var v3 := if |s| > 3 then IndexOf(s[3]).value else 0;
      var b := DecodeQuantum(s).value;
      && (|s| == 2 ==> v1 % 16 == 0)
      && (|s| == 3 ==> v2 % 4 == 0)
      && b[0] as int == v0 * 4 + v1 / 16
      && (|s| > 2 ==> b[1] as int == v1 % 16 * 16 + v2 / 4)
      && (|s| > 3 ==> b[2] as int == v2 % 4 * 64 + v3)
  {
  }

  lemma QuantumCanonical(s: string)
    requires 2 <= |s| <= 4
    requires DecodeQuantum(s).Some?
    ensures EncodeQuantum(DecodeQuantum(s).value) == s
  {
    DecodeQuantumBytes(s);
    var v0, v1 := IndexOf(s[0]).value, IndexOf(s[1]).value;
    var v2 := if |s| > 2 then IndexOf(s[2]).value else 0;
    var v3 := if |s| > 3 then IndexOf(s[3]).value else 0;
    QuantumCanonicalValues(s, v0, v1, v2, v3);
    var b := DecodeQuantum(s).value;
    EncodeQuantumChars(b);
    var e := EncodeQuantum(b);
    assert |e| == |s|;
    assert e[0] == s[0];
    assert e[1] == s[1];
    assert |s| > 2 ==> e[2] == s[2];
    assert |s| > 3 ==> e[3] == s[3];
  }

  /** The characters of one encoded group, character by character. */
  lemma EncodeQuantumChars(b: seq<byte>)
    requires 1 <= |b| <= 3
    ensures
      var b0 := b[0] as int;
      var b1 := if |b| > 1 then b[1] as int else 0;
      var b2 := if |b| > 2 then b[2] as int else 0;
      var e := EncodeQuantum(b);
      && e[0] == CharOf(b0 / 4)
      && e[1] == CharOf(b0 % 4 * 16 + b1 / 16)
      && (|b| > 1 ==> e[2] == CharOf(b1 % 16 * 4 + b2 / 64))
      && (|b| > 2 ==> e[3] == CharOf(b2 % 64))
  {
  }

  /** Decoding undoes encoding. */
  lemma {:induction false} DecodeGroupsEncode(b: seq<byte>)
    ensures DecodeGroups(Encode(b)) == Some(b)
    decreases |b|
  {
    if |b| == 0 {
    } else if |b| <= 3 {
      QuantumRoundTrip(b);
    } else {
      var e := Encode(b);
      QuantumRoundTrip(b[..3]);
      DecodeGroupsEncode(b[3..]);
      assert e[..4] == EncodeQuantum(b[..3]) && e[4..] == Encode(b[3..]);
      assert b == b[..3] + b[3..];
    }
  }

  /** An encoding holds no line breaks, so the decoder sees it unchanged. */
  lemma EncodeHasNoNewlines(b: seq<byte>)
    ensures StripNewlines(Encode(b)) == Encode(b)
  {
    var e := Encode(b);
    forall i | 0 <= i < |e|
      ensures e[i] != '\n' && e[i] != '\r'
    {
      assert InAlphabet(e[i]);
    }
  }

  /** Round trip: strict decoding recovers every encoded byte string. */
  lemma DecodeEncode(b: seq<byte>)
    ensures Decode(Encode(b)) == Some(b)
  {
    EncodeHasNoNewlines(b);
    DecodeGroupsEncode(b);
  }

  /** Strictness: a string without line breaks that decodes is the one encoding of what it decodes to. */
  lemma {:induction false} EncodeDecodeGroups(s: string)
    requires DecodeGroups(s).Some?
    ensures Encode(DecodeGroups(s).value) == s
    decreases |s|
  {
    if |s| == 0 {
    } else if |s| <= 4 {
      QuantumCanonical(s);
    } else {
      var q := DecodeQuantum(s[..4]).value;
      var rest := DecodeGroups(s[4..]).value;
      QuantumCanonical(s[..4]);
      EncodeDecodeGroups(s[4..]);
      var b := q + rest;
      assert b[..3] == q && b[3..] == rest;
      assert s == s[..4] + s[4..];
    }
  }

  /** Strict decoding in one line: `s` decodes to `b` exactly when, line breaks aside, it is `b`'s encoding. */
  lemma DecodeExactly(s: string, b: seq<byte>)
    ensures Decode(s) == Some(b) <==> StripNewlines(s) == Encode(b)
  {
    if StripNewlines(s) == Encode(b) {
      DecodeGroupsEncode(b);
    }
  }

  /** The test vectors of section 10 of RFC 4648, "f", "fo", "foo" and "foobar", without padding. */
  lemma Rfc4648Vectors()
    ensures Encode([102]) == "Zg"
    ensures Encode([102, 111]) == "Zm8"
    ensures Encode([102, 111, 111]) == "Zm9v"
    ensures Encode([102, 111, 111, 98, 97, 114]) == "Zm9vYmFy"
  {
    VectorF();
    VectorFo();
    VectorFoo();
    VectorBar();
    var b: seq<byte> := [102, 111, 111, 98, 97, 114];
    assert b[..3] == [102, 111, 111] && b[3..] == [98, 97, 114];
  }

  lemma VectorF()
    ensures Encode([102]) == "Zg"
  {
    assert CharOf(25) == 'Z' && CharOf(32) == 'g';
  }

  lemma VectorFo()
    ensures Encode([102, 111]) == "Zm8"
  {
    assert CharOf(25) == 'Z' && CharOf(38) == 'm' && CharOf(60) == '8';
  }

  lemma VectorFoo()
    ensures Encode([102, 111, 111]) == "Zm9v"
  {
    assert CharOf(25) == 'Z' && CharOf(38) == 'm' && CharOf(61) == '9' && CharOf(47) == 'v';
  }

  lemma VectorBar()
    ensures Encode([98, 97, 114]) == "YmFy"
  {
    assert CharOf(24) == 'Y' && CharOf(38) == 'm' && CharOf(5) == 'F' && CharOf(50) == 'y';
  }

  /**
   * Strictness and line breaks on small inputs: "AA" is the encoding of the
   * byte 0, "AB" carries a set bit past the last byte and is rejected, and a
   * line break inside "AA" is skipped.
   */
  lemma StrictExamples()
    ensures Decode("AA") == Some([0])
    ensures Decode("AB") == None
    ensures Decode("A\r\nA") == Some([0])
  {
    assert StripNewlines("AA") == "AA";
    assert StripNewlines("AB") == "AB";
    assert StripNewlines("A\r\nA") == "AA" by {
      assert StripNewlines("A") == "A";
      assert StripNewlines("\nA") == "A";
      assert StripNewlines("\r\nA") == "A";
    }
    assert DecodeQuantum("AA") == Some([0]) by {
      var s := "AA";
      assert s[0] == 'A' && s[1] == 'A' && IndexOf('A') == Some(0);
      assert forall i | 0 <= i < |s| :: InAlphabet(s[i]);
      var b: seq<byte> := [0, 0, 0];
      assert b[..1] == [0];
    }
    assert IndexOf('B') == Some(1);
  }
}
