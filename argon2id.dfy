/**
 * The password-hash token of argon2id.go. `Hash` derives a key from a secret
 * and a salt and writes the parameters, salt and key into one text token,
 * `$argon2id$v=<ver>$m=<mem>,t=<iters>,p=<threads>$<salt>$<key>`;
 * `DecodeIntoOptions` reads such a token back; `Compare` re-derives the key
 * for a candidate secret and compares it in constant time with the stored one.
 *
 * The Argon2id key-derivation function itself is a parameter of type
 * `Deriver`, about which nothing is known except the length of its output;
 * the random salt is a parameter too.
 */
module Argon2id {
  import opened Wrappers
  import opened GoTypes
  import Base64
  import Fmt
  import Strings
  import Subtle

  /** `argon2.Version`, the version number the key-derivation library writes (0x13). */
  const VERSION: nat := 0x13

  /** The algorithm tag, the token's second `$`-separated segment. */
  const ALGORITHM: string := "argon2id"

  /** The cost parameters of one derivation, with Go's field widths. */
  datatype Options = Options(
    iterations: uint32,
    memory: uint32,
    threads: uint8,
    saltLength: uint32,
    keyLength: uint32)

  /** `DefaultOptions`: 3 passes, 64 MiB, 4 lanes, a 16-byte salt and a 32-byte key. */
  const DEFAULT_OPTIONS: Options := Options(3, 64 * 1024, 4, 16, 32)

  /** Go's zero value `Options{}`. */
  const ZERO_OPTIONS: Options := Options(0, 0, 0, 0, 0)

  /** The errors the three operations can return. */
  datatype Error =
    | InvalidForm    // ErrInvalidForm
    | ScanError      // an error of fmt.Sscanf
    | CorruptInput   // base64.CorruptInputError
    | RandomFailure  // the error of crypto/rand's Read

  /** What `DecodeIntoOptions` returns besides its error, in the source's order. */
  datatype Decoded = Decoded(options: Options, key: seq<byte>, salt: seq<byte>)

  /**
   * `argon2.IDKey(password, salt, time, memory, threads, keyLen)`: any function
   * that returns exactly `keyLen` bytes.
   */
  type Deriver = f: (seq<byte>, seq<byte>, uint32, uint32, uint8, uint32) -> seq<byte>
    | forall password, salt, t, m, p, n :: |f(password, salt, t, m, p, n)| == n as int
    witness (password: seq<byte>, salt: seq<byte>, t: uint32, m: uint32, p: uint8, n: uint32) =>
      seq(n as int, i => 0 as byte)

  /** The options `Hash` uses: the first ones passed, otherwise `DefaultOptions`. */
  function Chosen(options: seq<Options>): (o: Options)
    ensures options != [] ==> o == options[0]
    ensures options == [] ==> o == Options(3, 65536, 4, 16, 32)
  {
    if |options| != 0 then options[0] else DEFAULT_OPTIONS
  }

  /**
   * The `Sprintf` of `Hash`, for any version and any non-negative parameters.
   * No field contains `$`, so the token splits into exactly its six fields.
   */
  function FormatToken(version: nat, m: nat, t: nat, p: nat, salt: seq<byte>, key: seq<byte>): (token: string)
    ensures Strings.Split(token, '$') ==
      ["", ALGORITHM, "v=" + Fmt.FormatNat(version), Fmt.FormatParams(m, t, p), Base64.Encode(salt), Base64.Encode(key)]
  {
    var v, ps, s, k := "v=" + Fmt.FormatNat(version), Fmt.FormatParams(m, t, p), Base64.Encode(salt), Base64.Encode(key);
    NoSeparator(version, m, t, p, salt, key);
    Strings.JoinSix("", ALGORITHM, v, ps, s, k, '$');
    assert "" + "$" == "$";
    Strings.SplitJoin(["", ALGORITHM, v, ps, s, k], '$');
    "$" + ALGORITHM + "$" + v + "$" + ps + "$" + s + "$" + k
  }

  /**
   * `Hash(plain, options...)`. `random` is what `rand.Read` does with the salt
   * buffer: fill all of it, or fail. The token always decodes back to the
   * options used, the salt, and the derived key.
   */
  function Hash(plain: seq<byte>, options: seq<Options>, random: Result<seq<byte>, Error>, derive: Deriver)
    : (r: Result<string, Error>)
    requires random.Success? ==> |random.value| == Chosen(options).saltLength as int
    ensures random.Failure? ==> r == Failure(random.error)
    ensures random.Success? ==> r.Success?
    ensures random.Success? ==>
      var o := Chosen(options);
      var key := derive(plain, random.value, o.iterations, o.memory, o.threads, o.keyLength);
      && r.value == FormatToken(VERSION, o.memory as nat, o.iterations as nat, o.threads as nat, random.value, key)
      && DecodeIntoOptions(r.value) == Success(Decoded(o, key, random.value))
  {
    var opts := Chosen(options);
    match random
    case Failure(e) => Failure(e)
    case Success(salt) =>
      var key := derive(plain, salt, opts.iterations, opts.memory, opts.threads, opts.keyLength);
      DecodeFormatted(VERSION, opts.memory as nat, opts.iterations as nat, opts.threads as nat, salt, key);
      Success(FormatToken(VERSION, opts.memory as nat, opts.iterations as nat, opts.threads as nat, salt, key))
  }

  /**
   * `DecodeIntoOptions(hash)`. The segment before the first `$` is never
   * looked at; a version segment that does not scan gives the zero result
   * and no error; the version number itself is never checked.
   */
  function DecodeIntoOptions(hash: string): (r: Result<Decoded, Error>)
    ensures
      var vals := Strings.Split(hash, '$');
      && (r == Failure(InvalidForm) <==> |vals| != 6 || vals[1] != ALGORITHM)
      && (|vals| == 6 && vals[1] == ALGORITHM && Fmt.ScanVersion(vals[2]).None? ==>
            r == Success(Decoded(ZERO_OPTIONS, [], [])))
      && (|vals| == 6 && vals[1] == ALGORITHM && Fmt.ScanVersion(vals[2]).Some? ==>
            && (r.Success? <==>
                  Fmt.ScanParams(vals[3]).Some? && Base64.Decode(vals[4]).Some? && Base64.Decode(vals[5]).Some?)
            && (r == Failure(ScanError) <==> Fmt.ScanParams(vals[3]).None?)
            && (r == Failure(CorruptInput) <==>
                  Fmt.ScanParams(vals[3]).Some? && (Base64.Decode(vals[4]).None? || Base64.Decode(vals[5]).None?))
            && (r.Success? ==>
                  var (m, t, p) := Fmt.ScanParams(vals[3]).value;
                  var d := r.value;
                  && Base64.Decode(vals[4]) == Some(d.salt)
                  && Base64.Decode(vals[5]) == Some(d.key)
                  && d.options == Options(ToUint32(t), ToUint32(m), ToUint8(p), ToUint32(|d.salt|), ToUint32(|d.key|))))
  {
    var vals := Strings.Split(hash, '$');
    if |vals| != 6 then Failure(InvalidForm)
    else if vals[1] != ALGORITHM then Failure(InvalidForm)
    else if Fmt.ScanVersion(vals[2]).None? then Success(Decoded(ZERO_OPTIONS, [], []))
    else
      match Fmt.ScanParams(vals[3])
      case None => Failure(ScanError)
      case Some((mem, iters, threads)) =>
        match Base64.Decode(vals[4])
        case None => Failure(CorruptInput)
        case Some(rawSalt) =>
          match Base64.Decode(vals[5])
          case None => Failure(CorruptInput)
          case Some(rawKey) =>
            Success(Decoded(
              Options(ToUint32(iters), ToUint32(mem), ToUint8(threads), ToUint32(|rawSalt|), ToUint32(|rawKey|)),
              rawKey, rawSalt))
  }

  /**
   * `Compare(plain, hash)`: decode errors come back unchanged; otherwise the
   * answer is whether the key derived from `plain` with the token's salt and
   * options is the stored key.
   */
  function Compare(plain: seq<byte>, hash: string, derive: Deriver): (r: Result<bool, Error>)
    ensures DecodeIntoOptions(hash).Failure? ==> r == Failure(DecodeIntoOptions(hash).error)
    ensures DecodeIntoOptions(hash).Success? ==>
      var d := DecodeIntoOptions(hash).value;
      var o := d.options;
      r == Success(derive(plain, d.salt, o.iterations, o.memory, o.threads, o.keyLength) == d.key)
  {
    match DecodeIntoOptions(hash)
    case Failure(e) => Failure(e)
    case Success(Decoded(opts, key, salt)) =>
      var otherKey := derive(plain, salt, opts.iterations, opts.memory, opts.threads, opts.keyLength);
      if Subtle.ConstantTimeEq(ToInt32(opts.keyLength as int), ToInt32(|otherKey|)) == 0 then Success(false)
      else if Subtle.ConstantTimeCompare(key, otherKey) == 1 then Success(true)
      else Success(false)
  }

  /** Neither decimal digits nor base64 characters are the separator. */
  lemma NoSeparator(version: nat, m: nat, t: nat, p: nat, salt: seq<byte>, key: seq<byte>)
    ensures '$' !in "v=" + Fmt.FormatNat(version)
    ensures '$' !in Fmt.FormatParams(m, t, p)
    ensures '$' !in Base64.Encode(salt) && '$' !in Base64.Encode(key)
  {
    var fv, fm, ft, fp := Fmt.FormatNat(version), Fmt.FormatNat(m), Fmt.FormatNat(t), Fmt.FormatNat(p);
    assert forall i | 0 <= i < |fv| :: Fmt.IsDigit(fv[i]);
    assert forall i | 0 <= i < |fm| :: Fmt.IsDigit(fm[i]);
    assert forall i | 0 <= i < |ft| :: Fmt.IsDigit(ft[i]);
    assert forall i | 0 <= i < |fp| :: Fmt.IsDigit(fp[i]);
  }

  /**
   * Round trip, for any version and any parameters in Go's `int` range: the
   * token decodes to the salt, the key, and the parameters narrowed the way
   * `uint32(...)` and `uint8(...)` narrow them.
   */
  lemma DecodeFormatted(version: nat, m: nat, t: nat, p: nat, salt: seq<byte>, key: seq<byte>)
    requires version <= MAX_INT64 && m <= MAX_INT64 && t <= MAX_INT64 && p <= MAX_INT64
    ensures DecodeIntoOptions(FormatToken(version, m, t, p, salt, key)) ==
      Success(Decoded(Options(ToUint32(t), ToUint32(m), ToUint8(p), ToUint32(|salt|), ToUint32(|key|)), key, salt))
  {
    Fmt.ScanVersionFormatNat(version);
    Fmt.ScanParamsFormatParams(m, t, p);
    Base64.DecodeEncode(salt);
    Base64.DecodeEncode(key);
  }

  /** Round trip of `Options`: a token with the current version gives back options, salt and key. */
  lemma DecodeToken(o: Options, salt: seq<byte>, key: seq<byte>)
    requires |salt| == o.saltLength as int && |key| == o.keyLength as int
    ensures DecodeIntoOptions(FormatToken(VERSION, o.memory as nat, o.iterations as nat, o.threads as nat, salt, key))
      == Success(Decoded(o, key, salt))
  {
    DecodeFormatted(VERSION, o.memory as nat, o.iterations as nat, o.threads as nat, salt, key);
  }

  /** Whatever stands before the first `$` has no effect on decoding. */
  lemma PrefixIgnored(prefix: string, rest: string)
    requires '$' !in prefix
    ensures DecodeIntoOptions(prefix + rest) == DecodeIntoOptions(rest)
  {
    Strings.SplitPrefix(prefix, rest, '$');
  }

  /** With no options, `Hash` writes the default parameters, a 22-character salt and a 43-character key. */
  lemma DefaultToken(plain: seq<byte>, salt: seq<byte>, derive: Deriver) returns (s64: string, k64: string)
    requires |salt| == 16
    ensures Hash(plain, [], Success(salt), derive) == Success("$argon2id$v=19$m=65536,t=3,p=4$" + s64 + "$" + k64)
    ensures |s64| == 22 && |k64| == 43
    ensures forall i | 0 <= i < 22 :: Base64.InAlphabet(s64[i])
    ensures forall i | 0 <= i < 43 :: Base64.InAlphabet(k64[i])
  {
    var key := derive(plain, salt, 3, 65536, 4, 32);
    s64, k64 := Base64.Encode(salt), Base64.Encode(key);
    HashDefault(plain, salt, derive);
    DefaultFormat(salt, key);
  }

  /** With no options, `Hash` formats the default parameters. */
  lemma HashDefault(plain: seq<byte>, salt: seq<byte>, derive: Deriver)
    requires |salt| == 16
    ensures Hash(plain, [], Success(salt), derive) ==
      Success(FormatToken(VERSION, 65536, 3, 4, salt, derive(plain, salt, 3, 65536, 4, 32)))
  {
    assert Chosen([]) == DEFAULT_OPTIONS;
  }

  /** The text of a token with the default parameters. */
  lemma DefaultFormat(salt: seq<byte>, key: seq<byte>)
    ensures FormatToken(VERSION, 65536, 3, 4, salt, key) ==
      "$argon2id$v=19$m=65536,t=3,p=4$" + Base64.Encode(salt) + "$" + Base64.Encode(key)
  {
    var v, ps := "v=" + Fmt.FormatNat(19), Fmt.FormatParams(65536, 3, 4);
    Fmt.FormatDefaults();
    var prefix := "$" + ALGORITHM + "$" + v + "$" + ps + "$";
    assert prefix == "$argon2id$v=19$m=65536,t=3,p=4$";
  }

  /** A token made by `Hash` matches the secret it was made from. */
  lemma CompareHash(plain: seq<byte>, options: seq<Options>, salt: seq<byte>, derive: Deriver)
    requires |salt| == Chosen(options).saltLength as int
    ensures Hash(plain, options, Success(salt), derive).Success?
    ensures Compare(plain, Hash(plain, options, Success(salt), derive).value, derive) == Success(true)
  {
  }

  /**
   * Another secret matches a token made by `Hash` exactly when it derives the
   * same key with that salt and those options.
   */
  lemma CompareOtherSecret(plain: seq<byte>, other: seq<byte>, options: seq<Options>, salt: seq<byte>, derive: Deriver)
    requires |salt| == Chosen(options).saltLength as int
    ensures Hash(plain, options, Success(salt), derive).Success?
    ensures
      var o := Chosen(options);
      Compare(other, Hash(plain, options, Success(salt), derive).value, derive) ==
        Success(derive(other, salt, o.iterations, o.memory, o.threads, o.keyLength)
             == derive(plain, salt, o.iterations, o.memory, o.threads, o.keyLength))
  {
  }

  /** A token whose six fields are all empty except the algorithm tag. */
  const EMPTY_FIELDS_TOKEN: string := "$argon2id$$$$"

  lemma EmptyFieldsSegments()
    ensures Strings.Split(EMPTY_FIELDS_TOKEN, '$') == ["", ALGORITHM, "", "", "", ""]
  {
    var parts := ["", ALGORITHM, "", "", "", ""];
    assert '$' !in ALGORITHM;
    assert forall i | 0 <= i < 6 :: '$' !in parts[i];
    Strings.JoinSix("", ALGORITHM, "", "", "", "", '$');
    assert "" + "$" + ALGORITHM + "$" + "" + "$" + "" + "$" + "" + "$" + "" == EMPTY_FIELDS_TOKEN;
    Strings.SplitJoin(parts, '$');
  }

  /**
   * As written, a token whose version field does not scan is accepted: it
   * decodes with no error to zero options and an empty key and salt. `Compare`
   * then asks the key-derivation function for a zero-length key with zero
   * rounds, zero memory and zero lanes. A `Deriver` that returns that empty
   * key makes `Compare` report a match for every secret. The real
   * `argon2.IDKey` panics on zero rounds instead, so in the running program
   * that call panics rather than matching.
   */
  lemma MalformedVersionAccepted(plain: seq<byte>, derive: Deriver)
    ensures DecodeIntoOptions(EMPTY_FIELDS_TOKEN) == Success(Decoded(ZERO_OPTIONS, [], []))
    ensures Compare(plain, EMPTY_FIELDS_TOKEN, derive) == Success(true)
  {
    assert DecodeIntoOptions(EMPTY_FIELDS_TOKEN) == Success(Decoded(ZERO_OPTIONS, [], [])) by {
      EmptyFieldsSegments();
      assert Fmt.ScanVersion("") == None;
    }
    assert |derive(plain, [], 0, 0, 0, 0)| == 0;
  }

  /**
   * `DecodeIntoOptions` as evidently intended: a version field that does not
   * scan is an error like every other field that does not parse. Every token
   * it accepts has six fields, the algorithm tag, a version, a parameter block
   * and two strict base64 fields, and it agrees with `DecodeIntoOptions` on
   * every token whose version field scans.
   */
  function DecodeIntoOptionsChecked(hash: string): (r: Result<Decoded, Error>)
    ensures
      var vals := Strings.Split(hash, '$');
      && (r.Success? ==>
            && |vals| == 6 && vals[1] == ALGORITHM
            && Fmt.ScanVersion(vals[2]).Some? && Fmt.ScanParams(vals[3]).Some?
            && Base64.Decode(vals[4]) == Some(r.value.salt)
            && Base64.Decode(vals[5]) == Some(r.value.key))
      && (|vals| == 6 && vals[1] == ALGORITHM && Fmt.ScanVersion(vals[2]).None? ==> r == Failure(ScanError))
      && (|vals| != 6 || vals[1] != ALGORITHM || Fmt.ScanVersion(vals[2]).Some? ==> r == DecodeIntoOptions(hash))
  {
    var vals := Strings.Split(hash, '$');
    if |vals| == 6 && vals[1] == ALGORITHM && Fmt.ScanVersion(vals[2]).None? then Failure(ScanError)
    else DecodeIntoOptions(hash)
  }

  /** The corrected decoder rejects the token the original accepts, and still reads back every token `Hash` writes. */
  lemma CheckedDecoding(o: Options, salt: seq<byte>, key: seq<byte>)
    requires |salt| == o.saltLength as int && |key| == o.keyLength as int
    ensures DecodeIntoOptionsChecked(EMPTY_FIELDS_TOKEN) == Failure(ScanError)
    ensures DecodeIntoOptionsChecked(FormatToken(VERSION, o.memory as nat, o.iterations as nat, o.threads as nat, salt, key))
      == Success(Decoded(o, key, salt))
  {
    assert DecodeIntoOptionsChecked(EMPTY_FIELDS_TOKEN) == Failure(ScanError) by {
      EmptyFieldsSegments();
      assert Fmt.ScanVersion("") == None;
    }
    var token := FormatToken(VERSION, o.memory as nat, o.iterations as nat, o.threads as nat, salt, key);
    assert Fmt.ScanVersion(Strings.Split(token, '$')[2]).Some? by {
      Fmt.ScanVersionFormatNat(VERSION);
    }
    DecodeToken(o, salt, key);
  }
}
