/** The stored form of a password hash, and hashing, verifying and rehashing over
    it. Argon2id and Unicode normalisation are parameters. */
module PasswordHash {
  import opened Results
  import opened Decimal
  import opened Base64

  const MEMORY_KIB: nat := 19 * 1024
  const PASSES: nat := 2
  const THREADS: nat := 1
  const SALT_LENGTH: nat := 16
  const KEY_LENGTH: nat := 32
  const MAX_COST_FACTOR: nat := 8
  const VERSION: nat := 19
  const MIN_PASSWORD_LENGTH: nat := 12
  const MAX_PASSWORD_LENGTH: nat := 1024

  datatype Stored = Stored(memory: nat, passes: nat, threads: nat, salt: seq<Byte>, key: seq<Byte>)

  datatype Error = Mismatch | TooLong | TooShort | Unreadable

  // ---------------------------------------------------------------- scanning

  /** The pieces of a text between separators. */
  function Split(s: string, separator: char): (parts: seq<string>)
    ensures |parts| >= 1
  {
    if s == "" then [""]
    else if s[0] == separator then [""] + Split(s[1..], separator)
    else
      var rest := Split(s[1..], separator);
      [[s[0]] + rest[0]] + rest[1..]
  }

  predicate IsSpace(c: char) {
    || '\t' <= c <= '\r' || c == ' ' || c == '\U{85}' || c == '\U{A0}' || c == '\U{1680}'
    || '\U{2000}' <= c <= '\U{200A}' || c == '\U{2028}' || c == '\U{2029}'
    || c == '\U{202F}' || c == '\U{205F}' || c == '\U{3000}'
  }

  /** Leading space is skipped; a line feed among it is an error. */
  function SkipSpace(s: string): Option<string> {
    if s == "" || !IsSpace(s[0]) then Some(s)
    else if s[0] == '\n' then None
    else SkipSpace(s[1..])
  }

  function LeadingDigits(s: string): (n: nat)
    ensures n <= |s| && IsDecimal(s[..n])
    ensures n < |s| ==> !('0' <= s[n] <= '9')
  {
    if s != "" && '0' <= s[0] <= '9' then
      var n := 1 + LeadingDigits(s[1..]);
      assert forall i :: 1 <= i < n ==> s[i] == s[1..][i - 1];
      n
    else 0
  }

  /** What a %d verb reads: space, digits, and the text after them. */
  function ScanUnsigned(s: string): Option<(nat, string)> {
    match SkipSpace(s)
    case None => None
    case Some(t) =>
      var n := LeadingDigits(t);
      if n == 0 then None else Some((Numeral(t[..n]), t[n..]))
  }

  /** A signed one may have a sign before its digits. */
  function ScanSigned(s: string): Option<(int, string)> {
    match SkipSpace(s)
    case None => None
    case Some(t) =>
      var signed := t != "" && (t[0] == '+' || t[0] == '-');
      var digits := if signed then t[1..] else t;
      var n := LeadingDigits(digits);
      if n == 0 then None
      else
        var value: int := Numeral(digits[..n]);
        Some((if signed && t[0] == '-' then -value else value, digits[n..]))
  }

  /** Literal text of a format must stand in the input as it is. */
  function ScanLiteral(s: string, literal: string): Option<string> {
    if literal <= s then Some(s[|literal|..]) else None
  }

  /** Text after the last verb is not looked at. */
  function ScanVersion(field: string): Option<int> {
    match ScanLiteral(field, "v=")
    case None => None
    case Some(s) => match ScanSigned(s) case None => None case Some((v, _)) => Some(v)
  }

  function ScanNamed(s: string, name: string, width: nat): Option<(nat, string)> {
    match ScanLiteral(s, name)
    case None => None
    case Some(t) =>
      match ScanUnsigned(t)
      case None => None
      case Some((n, rest)) => if n < width then Some((n, rest)) else None
  }

  /** Memory and passes are 32 bits wide and threads are 8. */
  function ScanParameters(field: string): Option<(nat, nat, nat)> {
    match ScanNamed(field, "m=", 0x1_0000_0000)
    case None => None
    case Some((memory, s)) =>
      match ScanNamed(s, ",t=", 0x1_0000_0000)
      case None => None
      case Some((passes, t)) =>
        match ScanNamed(t, ",p=", 0x100)
        case None => None
        case Some((threads, _)) => Some((memory, passes, threads))
  }

  // --------------------------------------------------------- the stored form

  function ParameterField(h: Stored): string {
    "m=" + Dec(h.memory) + ",t=" + Dec(h.passes) + ",p=" + Dec(h.threads)
  }

  function Encode(h: Stored): string {
    "" + "$" + ("argon2id" + "$" + ("v=" + Dec(VERSION) + "$" + (ParameterField(h) + "$"
    + (Base64.Encode(h.salt) + "$" + Base64.Encode(h.key)))))
  }

  /** What this server will recompute, given its number of processors. */
  predicate Affordable(memory: nat, passes: nat, threads: nat, cpus: nat) {
    && 0 < memory <= MEMORY_KIB * MAX_COST_FACTOR
    && 0 < passes <= PASSES * MAX_COST_FACTOR
    && 0 < threads <= cpus
  }

  predicate Sized(salt: seq<Byte>, key: seq<Byte>) {
    SALT_LENGTH <= |salt| && KEY_LENGTH / 2 <= |key| <= KEY_LENGTH * 2
  }

  function Decode(encoded: string, cpus: nat): Result<Stored, Error> {
    var fields := Split(encoded, '$');
    if |fields| != 6 || fields[0] != "" || fields[1] != "argon2id" then Failure(Unreadable)
    else if ScanVersion(fields[2]) != Some(VERSION) then Failure(Unreadable)
    else
      match ScanParameters(fields[3])
      case None => Failure(Unreadable)
      case Some((memory, passes, threads)) =>
        if !Affordable(memory, passes, threads, cpus) then Failure(Unreadable)
        else
          match (Base64.Decode(fields[4]), Base64.Decode(fields[5]))
          case (Some(salt), Some(key)) =>
            if Sized(salt, key) then Success(Stored(memory, passes, threads, salt, key)) else Failure(Unreadable)
          case _ => Failure(Unreadable)
  }

  /** What Decode can return: threads fit eight bits. */
  predicate Readable(h: Stored, cpus: nat) {
    Affordable(h.memory, h.passes, h.threads, cpus) && h.threads < 0x100 && Sized(h.salt, h.key)
  }

  // -------------------------------------------------------------- round trip

  lemma {:induction false} SplitWhole(field: string, separator: char)
    requires separator !in field
    ensures Split(field, separator) == [field]
  {
    if field != "" {
      SplitWhole(field[1..], separator);
      assert [field[0]] + field[1..] == field;
    }
  }

  lemma {:induction false} SplitField(field: string, rest: string, separator: char)
    requires separator !in field
    ensures Split(field + [separator] + rest, separator) == [field] + Split(rest, separator)
  {
    var s := field + [separator] + rest;
    if field == "" {
      assert s[1..] == rest;
    } else {
      SplitField(field[1..], rest, separator);
      assert s[1..] == field[1..] + [separator] + rest;
      assert [field[0]] + field[1..] == field;
    }
  }

  lemma {:induction false} LeadingDigitsOf(digits: string, rest: string)
    requires IsDecimal(digits) && (rest == "" || !('0' <= rest[0] <= '9'))
    ensures LeadingDigits(digits + rest) == |digits|
  {
    if digits == "" {
      assert digits + rest == rest;
    } else {
      LeadingDigitsOf(digits[1..], rest);
      assert (digits + rest)[1..] == digits[1..] + rest;
    }
  }

  lemma ScanOfNumeral(n: nat, rest: string)
    requires rest == "" || !('0' <= rest[0] <= '9')
    ensures ScanUnsigned(Dec(n) + rest) == Some((n, rest))
    ensures ScanSigned(Dec(n) + rest) == Some((n, rest))
  {
    var s := Dec(n) + rest;
    assert '0' <= s[0] <= '9';
    LeadingDigitsOf(Dec(n), rest);
    NumeralOfDec(n);
    assert s[..|Dec(n)|] == Dec(n) && s[|Dec(n)|..] == rest;
  }

  lemma ScanOfNamed(name: string, n: nat, rest: string, width: nat)
    requires rest == "" || !('0' <= rest[0] <= '9')
    ensures ScanNamed(name + Dec(n) + rest, name, width) == if n < width then Some((n, rest)) else None
  {
    var s := name + Dec(n) + rest;
    assert s == name + (Dec(n) + rest);
    assert s[|name|..] == Dec(n) + rest;
    ScanOfNumeral(n, rest);
  }

  /** Text after the parameters changes nothing. */
  lemma ScanOfParameters(h: Stored, rest: string)
    requires h.memory < 0x1_0000_0000 && h.passes < 0x1_0000_0000
    requires rest == "" || !('0' <= rest[0] <= '9')
    ensures ScanParameters(ParameterField(h) + rest) ==
            if h.threads < 0x100 then Some((h.memory, h.passes, h.threads)) else None
  {
    hide ScanNamed;
    var afterPasses := ",p=" + Dec(h.threads) + rest;
    var afterMemory := ",t=" + Dec(h.passes) + afterPasses;
    assert ParameterField(h) + rest == "m=" + Dec(h.memory) + afterMemory;
    ScanOfNamed("m=", h.memory, afterMemory, 0x1_0000_0000);
    ScanOfNamed(",t=", h.passes, afterPasses, 0x1_0000_0000);
    ScanOfNamed(",p=", h.threads, rest, 0x100);
  }

  lemma ScanOfVersion(n: nat, rest: string)
    requires rest == "" || !('0' <= rest[0] <= '9')
    ensures ScanVersion("v=" + Dec(n) + rest) == Some(n)
  {
    hide ScanSigned, Dec;
    var s := "v=" + Dec(n) + rest;
    assert s[2..] == Dec(n) + rest;
    ScanOfNumeral(n, rest);
  }

  lemma {:induction false} SkipSpaceOf(space: string, rest: string)
    requires forall i :: 0 <= i < |space| ==> IsSpace(space[i])
    requires rest == "" || !IsSpace(rest[0])
    ensures SkipSpace(space + rest) == if '\n' in space then None else Some(rest)
  {
    if space == "" {
      assert space + rest == rest;
    } else {
      hide IsSpace;
      assert (space + rest)[1..] == space[1..] + rest;
      SkipSpaceOf(space[1..], rest);
    }
  }

  /** Space before a number is skipped, and a line feed in it is an error. */
  lemma SpaceBeforeNumbers(space: string, n: nat, rest: string)
    requires forall i :: 0 <= i < |space| ==> IsSpace(space[i])
    requires rest == "" || !('0' <= rest[0] <= '9')
    ensures ScanUnsigned(space + (Dec(n) + rest)) == if '\n' in space then None else Some((n, rest))
  {
    assert (Dec(n) + rest)[0] == Dec(n)[0];
    SkipSpaceOf(space, Dec(n) + rest);
    SkipSpaceOf("", Dec(n) + rest);
    assert "" + (Dec(n) + rest) == Dec(n) + rest;
    ScanOfNumeral(n, rest);
  }

  lemma NoDollarInDecimal(s: string)
    requires IsDecimal(s)
    ensures '$' !in s
  {
  }

  lemma FieldsOfEncode(h: Stored)
    ensures Split(Encode(h), '$') ==
            ["", "argon2id", "v=" + Dec(VERSION), ParameterField(h), Base64.Encode(h.salt), Base64.Encode(h.key)]
  {
    NoDollarInDecimal(Dec(VERSION));
    NoDollarInDecimal(Dec(h.memory));
    NoDollarInDecimal(Dec(h.passes));
    NoDollarInDecimal(Dec(h.threads));
    SymbolsStayInTheAlphabet(h.salt);
    SymbolsStayInTheAlphabet(h.key);
    hide Split, Dec, Base64.Encode;
    var afterParameters := Base64.Encode(h.salt) + "$" + Base64.Encode(h.key);
    var afterVersion := ParameterField(h) + "$" + afterParameters;
    var afterName := "v=" + Dec(VERSION) + "$" + afterVersion;
    SplitWhole(Base64.Encode(h.key), '$');
    SplitField(Base64.Encode(h.salt), Base64.Encode(h.key), '$');
    SplitField(ParameterField(h), afterParameters, '$');
    SplitField("v=" + Dec(VERSION), afterVersion, '$');
    SplitField("argon2id", afterName, '$');
    SplitField("", "argon2id" + "$" + afterName, '$');
  }

  /** Reading a stored form back returns what was printed, exactly when this
      server would recompute it; anything else is unreadable. */
  lemma DecodeOfEncode(h: Stored, cpus: nat)
    requires h.memory < 0x1_0000_0000 && h.passes < 0x1_0000_0000
    ensures Decode(Encode(h), cpus) == if Readable(h, cpus) then Success(h) else Failure(Unreadable)
  {
    hide Split, ScanParameters, ScanVersion, Encode, ParameterField;
    FieldsOfEncode(h);
    ScanOfVersion(VERSION, "");
    ScanOfParameters(h, "");
    assert "v=" + Dec(VERSION) + "" == "v=" + Dec(VERSION) && ParameterField(h) + "" == ParameterField(h);
    Base64.DecodeOfEncode(h.salt);
    Base64.DecodeOfEncode(h.key);
  }

  /** Nothing absurd is ever recomputed: whatever the text, what is read is within
      the bounds, and printing it again reads as the same. */
  lemma DecodedIsReadable(encoded: string, cpus: nat)
    requires Decode(encoded, cpus).Success?
    ensures Readable(Decode(encoded, cpus).value, cpus)
    ensures Decode(Encode(Decode(encoded, cpus).value), cpus) == Decode(encoded, cpus)
  {
    DecodeOfEncode(Decode(encoded, cpus).value, cpus);
  }

  lemma EncodeIsInjective(g: Stored, h: Stored)
    requires Encode(g) == Encode(h)
    ensures g == h
  {
    hide Split, Encode, Base64.Encode;
    FieldsOfEncode(g);
    FieldsOfEncode(h);
    Base64.DecodeOfEncode(g.salt);
    Base64.DecodeOfEncode(h.salt);
    Base64.DecodeOfEncode(g.key);
    Base64.DecodeOfEncode(h.key);
    ParametersAreInjective(g, h);
  }

  lemma ParametersAreInjective(g: Stored, h: Stored)
    requires ParameterField(g) == ParameterField(h)
    ensures g.memory == h.memory && g.passes == h.passes && g.threads == h.threads
  {
    hide Dec;
    assert forall x: Stored :: ParameterField(x)[2..] ==
               Dec(x.memory) + "," + ("t=" + Dec(x.passes) + ",p=" + Dec(x.threads));
    var a, b := "t=" + Dec(g.passes) + ",p=" + Dec(g.threads), "t=" + Dec(h.passes) + ",p=" + Dec(h.threads);
    SeparatedIsInjective(Dec(g.memory), a, Dec(h.memory), b, ',');
    assert a[2..] == Dec(g.passes) + "," + ("p=" + Dec(g.threads));
    assert b[2..] == Dec(h.passes) + "," + ("p=" + Dec(h.threads));
    var c, d := "p=" + Dec(g.threads), "p=" + Dec(h.threads);
    SeparatedIsInjective(Dec(g.passes), c, Dec(h.passes), d, ',');
    assert c[2..] == Dec(g.threads) && d[2..] == Dec(h.threads);
    DecIsInjective(g.memory, h.memory);
    DecIsInjective(g.passes, h.passes);
    DecIsInjective(g.threads, h.threads);
  }

  // ---------------------------------------------------- hashing and verifying

  /** The normal form of a text, and the key of a password at a cost and size. */
  datatype Crypto = Crypto(normal: string -> string,
                           argon2: (string, seq<Byte>, nat, nat, nat, nat) -> seq<Byte>)

  /** Argon2id produces as many bytes as it is asked for. */
  ghost predicate Sound(crypto: Crypto) {
    forall plain, salt, passes, memory, threads, size ::
      |crypto.argon2(plain, salt, passes, memory, threads, size)| == size
  }

  function Utf8Length(s: string): nat {
    if s == "" then 0
    else
      var c := s[0] as int;
      (if c < 0x80 then 1 else if c < 0x800 then 2 else if c < 0x1_0000 then 3 else 4) + Utf8Length(s[1..])
  }

  function ValidatePassword(crypto: Crypto, plain: string): Result<string, Error> {
    var normalised := crypto.normal(plain);
    if Utf8Length(normalised) > MAX_PASSWORD_LENGTH then Failure(TooLong)
    else if |normalised| < MIN_PASSWORD_LENGTH then Failure(TooShort)
    else Success(normalised)
  }

  function HashPassword(crypto: Crypto, plain: string, salt: seq<Byte>): Result<string, Error> {
    var normalised :- ValidatePassword(crypto, plain);
    var key := crypto.argon2(normalised, salt, PASSES, MEMORY_KIB, THREADS, KEY_LENGTH);
    Success(Encode(Stored(MEMORY_KIB, PASSES, THREADS, salt, key)))
  }

  /** None is a password that verified. */
  function VerifyPassword(crypto: Crypto, encoded: string, plain: string, cpus: nat): Option<Error> {
    match Decode(encoded, cpus)
    case Failure(e) => Some(e)
    case Success(h) =>
      var normalised := crypto.normal(plain);
      if Utf8Length(normalised) > MAX_PASSWORD_LENGTH then Some(Mismatch)
      else if |h.key| < KEY_LENGTH / 2 || |h.key| > KEY_LENGTH * 2 then Some(Unreadable)
      else if crypto.argon2(normalised, h.salt, h.passes, h.memory, h.threads, |h.key|) == h.key then None
      else Some(Mismatch)
  }

  function NeedsRehash(encoded: string, cpus: nat): bool {
    match Decode(encoded, cpus)
    case Failure(_) => true
    case Success(h) => h.memory < MEMORY_KIB || h.passes < PASSES || h.threads != THREADS || |h.key| != KEY_LENGTH
  }

  /** A hash made at any cost the server still affords verifies exactly the texts
      whose key is the same: raising the cost invalidates nothing stored. */
  lemma StoredCostsVerify(crypto: Crypto, plain: string, h: Stored, cpus: nat, attempt: string)
    requires Readable(h, cpus)
    requires h.key == crypto.argon2(crypto.normal(plain), h.salt, h.passes, h.memory, h.threads, |h.key|)
    ensures VerifyPassword(crypto, Encode(h), attempt, cpus).None? <==>
            && Utf8Length(crypto.normal(attempt)) <= MAX_PASSWORD_LENGTH
            && crypto.argon2(crypto.normal(attempt), h.salt, h.passes, h.memory, h.threads, |h.key|) == h.key
    ensures crypto.normal(attempt) == crypto.normal(plain)
            && Utf8Length(crypto.normal(plain)) <= MAX_PASSWORD_LENGTH ==>
              VerifyPassword(crypto, Encode(h), attempt, cpus).None?
  {
    hide Decode, Encode;
    DecodeOfEncode(h, cpus);
  }

  /** A password that was accepted verifies in every spelling with its normal
      form, in no spelling whose key differs, and needs no rehash. */
  lemma AcceptedPasswordsVerify(crypto: Crypto, plain: string, salt: seq<Byte>, attempt: string, cpus: nat)
    requires Sound(crypto) && |salt| == SALT_LENGTH && cpus >= 1
    requires HashPassword(crypto, plain, salt).Success?
    ensures var hash := HashPassword(crypto, plain, salt).value;
            && !NeedsRehash(hash, cpus)
            && (crypto.normal(attempt) == crypto.normal(plain) ==> VerifyPassword(crypto, hash, attempt, cpus).None?)
            && (VerifyPassword(crypto, hash, attempt, cpus).None? ==>
                  crypto.argon2(crypto.normal(attempt), salt, PASSES, MEMORY_KIB, THREADS, KEY_LENGTH)
                  == crypto.argon2(crypto.normal(plain), salt, PASSES, MEMORY_KIB, THREADS, KEY_LENGTH))
            && VerifyPassword(crypto, hash, attempt, cpus) != Some(Unreadable)
  {
    hide Decode, Encode;
    var key := crypto.argon2(crypto.normal(plain), salt, PASSES, MEMORY_KIB, THREADS, KEY_LENGTH);
    DecodeOfEncode(Stored(MEMORY_KIB, PASSES, THREADS, salt, key), cpus);
  }

  /** A character is one to four bytes. */
  lemma {:induction false} Utf8LengthBounds(s: string)
    ensures |s| <= Utf8Length(s) <= 4 * |s|
  {
    if s != "" {
      Utf8LengthBounds(s[1..]);
    }
  }

  /** Whatever characters it is written in, a password of 12 to 256 of them is
      accepted and one of more than 1024 is refused as too long, never cut down;
      the two refusals never compete, so their order decides nothing. */
  lemma AcceptedLengths(crypto: Crypto, plain: string, salt: seq<Byte>)
    ensures var n, r := |crypto.normal(plain)|, HashPassword(crypto, plain, salt);
            && (r.Success? <==> 12 <= n && Utf8Length(crypto.normal(plain)) <= 1024)
            && (12 <= n <= 256 ==> r.Success?)
            && (n > 1024 ==> r == Failure(TooLong))
            && (n < 12 <==> r == Failure(TooShort))
  {
    Utf8LengthBounds(crypto.normal(plain));
  }

  /** A text refused as too long verifies against nothing, whatever is stored; one
      refused as too short still verifies against a hash made before the minimum. */
  lemma RefusedTextsAtLogin(crypto: Crypto, plain: string, salt: seq<Byte>, encoded: string, h: Stored, cpus: nat)
    requires Readable(h, cpus)
    requires h.key == crypto.argon2(crypto.normal(plain), h.salt, h.passes, h.memory, h.threads, |h.key|)
    ensures HashPassword(crypto, plain, salt) == Failure(TooLong) ==> VerifyPassword(crypto, encoded, plain, cpus).Some?
    ensures HashPassword(crypto, plain, salt) == Failure(TooShort) ==>
              VerifyPassword(crypto, Encode(h), plain, cpus).None?
  {
    hide Decode, Encode;
    DecodeOfEncode(h, cpus);
    Utf8LengthBounds(crypto.normal(plain));
  }

  /** A stored hash is due for a rehash exactly when it cannot be read or was made
      cheaper than today's. */
  lemma RehashIsDue(h: Stored, cpus: nat)
    requires h.memory < 0x1_0000_0000 && h.passes < 0x1_0000_0000
    ensures NeedsRehash(Encode(h), cpus) <==>
            || !Readable(h, cpus)
            || h.memory < MEMORY_KIB || h.passes < PASSES || h.threads != THREADS || |h.key| != KEY_LENGTH
  {
    hide Decode, Encode;
    DecodeOfEncode(h, cpus);
  }
}
