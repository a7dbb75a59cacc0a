/** Which texts read as a stored hash, and the answers a check of a password gives
    for every text. */
module HashTexts {
  import opened Results
  import opened Decimal
  import opened Base64
  import opened PasswordHash

  // ----------------------------------------------------------------- fields

  function Join(parts: seq<string>, separator: char): string
    requires parts != []
  {
    if |parts| == 1 then parts[0] else parts[0] + [separator] + Join(parts[1..], separator)
  }

  /** The pieces of a text make it up and hold no separator. */
  lemma {:induction false} JoinOfSplit(s: string, separator: char)
    ensures Join(Split(s, separator), separator) == s
    ensures forall i :: 0 <= i < |Split(s, separator)| ==> separator !in Split(s, separator)[i]
  {
    if s != "" {
      JoinOfSplit(s[1..], separator);
      var rest := Split(s[1..], separator);
      assert s == [s[0]] + s[1..];
      if s[0] == separator {
        assert Split(s, separator)[1..] == rest;
      } else {
        assert Split(s, separator)[1..] == rest[1..];
        if |rest| > 1 {
          assert [s[0]] + rest[0] + [separator] + Join(rest[1..], separator)
              == [s[0]] + (rest[0] + [separator] + Join(rest[1..], separator));
        }
      }
    }
  }

  /** Four fields after the name of the algorithm. */
  predicate HasFields(encoded: string, version: string, costs: string, salt: string, key: string) {
    && encoded == "$argon2id$" + (version + "$" + (costs + "$" + (salt + "$" + key)))
    && '$' !in version && '$' !in costs && '$' !in salt && '$' !in key
  }

  lemma FieldsSplit(encoded: string, version: string, costs: string, salt: string, key: string)
    requires HasFields(encoded, version, costs, salt, key)
    ensures Split(encoded, '$') == ["", "argon2id", version, costs, salt, key]
  {
    hide Split;
    var afterCosts := salt + "$" + key;
    var afterVersion := costs + "$" + afterCosts;
    var afterName := version + "$" + afterVersion;
    SplitWhole(key, '$');
    SplitField(salt, key, '$');
    SplitField(costs, afterCosts, '$');
    SplitField(version, afterVersion, '$');
    SplitField("argon2id", afterName, '$');
    SplitField("", "argon2id" + "$" + afterName, '$');
    assert encoded == "" + "$" + ("argon2id" + "$" + afterName);
  }

  lemma SixFieldsJoin(a: string, b: string, c: string, d: string, e: string, f: string)
    ensures Join([a, b, c, d, e, f], '$') ==
            a + "$" + (b + "$" + (c + "$" + (d + "$" + (e + "$" + f))))
  {
    assert [a, b, c, d, e, f][1..] == [b, c, d, e, f] && [b, c, d, e, f][1..] == [c, d, e, f];
    assert [c, d, e, f][1..] == [d, e, f] && [d, e, f][1..] == [e, f] && [e, f][1..] == [f];
    assert Join([e, f], '$') == e + "$" + f;
    assert Join([d, e, f], '$') == d + "$" + (e + "$" + f);
    assert Join([c, d, e, f], '$') == c + "$" + (d + "$" + (e + "$" + f));
  }

  lemma SplitHasFields(encoded: string)
    requires |Split(encoded, '$')| == 6 && Split(encoded, '$')[0] == "" && Split(encoded, '$')[1] == "argon2id"
    ensures var f := Split(encoded, '$'); HasFields(encoded, f[2], f[3], f[4], f[5])
  {
    JoinOfSplit(encoded, '$');
    var f := Split(encoded, '$');
    hide Split, Join;
    assert f == ["", "argon2id", f[2], f[3], f[4], f[5]];
    SixFieldsJoin("", "argon2id", f[2], f[3], f[4], f[5]);
  }

  /** The fields spell what is read, and it is within the bounds. */
  predicate Spells(version: string, costs: string, salt: string, key: string, h: Stored, cpus: nat) {
    && ScanVersion(version) == Some(19)
    && ScanParameters(costs) == Some((h.memory, h.passes, h.threads))
    && Base64.Decode(salt) == Some(h.salt) && Base64.Decode(key) == Some(h.key)
    && 1 <= h.memory <= 155_648 && 1 <= h.passes <= 16 && 1 <= h.threads <= cpus
    && |h.salt| >= 16 && 16 <= |h.key| <= 64
  }

  /** Whatever the text: it reads as these parts exactly when it is the name of the
      algorithm and four more fields that spell the version and the parts. */
  lemma DecodesIff(encoded: string, cpus: nat, h: Stored)
    ensures PasswordHash.Decode(encoded, cpus) == Success(h) <==>
            exists version, costs, salt, key ::
              HasFields(encoded, version, costs, salt, key) && Spells(version, costs, salt, key, h, cpus)
  {
    hide Split, ScanVersion, ScanParameters, Base64.Decode;
    if PasswordHash.Decode(encoded, cpus) == Success(h) {
      SplitHasFields(encoded);
      var f := Split(encoded, '$');
      assert Spells(f[2], f[3], f[4], f[5], h, cpus);
    }
    if version, costs, salt, key :|
        HasFields(encoded, version, costs, salt, key) && Spells(version, costs, salt, key, h, cpus) {
      FieldsSplit(encoded, version, costs, salt, key);
    }
  }

  // ---------------------------------------------------------------- numbers

  /** Space without a line feed, then decimal digits, at least one. */
  predicate SpellsNumber(a: string, n: nat) {
    exists i :: 0 <= i < |a| && Spaces(a[..i]) && IsDecimal(a[i..]) && Numeral(a[i..]) == n
  }

  /** The white space of Unicode within sixteen bits, without the line feed. */
  const WHITE_SPACE := {9, 11, 12, 13, 32, 133, 160, 5760, 8192, 8193, 8194, 8195, 8196, 8197, 8198, 8199, 8200,
                        8201, 8202, 8232, 8233, 8239, 8287, 12288}

  predicate Spaces(s: string) {
    forall i :: 0 <= i < |s| ==> s[i] as int in WHITE_SPACE
  }

  lemma WhiteSpaceIsSkipped(c: char)
    ensures c as int in WHITE_SPACE <==> IsSpace(c) && c != '\n'
  {
  }

  predicate NoDigitFirst(s: string) {
    s == "" || !('0' <= s[0] <= '9')
  }

  lemma {:induction false} SkippedSpace(s: string)
    requires SkipSpace(s).Some?
    ensures var t := SkipSpace(s).value;
            && |t| <= |s| && Spaces(s[..|s| - |t|]) && t == s[|s| - |t|..]
            && (t == "" || !IsSpace(t[0]))
  {
    if s != "" && IsSpace(s[0]) {
      hide IsSpace;
      SkippedSpace(s[1..]);
      var t := SkipSpace(s[1..]).value;
      assert s[..|s| - |t|] == [s[0]] + s[1..][..|s| - 1 - |t|];
    }
  }

  lemma NoDigitIsSpace(c: char)
    requires '0' <= c <= '9' || c == '+' || c == '-'
    ensures !IsSpace(c)
  {
  }

  lemma SpacesSkipped(space: string, rest: string)
    requires Spaces(space) && (rest == "" || !IsSpace(rest[0]))
    ensures SkipSpace(space + rest) == Some(rest)
  {
    hide IsSpace;
    forall i | 0 <= i < |space| ensures IsSpace(space[i]) && space[i] != '\n' {
      WhiteSpaceIsSkipped(space[i]);
    }
    SkipSpaceOf(space, rest);
  }

  lemma UnsignedRead(s: string, n: nat, rest: string)
    requires ScanUnsigned(s) == Some((n, rest))
    ensures |rest| <= |s| && rest == s[|s| - |rest|..] && NoDigitFirst(rest) && SpellsNumber(s[..|s| - |rest|], n)
  {
    hide IsSpace, SkipSpace;
    SkippedSpace(s);
    var t := SkipSpace(s).value;
    var a, i := s[..|s| - |rest|], |s| - |t|;
    assert a[i..] == t[..LeadingDigits(t)] && a[..i] == s[..i];
  }

  lemma UnsignedOf(a: string, n: nat, rest: string)
    requires NoDigitFirst(rest) && SpellsNumber(a, n)
    ensures ScanUnsigned(a + rest) == Some((n, rest))
  {
    hide IsSpace, SkipSpace, LeadingDigits;
    var i :| 0 <= i < |a| && Spaces(a[..i]) && IsDecimal(a[i..]) && Numeral(a[i..]) == n;
    var digits := a[i..];
    NoDigitIsSpace(a[i]);
    assert a + rest == a[..i] + (digits + rest);
    SpacesSkipped(a[..i], digits + rest);
    LeadingDigitsOf(digits, rest);
    assert (digits + rest)[..|digits|] == digits && (digits + rest)[|digits|..] == rest;
  }

  /** A number is read exactly where space and digits stand, as many as there are;
      leading zeros are allowed. */
  lemma UnsignedScansIff(s: string, n: nat, rest: string)
    ensures ScanUnsigned(s) == Some((n, rest)) <==>
            && |rest| <= |s| && rest == s[|s| - |rest|..]
            && NoDigitFirst(rest) && SpellsNumber(s[..|s| - |rest|], n)
  {
    hide ScanUnsigned, SpellsNumber, NoDigitFirst;
    if ScanUnsigned(s) == Some((n, rest)) {
      UnsignedRead(s, n, rest);
    }
    if |rest| <= |s| && rest == s[|s| - |rest|..] && NoDigitFirst(rest) && SpellsNumber(s[..|s| - |rest|], n) {
      UnsignedOf(s[..|s| - |rest|], n, rest);
      assert s[..|s| - |rest|] + rest == s;
    }
  }

  predicate IsVersion(field: string, space: string, sign: string, digits: string, rest: string) {
    && field == "v=" + space + sign + digits + rest
    && Spaces(space) && (sign == "" || sign == "+")
    && digits != "" && IsDecimal(digits) && Numeral(digits) == 19 && NoDigitFirst(rest)
  }

  function SignOf(t: string): string {
    if t != "" && (t[0] == '+' || t[0] == '-') then t[..1] else ""
  }

  lemma SignedParts(s: string)
    requires ScanSigned(s).Some? && SkipSpace(s).Some?
    ensures var t := SkipSpace(s).value;
            var sign, u := SignOf(t), t[|SignOf(t)|..];
            var digits := u[..LeadingDigits(u)];
            && digits != "" && ScanSigned(s).value.1 == u[|digits|..]
            && ScanSigned(s).value.0 == (if sign == "-" then -1 else 1) * Numeral(digits)
  {
    hide IsSpace, SkipSpace, Numeral, LeadingDigits;
  }

  lemma SignedRead(s: string, rest: string) returns (space: string, sign: string, digits: string)
    requires ScanSigned(s) == Some((19, rest))
    ensures s == space + (sign + (digits + rest)) && Spaces(space) && (sign == "" || sign == "+")
    ensures digits != "" && IsDecimal(digits) && Numeral(digits) == 19 && NoDigitFirst(rest)
  {
    assert SkipSpace(s).Some?;
    hide IsSpace, SkipSpace, Numeral, LeadingDigits, ScanSigned;
    SignedParts(s);
    SkippedSpace(s);
    var t := SkipSpace(s).value;
    space, sign := s[..|s| - |t|], SignOf(t);
    var u := t[|sign|..];
    digits := u[..LeadingDigits(u)];
    hide Spaces, IsDecimal;
    assert sign == "-" || sign == "+" || sign == "";
    Rejoined(s, |s| - |t|, |sign|, |digits|);
  }

  lemma Rejoined(s: string, a: nat, b: nat, c: nat)
    requires a + b + c <= |s|
    ensures s == s[..a] + (s[a..][..b] + (s[a..][b..][..c] + s[a..][b..][c..]))
  {
  }

  lemma VersionRead(field: string)
    requires ScanVersion(field) == Some(19)
    ensures exists space, sign, digits, rest :: IsVersion(field, space, sign, digits, rest)
  {
    hide Spaces, IsDecimal, NoDigitFirst, ScanSigned, Numeral;
    var s := field[2..];
    var rest := ScanSigned(s).value.1;
    var space, sign, digits := SignedRead(s, rest);
    FourPieces("v=", space, sign, digits, rest);
    assert field == "v=" + s;
    assert IsVersion(field, space, sign, digits, rest);
  }

  lemma FourPieces(a: string, b: string, c: string, d: string, e: string)
    ensures a + (b + (c + (d + e))) == a + b + c + d + e
  {
  }

  lemma VersionOf(field: string, space: string, sign: string, digits: string, rest: string)
    requires IsVersion(field, space, sign, digits, rest)
    ensures ScanVersion(field) == Some(19)
  {
    hide IsSpace, Numeral, SkipSpace, LeadingDigits;
    var t := sign + (digits + rest);
    FourPieces("v=", space, sign, digits, rest);
    assert field[2..] == space + t;
    NoDigitIsSpace(t[0]);
    SpacesSkipped(space, t);
    LeadingDigitsOf(digits, rest);
    assert (digits + rest)[..|digits|] == digits;
    assert t[|sign|..] == digits + rest;
  }

  /** The version field begins "v=" and then, after any space, 19 with any leading
      zeros or plus sign; what follows the digits is not looked at. */
  lemma VersionScansIff(field: string)
    ensures ScanVersion(field) == Some(19) <==>
            exists space, sign, digits, rest :: IsVersion(field, space, sign, digits, rest)
  {
    hide ScanVersion, IsVersion;
    if ScanVersion(field) == Some(19) {
      VersionRead(field);
    }
    if space, sign, digits, rest :| IsVersion(field, space, sign, digits, rest) {
      VersionOf(field, space, sign, digits, rest);
    }
  }

  /** The cost field holds three numbers under their names, each within its width;
      what follows the last is not looked at. */
  predicate IsCosts(field: string, m: string, t: string, p: string, rest: string,
                    memory: nat, passes: nat, threads: nat) {
    && field == "m=" + m + (",t=" + t + (",p=" + p + rest))
    && SpellsNumber(m, memory) && memory < 0x1_0000_0000
    && SpellsNumber(t, passes) && passes < 0x1_0000_0000
    && SpellsNumber(p, threads) && threads < 0x100
    && NoDigitFirst(rest)
  }

  lemma NamedScansIff(s: string, name: string, width: nat, n: nat, rest: string)
    ensures ScanNamed(s, name, width) == Some((n, rest)) <==>
            && n < width && name <= s && |rest| <= |s| - |name| && rest == s[|s| - |rest|..]
            && NoDigitFirst(rest) && SpellsNumber(s[|name|..|s| - |rest|], n)
  {
    hide SpellsNumber, ScanUnsigned;
    if name <= s {
      var t := s[|name|..];
      UnsignedScansIff(t, n, rest);
      assert |rest| <= |t| ==> t[..|t| - |rest|] == s[|name|..|s| - |rest|] && t[|t| - |rest|..] == s[|s| - |rest|..];
    }
  }

  lemma NamedOf(name: string, a: string, rest: string, width: nat, n: nat)
    requires SpellsNumber(a, n) && n < width && NoDigitFirst(rest)
    ensures ScanNamed(name + a + rest, name, width) == Some((n, rest))
  {
    hide SpellsNumber, ScanNamed;
    var s := name + a + rest;
    assert s[|name|..|s| - |rest|] == a && s[|s| - |rest|..] == rest && name <= s;
    NamedScansIff(s, name, width, n, rest);
  }

  lemma NamedParts(s: string, name: string, width: nat)
    requires ScanNamed(s, name, width).Some?
    ensures var (n, rest) := ScanNamed(s, name, width).value;
            && n < width && NoDigitFirst(rest) && name <= s && |rest| <= |s| - |name|
            && SpellsNumber(s[|name|..|s| - |rest|], n) && s == name + s[|name|..|s| - |rest|] + rest
  {
    hide SpellsNumber, ScanNamed;
    var (n, rest) := ScanNamed(s, name, width).value;
    NamedScansIff(s, name, width, n, rest);
  }

  lemma CostsRead(field: string, memory: nat, passes: nat, threads: nat)
    requires ScanParameters(field) == Some((memory, passes, threads))
    ensures exists m, t, p, rest :: IsCosts(field, m, t, p, rest, memory, passes, threads)
  {
    hide SpellsNumber, ScanNamed, NoDigitFirst;
    NamedParts(field, "m=", 0x1_0000_0000);
    var s := ScanNamed(field, "m=", 0x1_0000_0000).value.1;
    NamedParts(s, ",t=", 0x1_0000_0000);
    var t := ScanNamed(s, ",t=", 0x1_0000_0000).value.1;
    NamedParts(t, ",p=", 0x100);
    var rest := ScanNamed(t, ",p=", 0x100).value.1;
    assert IsCosts(field, field[2..|field| - |s|], s[3..|s| - |t|], t[3..|t| - |rest|], rest, memory, passes, threads);
  }

  lemma CostsOf(field: string, m: string, t: string, p: string, rest: string, memory: nat, passes: nat, threads: nat)
    requires IsCosts(field, m, t, p, rest, memory, passes, threads)
    ensures ScanParameters(field) == Some((memory, passes, threads))
  {
    var afterPasses := ",p=" + p + rest;
    var afterMemory := ",t=" + t + afterPasses;
    assert NoDigitFirst(afterPasses) && NoDigitFirst(afterMemory);
    hide SpellsNumber, ScanNamed, NoDigitFirst;
    NamedOf(",p=", p, rest, 0x100, threads);
    NamedOf(",t=", t, afterPasses, 0x1_0000_0000, passes);
    NamedOf("m=", m, afterMemory, 0x1_0000_0000, memory);
  }

  lemma CostsScanIff(field: string, memory: nat, passes: nat, threads: nat)
    ensures ScanParameters(field) == Some((memory, passes, threads)) <==>
            exists m, t, p, rest :: IsCosts(field, m, t, p, rest, memory, passes, threads)
  {
    hide ScanParameters, IsCosts;
    if ScanParameters(field) == Some((memory, passes, threads)) {
      CostsRead(field, memory, passes, threads);
    }
    if m, t, p, rest :| IsCosts(field, m, t, p, rest, memory, passes, threads) {
      CostsOf(field, m, t, p, rest, memory, passes, threads);
    }
  }

  // ---------------------------------------------------------------- answers

  /** The answers to a login, whatever is stored and whatever is typed: a text that
      does not read is unreadable; for one that does, the password verifies exactly
      when it is at most 1,024 bytes long and its key is the stored one, and is wrong
      otherwise. */
  lemma ChecksHaveThreeAnswers(crypto: Crypto, encoded: string, attempt: string, cpus: nat)
    ensures var answer := VerifyPassword(crypto, encoded, attempt, cpus);
            match PasswordHash.Decode(encoded, cpus)
            case Failure(_) => answer == Some(Unreadable)
            case Success(h) =>
              var plain := crypto.normal(attempt);
              answer ==
              if Utf8Length(plain) <= 1024
                 && crypto.argon2(plain, h.salt, h.passes, h.memory, h.threads, |h.key|) == h.key
              then None else Some(Mismatch)
  {
    hide PasswordHash.Encode, Split, ScanVersion, ScanParameters, Base64.Decode;
    if PasswordHash.Decode(encoded, cpus).Success? {
      DecodedIsReadable(encoded, cpus);
    }
  }

  /** In particular for a text this server printed. */
  lemma PrintedHashesAnswer(crypto: Crypto, h: Stored, attempt: string, cpus: nat)
    requires h.memory < 0x1_0000_0000 && h.passes < 0x1_0000_0000
    ensures var answer, plain := VerifyPassword(crypto, PasswordHash.Encode(h), attempt, cpus), crypto.normal(attempt);
            answer ==
            if !Readable(h, cpus) then Some(Unreadable)
            else if Utf8Length(plain) <= 1024
                    && crypto.argon2(plain, h.salt, h.passes, h.memory, h.threads, |h.key|) == h.key
            then None else Some(Mismatch)
  {
    hide PasswordHash.Encode, PasswordHash.Decode;
    PasswordHash.DecodeOfEncode(h, cpus);
    ChecksHaveThreeAnswers(crypto, PasswordHash.Encode(h), attempt, cpus);
  }

  // ------------------------------------------------------------ bytes of text

  /** A character in UTF-8, section 3 of RFC 3629. */
  function Utf8Char(c: char): seq<Byte> {
    var n := c as int;
    if n < 0x80 then [n]
    else if n < 0x800 then [0xC0 + n / 64, 0x80 + n % 64]
    else if n < 0x1_0000 then [0xE0 + n / 4096, 0x80 + n / 64 % 64, 0x80 + n % 64]
    else [0xF0 + n / 262144, 0x80 + n / 4096 % 64, 0x80 + n / 64 % 64, 0x80 + n % 64]
  }

  function Utf8(s: string): seq<Byte> {
    if s == "" then [] else Utf8Char(s[0]) + Utf8(s[1..])
  }

  /** The limit is on bytes: what is counted is the length of the text in UTF-8. */
  lemma {:induction false} Utf8LengthIsTheLength(s: string)
    ensures Utf8Length(s) == |Utf8(s)|
  {
    if s != "" {
      Utf8LengthIsTheLength(s[1..]);
    }
  }

  // ------------------------------------------------------- the printed form

  lemma NumbersAreNoShorter(a: string, n: nat)
    requires SpellsNumber(a, n)
    ensures |Dec(n)| <= |a|
  {
    hide IsSpace;
    var i :| 0 <= i < |a| && Spaces(a[..i]) && IsDecimal(a[i..]) && Numeral(a[i..]) == n;
    DecIsShortest(a[i..]);
  }

  lemma VersionIsNoShorter(field: string)
    requires ScanVersion(field) == Some(19)
    ensures |field| >= 4
  {
    VersionRead(field);
    hide IsSpace, Spaces, ScanVersion, Numeral;
    var space, sign, digits, rest :| IsVersion(field, space, sign, digits, rest);
    DecIsShortest(digits);
    TodaysNumerals();
    FourPieces("v=", space, sign, digits, rest);
  }

  lemma CostsAreNoShorter(field: string, h: Stored)
    requires ScanParameters(field) == Some((h.memory, h.passes, h.threads))
    ensures |ParameterField(h)| <= |field|
  {
    CostsRead(field, h.memory, h.passes, h.threads);
    var m, t, p, rest :| IsCosts(field, m, t, p, rest, h.memory, h.passes, h.threads);
    hide SpellsNumber, Dec;
    NumbersAreNoShorter(m, h.memory);
    NumbersAreNoShorter(t, h.passes);
    NumbersAreNoShorter(p, h.threads);
  }

  /** Of all the texts that read as some parts, none is shorter than the one printed:
      no space, no sign, no leading zero, no padding. */
  lemma PrintedIsShortestText(encoded: string, cpus: nat)
    requires PasswordHash.Decode(encoded, cpus).Success?
    ensures var h := PasswordHash.Decode(encoded, cpus).value;
            PasswordHash.Decode(PasswordHash.Encode(h), cpus) == Success(h) && |PasswordHash.Encode(h)| <= |encoded|
  {
    DecodedIsReadable(encoded, cpus);
    var h := PasswordHash.Decode(encoded, cpus).value;
    DecodesIff(encoded, cpus, h);
    hide PasswordHash.Decode, Dec, ScanVersion, ScanParameters, Base64.Decode, Base64.Encode;
    var version, costs, salt, key :|
      HasFields(encoded, version, costs, salt, key) && Spells(version, costs, salt, key, h, cpus);
    VersionIsNoShorter(version);
    CostsAreNoShorter(costs, h);
    Base64.PrintedIsShortest(salt);
    Base64.PrintedIsShortest(key);
    PrintedLength(h);
  }

  lemma PrintedLength(h: Stored)
    ensures |PasswordHash.Encode(h)| ==
            17 + |ParameterField(h)| + |Base64.Encode(h.salt)| + |Base64.Encode(h.key)|
  {
    hide ParameterField, Base64.Encode;
    assert Dec(19) == Dec(1) + "9";
    assert |"argon2id"| == 8;
  }

  lemma TodaysNumerals()
    ensures Dec(19) == "19" && Dec(2) == "2" && Dec(1) == "1" && Dec(19456) == "19456"
  {
    assert Dec(1) == "1";
    assert Dec(19) == "19";
    assert Dec(194) == "194";
    assert Dec(1945) == "1945";
  }

  lemma TodaysCosts(salt: seq<Byte>, key: seq<Byte>)
    ensures ParameterField(Stored(MEMORY_KIB, PASSES, THREADS, salt, key)) == "m=19456,t=2,p=1"
  {
    TodaysNumerals();
    hide Dec;
  }

  /** A fresh hash names today's costs and holds the salt and a key of 32 bytes. */
  lemma FreshHashes(crypto: Crypto, plain: string, salt: seq<Byte>)
    requires HashPassword(crypto, plain, salt).Success?
    ensures HashPassword(crypto, plain, salt).value ==
            "$" + ("argon2id" + "$" + ("v=19" + "$" + ("m=19456,t=2,p=1" + "$"
            + (Base64.Encode(salt) + "$"
               + Base64.Encode(crypto.argon2(crypto.normal(plain), salt, 2, 19456, 1, 32))))))
  {
    TodaysNumerals();
    TodaysCosts(salt, crypto.argon2(crypto.normal(plain), salt, 2, 19456, 1, 32));
    hide Base64.Encode, ParameterField, Dec;
    assert "v=" + "19" == "v=19" && "" + "$" == "$";
  }
}
