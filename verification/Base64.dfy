/** Unpadded base64 in the standard alphabet, sections 3.2 and 4 of RFC 4648: a
    printer, and a reader that skips line breaks and ignores the spare low bits
    of a last symbol. */
module Base64 {
  import opened Results

  type Byte = b: int | 0 <= b < 256
  type Sextet = d: int | 0 <= d < 64

  function Symbol(d: Sextet): char {
    if d < 26 then ('A' as int + d) as char
    else if d < 52 then ('a' as int + d - 26) as char
    else if d < 62 then ('0' as int + d - 52) as char
    else if d == 62 then '+' else '/'
  }

  function Value(c: char): Option<Sextet> {
    if 'A' <= c <= 'Z' then Some(c as int - 'A' as int)
    else if 'a' <= c <= 'z' then Some(c as int - 'a' as int + 26)
    else if '0' <= c <= '9' then Some(c as int - '0' as int + 52)
    else if c == '+' then Some(62)
    else if c == '/' then Some(63)
    else None
  }

  function Symbols(digits: seq<Sextet>): string {
    seq(|digits|, i requires 0 <= i < |digits| => Symbol(digits[i]))
  }

  /** The values of a text without its line breaks, or None at any other character. */
  function Values(s: string): Option<seq<Sextet>> {
    if s == "" then Some([])
    else
      match Values(s[1..])
      case None => None
      case Some(rest) =>
        if s[0] == '\n' || s[0] == '\r' then Some(rest)
        else match Value(s[0]) case None => None case Some(d) => Some([d] + rest)
  }

  // Three bytes are four sextets; a missing byte is zero.

  function Sextet0(a: Byte): Sextet {
    a / 4
  }

  function Sextet1(a: Byte, b: Byte): Sextet {
    a % 4 * 16 + b / 16
  }

  function Sextet2(b: Byte, c: Byte): Sextet {
    b % 16 * 4 + c / 64
  }

  function Sextet3(c: Byte): Sextet {
    c % 64
  }

  function Sextets(data: seq<Byte>): seq<Sextet> {
    if |data| == 0 then []
    else if |data| == 1 then [Sextet0(data[0]), Sextet1(data[0], 0)]
    else if |data| == 2 then [Sextet0(data[0]), Sextet1(data[0], data[1]), Sextet2(data[1], 0)]
    else
      [Sextet0(data[0]), Sextet1(data[0], data[1]), Sextet2(data[1], data[2]), Sextet3(data[2])] + Sextets(data[3..])
  }

  function First(a: Sextet, b: Sextet): Byte {
    a * 4 + b / 16
  }

  function Second(b: Sextet, c: Sextet): Byte {
    b % 16 * 16 + c / 4
  }

  function Third(c: Sextet, d: Sextet): Byte {
    c % 4 * 64 + d
  }

  function Bytes(d: seq<Sextet>): Option<seq<Byte>> {
    if |d| == 0 then Some([])
    else if |d| == 1 then None
    else if |d| == 2 then Some([First(d[0], d[1])])
    else if |d| == 3 then Some([First(d[0], d[1]), Second(d[1], d[2])])
    else
      match Bytes(d[4..])
      case None => None
      case Some(rest) => Some([First(d[0], d[1]), Second(d[1], d[2]), Third(d[2], d[3])] + rest)
  }

  function Encode(data: seq<Byte>): string {
    Symbols(Sextets(data))
  }

  function Decode(s: string): Option<seq<Byte>> {
    match Values(s)
    case None => None
    case Some(digits) => Bytes(digits)
  }

  // -------------------------------------------------------------- round trip

  lemma {:induction false} ValuesOfSymbols(digits: seq<Sextet>)
    ensures Values(Symbols(digits)) == Some(digits)
  {
    if digits != [] {
      ValuesOfSymbols(digits[1..]);
      assert Symbols(digits)[1..] == Symbols(digits[1..]);
      assert [digits[0]] + digits[1..] == digits;
    }
  }

  lemma BytesComeBack(a: Byte, b: Byte, c: Byte)
    ensures First(Sextet0(a), Sextet1(a, b)) == a
    ensures Second(Sextet1(a, b), Sextet2(b, c)) == b
    ensures Third(Sextet2(b, c), Sextet3(c)) == c
  {
  }

  lemma SextetsComeBack(p: Sextet, q: Sextet, r: Sextet, s: Sextet)
    ensures Sextet0(First(p, q)) == p
    ensures Sextet1(First(p, q), Second(q, r)) == q
    ensures Sextet2(Second(q, r), Third(r, s)) == r
    ensures Sextet3(Third(r, s)) == s
  {
  }

  lemma {:induction false} BytesOfSextets(data: seq<Byte>)
    ensures Bytes(Sextets(data)) == Some(data)
  {
    hide First, Second, Third, Sextet0, Sextet1, Sextet2, Sextet3;
    if |data| > 0 {
      BytesComeBack(data[0], if |data| > 1 then data[1] else 0, if |data| > 2 then data[2] else 0);
    }
    if |data| >= 3 {
      BytesOfSextets(data[3..]);
      assert Sextets(data)[4..] == Sextets(data[3..]);
      assert Bytes(Sextets(data)).value == [data[0], data[1], data[2]] + data[3..];
      assert data == [data[0], data[1], data[2]] + data[3..];
    } else if |data| == 2 {
      assert data == [data[0], data[1]];
    } else if |data| == 1 {
      assert data == [data[0]];
    }
  }

  /** Reading what was printed gives the bytes back. */
  lemma DecodeOfEncode(data: seq<Byte>)
    ensures Decode(Encode(data)) == Some(data)
  {
    BytesOfSextets(data);
    ValuesOfSymbols(Sextets(data));
  }

  /** A text reads as some bytes only when, line breaks aside, it is their printed
      form, but for its last symbol; and whole groups leave no such freedom. */
  lemma DecodedIsNearlyPrinted(s: string)
    requires Decode(s).Some?
    ensures var printed, text := Encode(Decode(s).value), Symbols(Values(s).value);
            && |printed| == |text| && (forall i :: 0 <= i < |text| - 1 ==> printed[i] == text[i])
            && (|text| % 4 == 0 ==> printed == text)
  {
    BytesKeepAllButSpare(Values(s).value);
    assert |Values(s).value| % 4 == 0 ==> Sextets(Decode(s).value) == Values(s).value;
  }

  /** No printed text holds a dollar sign or any other character from outside. */
  lemma SymbolsStayInTheAlphabet(data: seq<Byte>)
    ensures forall i :: 0 <= i < |Encode(data)| ==> Value(Encode(data)[i]).Some?
    ensures '$' !in Encode(data)
  {
  }

  const ALPHABET := "ABCDEFGHIJKLMNOPQRSTUVWXYZ" + "abcdefghijklmnopqrstuvwxyz" + "0123456789" + "+/"

  /** The symbols are those of table 1 of RFC 4648, in its order, and each reads as
      its place there. */
  lemma AlphabetIsStandard(d: Sextet)
    ensures |ALPHABET| == 64 && Symbol(d) == ALPHABET[d] && Value(Symbol(d)) == Some(d)
  {
  }

  /** Past the end of the bytes, or of the sextets, stand zero bits. */
  function At(s: seq<int>, i: nat): int {
    if i < |s| then s[i] else 0
  }

  /** Every three bytes and the four sextets printed for them are one number of 24
      bits, highest bits first. */
  lemma {:induction false} GroupsSpellTheBytes(data: seq<Byte>, i: nat)
    requires 3 * i < |data|
    ensures var d := Sextets(data);
            && |d| == (4 * |data| + 2) / 3
            && 262144 * At(d, 4 * i) + 4096 * At(d, 4 * i + 1) + 64 * At(d, 4 * i + 2) + At(d, 4 * i + 3)
               == 65536 * At(data, 3 * i) + 256 * At(data, 3 * i + 1) + At(data, 3 * i + 2)
    decreases |data|
  {
    SextetsLength(data);
    if i > 0 {
      GroupsSpellTheBytes(data[3..], i - 1);
      assert Sextets(data)[4..] == Sextets(data[3..]);
    }
  }

  lemma {:induction false} SextetsLength(data: seq<Byte>)
    ensures |Sextets(data)| == (4 * |data| + 2) / 3
  {
    if |data| >= 3 {
      SextetsLength(data[3..]);
    }
  }

  lemma {:induction false} ValuesAreNoLonger(s: string)
    requires Values(s).Some?
    ensures |Values(s).value| <= |s|
  {
    if s != "" {
      ValuesAreNoLonger(s[1..]);
    }
  }

  /** No text that reads as some bytes is shorter than their printed form. */
  lemma PrintedIsShortest(s: string)
    requires Decode(s).Some?
    ensures |Encode(Decode(s).value)| <= |s|
  {
    DecodedIsNearlyPrinted(s);
    ValuesAreNoLonger(s);
  }

  // ------------------------------------------------------ every text that reads

  function Unbroken(s: string): string {
    if s == "" then ""
    else if s[0] == '\n' || s[0] == '\r' then Unbroken(s[1..])
    else [s[0]] + Unbroken(s[1..])
  }

  lemma {:induction false} ValuesOfUnbroken(s: string)
    ensures Values(s).Some? <==> forall c :: c in Unbroken(s) ==> Value(c).Some?
    ensures Values(s).Some? ==> |Values(s).value| == |Unbroken(s)|
  {
    if s != "" {
      hide Value;
      ValuesOfUnbroken(s[1..]);
    }
  }

  lemma PlaceInAlphabet(c: char)
    ensures Value(c).Some? <==> c in ALPHABET
    ensures Value(c).Some? ==> ALPHABET[Value(c).value] == c
  {
    if c in ALPHABET {
      var i :| 0 <= i < |ALPHABET| && ALPHABET[i] == c;
      AlphabetIsStandard(i);
    }
    if Value(c).Some? {
      assert Symbol(Value(c).value) == c;
      AlphabetIsStandard(Value(c).value);
    }
  }

  /** How many values of its last sextet a text of this many symbols reads alike. */
  function Spare(n: nat): nat {
    if n % 4 == 2 then 16 else if n % 4 == 3 then 4 else 1
  }

  predicate AlikeButSpare(d: seq<Sextet>, e: seq<Sextet>) {
    && |d| == |e| && (forall i :: 0 <= i < |d| - 1 ==> d[i] == e[i])
    && (d != [] ==> d[|d| - 1] / Spare(|d|) == e[|d| - 1] / Spare(|d|))
  }

  lemma {:induction false} SpareBitsAreIgnored(d: seq<Sextet>, e: seq<Sextet>)
    requires AlikeButSpare(d, e)
    ensures Bytes(d) == Bytes(e)
  {
    if |d| >= 4 {
      hide First, Second, Third;
      assert |d| == 4 ==> d[..4] == e[..4];
      assert d[0] == e[0] && d[1] == e[1] && d[2] == e[2] && d[3] == e[3];
      RestIsAlike(d, e);
      SpareBitsAreIgnored(d[4..], e[4..]);
    }
  }

  lemma RestIsAlike(d: seq<Sextet>, e: seq<Sextet>)
    requires |d| >= 4 && AlikeButSpare(d, e)
    ensures d[3] == e[3] && AlikeButSpare(d[4..], e[4..])
  {
  }

  lemma {:induction false} BytesKeepAllButSpare(d: seq<Sextet>)
    ensures Bytes(d).Some? <==> |d| % 4 != 1
    ensures Bytes(d).Some? ==> AlikeButSpare(d, Sextets(Bytes(d).value))
  {
    hide First, Second, Third, Sextets, AlikeButSpare;
    if |d| < 4 {
      ShortTailAlike(d);
    } else {
      BytesKeepAllButSpare(d[4..]);
      if Bytes(d[4..]).Some? {
        var rest := Bytes(d[4..]).value;
        GroupComesBack(d, rest);
        GroupAlike(d, Sextets(rest));
      }
    }
  }

  lemma ShortTailAlike(d: seq<Sextet>)
    requires |d| < 4
    ensures Bytes(d).Some? <==> |d| != 1
    ensures Bytes(d).Some? ==> AlikeButSpare(d, Sextets(Bytes(d).value))
  {
    hide First, Second, Third, Sextet0, Sextet1, Sextet2, Sextet3;
    if |d| >= 2 {
      SextetsComeBack(d[0], d[1], if |d| > 2 then d[2] else 0, 0);
      LastSextet(d[0], d[1], if |d| > 2 then d[2] else 0);
    }
  }

  lemma GroupComesBack(d: seq<Sextet>, rest: seq<Byte>)
    requires |d| >= 4
    ensures Sextets([First(d[0], d[1]), Second(d[1], d[2]), Third(d[2], d[3])] + rest) == d[..4] + Sextets(rest)
  {
    hide First, Second, Third, Sextet0, Sextet1, Sextet2, Sextet3;
    SextetsComeBack(d[0], d[1], d[2], d[3]);
    var data := [First(d[0], d[1]), Second(d[1], d[2]), Third(d[2], d[3])] + rest;
    assert data[3..] == rest;
  }

  lemma GroupAlike(d: seq<Sextet>, rest: seq<Sextet>)
    requires |d| >= 4 && AlikeButSpare(d[4..], rest)
    ensures AlikeButSpare(d, d[..4] + rest)
  {
    assert forall i :: 4 <= i < |d| ==> d[i] == d[4..][i - 4];
    assert |d| > 4 ==> d[|d| - 1] == d[4..][|d| - 5] && (d[..4] + rest)[|d| - 1] == rest[|d| - 5];
  }

  lemma LastSextet(p: Sextet, q: Sextet, r: Sextet)
    ensures Sextet1(First(p, q), 0) / 16 == q / 16
    ensures Sextet2(Second(q, r), 0) / 4 == r / 4
  {
    TopPart(p, q / 16, 4);
    TopPart(q % 16, r / 4, 16);
  }

  lemma TopPart(high: nat, low: nat, base: nat)
    requires low < base && (base == 4 || base == 16)
    ensures (high * base + low) % base == low
  {
    if base == 4 {
    }
  }

  /** A text reads exactly when, line breaks aside, it holds symbols only, and not
      one more of them than a multiple of four. */
  lemma ReadsIff(s: string)
    ensures Decode(s).Some? <==> (forall c :: c in Unbroken(s) ==> c in ALPHABET) && |Unbroken(s)| % 4 != 1
  {
    hide Value, Bytes;
    forall c ensures Value(c).Some? <==> c in ALPHABET {
      PlaceInAlphabet(c);
    }
    ValuesOfUnbroken(s);
    if Values(s).Some? {
      BytesKeepAllButSpare(Values(s).value);
    }
  }

  /** And what it reads as: two texts of symbols read alike exactly when, line breaks
      and the spare bits of the last symbol aside, they are one text. */
  lemma ReadAlikeIff(s: string, t: string)
    requires Decode(s).Some? && Decode(t).Some?
    ensures Decode(s) == Decode(t) <==> AlikeButSpare(Values(s).value, Values(t).value)
  {
    var d, e := Values(s).value, Values(t).value;
    BytesKeepAllButSpare(d);
    BytesKeepAllButSpare(e);
    if AlikeButSpare(d, e) {
      SpareBitsAreIgnored(d, e);
    }
  }
}
