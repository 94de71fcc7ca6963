/** Base64 with the standard and the URL-safe alphabet (sections 4 and 5 of RFC 4648). */
module Base64 {
  import opened Wrappers

  datatype Alphabet = Standard | UrlSafe

  const PAD: char := '='

  /** The symbol for a six-bit value. */
  function Symbol(value: bv8, alphabet: Alphabet): (c: char)
    requires value < 64
  {
    var n := value as int;
    if n < 26 then (n + 65) as char
    else if n < 52 then (n + 71) as char
    else if n < 62 then (n - 4) as char
    else if n == 62 then (if alphabet.Standard? then '+' else '-')
    else (if alphabet.Standard? then '/' else '_')
  }

  const UPPER := "ABCDEFGHIJKLMNOPQRSTUVWXYZ"
  const LOWER := "abcdefghijklmnopqrstuvwxyz"
  const DIGITS := "0123456789"

  /** Tables 1 and 2 of RFC 4648. */
  const TABLE_1 := UPPER + LOWER + DIGITS + "+/"
  const TABLE_2 := UPPER + LOWER + DIGITS + "-_"

  lemma UpperInOrder(n: nat)
    ensures |UPPER| == 26 && (n < 26 ==> UPPER[n] == (n + 65) as char)
  {
  }

  lemma LowerInOrder(n: nat)
    ensures |LOWER| == 26 && (n < 26 ==> LOWER[n] == (n + 97) as char)
  {
  }

  lemma DigitsInOrder(n: nat)
    ensures |DIGITS| == 10 && (n < 10 ==> DIGITS[n] == (n + 48) as char)
  {
  }

  lemma TableEntries(n: nat, end: string)
    requires n < 64 && |end| == 2
    ensures var table := UPPER + LOWER + DIGITS + end;
            && |table| == 64
            && table[n] == if n < 26 then (n + 65) as char else if n < 52 then (n + 71) as char
                           else if n < 62 then (n - 4) as char else end[n - 62]
  {
    UpperInOrder(n);
    LowerInOrder(if n < 26 then 0 else n - 26);
    DigitsInOrder(if n < 52 then 0 else n - 52);
  }

  lemma IntOfByte(value: bv8)
    ensures (value as int) as bv8 == value
    ensures value < 64 <==> value as int < 64
  {
  }

  /** The symbols are those of the standard's tables, in their order. */
  lemma SymbolsAreTheTables(value: bv8)
    requires value < 64
    ensures |TABLE_1| == |TABLE_2| == 64
    ensures Symbol(value, Standard) == TABLE_1[value as int] && Symbol(value, UrlSafe) == TABLE_2[value as int]
  {
    IntOfByte(value);
    TableEntries(value as int, "+/");
    TableEntries(value as int, "-_");
  }

  function Position(c: char, alphabet: Alphabet): (n: Option<int>)
    ensures n.Some? ==> 0 <= n.value < 64
  {
    if 'A' <= c <= 'Z' then Some(c as int - 65)
    else if 'a' <= c <= 'z' then Some(c as int - 71)
    else if '0' <= c <= '9' then Some(c as int + 4)
    else if c == (if alphabet.Standard? then '+' else '-') then Some(62)
    else if c == (if alphabet.Standard? then '/' else '_') then Some(63)
    else None
  }

  /** The six-bit value of a symbol, if the alphabet has it. */
  function Sextet(c: char, alphabet: Alphabet): (value: Option<bv8>) {
    match Position(c, alphabet)
    case None => None
    case Some(n) => Some(n as bv8)
  }

  lemma ByteOfInt(n: int)
    requires 0 <= n < 256
    ensures (n as bv8) as int == n
  {
    assert n % 256 == n;
  }

  lemma SextetOfSymbol(value: bv8, alphabet: Alphabet)
    requires value < 64
    ensures Sextet(Symbol(value, alphabet), alphabet) == Some(value)
    ensures Symbol(value, alphabet) != PAD
  {
    IntOfByte(value);
  }

  predicate SixBit(sextets: seq<bv8>) {
    forall i :: 0 <= i < |sextets| ==> sextets[i] < 64
  }

  /** Three bytes as four six-bit values. */
  function Quantum(x: bv8, y: bv8, z: bv8): (sextets: seq<bv8>)
    ensures |sextets| == 4 && SixBit(sextets)
  {
    [x >> 2, ((x & 3) << 4) | (y >> 4), ((y & 15) << 2) | (z >> 6), z & 63]
  }

  /** Bytes regrouped into six-bit values, most significant bits first; no padding. */
  function Sextets(bytes: seq<bv8>): (sextets: seq<bv8>)
    ensures SixBit(sextets)
    ensures |sextets| % 4 != 1
  {
    if |bytes| == 0 then []
    else if |bytes| == 1 then [bytes[0] >> 2, (bytes[0] & 3) << 4]
    else if |bytes| == 2 then
      [bytes[0] >> 2, ((bytes[0] & 3) << 4) | (bytes[1] >> 4), (bytes[1] & 15) << 2]
    else Quantum(bytes[0], bytes[1], bytes[2]) + Sextets(bytes[3..])
  }

  /** Four six-bit values are the digits of the 24-bit number that three bytes are (section 4 of RFC 4648). */
  lemma QuantumIsOneNumber(x: bv8, y: bv8, z: bv8)
    ensures var q := Quantum(x, y, z);
            (q[0] as bv32 << 18) + (q[1] as bv32 << 12) + (q[2] as bv32 << 6) + (q[3] as bv32)
              == (x as bv32 << 16) + (y as bv32 << 8) + (z as bv32)
  {
  }

  /** Byte `i`, or a zero byte past the end. */
  function ByteOrZero(bytes: seq<bv8>, i: nat): bv8 {
    if i < |bytes| then bytes[i] else 0
  }

  /** The group of three bytes that value `i` stands in. */
  function GroupOf(bytes: seq<bv8>, i: nat): (bv8, bv8, bv8) {
    (ByteOrZero(bytes, i / 4 * 3), ByteOrZero(bytes, i / 4 * 3 + 1), ByteOrZero(bytes, i / 4 * 3 + 2))
  }

  lemma GroupsShift(bytes: seq<bv8>, i: nat)
    requires |bytes| >= 3
    ensures GroupOf(bytes, i + 4) == GroupOf(bytes[3..], i) && (i + 4) % 4 == i % 4
  {
    assert (i + 4) / 4 * 3 == i / 4 * 3 + 3;
  }

  lemma ShortGroup(x: bv8, y: bv8)
    ensures Quantum(x, 0, 0)[0] == x >> 2 && Quantum(x, 0, 0)[1] == (x & 3) << 4
    ensures Quantum(x, y, 0)[0] == x >> 2 && Quantum(x, y, 0)[1] == ((x & 3) << 4) | (y >> 4)
    ensures Quantum(x, y, 0)[2] == (y & 15) << 2
  {
  }

  /** Value `i` of a text of values is that of the group of three bytes it stands in. */
  predicate ByGroup(bytes: seq<bv8>, sextets: seq<bv8>, i: nat) {
    var (x, y, z) := GroupOf(bytes, i);
    i < |sextets| ==> sextets[i] == Quantum(x, y, z)[i % 4]
  }

  lemma FewByGroup(bytes: seq<bv8>, i: nat)
    requires |bytes| < 3
    ensures |Sextets(bytes)| == (4 * |bytes| + 2) / 3 && ByGroup(bytes, Sextets(bytes), i)
  {
    if bytes != [] {
      ShortGroup(bytes[0], if |bytes| > 1 then bytes[1] else 0);
    }
  }

  lemma FirstByGroup(bytes: seq<bv8>, rest: seq<bv8>, i: nat)
    requires |bytes| >= 3 && i < 4
    ensures ByGroup(bytes, Quantum(bytes[0], bytes[1], bytes[2]) + rest, i)
  {
  }

  lemma LaterByGroup(bytes: seq<bv8>, group: seq<bv8>, rest: seq<bv8>, i: nat)
    requires |bytes| >= 3 && |group| == 4 && i >= 4 && ByGroup(bytes[3..], rest, i - 4)
    ensures ByGroup(bytes, group + rest, i)
  {
    GroupsShift(bytes, i - 4);
  }

  /**
   * Each value comes from the group of three bytes it stands in, the last group filled up with zero bytes, and
   * there are as many values as begin before the end of the bytes.
   */
  lemma {:induction false} SextetsAreByGroups(bytes: seq<bv8>, i: nat)
    ensures |Sextets(bytes)| == (4 * |bytes| + 2) / 3
    ensures ByGroup(bytes, Sextets(bytes), i)
  {
    if |bytes| >= 3 {
      SextetsAreByGroups(bytes[3..], if i < 4 then 0 else i - 4);
      if i < 4 {
        FirstByGroup(bytes, Sextets(bytes[3..]), i);
      } else {
        LaterByGroup(bytes, Quantum(bytes[0], bytes[1], bytes[2]), Sextets(bytes[3..]), i);
      }
    } else {
      FewByGroup(bytes, i);
    }
  }

  function HighByte(a: bv8, b: bv8): bv8 { (a << 2) | (b >> 4) }

  function MiddleByte(b: bv8, c: bv8): bv8 { (b << 4) | (c >> 2) }

  function LowByte(c: bv8, d: bv8): bv8 { (c << 6) | d }

  /** The inverse regrouping. A lone sextet is no byte; leftover low bits are dropped unread. */
  function Bytes(sextets: seq<bv8>): (bytes: Option<seq<bv8>>) {
    if |sextets| == 0 then Some([])
    else if |sextets| == 1 then None
    else if |sextets| == 2 then Some([HighByte(sextets[0], sextets[1])])
    else if |sextets| == 3 then
      Some([HighByte(sextets[0], sextets[1]), MiddleByte(sextets[1], sextets[2])])
    else
      match Bytes(sextets[4..])
      case None => None
      case Some(rest) =>
        Some([HighByte(sextets[0], sextets[1]), MiddleByte(sextets[1], sextets[2]),
              LowByte(sextets[2], sextets[3])] + rest)
  }

  lemma QuantumBits(x: bv8, y: bv8, z: bv8)
    ensures var q := Quantum(x, y, z);
            HighByte(q[0], q[1]) == x && MiddleByte(q[1], q[2]) == y && LowByte(q[2], q[3]) == z
  {
  }

  lemma PairBits(x: bv8, y: bv8)
    ensures Bytes(Sextets([x, y])) == Some([x, y])
  {
  }

  lemma SingleBits(x: bv8)
    ensures Bytes(Sextets([x])) == Some([x])
  {
  }

  lemma {:induction false} BytesOfSextets(bytes: seq<bv8>)
    ensures Bytes(Sextets(bytes)) == Some(bytes)
  {
    if |bytes| >= 3 {
      BytesOfSextets(bytes[3..]);
      var quantum, rest := Quantum(bytes[0], bytes[1], bytes[2]), Sextets(bytes[3..]);
      QuantumBits(bytes[0], bytes[1], bytes[2]);
      assert (quantum + rest)[4..] == rest;
      assert bytes == [bytes[0], bytes[1], bytes[2]] + bytes[3..];
    } else if |bytes| == 2 {
      PairBits(bytes[0], bytes[1]);
      assert bytes == [bytes[0], bytes[1]];
    } else if |bytes| == 1 {
      SingleBits(bytes[0]);
      assert bytes == [bytes[0]];
    }
  }

  /** The symbols of six-bit values. */
  function Symbols(sextets: seq<bv8>, alphabet: Alphabet): (text: string)
    requires SixBit(sextets)
    ensures |text| == |sextets|
    ensures forall i :: 0 <= i < |text| ==> text[i] == Symbol(sextets[i], alphabet)
  {
    seq(|sextets|, i requires 0 <= i < |sextets| => Symbol(sextets[i], alphabet))
  }

  /** The six-bit values of a text, if all of it is in the alphabet. */
  function Values(text: string, alphabet: Alphabet): (sextets: Option<seq<bv8>>)
    ensures sextets.Some? ==> |sextets.value| == |text|
  {
    if text == "" then Some([])
    else
      match (Sextet(text[0], alphabet), Values(text[1..], alphabet))
      case (Some(v), Some(rest)) => Some([v] + rest)
      case _ => None
  }

  lemma {:induction false} ValuesOfSymbols(sextets: seq<bv8>, alphabet: Alphabet)
    requires SixBit(sextets)
    ensures Values(Symbols(sextets, alphabet), alphabet) == Some(sextets)
  {
    if sextets != [] {
      var text := Symbols(sextets, alphabet);
      SextetOfSymbol(sextets[0], alphabet);
      assert text[1..] == Symbols(sextets[1..], alphabet);
      ValuesOfSymbols(sextets[1..], alphabet);
      assert sextets == [sextets[0]] + sextets[1..];
    }
  }

  lemma {:induction false} SymbolsAreInjective(a: seq<bv8>, b: seq<bv8>, alphabet: Alphabet)
    requires SixBit(a) && SixBit(b)
    ensures Symbols(a, alphabet) == Symbols(b, alphabet) <==> a == b
  {
    ValuesOfSymbols(a, alphabet);
    ValuesOfSymbols(b, alphabet);
  }

  /** The encoding without padding, as a JSON Web Signature carries it (Appendix C of RFC 7515). */
  function Unpadded(bytes: seq<bv8>, alphabet: Alphabet): string {
    Symbols(Sextets(bytes), alphabet)
  }

  /** The padding that completes a text to whole groups of four. */
  function Padding(length: nat): (pad: string)
    ensures |pad| <= 3 && (length + |pad|) % 4 == 0
    ensures forall i :: 0 <= i < |pad| ==> pad[i] == PAD
  {
    ["", "===", "==", "="][length % 4]
  }

  function Encode(bytes: seq<bv8>, alphabet: Alphabet): string {
    var text := Unpadded(bytes, alphabet);
    text + Padding(|text|)
  }

  /** Python's `rstrip("=")`. */
  function Stripped(text: string): (body: string)
    ensures body <= text
    ensures body != "" ==> body[|body| - 1] != PAD
    ensures forall i :: |body| <= i < |text| ==> text[i] == PAD
  {
    if text != "" && text[|text| - 1] == PAD then Stripped(text[..|text| - 1]) else text
  }

  lemma {:induction false} StrippedIsUnique(text: string, body: string)
    requires body <= text
    requires body != "" ==> body[|body| - 1] != PAD
    requires forall i :: |body| <= i < |text| ==> text[i] == PAD
    ensures Stripped(text) == body
  {
    if |body| < |text| {
      StrippedIsUnique(text[..|text| - 1], body);
    }
  }

  /** An encoding ends in a symbol, so stripping it leaves the unpadded form. */
  lemma StrippedEncoding(bytes: seq<bv8>, alphabet: Alphabet, pad: string)
    requires forall i :: 0 <= i < |pad| ==> pad[i] == PAD
    ensures Stripped(Unpadded(bytes, alphabet) + pad) == Unpadded(bytes, alphabet)
  {
    var body := Unpadded(bytes, alphabet);
    if body != "" {
      SextetOfSymbol(Sextets(bytes)[|body| - 1], alphabet);
    }
    StrippedIsUnique(body + pad, body);
  }

  /** Whether a text is whole groups with at most two `=`, all at its end. */
  predicate WellPadded(text: string) {
    |text| % 4 == 0 && |text| - |Stripped(text)| <= 2
  }

  /** Decoding of a well-padded text. Leftover bits of the last symbol are not examined. */
  function Decode(text: string, alphabet: Alphabet): (bytes: Option<seq<bv8>>)
    requires WellPadded(text)
  {
    match Values(Stripped(text), alphabet)
    case None => None
    case Some(sextets) => Bytes(sextets)
  }

  /** Every encoding decodes to its bytes. */
  lemma DecodeEncode(bytes: seq<bv8>, alphabet: Alphabet)
    ensures WellPadded(Encode(bytes, alphabet))
    ensures Decode(Encode(bytes, alphabet), alphabet) == Some(bytes)
  {
    var body := Unpadded(bytes, alphabet);
    StrippedEncoding(bytes, alphabet, Padding(|body|));
    assert |body| % 4 != 1;
    ValuesOfSymbols(Sextets(bytes), alphabet);
    BytesOfSextets(bytes);
  }

  /** Distinct byte strings have distinct unpadded encodings. */
  lemma UnpaddedIsInjective(a: seq<bv8>, b: seq<bv8>, alphabet: Alphabet)
    ensures Unpadded(a, alphabet) == Unpadded(b, alphabet) <==> a == b
  {
    SymbolsAreInjective(Sextets(a), Sextets(b), alphabet);
    BytesOfSextets(a);
    BytesOfSextets(b);
  }
}
