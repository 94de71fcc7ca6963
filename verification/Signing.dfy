/** Derivation of the v2 signing key from a token's signature and two login parameters. */
module Signing {
  import opened Wrappers
  import opened Base64

  const MAX_VALUE := 16384

  /**
   * The interpreter's verdict on a signature completed to more than two `=`. Interpreter
   * versions differ there, so every statement below holds for any verdict.
   */
  type ExcessPadding = string -> Option<seq<bv8>>

  /** A text of signing material: present, not empty and bounded. */
  predicate Text(value: Option<string>) {
    value.Some? && 0 < |value.value| <= MAX_VALUE
  }

  /** Strict standard base64: the decoding must encode back to the very same text. */
  function DecodeStandard(value: Option<string>): Option<seq<bv8>> {
    if !Text(value) || !WellPadded(value.value) then None
    else
      match Decode(value.value, Standard)
      case None => None
      case Some(bytes) =>
        if bytes == [] || Encode(bytes, Standard) != value.value then None else Some(bytes)
  }

  /** A text of signing material has 1 to 16384 characters. */
  lemma TextsAreBounded(value: Option<string>)
    ensures Text(value) <==> value.Some? && 1 <= |value.value| <= 16384
  {
  }

  /** A JWT segment: URL-safe symbols, at least one, then at most two `=`. */
  predicate Segment(part: string) {
    var body := Stripped(part);
    body != "" && |part| - |body| <= 2 && Values(body, UrlSafe).Some?
  }

  /** A symbol of a segment. */
  predicate IsUrlSafe(c: char) {
    'A' <= c <= 'Z' || 'a' <= c <= 'z' || '0' <= c <= '9' || c == '-' || c == '_'
  }

  lemma {:induction false} ValuesOfUrlSafe(text: string)
    ensures Values(text, UrlSafe).Some? <==> forall i :: 0 <= i < |text| ==> IsUrlSafe(text[i])
  {
    if text != "" {
      ValuesOfUrlSafe(text[1..]);
      assert forall i :: 0 < i < |text| ==> text[i] == text[1..][i - 1];
      assert (forall i :: 0 <= i < |text[1..]| ==> IsUrlSafe(text[1..][i])) ==>
               forall i :: 0 < i < |text| ==> IsUrlSafe(text[i]);
      if forall i :: 0 <= i < |text| ==> IsUrlSafe(text[i]) {
        assert forall i :: 0 <= i < |text[1..]| ==> text[1..][i] == text[i + 1];
      }
    }
  }

  /** A segment is one symbol or more, and then nothing, one `=`, or two. */
  lemma SegmentMeans(part: string, end: nat)
    requires end <= |part|
    requires (forall i :: end <= i < |part| ==> part[i] == '=') && (end > 0 ==> part[end - 1] != '=')
    ensures Segment(part) <==>
              0 < end && |part| - end <= 2 && forall i :: 0 <= i < end ==> IsUrlSafe(part[i])
  {
    StrippedIsUnique(part, part[..end]);
    ValuesOfUrlSafe(part[..end]);
  }

  function Completed(signature: string): string {
    signature + Padding(|signature|)
  }

  function DecodeSignature(signature: string, excess: ExcessPadding): Option<seq<bv8>> {
    var text := Completed(signature);
    match if WellPadded(text) then Decode(text, UrlSafe) else excess(text)
    case None => None
    case Some(bytes) =>
      if bytes == [] || Unpadded(bytes, UrlSafe) != Stripped(signature) then None else Some(bytes)
  }

  function Least(a: nat, b: nat, c: nat): (least: nat)
    ensures least <= a && least <= b && least <= c && least in {a, b, c}
  {
    if a <= b && a <= c then a else if b <= c then b else c
  }

  function Xored(a: seq<bv8>, b: seq<bv8>, c: seq<bv8>): (key: seq<bv8>)
    ensures |key| == Least(|a|, |b|, |c|)
  {
    seq(Least(|a|, |b|, |c|), i requires 0 <= i < Least(|a|, |b|, |c|) => a[i] ^ b[i] ^ c[i])
  }

  lemma OddParity(x: bv8, y: bv8, z: bv8, k: bv8)
    requires k < 8
    ensures ((x ^ y ^ z) >> k) & 1 == (((x >> k) & 1) + ((y >> k) & 1) + ((z >> k) & 1)) & 1
  {
  }

  /** Bit `k` of byte `i` of a key says whether an odd number of the three bytes have it. */
  lemma XoredBits(a: seq<bv8>, b: seq<bv8>, c: seq<bv8>, i: nat, k: bv8)
    requires i < |Xored(a, b, c)| && k < 8
    ensures |Xored(a, b, c)| == Least(|a|, |b|, |c|)
    ensures (Xored(a, b, c)[i] >> k) & 1 == (((a[i] >> k) & 1) + ((b[i] >> k) & 1) + ((c[i] >> k) & 1)) & 1
  {
    OddParity(a[i], b[i], c[i], k);
  }

  function DeriveKey(token: Option<string>, r2: Option<string>, r3: Option<string>, excess: ExcessPadding)
    : (key: Option<seq<bv8>>)
  {
    if !Text(token) then None
    else
      var parts := Split(token.value, '.');
      if |parts| != 3 || exists part <- parts :: !Segment(part) then None
      else
        match (DecodeSignature(parts[2], excess), DecodeStandard(r2), DecodeStandard(r3))
        case (Some(signature), Some(second), Some(third)) => Some(Xored(signature, second, third))
        case _ => None
  }

  /** The decoder accepts exactly the canonical encodings of byte strings that are not empty. */
  lemma DecodesExactlyTheEncodings(value: Option<string>, bytes: seq<bv8>)
    ensures DecodeStandard(value) == Some(bytes)
       <==> Text(value) && bytes != [] && value.value == Encode(bytes, Standard)
  {
    DecodeEncode(bytes, Standard);
  }

  lemma XorCancels(x: bv8, y: bv8, z: bv8)
    ensures (x ^ y ^ z) ^ y ^ z == x
  {
  }

  /** XOR with two of the three inputs recovers the prefix of the third. */
  lemma XorRecovers(a: seq<bv8>, b: seq<bv8>, c: seq<bv8>)
    ensures Xored(Xored(a, b, c), b, c) == a[..Least(|a|, |b|, |c|)]
  {
    var key := Xored(a, b, c);
    forall i | 0 <= i < |key| ensures Xored(key, b, c)[i] == a[i] {
      XorCancels(a[i], b[i], c[i]);
    }
    assert |Xored(key, b, c)| == |key|;
  }

  lemma XorRotates(x: bv8, y: bv8, z: bv8)
    ensures x ^ y ^ z == y ^ z ^ x
  {
  }

  lemma XoredRotates(a: seq<bv8>, b: seq<bv8>, c: seq<bv8>)
    ensures Xored(a, b, c) == Xored(b, c, a)
  {
    forall i | 0 <= i < Least(|a|, |b|, |c|) ensures Xored(a, b, c)[i] == Xored(b, c, a)[i] {
      XorRotates(a[i], b[i], c[i]);
    }
  }

  /** Any two of three inputs and their XOR give back the head of the third. */
  lemma EachIsRecovered(a: seq<bv8>, b: seq<bv8>, c: seq<bv8>)
    ensures var key := Xored(a, b, c);
            Xored(key, b, c) == a[..|key|] && Xored(a, key, c) == b[..|key|] && Xored(a, b, key) == c[..|key|]
  {
    var key := Xored(a, b, c);
    XorRecovers(a, b, c);
    XoredRotates(a, b, c);
    XorRecovers(b, c, a);
    XoredRotates(key, c, a);
    XoredRotates(c, a, key);
    XoredRotates(b, c, a);
    XorRecovers(c, a, b);
    XoredRotates(key, a, b);
  }

  /** What an accepted key was made of, whatever the interpreter thinks of excess padding. */
  lemma KeyMaterialIsRecoverable(token: Option<string>, r2: Option<string>, r3: Option<string>,
                                 excess: ExcessPadding)
    returns (signature: seq<bv8>, second: seq<bv8>, third: seq<bv8>)
    requires DeriveKey(token, r2, r3, excess).Some?
    ensures signature != [] && second != [] && third != []
    ensures Text(token) && Text(r2) && Text(r3)
    ensures |Split(token.value, '.')| == 3
    ensures Stripped(Split(token.value, '.')[2]) == Unpadded(signature, UrlSafe)
    ensures r2.value == Encode(second, Standard) && r3.value == Encode(third, Standard)
    ensures var key := DeriveKey(token, r2, r3, excess).value;
            && |key| == Least(|signature|, |second|, |third|)
            && Xored(key, second, third) == signature[..|key|]
            && Xored(signature, key, third) == second[..|key|]
            && Xored(signature, second, key) == third[..|key|]
  {
    var parts := Split(token.value, '.');
    signature := DecodeSignature(parts[2], excess).value;
    second, third := DecodeStandard(r2).value, DecodeStandard(r3).value;
    DecodesExactlyTheEncodings(r2, second);
    DecodesExactlyTheEncodings(r3, third);
    EachIsRecovered(signature, second, third);
  }

  lemma {:induction false} ValuesAreSymbols(text: string, alphabet: Alphabet)
    requires Values(text, alphabet).Some?
    ensures forall i :: 0 <= i < |text| ==> Sextet(text[i], alphabet).Some?
  {
    if text != "" {
      ValuesAreSymbols(text[1..], alphabet);
      forall i | 0 <= i < |text| ensures Sextet(text[i], alphabet).Some? {
        assert i > 0 ==> text[i] == text[1..][i - 1];
      }
    }
  }

  lemma SegmentHasNoDot(part: string)
    requires Segment(part)
    ensures '.' !in part
  {
    ValuesAreSymbols(Stripped(part), UrlSafe);
  }

  lemma TokenParts(header: string, payload: string, last: string)
    requires Segment(header) && Segment(payload) && Segment(last)
    ensures Split(header + "." + payload + "." + last, '.') == [header, payload, last]
  {
    SegmentHasNoDot(header);
    SegmentHasNoDot(payload);
    SegmentHasNoDot(last);
    assert header + "." + payload + "." + last == header + ['.'] + (payload + ['.'] + last);
    SplitAfter(header, '.', payload + ['.'] + last);
    SplitAfter(payload, '.', last);
    SplitNothing(last, '.');
  }

  lemma UnpaddedDecodes(signature: seq<bv8>, excess: ExcessPadding)
    requires signature != []
    ensures DecodeSignature(Unpadded(signature, UrlSafe), excess) == Some(signature)
  {
    var last := Unpadded(signature, UrlSafe);
    assert Completed(last) == Encode(signature, UrlSafe);
    DecodeEncode(signature, UrlSafe);
    StrippedEncoding(signature, UrlSafe, "");
    assert last + "" == last;
  }

  lemma UnpaddedIsSegment(bytes: seq<bv8>)
    requires bytes != []
    ensures Segment(Unpadded(bytes, UrlSafe))
  {
    var text := Unpadded(bytes, UrlSafe);
    StrippedEncoding(bytes, UrlSafe, "");
    assert text + "" == text;
    ValuesOfSymbols(Sextets(bytes), UrlSafe);
  }

  /** A key comes only from a token of three segments, and no text of it is longer than 16384. */
  lemma KeysNeedThreeSegments(token: Option<string>, r2: Option<string>, r3: Option<string>, excess: ExcessPadding)
    requires DeriveKey(token, r2, r3, excess).Some?
    ensures token.Some? && r2.Some? && r3.Some?
    ensures 0 < |token.value| <= 16384 && 0 < |r2.value| <= 16384 && 0 < |r3.value| <= 16384
    ensures var parts := Split(token.value, '.');
            |parts| == 3 && Segment(parts[0]) && Segment(parts[1]) && Segment(parts[2])
  {
  }

  /** Every compact token with canonical parameters yields its key: nothing well formed is refused. */
  lemma CompactTokensAreAccepted(header: string, payload: string, signature: seq<bv8>,
                                 second: seq<bv8>, third: seq<bv8>, excess: ExcessPadding)
    requires Segment(header) && Segment(payload) && signature != [] && second != [] && third != []
    requires var token := header + "." + payload + "." + Unpadded(signature, UrlSafe);
             Text(Some(token)) && Text(Some(Encode(second, Standard))) && Text(Some(Encode(third, Standard)))
    ensures var token := header + "." + payload + "." + Unpadded(signature, UrlSafe);
            DeriveKey(Some(token), Some(Encode(second, Standard)), Some(Encode(third, Standard)), excess)
              == Some(Xored(signature, second, third))
  {
    var last := Unpadded(signature, UrlSafe);
    UnpaddedIsSegment(signature);
    TokenParts(header, payload, last);
    UnpaddedDecodes(signature, excess);
    DecodesExactlyTheEncodings(Some(Encode(second, Standard)), second);
    DecodesExactlyTheEncodings(Some(Encode(third, Standard)), third);
  }
}
