/** Decoded payload values, and the readings of numbers and texts the command contracts share. */
module Payloads {
  import opened Wrappers
  import opened Scheduling

  datatype Value =
    | Null
    | Bool(b: bool)
    | Int(n: int)
    | Float(r: Option<real>)   // None: not finite
    | Str(s: string)
    | List(items: seq<Value>)
    | Obj(fields: map<string, Value>)

  /** What a call of `prepare` takes from outside the payload: number and date syntax, zone, and time. */
  datatype World = World(
    parse: string -> Option<real>,     // a text as a finite number, beyond plain digits
    otherDigit: char -> bool,          // decimal digits outside ASCII
    wall: string -> Option<int>,       // a wall time spelled out
    zone: Option<Zone>,
    now: Option<int>)                  // None: a reading without a time zone

  const MOST_DIGITS := 4300

  predicate PlainDigits(text: string) {
    text != "" && forall i :: 0 <= i < |text| ==> '0' <= text[i] <= '9'
  }

  function DigitsValue(text: string): nat
    requires forall i :: 0 <= i < |text| ==> '0' <= text[i] <= '9'
  {
    if text == "" then 0
    else 10 * DigitsValue(text[..|text| - 1]) + (text[|text| - 1] as int - '0' as int)
  }

  /** A positive whole number, as a number or as its decimal text. */
  function Positive(v: Value): (n: Option<int>)
    ensures n.Some? ==> n.value > 0
  {
    match v
    case Int(n) => if n > 0 then Some(n) else None
    case Str(s) =>
      if PlainDigits(s) && |s| <= MOST_DIGITS && DigitsValue(s) > 0 then Some(DigitsValue(s)) else None
    case _ => None
  }

  /** A finite number: an integer, a float, or a text that reads as one. */
  function Number(w: World, v: Value): Option<real> {
    match v
    case Int(n) => Some(n as real)
    case Float(r) => r
    case Str(s) => if PlainDigits(s) && |s| <= 15 then Some(DigitsValue(s) as real) else w.parse(s)
    case _ => None
  }

  predicate Finite(w: World, v: Value, low: int, high: int) {
    Number(w, v).Some? && low as real <= Number(w, v).value <= high as real
  }

  /** A text of bounded length without control characters. */
  predicate Plain(v: Value, limit: nat) {
    v.Str? && |v.s| <= limit && forall i :: 0 <= i < |v.s| ==> v.s[i] >= 32 as char
  }

  /** An object with all required keys and none beyond the optional ones. */
  predicate Fields(v: Value, required: set<string>, optional: set<string>) {
    v.Obj? && required <= v.fields.Keys <= required + optional
  }

  predicate OneOf(v: Value, texts: set<string>) {
    v.Str? && v.s in texts
  }

  /** The decimal text of a number reads back as that number. */
  lemma {:induction false} DigitsOfDecimal(n: nat)
    ensures PlainDigits(Decimal(n)) && DigitsValue(Decimal(n)) == n
  {
    if n < 10 {
      assert Decimal(n)[..0] == "";
    } else {
      DigitsOfDecimal(n / 10);
      assert Decimal(n)[..|Decimal(n)| - 1] == Decimal(n / 10);
    }
  }

  lemma DigitsAreInOrder(c: char)
    ensures '0' <= c <= '9' <==> c in "0123456789"
  {
  }

  lemma PlainDigitsAreDigits(text: string)
    ensures PlainDigits(text) <==> text != "" && forall i :: 0 <= i < |text| ==> text[i] in "0123456789"
  {
    forall i | 0 <= i < |text| ensures '0' <= text[i] <= '9' <==> text[i] in "0123456789" {
      DigitsAreInOrder(text[i]);
    }
  }

  /** Only zeroes have the value zero. */
  lemma {:induction false} ZeroesOnly(text: string)
    requires forall i :: 0 <= i < |text| ==> '0' <= text[i] <= '9'
    ensures DigitsValue(text) > 0 <==> exists i :: 0 <= i < |text| && text[i] != '0'
  {
    if text != "" {
      var last := |text| - 1;
      ZeroesOnly(text[..last]);
      if i :| 0 <= i < |text| && text[i] != '0' {
        assert i < last ==> text[..last][i] == text[i];
      }
    }
  }

  /** Which values read as a positive whole number: positive integers, and plain digits of them, at most 4300. */
  lemma WhichValuesArePositive(v: Value)
    ensures v.Int? ==> Positive(v) == if v.n >= 1 then Some(v.n) else None
    ensures v.Str? ==>
              (Positive(v).Some? <==>
                 && 1 <= |v.s| <= 4300 && (forall i :: 0 <= i < |v.s| ==> v.s[i] in "0123456789")
                 && exists i :: 0 <= i < |v.s| && v.s[i] != '0')
    ensures !v.Int? && !v.Str? ==> Positive(v) == None
  {
    if v.Str? {
      PlainDigitsAreDigits(v.s);
      if PlainDigits(v.s) {
        ZeroesOnly(v.s);
      }
    }
  }

  /** Which values read as a finite number. */
  lemma WhichValuesAreNumbers(w: World, v: Value)
    ensures v.Int? ==> Number(w, v) == Some(v.n as real)
    ensures v.Float? ==> Number(w, v) == v.r
    ensures v.Bool? || v.Null? || v.List? || v.Obj? ==> Number(w, v) == None
  {
  }

  /** Texts of at most fifteen digits read as the number they write. */
  lemma DecimalsAreNumbers(w: World, n: nat)
    requires |Decimal(n)| <= 15
    ensures Number(w, Str(Decimal(n))) == Some(n as real)
  {
    DigitsOfDecimal(n);
  }

  lemma DecimalsAreWrittenOut()
    ensures Decimal(4102) == "4102" && Decimal(-37) == "-37" && Decimal(0) == "0"
  {
    assert Decimal(41) == "41" && Decimal(410) == "410";
  }

  // ----- what normalising may change

  /** The rewritings of single texts that a contract may make, by the key they stand under. */
  predicate Rewritten(key: string, a: Value, b: Value) {
    || (key == "operate" && a == Str("close") && b == Str("off"))
    || (key == "mode" && a == Str("wind") && b == Str("nohotcold"))
    || (key == "position" && OneOf(a, {"driver", "copilot"}) && OneOf(b, {"left_front", "right_front"}))
  }

  /** `b` is `a` with the same keys and list lengths at every level and no change but the rewritings. */
  predicate Normalizes(key: string, a: Value, b: Value)
    decreases a
  {
    match a
    case Obj(f) =>
      b.Obj? && f.Keys == b.fields.Keys && forall k <- f.Keys :: Normalizes(k, f[k], b.fields[k])
    case List(x) =>
      b.List? && |x| == |b.items| && forall i :: 0 <= i < |x| ==> Normalizes(key, x[i], b.items[i])
    case _ => a == b || Rewritten(key, a, b)
  }

  lemma {:induction false} NormalizesItself(key: string, a: Value)
    ensures Normalizes(key, a, a)
    decreases a
  {
    match a
    case Obj(f) =>
      forall k | k in f.Keys ensures Normalizes(k, f[k], f[k]) { NormalizesItself(k, f[k]); }
    case List(x) =>
      forall i | 0 <= i < |x| ensures Normalizes(key, x[i], x[i]) { NormalizesItself(key, x[i]); }
    case _ =>
  }
}
