/** Shared result shapes and the one text routine several components need. */
module Wrappers {

  /** The answer of an operation that has a single kind of refusal. */
  datatype Option<+T> = None | Some(value: T)

  /** A clock reading: an instant, or a value without a time zone, which callers refuse. */
  datatype Reading = At(t: int) | Naive

  /** Python's `text.split(separator)`: one more part than there are separators. */
  function Split(text: string, separator: char): (parts: seq<string>)
    ensures |parts| > 0
    ensures forall part <- parts :: separator !in part
  {
    if text == "" then [""]
    else
      var rest := Split(text[1..], separator);
      if text[0] == separator then [""] + rest
      else [[text[0]] + rest[0]] + rest[1..]
  }

  /** A part that holds no separator is cut off whole. */
  lemma {:induction false} SplitAfter(part: string, separator: char, rest: string)
    requires separator !in part
    ensures Split(part + [separator] + rest, separator) == [part] + Split(rest, separator)
  {
    var whole := part + [separator] + rest;
    if part == "" {
      assert whole[1..] == rest;
    } else {
      SplitAfter(part[1..], separator, rest);
      assert whole[1..] == part[1..] + [separator] + rest;
      assert [part[0]] + part[1..] == part;
    }
  }

  lemma {:induction false} SplitNothing(text: string, separator: char)
    requires separator !in text
    ensures Split(text, separator) == [text]
  {
    if text != "" {
      SplitNothing(text[1..], separator);
      assert [text[0]] + text[1..] == text;
    }
  }

  /** What `Split` cut can be put back: the first part, a separator, and the rest. */
  lemma {:induction false} SplitFirst(text: string, separator: char) returns (rest: string)
    requires |Split(text, separator)| > 1
    ensures text == Split(text, separator)[0] + [separator] + rest
    ensures Split(rest, separator) == Split(text, separator)[1..]
  {
    if text[0] == separator {
      rest := text[1..];
    } else {
      rest := SplitFirst(text[1..], separator);
    }
  }

  /** Only a text without separators stays in one part. */
  lemma {:induction false} SplitWhole(text: string, separator: char)
    requires |Split(text, separator)| == 1
    ensures Split(text, separator) == [text]
  {
    if text != "" {
      SplitWhole(text[1..], separator);
      assert [text[0]] + text[1..] == text;
    }
  }

  function Digit(n: int): char
    requires 0 <= n < 10
  {
    (n + '0' as int) as char
  }

  /** Python's `str` of a whole number. */
  function Decimal(n: int): (text: string)
    ensures text != ""
    decreases n < 0, if n < 0 then -n else n
  {
    if n < 0 then "-" + Decimal(-n)
    else if n < 10 then [Digit(n)]
    else Decimal(n / 10) + [Digit(n % 10)]
  }

  /** A function applied to every item in its place. */
  function Mapped<T, R>(items: seq<T>, f: T -> R): (all: seq<R>)
    ensures |all| == |items|
    ensures forall i :: 0 <= i < |items| ==> all[i] == f(items[i])
  {
    seq(|items|, i requires 0 <= i < |items| => f(items[i]))
  }

  function Elements<T(==)>(s: seq<T>): set<T> { set v | v in s }

  ghost predicate Distinct<T>(s: seq<T>) {
    forall i, j :: 0 <= i < j < |s| ==> s[i] != s[j]
  }

  /** Counting the set of a sequence's elements tells whether any is repeated. */
  lemma {:induction false} DistinctBySize<T>(s: seq<T>)
    ensures |Elements(s)| <= |s|
    ensures |Elements(s)| == |s| <==> Distinct(s)
  {
    if s != [] {
      var last := |s| - 1;
      var front := s[..last];
      DistinctBySize(front);
      assert s == front + [s[last]];
      assert Elements(s) == Elements(front) + {s[last]};
      if s[last] in front {
        assert Elements(s) == Elements(front);
      }
    }
  }
}
