/** The resolver's list of candidate passwords, and the provider's loop that tries them. */
module AccountMaterial {
  import opened Wrappers
  import opened AccountPassword

  type Bytes = seq<bv8>

  /** A field of the login data: absent, present and null, or present. */
  datatype Field = Absent | Null | Present(account: Account)

  datatype LoginData = LoginData(accountId: Field, id: Field, uid: Option<string>)

  /** Python's `data.get('accountId', data.get('id'))`: a null `accountId` does not fall back. */
  function AccountOf(data: LoginData): Field {
    if data.accountId.Absent? then (if data.id.Absent? then Null else data.id) else data.accountId
  }

  /** A derivation such as `Derive` with its resolver and digests fixed; the list does not depend on which. */
  type Derivation = (Account, string) -> Option<string>

  /** The texts offered as passwords, in order, or a refusal. */
  function Sources(fallbacks: seq<string>, data: LoginData, explicit: Option<string>, derive: Derivation)
    : Option<seq<string>>
  {
    if explicit.Some? && |explicit.value| > LONGEST then None
    else
      var first := if explicit.Some? then [explicit.value] else [];
      var account := AccountOf(data);
      if account.Null? || data.uid.None? then Some(first + fallbacks)
      else
        match derive(account.account, data.uid.value)
        case None => None
        case Some(derived) => Some(first + [derived] + fallbacks)
  }

  /** The login data names an account and a uid. */
  predicate NamesAccount(data: LoginData) {
    && data.uid.Some?
    && (data.accountId.Present? || (data.accountId.Absent? && data.id.Present?))
  }

  /**
   * The texts are the explicit one first, the derived one if the data names an account, and the fallbacks last;
   * they are refused exactly for an explicit text over 4096 characters or a refused derivation. The account is
   * `accountId`, or `id` where there is no such field at all.
   */
  lemma SourcesInOrder(fallbacks: seq<string>, data: LoginData, explicit: Option<string>, derive: Derivation)
    ensures var sources := Sources(fallbacks, data, explicit, derive);
            var account := if data.accountId.Present? then data.accountId.account
                           else if data.id.Present? then data.id.account else Unusable;
            && (sources.Some? <==>
                  && (explicit.Some? ==> |explicit.value| <= 4096)
                  && (NamesAccount(data) ==> derive(account, data.uid.value).Some?))
            && (sources.Some? ==>
                  && |sources.value| == |fallbacks| + (if explicit.Some? then 1 else 0) + (if NamesAccount(data) then 1 else 0)
                  && (explicit.Some? ==> sources.value[0] == explicit.value)
                  && sources.value[|sources.value| - |fallbacks|..] == fallbacks
                  && (NamesAccount(data) ==>
                        Some(sources.value[if explicit.Some? then 1 else 0]) == derive(account, data.uid.value)))
  {
  }

  /** Order-preserving removal of repetitions, as a dictionary built from the keys does it. */
  function Deduplicated<T(==)>(items: seq<T>): (kept: seq<T>) {
    if items == [] then []
    else
      var last := |items| - 1;
      var kept := Deduplicated(items[..last]);
      if items[last] in kept then kept else kept + [items[last]]
  }

  /** Where an item first stands. */
  function FirstIndex<T(==)>(items: seq<T>, item: T): (index: nat)
    requires item in items
    ensures index < |items| && items[index] == item
    ensures forall i :: 0 <= i < index ==> items[i] != item
  {
    if items[0] == item then 0 else 1 + FirstIndex(items[1..], item)
  }

  lemma FirstIndexIsUnique<T>(items: seq<T>, item: T, index: nat)
    requires index < |items| && items[index] == item
    requires forall i :: 0 <= i < index ==> items[i] != item
    ensures FirstIndex(items, item) == index
  {
  }

  /** Nothing twice, nothing lost, nothing added, and the order of first occurrence. */
  lemma {:induction false} DeduplicatedKeepsFirsts<T>(items: seq<T>)
    ensures var kept := Deduplicated(items);
            && |kept| <= |items|
            && (forall x :: x in kept <==> x in items)
            && (forall i, j :: 0 <= i < j < |kept| ==> FirstIndex(items, kept[i]) < FirstIndex(items, kept[j]))
  {
    if items != [] {
      var last := |items| - 1;
      var front := items[..last];
      var kept := Deduplicated(front);
      DeduplicatedKeepsFirsts(front);
      assert items == front + [items[last]];
      forall x | x in front ensures FirstIndex(items, x) == FirstIndex(front, x) {
        FirstIndexIsUnique(items, x, FirstIndex(front, x));
      }
      if items[last] !in kept {
        FirstIndexIsUnique(items, items[last], last);
      }
    }
  }

  /** The resolver's candidates. */
  method Candidates(fallbacks: seq<string>, data: LoginData, explicit: Option<string>, derive: Derivation,
                    utf8: string -> Bytes)
    returns (candidates: Option<seq<Bytes>>)
    ensures candidates.Some? <==> Sources(fallbacks, data, explicit, derive).Some?
    ensures candidates.Some? ==>
              candidates.value == Deduplicated(Mapped(Sources(fallbacks, data, explicit, derive).value, utf8))
  {
    var values: seq<string> := [];
    if explicit.Some? {
      if |explicit.value| > LONGEST {
        return None;
      }
      values := values + [explicit.value];
    }
    var account := AccountOf(data);
    if !account.Null? && data.uid.Some? {
      var derived := derive(account.account, data.uid.value);
      if derived.None? {
        return None;
      }
      values := values + [derived.value];
    }
    values := values + fallbacks;
    assert values == Sources(fallbacks, data, explicit, derive).value;
    return Some(Deduplicated(Mapped(values, utf8)));
  }

  /** At most an explicit text, a derived one and six fallbacks: never more than eight candidates. */
  lemma NeverMoreThanEight(roundKeys: seq<int>, sbox: seq<int>, fallbacks: seq<string>, data: LoginData,
                           explicit: Option<string>, derive: Derivation, utf8: string -> Bytes)
    requires NewResolver(roundKeys, sbox, fallbacks).Some?
    requires Sources(fallbacks, data, explicit, derive).Some?
    ensures NewResolver(roundKeys, sbox, fallbacks).value.fallbacks == fallbacks
    ensures var sources := Sources(fallbacks, data, explicit, derive).value;
            |Deduplicated(Mapped(sources, utf8))| <= |sources| <= 8
  {
    var sources := Sources(fallbacks, data, explicit, derive).value;
    DeduplicatedKeepsFirsts(Mapped(sources, utf8));
  }

  // ----- the provider's loop

  /**
   * What opening the container with a password gives: a pair, a container without one, the two kinds of
   * exception that mean a wrong password, or any other exception.
   */
  datatype Attempt<Pair> = Opened(pair: Pair) | Incomplete | Refused | Crashed

  /** A pair, or why there is none: a candidate too long, a crash of the reader, or no candidate left. */
  datatype Pick<Pair> = Picked(pair: Pair) | Overlong | ReaderCrashed | Exhausted

  const CUT_OFF := 8

  predicate Short(candidate: Bytes) {
    |candidate| <= LONGEST
  }

  /** A candidate after which the next one is tried. */
  predicate Passed<Pair>(candidate: Bytes, open: Bytes -> Attempt<Pair>) {
    Short(candidate) && (open(candidate).Incomplete? || open(candidate).Refused?)
  }

  /** The candidate at `i` is the first that is not passed over. */
  ghost predicate Decides<Pair>(candidates: seq<Bytes>, open: Bytes -> Attempt<Pair>, i: nat) {
    i < |candidates| && !Passed(candidates[i], open) && forall k :: 0 <= k < i ==> Passed(candidates[k], open)
  }

  /** What the deciding candidate comes to. */
  function Decision<Pair>(candidate: Bytes, open: Bytes -> Attempt<Pair>): Pick<Pair> {
    if !Short(candidate) then Overlong
    else
      match open(candidate)
      case Opened(pair) => Picked(pair)
      case _ => ReaderCrashed
  }

  /**
   * A candidate decides for a pair exactly if it has at most 4096 bytes and opens the container with that pair,
   * against it if it is longer or the reader crashes, and not at all on a wrong password or without a pair.
   */
  lemma WhatACandidateDecides<Pair>(candidate: Bytes, open: Bytes -> Attempt<Pair>, pair: Pair)
    ensures Passed(candidate, open) <==> |candidate| <= 4096 && open(candidate) in {Incomplete, Refused}
    ensures !Passed(candidate, open) ==>
              var decision := Decision(candidate, open);
              && (decision == Picked(pair) <==> |candidate| <= 4096 && open(candidate) == Opened(pair))
              && (decision == Overlong <==> |candidate| > 4096)
              && (decision == ReaderCrashed <==> |candidate| <= 4096 && open(candidate) == Crashed)
  {
  }

  /**
   * The provider tries at most eight candidates in order. The first that opens the container, is too long,
   * or makes the reader crash decides; wrong passwords and containers without a pair are passed over.
   */
  method PickPair<Pair>(candidates: seq<Bytes>, open: Bytes -> Attempt<Pair>) returns (pick: Pick<Pair>)
    ensures forall i: nat :: Decides(candidates, open, i) ==>
              pick == if i < 8 then Decision(candidates[i], open) else Exhausted
    ensures (forall i: nat :: !Decides(candidates, open, i)) ==> pick.Exhausted?
  {
    var index: nat := 0;
    while index < |candidates|
      invariant index <= |candidates| && index <= CUT_OFF
      invariant forall k :: 0 <= k < index ==> Passed(candidates[k], open)
    {
      if index >= CUT_OFF {
        break;
      }
      var password := candidates[index];
      if |password| > LONGEST {
        assert Decides(candidates, open, index);
        return Overlong;
      }
      var attempt := open(password);
      if attempt.Crashed? {
        assert Decides(candidates, open, index);
        return ReaderCrashed;
      }
      if attempt.Opened? {
        assert Decides(candidates, open, index);
        return Picked(attempt.pair);
      }
      index := index + 1;
    }
    return Exhausted;
  }

  /**
   * With the resolver's own candidates the cut-off skips none: a pair is picked exactly if some candidate
   * opens the container and every one before it is passed over.
   */
  method PickFromResolver<Pair>(fallbacks: seq<string>, data: LoginData, explicit: Option<string>,
                                derive: Derivation, utf8: string -> Bytes, open: Bytes -> Attempt<Pair>)
    returns (pick: Pick<Pair>)
    requires |fallbacks| <= 6
    ensures Sources(fallbacks, data, explicit, derive).Some? ==>
              var all := Deduplicated(Mapped(Sources(fallbacks, data, explicit, derive).value, utf8));
              && (forall i: nat :: Decides(all, open, i) ==> pick == Decision(all[i], open))
              && ((forall i: nat :: !Decides(all, open, i)) ==> pick.Exhausted?)
              && (pick.Picked? <==> exists i: nat :: Decides(all, open, i) && Short(all[i]) && open(all[i]).Opened?)
    ensures Sources(fallbacks, data, explicit, derive).None? ==> pick.Exhausted?
  {
    var candidates := Candidates(fallbacks, data, explicit, derive, utf8);
    if candidates.None? {
      return Exhausted;
    }
    DeduplicatedKeepsFirsts(Mapped(Sources(fallbacks, data, explicit, derive).value, utf8));
    pick := PickPair(candidates.value, open);
  }
}
