/**
 * What the two list queries need: enumerating the ids of a table and ordering
 * stores by name (`ORDER BY name`, taken as plain lexicographic order on
 * characters).
 */
module Listing {
  import opened Schemas

  /** The ids in `keys` that lie in 1 .. hi-1, largest first. */
  function IdsBelow(keys: set<int>, hi: nat): (r: seq<int>)
    ensures forall k :: k in r <==> k in keys && 0 < k < hi
    ensures forall i, j :: 0 <= i < j < |r| ==> r[i] > r[j]
    decreases hi
  {
    if hi <= 1 then []
    else
      var rest := IdsBelow(keys, hi - 1);
      if hi - 1 in keys then
        assert forall j :: 0 <= j < |rest| ==> rest[j] in rest && rest[j] < hi - 1;
        [hi - 1] + rest
      else rest
  }

  function KeysBelow(keys: set<int>, hi: nat): set<int> {
    set k | k in keys && 0 < k < hi
  }

  lemma KeysBelowStep(keys: set<int>, hi: nat)
    requires hi > 1
    ensures hi - 1 in keys ==> |KeysBelow(keys, hi)| == |KeysBelow(keys, hi - 1)| + 1
    ensures hi - 1 !in keys ==> KeysBelow(keys, hi) == KeysBelow(keys, hi - 1)
  {
    var below := KeysBelow(keys, hi - 1);
    if hi - 1 in keys {
      assert KeysBelow(keys, hi) == below + {hi - 1};
    } else {
      assert KeysBelow(keys, hi) == below;
    }
  }

  lemma {:induction false} IdsBelowCount(keys: set<int>, hi: nat)
    ensures |IdsBelow(keys, hi)| == |KeysBelow(keys, hi)|
    decreases hi
  {
    if hi <= 1 {
      assert KeysBelow(keys, hi) == {};
    } else {
      IdsBelowCount(keys, hi - 1);
      KeysBelowStep(keys, hi);
    }
  }

  /** Every key of a table whose ids are all below `hi` is listed, once each. */
  lemma IdsBelowCoversKeys(keys: set<int>, hi: nat)
    requires forall k :: k in keys ==> 0 < k < hi
    ensures |IdsBelow(keys, hi)| == |keys|
    ensures forall k :: k in keys <==> k in IdsBelow(keys, hi)
  {
    IdsBelowCount(keys, hi);
    assert KeysBelow(keys, hi) == keys;
  }

  /** Lexicographic order on names, character by character. */
  predicate NameLe(a: string, b: string) {
    a == [] || (b != [] && (a[0] < b[0] || (a[0] == b[0] && NameLe(a[1..], b[1..]))))
  }

  /** Any two names are ordered one way or the other. */
  lemma {:induction false} NameLeTotal(a: string, b: string)
    ensures NameLe(a, b) || NameLe(b, a)
  {
    if a != [] && b != [] && a[0] == b[0] {
      NameLeTotal(a[1..], b[1..]);
    }
  }

  /** Each store's name is at least the one before it. */
  predicate SortedByName(s: seq<StoreResponse>) {
    forall i :: 0 < i < |s| ==> NameLe(s[i - 1].name, s[i].name)
  }

  function InsertByName(x: StoreResponse, s: seq<StoreResponse>): (r: seq<StoreResponse>)
    requires SortedByName(s)
    ensures |r| == |s| + 1
    ensures SortedByName(r)
    ensures multiset(r) == multiset(s) + multiset{x}
    ensures r[0] == x || (s != [] && r[0] == s[0])
  {
    if s == [] || NameLe(x.name, s[0].name) then
      [x] + s
    else
      NameLeTotal(x.name, s[0].name);
      var rest := InsertByName(x, s[1..]);
      assert s == [s[0]] + s[1..];
      [s[0]] + rest
  }

  /** The stores ordered by name: a sorted permutation of the input. */
  function SortByName(s: seq<StoreResponse>): (r: seq<StoreResponse>)
    ensures SortedByName(r)
    ensures multiset(r) == multiset(s)
  {
    if s == [] then []
    else
      assert s == [s[0]] + s[1..];
      InsertByName(s[0], SortByName(s[1..]))
  }
}
