/** A Python dict from member id to an amount, kept in insertion order.
    The engine builds two of them by repeated `d[k] += v` (the `balances`
    defaultdict and the receipt's `user_shares`), and the order in which keys
    were first touched is the order in which later code sees `d.items()`. */
module Tally {

  type Entry = (int, real)

  /** The keys of the dict. */
  function Keys(d: seq<Entry>): set<int>
  {
    if d == [] then {} else {d[0].0} + Keys(d[1..])
  }

  /** A dict never holds a key twice. */
  predicate DistinctKeys(d: seq<Entry>)
  {
    forall p, q :: 0 <= p < q < |d| ==> d[p].0 != d[q].0
  }

  /** `d.get(x, 0.0)`: the value stored under `x`, zero when `x` is absent. */
  function Get(d: seq<Entry>, x: int): real
  {
    if d == [] then 0.0
    else if d[0].0 == x then d[0].1
    else Get(d[1..], x)
  }

  /** `d[x] += v` on a defaultdict: the value under `x` grows by `v`; an absent
      key is appended at the end with value `v`. */
  function Add(d: seq<Entry>, x: int, v: real): seq<Entry>
  {
    if d == [] then [(x, v)]
    else if d[0].0 == x then [(x, d[0].1 + v)] + d[1..]
    else [d[0]] + Add(d[1..], x, v)
  }

  /** The sum of all values, `sum(d.values())`. */
  function Total(d: seq<Entry>): real
  {
    if d == [] then 0.0 else d[0].1 + Total(d[1..])
  }

  /** `d[x] += v` appends an absent key at the end and otherwise keeps every key
      in its place: the dict's insertion order. */
  lemma {:induction false} AddOrder(d: seq<Entry>, x: int, v: real)
    ensures x !in Keys(d) ==> Add(d, x, v) == d + [(x, v)]
    ensures x in Keys(d) ==> |Add(d, x, v)| == |d| && forall p :: 0 <= p < |d| ==> Add(d, x, v)[p].0 == d[p].0
  {
    if d != [] && d[0].0 != x {
      AddOrder(d[1..], x, v);
    }
  }

  /** `d[x] += v` adds `x` to the keys and no other key. */
  lemma {:induction false} AddKeys(d: seq<Entry>, x: int, v: real)
    ensures Keys(Add(d, x, v)) == Keys(d) + {x}
  {
    if d != [] && d[0].0 != x {
      AddKeys(d[1..], x, v);
    }
  }

  /** Every stored key is among the keys. */
  lemma {:induction false} KeyAt(d: seq<Entry>, p: nat)
    requires p < |d|
    ensures d[p].0 in Keys(d)
  {
    if p > 0 {
      KeyAt(d[1..], p - 1);
    }
  }

  /** A key that no entry carries is not among the keys. */
  lemma {:induction false} NotAKey(d: seq<Entry>, x: int)
    requires forall p :: 0 <= p < |d| ==> d[p].0 != x
    ensures x !in Keys(d)
  {
    if d != [] {
      NotAKey(d[1..], x);
    }
  }

  /** `d[x] += v` changes the value under `x` by `v` and no other value. */
  lemma {:induction false} AddGet(d: seq<Entry>, x: int, v: real)
    ensures forall y :: Get(Add(d, x, v), y) == Get(d, y) + (if y == x then v else 0.0)
  {
    if d != [] && d[0].0 != x {
      AddGet(d[1..], x, v);
    }
  }

  /** `d[x] += v` keeps the keys distinct. */
  lemma {:induction false} AddDistinct(d: seq<Entry>, x: int, v: real)
    requires DistinctKeys(d)
    ensures DistinctKeys(Add(d, x, v))
  {
    if d != [] && d[0].0 != x {
      AddDistinct(d[1..], x, v);
      AddKeys(d[1..], x, v);
      var r := Add(d, x, v);
      NotAKey(d[1..], d[0].0);
      forall q | 0 < q < |r| ensures r[0].0 != r[q].0 {
        KeyAt(Add(d[1..], x, v), q - 1);
      }
    }
  }

  /** `d[x] += v` raises the sum of all values by exactly `v`. */
  lemma {:induction false} AddTotal(d: seq<Entry>, x: int, v: real)
    ensures Total(Add(d, x, v)) == Total(d) + v
  {
    if d != [] && d[0].0 != x {
      AddTotal(d[1..], x, v);
    }
  }

  /** A key that is absent reads as zero. */
  lemma {:induction false} GetAbsent(d: seq<Entry>, x: int)
    requires x !in Keys(d)
    ensures Get(d, x) == 0.0
  {
    if d != [] {
      GetAbsent(d[1..], x);
    }
  }

  /** With distinct keys, the value read for a key is the one stored beside it. */
  lemma {:induction false} GetAt(d: seq<Entry>, p: nat)
    requires DistinctKeys(d) && p < |d|
    ensures Get(d, d[p].0) == d[p].1
  {
    if p > 0 {
      GetAt(d[1..], p - 1);
    }
  }

  /** Distinct keys, one entry at a time: the first key occurs nowhere after it
      and the rest is distinct. */
  lemma DistinctCons(d: seq<Entry>)
    requires d != []
    ensures DistinctKeys(d) <==> d[0].0 !in Keys(d[1..]) && DistinctKeys(d[1..])
  {
    if DistinctKeys(d) {
      NotAKey(d[1..], d[0].0);
    }
    if d[0].0 !in Keys(d[1..]) && DistinctKeys(d[1..]) {
      forall q | 0 < q < |d| ensures d[0].0 != d[q].0 {
        KeyAt(d[1..], q - 1);
      }
    }
  }
}
