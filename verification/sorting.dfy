/** Python's `list.sort(key=lambda x: x[1], reverse=True)` on a list of
    `(member, amount)` pairs: a stable sort by descending amount, in which pairs
    of equal amount keep the order they had in the list. */
module DescendingSort {
  import opened Tally

  /** Puts `e` in front of the first element whose amount is at most its own. */
  function Insert(e: Entry, t: seq<Entry>): seq<Entry>
  {
    if t == [] || e.1 >= t[0].1 then [e] + t else [t[0]] + Insert(e, t[1..])
  }

  /** The sorted list: each element, from the last to the first, is inserted in
      front of every element of equal or smaller amount, so among equal amounts
      the earlier element stays first. */
  function Sort(s: seq<Entry>): seq<Entry>
  {
    if s == [] then [] else Insert(s[0], Sort(s[1..]))
  }

  predicate SortedDesc(s: seq<Entry>)
  {
    forall p, q :: 0 <= p < q < |s| ==> s[p].1 >= s[q].1
  }

  /** The elements of `s` whose amount is `v`, in their order in `s`. */
  function WithAmount(s: seq<Entry>, v: real): seq<Entry>
  {
    if s == [] then [] else (if s[0].1 == v then [s[0]] else []) + WithAmount(s[1..], v)
  }

  lemma {:induction false} InsertSorted(e: Entry, t: seq<Entry>)
    requires SortedDesc(t)
    ensures SortedDesc(Insert(e, t))
    ensures |Insert(e, t)| == |t| + 1
    ensures Insert(e, t)[0] == e || (t != [] && Insert(e, t)[0] == t[0])
  {
    if t != [] && e.1 < t[0].1 {
      InsertSorted(e, t[1..]);
      var r := Insert(e, t);
      forall p, q | 0 <= p < q < |r| ensures r[p].1 >= r[q].1 {
        if p == 0 {
          assert r[1] == e || r[1] == t[1];
          assert r[q] == Insert(e, t[1..])[q - 1];
        }
      }
    }
  }

  /** The sorted list is in descending order of amount. */
  lemma {:induction false} SortIsSorted(s: seq<Entry>)
    ensures SortedDesc(Sort(s))
    ensures |Sort(s)| == |s|
  {
    if s != [] {
      SortIsSorted(s[1..]);
      InsertSorted(s[0], Sort(s[1..]));
    }
  }

  lemma {:induction false} InsertPermutes(e: Entry, t: seq<Entry>)
    ensures multiset(Insert(e, t)) == multiset(t) + multiset{e}
  {
    if t != [] && e.1 < t[0].1 {
      InsertPermutes(e, t[1..]);
      assert t == [t[0]] + t[1..];
    }
  }

  /** The sorted list holds exactly the elements of the input. */
  lemma {:induction false} SortPermutes(s: seq<Entry>)
    ensures multiset(Sort(s)) == multiset(s)
  {
    if s != [] {
      SortPermutes(s[1..]);
      InsertPermutes(s[0], Sort(s[1..]));
      assert s == [s[0]] + s[1..];
    }
  }

  lemma {:induction false} InsertStable(e: Entry, t: seq<Entry>, v: real)
    ensures WithAmount(Insert(e, t), v) == (if e.1 == v then [e] else []) + WithAmount(t, v)
  {
    if t != [] && e.1 < t[0].1 {
      InsertStable(e, t[1..], v);
      var r := Insert(e, t);
      assert r[0] == t[0] && r[1..] == Insert(e, t[1..]);
      assert e.1 == v ==> t[0].1 != v;
    } else {
      var r := Insert(e, t);
      assert r[0] == e && r[1..] == t;
    }
  }

  /** Stability: the elements of any one amount come out in their input order. */
  lemma {:induction false} SortStable(s: seq<Entry>, v: real)
    ensures WithAmount(Sort(s), v) == WithAmount(s, v)
  {
    if s != [] {
      SortStable(s[1..], v);
      InsertStable(s[0], Sort(s[1..]), v);
    }
  }

  lemma {:induction false} InsertKeys(e: Entry, t: seq<Entry>)
    ensures Keys(Insert(e, t)) == Keys(t) + {e.0}
  {
    if t != [] && e.1 < t[0].1 {
      InsertKeys(e, t[1..]);
    }
  }

  /** Sorting keeps the set of members. */
  lemma {:induction false} SortKeys(s: seq<Entry>)
    ensures Keys(Sort(s)) == Keys(s)
  {
    if s != [] {
      SortKeys(s[1..]);
      InsertKeys(s[0], Sort(s[1..]));
    }
  }

  lemma {:induction false} InsertGet(e: Entry, t: seq<Entry>, x: int)
    requires e.0 !in Keys(t)
    ensures Get(Insert(e, t), x) == if x == e.0 then e.1 else Get(t, x)
  {
    if t != [] && e.1 < t[0].1 {
      InsertGet(e, t[1..], x);
    }
  }

  lemma {:induction false} InsertDistinct(e: Entry, t: seq<Entry>)
    requires e.0 !in Keys(t) && DistinctKeys(t)
    ensures DistinctKeys(Insert(e, t))
  {
    if t != [] && e.1 < t[0].1 {
      DistinctCons(t);
      InsertDistinct(e, t[1..]);
      InsertKeys(e, t[1..]);
      DistinctCons(Insert(e, t));
    } else {
      DistinctCons([e] + t);
    }
  }

  /** With distinct members, sorting keeps the members distinct and each
      member's amount. */
  lemma {:induction false} SortGet(s: seq<Entry>, x: int)
    requires DistinctKeys(s)
    ensures DistinctKeys(Sort(s))
    ensures Get(Sort(s), x) == Get(s, x)
  {
    if s != [] {
      DistinctCons(s);
      SortGet(s[1..], x);
      SortKeys(s[1..]);
      InsertGet(s[0], Sort(s[1..]), x);
      InsertDistinct(s[0], Sort(s[1..]));
    }
  }
}
