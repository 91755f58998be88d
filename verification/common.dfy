/** Small shared vocabulary: optional and fallible values, and string searching. */
module Common {

  datatype Option<+T> = None | Some(value: T)

  datatype Result<+T, +E> = Success(value: T) | Failure(error: E)

  /** Index of the last occurrence of `c` in `s`, or -1 when `c` does not occur:
      the split point of Python's `s.rsplit(c, 1)`. */
  function LastIndexOf(s: string, c: char): (r: int)
    ensures -1 <= r < |s|
    ensures r == -1 <==> c !in s
    ensures r >= 0 ==> s[r] == c && c !in s[r + 1..]
  {
    if s == [] then -1
    else if s[|s| - 1] == c then |s| - 1
    else
      var r := LastIndexOf(s[..|s| - 1], c);
      assert s == s[..|s| - 1] + [s[|s| - 1]];
      r
  }

  /** The text before the last `c` (the first part of `s.rsplit(c, 1)`). */
  function BeforeLast(s: string, c: char): string
    requires c in s
  {
    s[..LastIndexOf(s, c)]
  }

  /** The text after the last `c` (the second part of `s.rsplit(c, 1)`). */
  function AfterLast(s: string, c: char): string
    requires c in s
  {
    s[LastIndexOf(s, c) + 1..]
  }

  /** `rsplit(c, 1)` cuts `s` into two parts that rebuild `s` around one `c`,
      and the second part holds no `c`. */
  lemma RSplitRoundTrip(s: string, c: char)
    requires c in s
    ensures BeforeLast(s, c) + [c] + AfterLast(s, c) == s
    ensures c !in AfterLast(s, c)
  {
    var k := LastIndexOf(s, c);
    assert s == s[..k] + [s[k]] + s[k + 1..];
  }

  /** Splitting `a + [c] + b` at its last `c` gives back `a` and `b` when `b` holds no `c`. */
  lemma {:induction false} RSplitOfJoin(a: string, c: char, b: string)
    requires c !in b
    ensures c in a + [c] + b
    ensures BeforeLast(a + [c] + b, c) == a && AfterLast(a + [c] + b, c) == b
  {
    var s := a + [c] + b;
    assert s[|a|] == c;
    var k := LastIndexOf(s, c);
    assert forall i :: |a| < i < |s| ==> s[i] == b[i - |a| - 1];
    assert forall i :: k < i < |s| ==> s[k + 1..][i - k - 1] == s[i];
  }
}
