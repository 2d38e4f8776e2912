/** The JavaScript array operations the server's handlers are built from,
    with the edge cases of the language spelled out: `indexOf` answers -1
    for a miss, `splice` counts a negative start from the end, and `filter`
    drops every element that fails its test. */
module JsArrays {
  import opened ChatTypes

  /** `s.indexOf(x)`: the first position holding `x`, or -1. */
  function IndexOf<T(==)>(s: seq<T>, x: T): (r: int)
    ensures -1 <= r < |s|
    ensures r == -1 <==> x !in s
    ensures 0 <= r ==> s[r] == x && x !in s[..r]
    decreases |s|
  {
    if |s| == 0 then -1
    else if s[0] == x then 0
    else
      var k := IndexOf(s[1..], x);
      assert k >= 0 ==> s[..k + 1] == [s[0]] + s[1..][..k];
      if k == -1 then -1 else k + 1
  }

  /** `users.indexOf(name)` where the name may be unset: an unset name is
      never stored in a list of strings, so it answers -1. */
  function IndexOfName(s: seq<string>, name: Option<string>): (r: int)
    ensures -1 <= r < |s|
    ensures r == -1 <==> name.None? || name.value !in s
    ensures 0 <= r ==> Some(s[r]) == name && name.value !in s[..r]
  {
    match name
    case None => -1
    case Some(x) => IndexOf(s, x)
  }

  /** `s.splice(start, 1)` as it leaves the array: a start in range removes
      that element, a negative start counts back from the end (so -1
      removes the last element), and a start past the end removes nothing. */
  function SpliceOne<T>(s: seq<T>, start: int): (r: seq<T>)
    ensures 0 <= start < |s| ==> r == s[..start] + s[start + 1..]
    ensures start == -1 && |s| > 0 ==> r == s[..|s| - 1]
    ensures |s| <= start ==> r == s
    ensures |r| == if |s| == 0 || |s| <= start then |s| else |s| - 1
  {
    var k := if start < 0 then (if |s| + start < 0 then 0 else |s| + start)
             else (if start < |s| then start else |s|);
    if k < |s| then s[..k] + s[k + 1..] else s
  }

  /** An in-range `splice(k, 1)` removes that one element; the others keep
      their relative order. */
  lemma SpliceOneRemoves<T>(s: seq<T>, k: nat)
    requires k < |s|
    ensures multiset(SpliceOne(s, k)) == multiset(s) - multiset{s[k]}
    ensures forall j :: 0 <= j < |s| - 1 ==>
      SpliceOne(s, k)[j] == if j < k then s[j] else s[j + 1]
  {
    assert s == s[..k] + ([s[k]] + s[k + 1..]);
  }

  /** `s.filter(v => v != x)`. */
  function Without(s: seq<string>, x: string): (r: seq<string>)
    ensures forall y :: y in r <==> y in s && y != x
    ensures |r| <= |s|
    decreases |s|
  {
    if s == [] then []
    else (if s[0] == x then [] else [s[0]]) + Without(s[1..], x)
  }

  /** Filtering removes every copy of `x` and keeps every other copy. */
  lemma {:induction false} WithoutCounts(s: seq<string>, x: string)
    ensures multiset(Without(s, x)) == multiset(s)[x := 0]
    decreases |s|
  {
    if s != [] {
      WithoutCounts(s[1..], x);
      assert s == [s[0]] + s[1..];
    }
  }

  /** Filtering keeps order: it distributes over concatenation, so the
      survivors of a prefix come before the survivors of the rest. */
  lemma {:induction false} WithoutConcat(a: seq<string>, b: seq<string>, x: string)
    ensures Without(a + b, x) == Without(a, x) + Without(b, x)
    decreases |a|
  {
    if a != [] {
      WithoutConcat(a[1..], b, x);
      assert (a + b)[0] == a[0] && (a + b)[1..] == a[1..] + b;
      calc {
        Without(a + b, x);
        (if a[0] == x then [] else [a[0]]) + Without(a[1..] + b, x);
        (if a[0] == x then [] else [a[0]]) + (Without(a[1..], x) + Without(b, x));
        Without(a, x) + Without(b, x);
      }
    } else {
      assert a + b == b;
    }
  }

  /** A list without `x` comes back from the filter unchanged. */
  lemma {:induction false} WithoutAbsent(s: seq<string>, x: string)
    requires x !in s
    ensures Without(s, x) == s
    decreases |s|
  {
    if s != [] {
      WithoutAbsent(s[1..], x);
      assert s == [s[0]] + s[1..];
    }
  }

  /** The loop `for i: if s[i] === a then s[i] = b`. */
  function Replace<T(==)>(s: seq<T>, a: T, b: T): (r: seq<T>)
    ensures |r| == |s|
    ensures a != b ==> a !in r
    ensures forall k :: 0 <= k < |s| && s[k] != a ==> r[k] == s[k]
  {
    seq(|s|, k requires 0 <= k < |s| => if s[k] == a then b else s[k])
  }

  /** When `b` was unused, renaming `a` to `b` leaves no `a` behind (unless
      `a == b`), and renaming `b` back to `a` restores the list. */
  lemma ReplaceRoundTrip<T>(s: seq<T>, a: T, b: T)
    requires b !in s
    ensures a != b ==> a !in Replace(s, a, b)
    ensures b in Replace(s, a, b) <==> a in s
    ensures Replace(Replace(s, a, b), b, a) == s
  {
    var t := Replace(s, a, b);
    if a in s {
      var k :| 0 <= k < |s| && s[k] == a;
      assert t[k] == b;
    }
    assert forall k :: 0 <= k < |s| ==> Replace(t, b, a)[k] == s[k];
  }

  /** Removing the first occurrence of `x`, and nothing when it is absent:
      what `s.splice(s.indexOf(x), 1)` is meant to do. */
  function RemoveFirst<T(==)>(s: seq<T>, x: T): (r: seq<T>)
    ensures x !in s ==> r == s
    ensures x in s ==> multiset(r) == multiset(s) - multiset{x}
  {
    var k := IndexOf(s, x);
    if k == -1 then s
    else
      assert s == s[..k] + [s[k]] + s[k + 1..];
      s[..k] + s[k + 1..]
  }

  /** The intended removal of a socket's name, which may be unset: an
      unset name removes nothing. */
  function RemoveName(s: seq<string>, name: Option<string>): (r: seq<string>)
    ensures name.None? || name.value !in s ==> r == s
    ensures name.Some? && name.value in s ==> multiset(r) == multiset(s) - multiset{name.value}
  {
    match name
    case None => s
    case Some(x) => RemoveFirst(s, x)
  }

  /** `users.splice(users.indexOf(name), 1)` as written, where the name may
      be unset. */
  function SpliceIndexOf(s: seq<string>, name: Option<string>): (r: seq<string>)
    ensures |s| > 0 ==> |r| == |s| - 1
  {
    SpliceOne(s, IndexOfName(s, name))
  }

  /** Whenever the name is listed, the as-written removal is the intended one. */
  lemma SpliceIndexOfWhenListed(s: seq<string>, x: string)
    requires x in s
    ensures SpliceIndexOf(s, Some(x)) == RemoveName(s, Some(x))
  {
  }

  /** When the name is not listed (or unset) `indexOf` answers -1, and the
      splice removes the LAST name of the list, which belongs to somebody
      else. */
  lemma SpliceIndexOfWhenMissing(s: seq<string>, name: Option<string>)
    requires name.None? || name.value !in s
    requires |s| > 0
    ensures SpliceIndexOf(s, name) == s[..|s| - 1]
    ensures RemoveName(s, name) == s
  {
  }

  /** A concrete instance: a socket that never registered a name
      disconnects while "ann" is the only user, and "ann" is removed. */
  lemma UnregisteredDisconnectEvictsUser()
    ensures SpliceIndexOf(["ann"], None) == []
    ensures RemoveName(["ann"], None) == ["ann"]
  {
  }
}
