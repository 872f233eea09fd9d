/** The contract of std::sort; callers know only that the result is an ordered permutation. */
module StdSort {

  ghost predicate Ordered<T>(s: seq<T>, key: T -> int) {
    forall i, j :: 0 <= i <= j < |s| ==> key(s[i]) <= key(s[j])
  }

  method Insert<T>(s: seq<T>, x: T, key: T -> int) returns (r: seq<T>)
    requires Ordered(s, key)
    ensures Ordered(r, key) && multiset(r) == multiset(s) + multiset{x}
  {
    var j := |s|;
    while j > 0 && key(s[j - 1]) > key(x)
      invariant 0 <= j <= |s|
      invariant forall k :: j <= k < |s| ==> key(s[k]) > key(x)
    {
      j := j - 1;
    }
    Inserted(s, x, j, key);
    InsertedAll(s, x, j);
    r := s[..j] + [x] + s[j..];
  }

  lemma InsertedAll<T>(s: seq<T>, x: T, n: nat)
    requires n <= |s|
    ensures multiset(s[..n] + [x] + s[n..]) == multiset(s) + multiset{x}
  {
    assert s == s[..n] + s[n..];
  }

  lemma Inserted<T>(s: seq<T>, x: T, n: nat, key: T -> int)
    requires Ordered(s, key) && n <= |s|
    requires n > 0 ==> key(s[n - 1]) <= key(x)
    requires forall k :: n <= k < |s| ==> key(s[k]) > key(x)
    ensures Ordered(s[..n] + [x] + s[n..], key)
  {
    var r := s[..n] + [x] + s[n..];
    forall i, j | 0 <= i <= j < |r|
      ensures key(r[i]) <= key(r[j])
    {
      assert r[i] == if i < n then s[i] else if i == n then x else s[i - 1];
      assert r[j] == if j < n then s[j] else if j == n then x else s[j - 1];
      assert i < n ==> key(s[i]) <= key(s[n - 1]);
    }
  }

  method Sort<T>(s: seq<T>, key: T -> int) returns (r: seq<T>)
    ensures Ordered(r, key) && multiset(r) == multiset(s)
    ensures |r| == |s|
  {
    r := [];
    for i := 0 to |s|
      invariant Ordered(r, key) && multiset(r) == multiset(s[..i])
    {
      r := Insert(r, s[i], key);
      assert s[..i + 1] == s[..i] + [s[i]];
    }
    assert s[..|s|] == s;
    assert |multiset(r)| == |r| && |multiset(s)| == |s|;
  }
}
