/** The two `java.util.List` operations the core relies on: `indexOf` and `remove(element)`. */
module ListOps {

  /** `list.indexOf(x)`: the position of the first element equal to `x`, or -1. */
  function IndexOf<T(==)>(s: seq<T>, x: T): (r: int)
    ensures r == -1 <==> x !in s
    ensures r != -1 ==> 0 <= r < |s| && s[r] == x && x !in s[..r]
  {
    if s == [] then -1
    else if s[0] == x then 0
    else
      var k := IndexOf(s[1..], x);
      assert s[1..][..if k < 0 then 0 else k] == s[1..if k < 0 then 1 else k + 1];
      if k == -1 then -1 else k + 1
  }

  /** `list.remove(x)`: drops the first element equal to `x`; a list without `x` is unchanged. */
  function RemoveFirst<T(==)>(s: seq<T>, x: T): (r: seq<T>)
    ensures x !in s ==> r == s
    ensures x in s ==> r == s[..IndexOf(s, x)] + s[IndexOf(s, x) + 1..]
  {
    if s == [] then []
    else if s[0] == x then
      assert s[..0] + s[1..] == s[1..];
      s[1..]
    else
      var t := RemoveFirst(s[1..], x);
      RemoveFirstStep(s, x, t);
      [s[0]] + t
  }

  /** Removing from a list whose head is not `x` keeps the head and removes from the tail. */
  lemma RemoveFirstStep<T>(s: seq<T>, x: T, t: seq<T>)
    requires s != [] && s[0] != x
    requires x !in s[1..] ==> t == s[1..]
    requires x in s[1..] ==> t == s[1..][..IndexOf(s[1..], x)] + s[1..][IndexOf(s[1..], x) + 1..]
    ensures x !in s ==> [s[0]] + t == s
    ensures x in s ==> [s[0]] + t == s[..IndexOf(s, x)] + s[IndexOf(s, x) + 1..]
  {
    assert s == [s[0]] + s[1..];
    if x in s[1..] {
      RemoveFirstSplice(s, x);
    }
  }

  lemma RemoveFirstSplice<T>(s: seq<T>, x: T)
    requires s != [] && s[0] != x && x in s[1..]
    ensures IndexOf(s, x) == IndexOf(s[1..], x) + 1
    ensures [s[0]] + (s[1..][..IndexOf(s[1..], x)] + s[1..][IndexOf(s[1..], x) + 1..])
         == s[..IndexOf(s, x)] + s[IndexOf(s, x) + 1..]
  {
    var k := IndexOf(s[1..], x);
    assert IndexOf(s, x) == k + 1;
    var a, b := s[1..][..k], s[1..][k + 1..];
    assert s[..k + 1] == [s[0]] + a;
    assert s[k + 2..] == b;
    assert [s[0]] + (a + b) == ([s[0]] + a) + b;
  }

  /** `remove` takes away exactly one occurrence of a present element. */
  lemma RemoveFirstCount<T>(s: seq<T>, x: T)
    ensures multiset(RemoveFirst(s, x)) == multiset(s) - multiset{x}
  {
    if x in s {
      var k := IndexOf(s, x);
      var a, b := s[..k], s[k + 1..];
      assert s == a + [x] + b;
      assert RemoveFirst(s, x) == a + b;
      var A, B := multiset(a), multiset(b);
      assert multiset(s) == A + multiset{x} + B;
      assert multiset(a + b) == A + B;
      assert (A + multiset{x} + B) - multiset{x} == A + B;
    } else {
      assert multiset(s)[x] == 0;
      assert multiset(s) - multiset{x} == multiset(s);
    }
  }
}
