/** Counting the elements of a sequence that have a property. */
module Counting {

  function One(b: bool): nat { if b then 1 else 0 }

  function Count<T>(s: seq<T>, p: T -> bool): nat {
    if s == [] then 0 else One(p(s[0])) + Count(s[1..], p)
  }

  lemma {:induction false} CountAppend<T>(a: seq<T>, b: seq<T>, p: T -> bool)
    ensures Count(a + b, p) == Count(a, p) + Count(b, p)
  {
    if a == [] {
      assert a + b == b;
    } else {
      assert (a + b)[1..] == a[1..] + b;
      CountAppend(a[1..], b, p);
    }
  }

  lemma CountOne<T>(x: T, p: T -> bool)
    ensures Count([x], p) == One(p(x))
  {
    assert [x][1..] == [];
  }

  lemma CountSnoc<T>(s: seq<T>, x: T, p: T -> bool)
    ensures Count(s + [x], p) == Count(s, p) + One(p(x))
  {
    CountAppend(s, [x], p);
    CountOne(x, p);
  }

  function Without<T>(s: seq<T>, i: nat): seq<T>
    requires i < |s|
  {
    s[..i] + s[i + 1..]
  }

  lemma CountWithout<T>(s: seq<T>, i: nat, p: T -> bool)
    requires i < |s|
    ensures Count(s, p) == Count(Without(s, i), p) + One(p(s[i]))
  {
    SplitAround(s, i);
    CountAround(s[..i], s[i], s[i + 1..], p);
  }

  lemma SplitAround<T>(s: seq<T>, i: nat)
    requires i < |s|
    ensures s == s[..i] + ([s[i]] + s[i + 1..])
  {
  }

  lemma CountAround<T>(a: seq<T>, x: T, b: seq<T>, p: T -> bool)
    ensures Count(a + ([x] + b), p) == Count(a + b, p) + One(p(x))
  {
    CountAppend(a, [x] + b, p);
    CountAppend([x], b, p);
    CountOne(x, p);
    CountAppend(a, b, p);
  }

  lemma CountUpdate<T>(s: seq<T>, i: nat, x: T, p: T -> bool)
    requires i < |s|
    ensures Count(s[i := x], p) == Count(s, p) - One(p(s[i])) + One(p(x))
  {
    CountWithout(s, i, p);
    CountWithout(s[i := x], i, p);
    assert Without(s[i := x], i) == Without(s, i);
  }

  lemma {:induction false} CountPositive<T>(s: seq<T>, i: nat, p: T -> bool)
    requires i < |s| && p(s[i])
    ensures Count(s, p) >= 1
  {
    CountWithout(s, i, p);
  }

  lemma {:induction false} CountZero<T>(s: seq<T>, p: T -> bool)
    requires Count(s, p) == 0
    ensures forall x | x in s :: !p(x)
  {
    if s != [] {
      CountZero(s[1..], p);
      assert s == [s[0]] + s[1..];
    }
  }
}
