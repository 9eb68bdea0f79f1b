/** Facts about finite sequences shared by the models. */
module Sequences {

  /** `s` with the element at index `i` taken out. */
  function Without<T>(s: seq<T>, i: nat): (r: seq<T>)
    requires i < |s|
  {
    s[..i] + s[i + 1..]
  }

  /** `s` without its first occurrence of `x`. */
  function Remove<T(==)>(s: seq<T>, x: T): (r: seq<T>)
  {
    if s == [] then [] else if s[0] == x then s[1..] else [s[0]] + Remove(s[1..], x)
  }

  lemma {:induction false} RemoveLength<T>(s: seq<T>, x: T)
    ensures x in s ==> |Remove(s, x)| == |s| - 1
    ensures x !in s ==> Remove(s, x) == s
  {
    if s != [] {
      RemoveLength(s[1..], x);
    }
  }

  lemma {:induction false} RemoveMultiset<T>(s: seq<T>, x: T)
    requires x in s
    ensures multiset(Remove(s, x)) == multiset(s) - multiset{x}
  {
    assert s == [s[0]] + s[1..];
    if s[0] != x {
      RemoveMultiset(s[1..], x);
    }
  }

  /** `a` comes before `b` in `s`. */
  ghost predicate Before<T>(s: seq<T>, a: T, b: T) {
    exists i, j | 0 <= i < j < |s| :: s[i] == a && s[j] == b
  }

  /** Taking another element out does not change who comes before whom. */
  lemma {:induction false} BeforeAfterRemove<T>(s: seq<T>, x: T, a: T, b: T)
    requires Before(s, a, b) && x != a && x != b
    ensures Before(Remove(s, x), a, b)
  {
    var i, j :| 0 <= i < j < |s| && s[i] == a && s[j] == b;
    if s[0] == x {
      assert s[1..][i - 1] == a && s[1..][j - 1] == b;
    } else {
      var rest := Remove(s[1..], x);
      if i > 0 {
        assert s[1..][i - 1] == a && s[1..][j - 1] == b;
        BeforeAfterRemove(s[1..], x, a, b);
        var k, l :| 0 <= k < l < |rest| && rest[k] == a && rest[l] == b;
        assert ([s[0]] + rest)[k + 1] == a && ([s[0]] + rest)[l + 1] == b;
      } else {
        assert s[1..][j - 1] == b;
        RemoveKeepsOthers(s[1..], x, b);
        var l :| 0 <= l < |rest| && rest[l] == b;
        assert ([s[0]] + rest)[0] == a && ([s[0]] + rest)[l + 1] == b;
      }
    }
  }

  lemma {:induction false} RemoveKeepsOthers<T>(s: seq<T>, x: T, y: T)
    requires y in s && x != y
    ensures y in Remove(s, x)
  {
    if s[0] != x && s[0] != y {
      RemoveKeepsOthers(s[1..], x, y);
    }
  }

  lemma Associate<T>(a: seq<T>, b: seq<T>, c: seq<T>)
    ensures a + (b + c) == (a + b) + c
  {
  }

  lemma MinusFromPart<T>(a: multiset<T>, b: multiset<T>, x: T)
    requires x in a
    ensures (a - multiset{x}) + b == (a + b) - multiset{x}
    ensures b + (a - multiset{x}) == (b + a) - multiset{x}
  {
  }

  /** How many positions before `i` are chosen. */
  function Rank(chosen: seq<bool>, i: nat): nat
    requires i <= |chosen|
  {
    if i == 0 then 0 else (if chosen[0] then 1 else 0) + Rank(chosen[1..], i - 1)
  }

  /** Choosing by a property: the rank is the number of elements before `i` that have it. */
  lemma {:induction false} RankIsCount<T>(s: seq<T>, chosen: seq<bool>, f: T -> bool, i: nat)
    requires |chosen| == |s| && i <= |s| && forall k | 0 <= k < |s| :: chosen[k] == f(s[k])
    ensures Rank(chosen, i) == Count(s[..i], f)
    decreases i
  {
    if i > 0 {
      RankIsCount(s[1..], chosen[1..], f, i - 1);
      assert s[..i][1..] == s[1..][..i - 1];
    }
  }

  lemma {:induction false} CountComplement<T>(s: seq<T>, f: T -> bool, g: T -> bool)
    requires forall i | 0 <= i < |s| :: f(s[i]) != g(s[i])
    ensures Count(s, f) + Count(s, g) == |s|
  {
    if s != [] {
      CountComplement(s[1..], f, g);
    }
  }

  /** Moving the first element of `w` to the end of `v`. */
  lemma ShiftOne<T>(v: seq<T>, w: seq<T>, k: nat)
    requires 0 < k <= |w|
    ensures w[1..][k - 1..] == w[k..] && (v + [w[0]]) + w[1..][..k - 1] == v + w[..k]
  {
  }

  /** How many elements of `s` satisfy `f`. */
  function Count<T>(s: seq<T>, f: T -> bool): nat {
    if s == [] then 0 else (if f(s[0]) then 1 else 0) + Count(s[1..], f)
  }

  lemma {:induction false} CountAppend<T>(a: seq<T>, b: seq<T>, f: T -> bool)
    ensures Count(a + b, f) == Count(a, f) + Count(b, f)
  {
    if a == [] {
      assert a + b == b;
    } else {
      assert (a + b)[1..] == a[1..] + b;
      CountAppend(a[1..], b, f);
    }
  }

  lemma CountSnoc<T>(s: seq<T>, x: T, f: T -> bool)
    ensures Count(s + [x], f) == Count(s, f) + if f(x) then 1 else 0
  {
    CountAppend(s, [x], f);
    assert [x][1..] == [];
  }

  lemma {:induction false} CountWithout<T>(s: seq<T>, i: nat, f: T -> bool)
    requires i < |s|
    ensures Count(s, f) == Count(Without(s, i), f) + if f(s[i]) then 1 else 0
    decreases i
  {
    if i == 0 {
      assert Without(s, i) == s[1..];
    } else {
      assert Without(s, i)[1..] == Without(s[1..], i - 1);
      CountWithout(s[1..], i - 1, f);
    }
  }

  lemma CountUpdate<T>(s: seq<T>, i: nat, x: T, f: T -> bool)
    requires i < |s|
    ensures Count(s[i := x], f) + (if f(s[i]) then 1 else 0) == Count(s, f) + if f(x) then 1 else 0
  {
    CountWithout(s, i, f);
    CountWithout(s[i := x], i, f);
    assert Without(s[i := x], i) == Without(s, i);
  }

  /** Element-wise equivalent sequences have the same count. */
  lemma {:induction false} CountSame<S, T>(a: seq<S>, f: S -> bool, b: seq<T>, g: T -> bool)
    requires |a| == |b| && forall i | 0 <= i < |a| :: f(a[i]) == g(b[i])
    ensures Count(a, f) == Count(b, g)
  {
    if a != [] {
      CountSame(a[1..], f, b[1..], g);
    }
  }

  lemma {:induction false} CountNone<T>(s: seq<T>, f: T -> bool)
    requires forall i | 0 <= i < |s| :: !f(s[i])
    ensures Count(s, f) == 0
  {
    if s != [] {
      CountNone(s[1..], f);
    }
  }

  lemma CountTwo<T>(s: seq<T>, i: nat, j: nat, f: T -> bool)
    requires i < j < |s| && f(s[i]) && f(s[j])
    ensures Count(s, f) >= 2
  {
    CountWithout(s, j, f);
    CountWithout(Without(s, j), i, f);
  }
}
