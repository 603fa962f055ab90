/** Sequence helpers shared by the row selection and the draft's team list:
    the `filter(y => y !== x)` removal, the include-or-append toggle and the
    index list `items.map((_, i) => i)`. */
module Lists {

  /** No element occurs twice. */
  predicate NoDups<T(==,!new)>(s: seq<T>) {
    forall i, j :: 0 <= i < j < |s| ==> s[i] != s[j]
  }

  /** `s.filter(y => y !== x)`: every occurrence of `x` dropped, the rest kept in order. */
  function Remove<T(==,!new)>(s: seq<T>, x: T): (r: seq<T>)
    ensures x !in r
    ensures forall y :: y != x ==> (y in r <==> y in s)
    ensures |r| <= |s|
    ensures x !in s ==> r == s
  {
    if s == [] then []
    else if s[0] == x then Remove(s[1..], x)
    else [s[0]] + Remove(s[1..], x)
  }

  /** `s.includes(x) ? s.filter(y => y !== x) : [...s, x]`. */
  function Toggle<T(==,!new)>(s: seq<T>, x: T): (r: seq<T>)
    ensures x in r <==> x !in s
    ensures forall y :: y != x ==> (y in r <==> y in s)
    ensures x !in s ==> r == s + [x]
    ensures x in s ==> r == Remove(s, x)
  {
    if x in s then Remove(s, x) else s + [x]
  }

  /** `items.map((_, i) => i)` for `n` items: the indices 0 .. n-1 in order. */
  function Indices(n: nat): (r: seq<int>)
    ensures |r| == n
    ensures forall k :: 0 <= k < n ==> r[k] == k
    ensures forall i :: i in r <==> 0 <= i < n
    ensures NoDups(r)
  {
    var r := seq(n, i => i);
    assert forall k | 0 <= k < n :: r[k] == k;
    assert forall k | 0 <= k < n :: k in r by {
      forall k | 0 <= k < n ensures k in r { assert r[k] == k; }
    }
    r
  }

  lemma NoDupsCons<T(!new)>(x: T, s: seq<T>)
    requires x !in s && NoDups(s)
    ensures NoDups([x] + s)
  {
    var t := [x] + s;
    forall i, j | 0 <= i < j < |t| ensures t[i] != t[j] {
      if i == 0 {
        assert t[j] == s[j - 1];
      } else {
        assert t[i] == s[i - 1] && t[j] == s[j - 1];
      }
    }
  }

  lemma NoDupsTail<T(!new)>(s: seq<T>)
    requires |s| > 0 && NoDups(s)
    ensures s[0] !in s[1..] && NoDups(s[1..])
  {
    forall k | 0 <= k < |s| - 1 ensures s[1..][k] != s[0] {
      assert s[1..][k] == s[k + 1];
    }
    var t := s[1..];
    forall i, j | 0 <= i < j < |t| ensures t[i] != t[j] {
      assert t[i] == s[i + 1] && t[j] == s[j + 1];
    }
  }

  /** Removing keeps a duplicate-free list duplicate-free. */
  lemma {:induction false} RemoveKeepsNoDups<T(!new)>(s: seq<T>, x: T)
    requires NoDups(s)
    ensures NoDups(Remove(s, x))
  {
    if s != [] {
      NoDupsTail(s);
      RemoveKeepsNoDups(s[1..], x);
      if s[0] != x {
        assert Remove(s, x) == [s[0]] + Remove(s[1..], x);
        NoDupsCons(s[0], Remove(s[1..], x));
      }
    }
  }

  /** Removing an element present once shortens the list by exactly one. */
  lemma {:induction false} RemoveLength<T(!new)>(s: seq<T>, x: T)
    requires NoDups(s) && x in s
    ensures |Remove(s, x)| == |s| - 1
  {
    NoDupsTail(s);
    if s[0] == x {
      assert Remove(s, x) == Remove(s[1..], x) == s[1..];
    } else {
      assert x in s[1..];
      RemoveLength(s[1..], x);
    }
  }

  /** Removal distributes over concatenation. */
  lemma {:induction false} RemoveAppend<T(!new)>(a: seq<T>, b: seq<T>, x: T)
    ensures Remove(a + b, x) == Remove(a, x) + Remove(b, x)
  {
    if a == [] {
      assert a + b == b;
    } else {
      assert (a + b)[0] == a[0] && (a + b)[1..] == a[1..] + b;
      RemoveAppend(a[1..], b, x);
    }
  }

  /** Toggling keeps a duplicate-free list duplicate-free, and moves its
      length by exactly one in the direction of the toggle. */
  lemma ToggleKeepsNoDups<T(!new)>(s: seq<T>, x: T)
    requires NoDups(s)
    ensures NoDups(Toggle(s, x))
    ensures |Toggle(s, x)| == if x in s then |s| - 1 else |s| + 1
  {
    if x in s {
      RemoveKeepsNoDups(s, x);
      RemoveLength(s, x);
    } else {
      var t := s + [x];
      forall i, j | 0 <= i < j < |t| ensures t[i] != t[j] {
        if j == |s| {
          assert t[i] == s[i];
        } else {
          assert t[i] == s[i] && t[j] == s[j];
        }
      }
    }
  }

  /** Toggling the same element twice restores the same set of elements;
      when the element was absent it restores the very same list. */
  lemma ToggleTwice<T(!new)>(s: seq<T>, x: T)
    ensures forall y :: y in Toggle(Toggle(s, x), x) <==> y in s
    ensures x !in s ==> Toggle(Toggle(s, x), x) == s
  {
    if x !in s {
      RemoveAppend(s, [x], x);
      assert Remove([x], x) == [];
      assert s + [] == s;
    }
  }
}
