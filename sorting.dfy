/** The ordering step of the list handler: `sorted_posts.sort(key=...,
    reverse=...)` on a copy of the collection. Python's list.sort compares
    the keys with `<` and is stable, also with reverse=True, where each
    comparison is reversed but elements with equal keys keep their original
    order. The specification is SortedBy, a stable insertion sort by a
    string key; SortInPlace performs it on an array. The element type is a
    parameter: the sort looks at an element only through its key. */
module Sorting {
  import opened Text

  /** The allowed values of the lower-cased `direction` query parameter. */
  datatype Direction = Asc | Desc

  /** Key a must come strictly before key b: a < b ascending, b < a descending. */
  predicate Before(d: Direction, a: string, b: string) {
    if d == Asc then Lt(a, b) else Lt(b, a)
  }

  lemma BeforeIrreflexive(d: Direction, a: string)
    ensures !Before(d, a, a)
  {
    LtIrreflexive(a);
  }

  lemma BeforeTransitive(d: Direction, a: string, b: string, c: string)
    requires Before(d, a, b) && Before(d, b, c)
    ensures Before(d, a, c)
  {
    if d == Asc { LtTransitive(a, b, c); } else { LtTransitive(c, b, a); }
  }

  lemma BeforeTrichotomy(d: Direction, a: string, b: string)
    ensures a == b || Before(d, a, b) || Before(d, b, a)
  {
    LtTrichotomy(a, b);
  }

  /** No element is placed after one it must precede: the keys are
      non-decreasing ascending and non-increasing descending. */
  ghost predicate Ordered<T>(s: seq<T>, key: T -> string, d: Direction) {
    forall i, j :: 0 <= i < j < |s| ==> !Before(d, key(s[j]), key(s[i]))
  }

  /** Inserts x into t from the back: x moves left past every element it
      must precede and stops behind the first one it need not, so it lands
      after every element with an equal key. */
  function Insert<T>(t: seq<T>, x: T, key: T -> string, d: Direction): seq<T>
    decreases |t|
  {
    if t == [] || !Before(d, key(x), key(t[|t| - 1])) then t + [x]
    else Insert(t[..|t| - 1], x, key, d) + [t[|t| - 1]]
  }

  /** The stable sort of s: its elements inserted one after another, in order. */
  function SortedBy<T>(s: seq<T>, key: T -> string, d: Direction): seq<T>
    decreases |s|
  {
    if s == [] then [] else Insert(SortedBy(s[..|s| - 1], key, d), s[|s| - 1], key, d)
  }

  /** The one-element case of WithKey. */
  function KeyedAs<T>(y: T, key: T -> string, k: string): seq<T> {
    if key(y) == k then [y] else []
  }

  /** The elements of s whose key is k, in their order in s. A sort is
      stable when it leaves this subsequence the same for every k. */
  function WithKey<T>(s: seq<T>, key: T -> string, k: string): seq<T>
    decreases |s|
  {
    if s == [] then [] else WithKey(s[..|s| - 1], key, k) + KeyedAs(s[|s| - 1], key, k)
  }

  lemma WithKeySnoc<T>(t: seq<T>, y: T, key: T -> string, k: string)
    ensures WithKey(t + [y], key, k) == WithKey(t, key, k) + KeyedAs(y, key, k)
  {
    assert (t + [y])[..|t + [y]| - 1] == t;
  }

  lemma {:induction false} InsertMultiset<T>(t: seq<T>, x: T, key: T -> string, d: Direction)
    ensures multiset(Insert(t, x, key, d)) == multiset(t) + multiset{x}
    decreases |t|
  {
    if t != [] && Before(d, key(x), key(t[|t| - 1])) {
      InsertMultiset(t[..|t| - 1], x, key, d);
      assert t == t[..|t| - 1] + [t[|t| - 1]];
    }
  }

  /** Inserting x adds it to the elements with its key, behind all of them,
      and leaves the elements with any other key as they were: x only moves
      past elements it must strictly precede, which have other keys. */
  lemma {:induction false} InsertWithKey<T>(t: seq<T>, x: T, key: T -> string, d: Direction, k: string)
    ensures WithKey(Insert(t, x, key, d), key, k) == WithKey(t, key, k) + KeyedAs(x, key, k)
    decreases |t|
  {
    if t == [] || !Before(d, key(x), key(t[|t| - 1])) {
      InsertWithKeyStop(t, x, key, d, k);
    } else {
      InsertWithKey(t[..|t| - 1], x, key, d, k);
      InsertWithKeyPass(t, x, key, d, k);
    }
  }

  /** Where x stops, it is appended. */
  lemma InsertWithKeyStop<T>(t: seq<T>, x: T, key: T -> string, d: Direction, k: string)
    requires t == [] || !Before(d, key(x), key(t[|t| - 1]))
    ensures WithKey(Insert(t, x, key, d), key, k) == WithKey(t, key, k) + KeyedAs(x, key, k)
  {
    assert Insert(t, x, key, d) == t + [x];
    WithKeySnoc(t, x, key, k);
  }

  /** Where x moves past the last element, that element has a key other
      than x's, so at most one of the two joins the elements with key k. */
  lemma InsertWithKeyPass<T>(t: seq<T>, x: T, key: T -> string, d: Direction, k: string)
    requires t != [] && Before(d, key(x), key(t[|t| - 1]))
    requires WithKey(Insert(t[..|t| - 1], x, key, d), key, k) == WithKey(t[..|t| - 1], key, k) + KeyedAs(x, key, k)
    ensures WithKey(Insert(t, x, key, d), key, k) == WithKey(t, key, k) + KeyedAs(x, key, k)
  {
    var t', last := t[..|t| - 1], t[|t| - 1];
    var u := Insert(t', x, key, d);
    assert Insert(t, x, key, d) == u + [last];
    assert WithKey(t, key, k) == WithKey(t', key, k) + KeyedAs(last, key, k);
    WithKeySnoc(u, last, key, k);
    BeforeIrreflexive(d, key(x));
    if key(x) == k {
      assert KeyedAs(last, key, k) == [];
    } else {
      assert KeyedAs(x, key, k) == [];
    }
  }

  /** Every element of an ordered t can stand before a y that need not
      precede the last one. */
  lemma NotBeforeLast<T>(t: seq<T>, y: T, key: T -> string, d: Direction, i: int)
    requires Ordered(t, key, d) && t != [] && 0 <= i < |t|
    requires !Before(d, key(y), key(t[|t| - 1]))
    ensures !Before(d, key(y), key(t[i]))
  {
    var ky, ki, kl := key(y), key(t[i]), key(t[|t| - 1]);
    if Before(d, ky, ki) {
      BeforeTrichotomy(d, ki, kl);
      if Before(d, ki, kl) {
        BeforeTransitive(d, ky, ki, kl);
      }
    }
  }

  lemma {:induction false} InsertOrdered<T>(t: seq<T>, x: T, key: T -> string, d: Direction)
    requires Ordered(t, key, d)
    ensures Ordered(Insert(t, x, key, d), key, d)
    decreases |t|
  {
    if t == [] || !Before(d, key(x), key(t[|t| - 1])) {
      var r := t + [x];
      forall i, j | 0 <= i < j < |r|
        ensures !Before(d, key(r[j]), key(r[i]))
      {
        if j == |t| {
          NotBeforeLast(t, x, key, d, i);
        }
      }
    } else {
      var t', last := t[..|t| - 1], t[|t| - 1];
      assert Ordered(t', key, d);
      InsertOrdered(t', x, key, d);
      var u := Insert(t', x, key, d);
      InsertMultiset(t', x, key, d);
      var r := u + [last];
      forall i, j | 0 <= i < j < |r|
        ensures !Before(d, key(r[j]), key(r[i]))
      {
        if j == |u| {
          var e := u[i];
          assert e in multiset(u);
          if e == x {
            if Before(d, key(last), key(x)) {
              BeforeTransitive(d, key(x), key(last), key(x));
              BeforeIrreflexive(d, key(x));
            }
          } else {
            assert e in t';
            var m :| 0 <= m < |t'| && t'[m] == e;
            assert t[m] == e;
          }
        }
      }
    }
  }

  /** The sort never places an element after one it must precede. */
  lemma {:induction false} SortedByOrdered<T>(s: seq<T>, key: T -> string, d: Direction)
    ensures Ordered(SortedBy(s, key, d), key, d)
    decreases |s|
  {
    if s != [] {
      SortedByOrdered(s[..|s| - 1], key, d);
      InsertOrdered(SortedBy(s[..|s| - 1], key, d), s[|s| - 1], key, d);
    }
  }

  /** The sort is a permutation of its input. */
  lemma {:induction false} SortedByPermutes<T>(s: seq<T>, key: T -> string, d: Direction)
    ensures multiset(SortedBy(s, key, d)) == multiset(s)
    decreases |s|
  {
    if s != [] {
      SortedByPermutes(s[..|s| - 1], key, d);
      InsertMultiset(SortedBy(s[..|s| - 1], key, d), s[|s| - 1], key, d);
      assert s == s[..|s| - 1] + [s[|s| - 1]];
    }
  }

  /** The sort is stable: elements with equal keys keep their relative order. */
  lemma {:induction false} SortedByStable<T>(s: seq<T>, key: T -> string, d: Direction, k: string)
    ensures WithKey(SortedBy(s, key, d), key, k) == WithKey(s, key, k)
    decreases |s|
  {
    if s != [] {
      SortedByStable(s[..|s| - 1], key, d, k);
      InsertWithKey(SortedBy(s[..|s| - 1], key, d), s[|s| - 1], key, d, k);
    }
  }

  /** A sequence that is already in order is left as it is. */
  lemma {:induction false} SortedByOfOrdered<T>(s: seq<T>, key: T -> string, d: Direction)
    requires Ordered(s, key, d)
    ensures SortedBy(s, key, d) == s
    decreases |s|
  {
    if s != [] {
      var s', last := s[..|s| - 1], s[|s| - 1];
      assert Ordered(s', key, d) by {
        forall i, j | 0 <= i < j < |s'|
          ensures !Before(d, key(s'[j]), key(s'[i]))
        {
          assert s'[i] == s[i] && s'[j] == s[j];
        }
      }
      SortedByOfOrdered(s', key, d);
      assert SortedBy(s, key, d) == Insert(s', last, key, d);
      if s' != [] {
        assert s'[|s'| - 1] == s[|s| - 2];
        assert !Before(d, key(last), key(s'[|s'| - 1]));
      }
      assert Insert(s', last, key, d) == s' + [last];
      assert s == s' + [last];
    }
  }

  /** Insert places x at the position j that has no element x need not
      precede right before it and only elements x must precede after it. */
  lemma {:induction false} InsertAt<T>(t: seq<T>, x: T, key: T -> string, d: Direction, j: int)
    requires 0 <= j <= |t|
    requires forall k :: j <= k < |t| ==> Before(d, key(x), key(t[k]))
    requires j == 0 || !Before(d, key(x), key(t[j - 1]))
    ensures Insert(t, x, key, d) == t[..j] + [x] + t[j..]
    decreases |t|
  {
    if j < |t| {
      var t' := t[..|t| - 1];
      assert forall k :: j <= k < |t'| ==> t'[k] == t[k];
      InsertAt(t', x, key, d, j);
      assert t'[..j] == t[..j];
      assert t[j..] == t'[j..] + [t[|t| - 1]];
    } else {
      assert t[..j] == t;
    }
  }

  /** One step of the sort: the elements of a[..i] that a[i] must strictly
      precede are shifted one place right, and a[i] is written into the gap
      at position j. */
  method InsertInPlace<T>(a: array<T>, i: int, key: T -> string, d: Direction) returns (j: int)
    requires 0 <= i < a.Length
    modifies a
    ensures 0 <= j <= i
    ensures a[..i + 1] == old(a[..i])[..j] + [old(a[i])] + old(a[..i])[j..]
    ensures forall k :: i < k < a.Length ==> a[k] == old(a[k])
    ensures forall k :: j <= k < i ==> Before(d, key(old(a[i])), key(old(a[..i])[k]))
    ensures j == 0 || !Before(d, key(old(a[i])), key(old(a[..i])[j - 1]))
  {
    var x := a[i];
    ghost var s := a[..];
    j := i;
    while j > 0 && Before(d, key(x), key(a[j - 1]))
      invariant 0 <= j <= i
      invariant forall k :: 0 <= k < j ==> a[k] == s[k]
      invariant forall k :: j < k <= i ==> a[k] == s[k - 1]
      invariant forall k :: i < k < a.Length ==> a[k] == s[k]
      invariant forall k :: j <= k < i ==> Before(d, key(x), key(s[k]))
    {
      a[j] := a[j - 1];
      j := j - 1;
    }
    a[j] := x;
    assert a[..i + 1] == s[..i][..j] + [x] + s[..i][j..];
  }

  /** Sorting one more element of s inserts it into the sorted prefix. */
  lemma SortedByPrefix<T>(s: seq<T>, key: T -> string, d: Direction, i: int)
    requires 0 <= i < |s|
    ensures SortedBy(s[..i + 1], key, d) == Insert(SortedBy(s[..i], key, d), s[i], key, d)
  {
    assert s[..i + 1][..i] == s[..i];
  }

  /** Sorts a in place into SortedBy of its old contents, inserting each
      element in turn into the sorted prefix before it. */
  method SortInPlace<T>(a: array<T>, key: T -> string, d: Direction)
    modifies a
    ensures a[..] == SortedBy(old(a[..]), key, d)
  {
    ghost var s := a[..];
    var i := 0;
    while i < a.Length
      invariant 0 <= i <= a.Length
      invariant a[..i] == SortedBy(s[..i], key, d)
      invariant forall k :: i <= k < a.Length ==> a[k] == s[k]
    {
      ghost var sorted := a[..i];
      var j := InsertInPlace(a, i, key, d);
      InsertAt(sorted, s[i], key, d, j);
      SortedByPrefix(s, key, d, i);
      assert a[..i + 1] == SortedBy(s[..i + 1], key, d);
      i := i + 1;
    }
    assert a[..] == a[..a.Length];
    assert s == s[..a.Length];
  }
}
