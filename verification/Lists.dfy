/** The kernel's folio lists as sequences: removal of a node, and the facts about
    membership and length that the eviction policies need. */
module Lists {

  /** The list l with every occurrence of x removed. */
  function Without<T(==,!new)>(l: seq<T>, x: T): (r: seq<T>)
    ensures forall y :: y in r <==> y in l && y != x
    ensures |r| <= |l|
  {
    if l == [] then []
    else if l[0] == x then Without(l[1..], x)
    else [l[0]] + Without(l[1..], x)
  }

  ghost predicate NoDup<T>(l: seq<T>) {
    forall i, j :: 0 <= i < j < |l| ==> l[i] != l[j]
  }

  /** order shows every node of the list once. */
  ghost predicate Covers<T(!new)>(order: seq<T>, l: seq<T>) {
    NoDup(order) && forall x :: x in order <==> x in l
  }

  ghost function Elems<T>(l: seq<T>): set<T> {
    set x | x in l
  }

  /** A kernel list holds a node once, so removing a node shortens it by exactly one. */
  lemma {:induction false} WithoutNoDup<T(!new)>(l: seq<T>, x: T)
    requires NoDup(l)
    ensures NoDup(Without(l, x))
    ensures |Without(l, x)| == (if x in l then |l| - 1 else |l|)
  {
    if l != [] {
      var tail := l[1..];
      assert forall i :: 0 <= i < |tail| ==> tail[i] == l[i + 1];
      WithoutNoDup(tail, x);
      if l[0] == x {
        assert x !in tail;
      } else {
        var r := Without(tail, x);
        assert l[0] !in tail;
        assert l[0] !in r;
      }
    }
  }

  lemma SplitLast<T(!new)>(l: seq<T>)
    requires NoDup(l) && l != []
    ensures var n := |l| - 1;
            && NoDup(l[..n]) && l[n] !in l[..n] && forall x :: x in l <==> x in l[..n] || x == l[n]
  {
    assert l == l[..|l| - 1] + [l[|l| - 1]];
  }

  lemma AppendNoDup<T>(l: seq<T>, x: T)
    requires NoDup(l) && x !in l
    ensures NoDup(l + [x])
  {
  }

  /** The length of a duplicate-free list is the size of its element set. */
  lemma {:induction false} ElemsSize<T>(l: seq<T>)
    requires NoDup(l)
    ensures |Elems(l)| == |l|
  {
    if l != [] {
      var tail := l[1..];
      assert forall i :: 0 <= i < |tail| ==> tail[i] == l[i + 1];
      ElemsSize(tail);
      assert l[0] !in Elems(tail);
      assert Elems(l) == {l[0]} + Elems(tail);
    }
  }

  lemma SubsetSize<T>(a: set<T>, b: set<T>)
    requires a <= b
    ensures |a| <= |b|
  {
    assert b == a + (b - a);
  }

  // ---------------------------------------------------------------- order

  /** The elements of l that are in c, in the order of l. */
  ghost function Only<T(!new)>(l: seq<T>, c: set<T>): (r: seq<T>)
    ensures forall x :: x in r <==> x in l && x in c
  {
    if l == [] then []
    else
      var n := |l| - 1;
      if l[n] in c then Only(l[..n], c) + [l[n]] else Only(l[..n], c)
  }

  /** The elements of l that are not in c, in the order of l. */
  ghost function Except<T(!new)>(l: seq<T>, c: set<T>): (r: seq<T>)
    ensures forall x :: x in r <==> x in l && x !in c
  {
    if l == [] then []
    else
      var n := |l| - 1;
      if l[n] in c then Except(l[..n], c) else Except(l[..n], c) + [l[n]]
  }

  lemma OnlyMore<T(!new)>(l: seq<T>, x: T, c: set<T>)
    ensures Only(l + [x], c) == if x in c then Only(l, c) + [x] else Only(l, c)
    ensures Except(l + [x], c) == if x in c then Except(l, c) else Except(l, c) + [x]
  {
    assert (l + [x])[..|l|] == l;
  }

  lemma {:induction false} WithoutConcat<T(!new)>(a: seq<T>, b: seq<T>, x: T)
    ensures Without(a + b, x) == Without(a, x) + Without(b, x)
  {
    if a == [] {
      assert a + b == b;
    } else {
      assert (a + b)[1..] == a[1..] + b;
      WithoutConcat(a[1..], b, x);
    }
  }

  lemma {:induction false} WithoutAbsent<T(!new)>(l: seq<T>, x: T)
    requires x !in l
    ensures Without(l, x) == l
  {
    if l != [] {
      WithoutAbsent(l[1..], x);
    }
  }

  lemma {:induction false} WithoutExcept<T(!new)>(l: seq<T>, c: set<T>, x: T)
    ensures Without(Except(l, c), x) == Except(l, c + {x})
  {
    if l != [] {
      var n := |l| - 1;
      WithoutExcept(l[..n], c, x);
      if l[n] !in c {
        WithoutConcat(Except(l[..n], c), [l[n]], x);
        assert Without([l[n]], x) == if l[n] == x then [] else [l[n]];
      }
    }
  }

  lemma {:induction false} ExceptNone<T(!new)>(l: seq<T>)
    ensures Except(l, {}) == l
  {
    if l != [] {
      ExceptNone(l[..|l| - 1]);
      assert l == l[..|l| - 1] + [l[|l| - 1]];
    }
  }

  /** Taking x, which is not among the kept ones, off a list of leftovers and kept ones. */
  lemma TakeOff<T(!new)>(l: seq<T>, c: set<T>, kept: seq<T>, x: T)
    requires x !in kept
    ensures Without(Except(l, c) + kept, x) == Except(l, c + {x}) + kept
  {
    WithoutConcat(Except(l, c), kept, x);
    WithoutExcept(l, c, x);
    WithoutAbsent(kept, x);
  }

  lemma ElemsMore<T>(l: seq<T>, x: T)
    ensures Elems(l + [x]) == Elems(l) + {x}
  {
  }

  /** One node x more was shown of list l: in c it goes behind the leftovers and the kept ones, and
      otherwise behind what went to another list. */
  lemma OneShown<T(!new)>(l: seq<T>, other: seq<T>, order: seq<T>, x: T, c: set<T>)
    requires x !in order
    ensures var rest := Without(Except(l, Elems(order)) + Only(order, c), x);
            var all := order + [x];
            Except(l, Elems(all)) + Only(all, c) == if x in c then rest + [x] else rest
    ensures other + Except(order + [x], c)
         == if x in c then other + Except(order, c) else other + Except(order, c) + [x]
    ensures other + Only(order + [x], c)
         == if x in c then other + Only(order, c) + [x] else other + Only(order, c)
  {
    hide Without, Only, Except, Elems;
    TakeOff(l, Elems(order), Only(order, c), x);
    ElemsMore(order, x);
    OnlyMore(order, x, c);
    var front := Except(l, Elems(order + [x]));
    assert front + Only(order, c) + [x] == front + (Only(order, c) + [x]);
    assert other + Except(order, c) + [x] == other + (Except(order, c) + [x]);
    assert other + Only(order, c) + [x] == other + (Only(order, c) + [x]);
  }
}
