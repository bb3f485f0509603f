/** Sums of multisets over a set.

    The entities of an intent are sets and maps, and each element is counted as one or more table
    entries. What an intent counts in total is a sum over the set, in whatever order the set is
    iterated, so the sum has to be independent of the order. The lemmas below say that it is, that
    families which agree element by element have equal sums, and what a sum counts for one entry.

    This is a tool of the model; nothing in the program corresponds to it. */
module Gathering {
  /** `order` lists each element of `items` once; it stands for the order in which a map was iterated. */
  ghost predicate Enumerates<A(!new)>(order: seq<A>, items: set<A>) {
    && (forall i, j :: 0 <= i < j < |order| ==> order[i] != order[j])
    && (forall x :: x in order <==> x in items)
  }

  lemma EnumeratesMore<A(!new)>(order: seq<A>, items: set<A>, x: A)
    requires Enumerates(order, items) && x !in items
    ensures Enumerates(order + [x], items + {x})
  {
  }

  lemma EnumeratesLess<A(!new)>(order: seq<A>, items: set<A>)
    requires Enumerates(order, items) && order != []
    ensures var x := order[|order| - 1];
      x in items && Enumerates(order[..|order| - 1], items - {x})
  {
  }

  ghost function Gather<A(!new), R>(items: set<A>, f: A -> multiset<R>): multiset<R> {
    if items == {} then multiset{}
    else
      var x :| x in items;
      f(x) + Gather(items - {x}, f)
  }

  /** The element taken first does not matter. */
  lemma {:induction false} GatherStep<A(!new), R>(items: set<A>, f: A -> multiset<R>, x: A)
    requires x in items
    ensures Gather(items, f) == f(x) + Gather(items - {x}, f)
    decreases items
  {
    var y :| y in items && Gather(items, f) == f(y) + Gather(items - {y}, f);
    if y == x {
    } else {
      GatherStep(items - {y}, f, x);
      GatherStep(items - {x}, f, y);
      assert items - {y} - {x} == items - {x} - {y};
    }
  }

  ghost function Part<A(!new), R>(items: set<A>, f: A -> multiset<R>, x: A): multiset<R> {
    if x in items then f(x) else multiset{}
  }

  lemma GatherPart<A(!new), R>(items: set<A>, f: A -> multiset<R>, x: A)
    ensures Gather(items, f) == Part(items, f, x) + Gather(items - {x}, f)
  {
    if x in items {
      GatherStep(items, f, x);
    } else {
      assert items - {x} == items;
    }
  }

  lemma AddUp<R>(pa: multiset<R>, ga: multiset<R>, pb: multiset<R>, gb: multiset<R>,
                 pc: multiset<R>, gc: multiset<R>, pd: multiset<R>, gd: multiset<R>)
    requires pa + pb == pc + pd && ga + gb == gc + gd
    ensures (pa + ga) + (pb + gb) == (pc + gc) + (pd + gd)
  {
    assert (pa + ga) + (pb + gb) == (pa + pb) + (ga + gb);
    assert (pc + gc) + (pd + gd) == (pc + pd) + (gc + gd);
  }

  ghost predicate AgreeAt<A(!new), R(!new)>(
    a: set<A>, fa: A -> multiset<R>, b: set<A>, fb: A -> multiset<R>,
    c: set<A>, fc: A -> multiset<R>, d: set<A>, fd: A -> multiset<R>, x: A)
  {
    Part(a, fa, x) + Part(b, fb, x) == Part(c, fc, x) + Part(d, fd, x)
  }

  /** If two pairs of families agree at every element, their sums agree. */
  lemma {:induction false} GatherExchange<A(!new), R(!new)>(
    a: set<A>, fa: A -> multiset<R>, b: set<A>, fb: A -> multiset<R>,
    c: set<A>, fc: A -> multiset<R>, d: set<A>, fd: A -> multiset<R>)
    requires forall x :: AgreeAt(a, fa, b, fb, c, fc, d, fd, x)
    ensures Gather(a, fa) + Gather(b, fb) == Gather(c, fc) + Gather(d, fd)
    decreases a + b + c + d
  {
    var all := a + b + c + d;
    if all == {} {
    } else {
      var x :| x in all;
      var a', b', c', d' := a - {x}, b - {x}, c - {x}, d - {x};
      forall y ensures AgreeAt(a', fa, b', fb, c', fc, d', fd, y) {
        assert AgreeAt(a, fa, b, fb, c, fc, d, fd, y);
      }
      assert a' + b' + c' + d' == all - {x};
      GatherExchange(a', fa, b', fb, c', fc, d', fd);
      GatherPart(a, fa, x);
      GatherPart(b, fb, x);
      GatherPart(c, fc, x);
      GatherPart(d, fd, x);
      assert AgreeAt(a, fa, b, fb, c, fc, d, fd, x);
      AddUp(Part(a, fa, x), Gather(a', fa), Part(b, fb, x), Gather(b', fb),
            Part(c, fc, x), Gather(c', fc), Part(d, fd, x), Gather(d', fd));
    }
  }

  lemma GatherUnion<A(!new), R(!new)>(a: set<A>, b: set<A>, f: A -> multiset<R>)
    requires a !! b
    ensures Gather(a + b, f) == Gather(a, f) + Gather(b, f)
  {
    forall x ensures AgreeAt(a + b, f, {}, f, a, f, b, f, x) {
    }
    GatherExchange(a + b, f, {}, f, a, f, b, f);
  }

  lemma {:induction false} GatherSame<A(!new), R>(items: set<A>, f: A -> multiset<R>, g: A -> multiset<R>)
    requires forall x :: x in items ==> f(x) == g(x)
    ensures Gather(items, f) == Gather(items, g)
    decreases items
  {
    if items == {} {
    } else {
      var y :| y in items;
      GatherStep(items, f, y);
      GatherStep(items, g, y);
      GatherSame(items - {y}, f, g);
    }
  }

  /** Where only one element can contribute `r`, the sum counts what it contributes. */
  lemma {:induction false} GatherOnly<A(!new), R>(items: set<A>, f: A -> multiset<R>, x: A, r: R)
    requires forall y :: y in items && y != x ==> f(y)[r] == 0
    ensures Gather(items, f)[r] == if x in items then f(x)[r] else 0
    decreases items
  {
    if items == {} {
    } else {
      var y :| y in items;
      GatherStep(items, f, y);
      GatherOnly(items - {y}, f, x, r);
    }
  }

  /** An element of the sum comes from some item. */
  lemma {:induction false} GatherMember<A(!new), R>(items: set<A>, f: A -> multiset<R>, r: R)
    ensures r in Gather(items, f) <==> exists x :: x in items && r in f(x)
    decreases items
  {
    if items == {} {
    } else {
      var y :| y in items;
      GatherStep(items, f, y);
      GatherMember(items - {y}, f, r);
    }
  }
}
