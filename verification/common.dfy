/** Small shared vocabulary: an optional value and the success tally of a batch. */
module Common {

  /** An argument that may be Python's `None`. */
  datatype Option<T> = None | Some(value: T)

  /** `x if x is not None else fallback`: the value given, else the fallback. */
  function IfNone<T>(x: Option<T>, fallback: T): T {
    if x.Some? then x.value else fallback
  }

  function Min(a: int, b: int): int {
    if a <= b then a else b
  }

  /** Number of successful entries in a batch of per-task results,
      i.e. `sum(1 for success, _ in results if success)`. */
  function CountTrue(s: seq<bool>): (n: nat)
    ensures n <= |s|
  {
    if |s| == 0 then 0
    else CountTrue(s[..|s| - 1]) + (if s[|s| - 1] then 1 else 0)
  }

  /** No success iff every result failed; full marks iff every result
      succeeded. */
  lemma {:induction false} CountTrueExtremes(s: seq<bool>)
    ensures CountTrue(s) == 0 <==> forall i :: 0 <= i < |s| ==> !s[i]
    ensures CountTrue(s) == |s| <==> forall i :: 0 <= i < |s| ==> s[i]
  {
    if |s| > 0 {
      var init := s[..|s| - 1];
      CountTrueExtremes(init);
      assert forall i :: 0 <= i < |init| ==> init[i] == s[i];
    }
  }

  /** The tally is the multiplicity of `true` in the batch, so it does not
      depend on the order in which results arrive. */
  lemma {:induction false} CountTrueIsMultiplicity(s: seq<bool>)
    ensures CountTrue(s) == multiset(s)[true]
  {
    if |s| > 0 {
      CountTrueIsMultiplicity(s[..|s| - 1]);
      assert s == s[..|s| - 1] + [s[|s| - 1]];
    }
  }

  /** Results observed in completion order (any permutation of submission
      order) give the same success count. */
  lemma CountTrueOrderFree(s: seq<bool>, t: seq<bool>)
    requires multiset(s) == multiset(t)
    ensures CountTrue(s) == CountTrue(t)
  {
    CountTrueIsMultiplicity(s);
    CountTrueIsMultiplicity(t);
  }

  /** `[g(x) for x in s]`. */
  function MapSeq<A, B>(s: seq<A>, g: A -> B): (r: seq<B>)
    ensures |r| == |s| && forall i :: 0 <= i < |s| ==> r[i] == g(s[i])
  {
    seq(|s|, i requires 0 <= i < |s| => g(s[i]))
  }

  /** Mapping two orderings of the same elements gives two orderings of the
      same images. */
  lemma {:induction false} MapPreservesMultiset<A, B>(s: seq<A>, t: seq<A>, g: A -> B)
    requires multiset(s) == multiset(t)
    ensures multiset(MapSeq(s, g)) == multiset(MapSeq(t, g))
    decreases |s|
  {
    if |s| == 0 {
      assert |t| == |multiset(t)| == 0;
    } else {
      var n := |s| - 1;
      var x := s[n];
      assert s == s[..n] + [x];
      assert x in multiset(t);
      var j :| 0 <= j < |t| && t[j] == x;
      var left, right := t[..j], t[j + 1..];
      assert t == left + [x] + right;
      RemoveMiddle(left, x, right, s[..n]);
      MapPreservesMultiset(s[..n], left + right, g);
      MapSnoc(s[..n], x, g);
      MapMiddle(left, x, right, g);
    }
  }

  /** Taking one `x` out of `left + [x] + right` leaves `left + right`. */
  lemma RemoveMiddle<A>(left: seq<A>, x: A, right: seq<A>, init: seq<A>)
    requires multiset(init + [x]) == multiset(left + [x] + right)
    ensures multiset(init) == multiset(left + right)
  {
    assert multiset(init + [x]) == multiset(init) + multiset{x};
    assert multiset(left + [x] + right) == multiset(left + right) + multiset{x};
    assert multiset(init) == multiset(init + [x]) - multiset{x};
    assert multiset(left + right) == multiset(left + [x] + right) - multiset{x};
  }

  lemma MapSnoc<A, B>(init: seq<A>, x: A, g: A -> B)
    ensures multiset(MapSeq(init + [x], g)) == multiset(MapSeq(init, g)) + multiset{g(x)}
  {
    assert MapSeq(init + [x], g) == MapSeq(init, g) + [g(x)];
  }

  lemma MapMiddle<A, B>(left: seq<A>, x: A, right: seq<A>, g: A -> B)
    ensures multiset(MapSeq(left + [x] + right, g)) == multiset(MapSeq(left + right, g)) + multiset{g(x)}
  {
    var ml, mr := MapSeq(left, g), MapSeq(right, g);
    assert MapSeq(left + [x] + right, g) == ml + [g(x)] + mr;
    assert MapSeq(left + right, g) == ml + mr;
  }
}
