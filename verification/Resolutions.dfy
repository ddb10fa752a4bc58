/** The running maximum that both resolution queries keep. Sizes are only partially ordered,
    so what the loop returns is not always what its name says. */
module Resolutions {

  datatype Size = Size(width: nat, height: nat)

  const NOTHING := Size(0, 0)

  /** At least as large in both dimensions. */
  predicate Covers(a: Size, b: Size)
  {
    a.width >= b.width && a.height >= b.height
  }

  /** The size kept after each candidate has replaced the one before it if it covers it. */
  function Keep(best: Size, candidates: seq<Size>): (r: Size)
    ensures Covers(r, best)
    ensures r == best || r in candidates
    decreases candidates
  {
    if candidates == [] then best
    else Keep(if Covers(candidates[0], best) then candidates[0] else best, candidates[1..])
  }

  function Best(candidates: seq<Size>): Size
  {
    Keep(NOTHING, candidates)
  }

  predicate Dominates(d: Size, candidates: seq<Size>)
  {
    d in candidates && forall c :: c in candidates ==> Covers(d, c)
  }

  ghost predicate HasDominating(candidates: seq<Size>)
  {
    exists d :: Dominates(d, candidates)
  }

  predicate SomeCovers(candidates: seq<Size>, bound: Size)
  {
    exists c :: c in candidates && Covers(c, bound)
  }

  lemma {:induction false} KeepAppend(best: Size, a: seq<Size>, c: Size)
    ensures Keep(best, a + [c]) == if Covers(c, Keep(best, a)) then c else Keep(best, a)
    decreases a
  {
    if a == [] {
      assert a + [c] == [c];
    } else {
      assert (a + [c])[1..] == a[1..] + [c];
      KeepAppend(if Covers(a[0], best) then a[0] else best, a[1..], c);
    }
  }

  /** Nothing that covers the result was passed over: what a candidate lost against stays
      below the result. */
  lemma {:induction false} KeepIsMaximal(best: Size, candidates: seq<Size>, c: Size)
    requires c in candidates && Covers(c, Keep(best, candidates))
    ensures c == Keep(best, candidates)
    decreases candidates
  {
    var next := if Covers(candidates[0], best) then candidates[0] else best;
    if c != candidates[0] {
      KeepIsMaximal(next, candidates[1..], c);
    }
  }

  /** The result is one of the candidates, and no other candidate is as large in both
      dimensions. */
  lemma BestIsMaximal(candidates: seq<Size>)
    ensures candidates != [] ==> Best(candidates) in candidates
    ensures forall c :: c in candidates && Covers(c, Best(candidates)) ==> c == Best(candidates)
  {
    forall c | c in candidates && Covers(c, Best(candidates))
      ensures c == Best(candidates)
    {
      KeepIsMaximal(NOTHING, candidates, c);
    }
    if candidates != [] {
      FirstIsKept(candidates);
    }
  }

  lemma FirstIsKept(candidates: seq<Size>)
    requires candidates != []
    ensures Best(candidates) == Keep(candidates[0], candidates[1..]) && Covers(Best(candidates), candidates[0])
    ensures Best(candidates) in candidates
  {
  }

  lemma DominatingIsBest(candidates: seq<Size>, d: Size)
    requires Dominates(d, candidates)
    ensures Best(candidates) == d
  {
    BestIsMaximal(candidates);
  }

  ghost predicate Positive(candidates: seq<Size>)
  {
    forall c :: c in candidates ==> c.width > 0 && c.height > 0
  }

  /** Whatever bound the result meets, some candidate meets. */
  lemma TestIsSound(candidates: seq<Size>, bound: Size)
    requires bound.width > 0 || bound.height > 0
    ensures Covers(Best(candidates), bound) ==> SomeCovers(candidates, bound)
  {
    BestIsMaximal(candidates);
  }

  /** Testing the result against a bound finds out whether some candidate meets it, for every
      bound, iff one candidate dominates the others (or there is none). */
  lemma TestIsExactIff(candidates: seq<Size>)
    requires Positive(candidates)
    ensures (forall bound: Size :: bound.width > 0 && bound.height > 0 ==>
               (Covers(Best(candidates), bound) <==> SomeCovers(candidates, bound)))
            <==> candidates == [] || HasDominating(candidates)
  {
    BestIsMaximal(candidates);
    var best := Best(candidates);
    if HasDominating(candidates) {
      var d :| Dominates(d, candidates);
      DominatingIsBest(candidates, d);
      forall bound: Size | bound.width > 0 && bound.height > 0
        ensures Covers(best, bound) <==> SomeCovers(candidates, bound)
      {
        TestIsSound(candidates, bound);
      }
    } else if candidates != [] {
      var c :| c in candidates && !Covers(best, c) by {
        assert !Dominates(best, candidates);
      }
      assert Covers(c, c) && SomeCovers(candidates, c);
    }
  }

  ghost predicate SameInEveryOrder(candidates: seq<Size>)
  {
    forall other: seq<Size> :: multiset(other) == multiset(candidates) ==> Best(other) == Best(candidates)
  }

  lemma SameMembers(a: seq<Size>, b: seq<Size>, c: Size)
    requires multiset(a) == multiset(b)
    ensures c in a <==> c in b
  {
    assert c in a <==> c in multiset(a);
    assert c in b <==> c in multiset(b);
  }

  /** The order of the enumeration is of no consequence iff one candidate dominates. */
  lemma OrderIrrelevantIff(candidates: seq<Size>)
    ensures SameInEveryOrder(candidates) <==> candidates == [] || HasDominating(candidates)
  {
    if HasDominating(candidates) {
      var d :| Dominates(d, candidates);
      DominatingIsBest(candidates, d);
      forall other: seq<Size> | multiset(other) == multiset(candidates)
        ensures Best(other) == Best(candidates)
      {
        forall c ensures c in other <==> c in candidates { SameMembers(other, candidates, c); }
        DominatingIsBest(other, d);
      }
    } else if candidates == [] {
      forall other: seq<Size> | multiset(other) == multiset(candidates)
        ensures Best(other) == Best(candidates)
      {
        assert |other| == |multiset(other)|;
      }
    } else {
      OrderMatters(candidates);
    }
  }

  /** The candidate that the result does not cover, enumerated first, would have stayed
      covered. */
  lemma OrderMatters(candidates: seq<Size>)
    requires candidates != [] && !HasDominating(candidates)
    ensures !SameInEveryOrder(candidates)
  {
    BestIsMaximal(candidates);
    assert !Dominates(Best(candidates), candidates);
    var i :| 0 <= i < |candidates| && !Covers(Best(candidates), candidates[i]);
    var other := [candidates[i]] + (candidates[..i] + candidates[i + 1..]);
    assert candidates == candidates[..i] + [candidates[i]] + candidates[i + 1..];
    assert multiset(other) == multiset(candidates);
    FirstIsKept(other);
  }

  const WIDE := Size(8192, 1080)
  const UHD := Size(3840, 2160)

  /** A 4k candidate that is missed, or not, depending on the order. */
  lemma OrderHidesUhd()
    ensures SomeCovers([WIDE, UHD], UHD)
    ensures !Covers(Best([WIDE, UHD]), UHD) && Covers(Best([UHD, WIDE]), UHD)
  {
    assert UHD in [WIDE, UHD];
    assert [WIDE, UHD][1..] == [UHD] && [UHD, WIDE][1..] == [WIDE];
  }
}
