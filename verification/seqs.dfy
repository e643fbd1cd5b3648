/**
 Order-preserving sequence operations that the result containers are built
 from: keeping the members that satisfy a predicate, and flattening a
 sequence of sequences.
 */
module Seqs {

  /** `xs` with every member failing `p` dropped; order and repeats kept. */
  function Keep<T>(xs: seq<T>, p: T -> bool): seq<T>
  {
    if |xs| == 0 then []
    else (if p(xs[0]) then [xs[0]] else []) + Keep(xs[1..], p)
  }

  /** `sub` is `xs` with some members deleted, the rest in their original order. */
  predicate IsSubseq<T(==)>(sub: seq<T>, xs: seq<T>)
    decreases |xs|
  {
    if |sub| == 0 then true
    else if |xs| == 0 then false
    else if sub[0] == xs[0] then IsSubseq(sub[1..], xs[1..])
    else IsSubseq(sub, xs[1..])
  }

  /** `set.intersection(*sets)`: the members common to every set of a non-empty list. */
  function Meet<T>(sets: seq<set<T>>): set<T>
    requires |sets| > 0
    decreases |sets|
  {
    if |sets| == 1 then sets[0] else sets[0] * Meet(sets[1..])
  }

  /** The members of each sequence in turn. */
  function Flatten<T>(xss: seq<seq<T>>): seq<T>
  {
    if |xss| == 0 then [] else xss[0] + Flatten(xss[1..])
  }

  lemma {:induction false} KeepIsSubseq<T>(xs: seq<T>, p: T -> bool)
    ensures IsSubseq(Keep(xs, p), xs)
    decreases |xs|
  {
    if |xs| > 0 {
      KeepIsSubseq(xs[1..], p);
      var rest := Keep(xs[1..], p);
      if p(xs[0]) {
        assert Keep(xs, p) == [xs[0]] + rest;
        assert ([xs[0]] + rest)[1..] == rest;
      } else {
        assert Keep(xs, p) == rest;
        SubseqOfTail(rest, xs);
      }
    }
  }

  lemma {:induction false} SubseqOfTail<T>(sub: seq<T>, xs: seq<T>)
    requires |xs| > 0
    requires IsSubseq(sub, xs[1..])
    ensures IsSubseq(sub, xs)
    decreases |xs|, 1
  {
    if |sub| > 0 && sub[0] == xs[0] {
      // the head matches: the tail of `sub` is a subsequence of `xs[1..]` too
      SubseqDropHead(sub, xs[1..]);
    }
  }

  lemma {:induction false} SubseqDropHead<T>(sub: seq<T>, xs: seq<T>)
    requires |sub| > 0
    requires IsSubseq(sub, xs)
    ensures IsSubseq(sub[1..], xs)
    decreases |xs| + 1, 0
  {
    assert |xs| > 0;
    if sub[0] == xs[0] {
      SubseqOfTail(sub[1..], xs);
    } else {
      SubseqDropHead(sub, xs[1..]);
      SubseqOfTail(sub[1..], xs);
    }
  }

  /** Membership: exactly the members of `xs` satisfying `p` survive. */
  lemma {:induction false} KeepMembers<T>(xs: seq<T>, p: T -> bool, x: T)
    ensures x in Keep(xs, p) <==> x in xs && p(x)
    decreases |xs|
  {
    if |xs| > 0 {
      KeepMembers(xs[1..], p, x);
      assert xs == [xs[0]] + xs[1..];
    }
  }

  /** Multiplicity: each surviving member keeps every one of its occurrences. */
  lemma {:induction false} KeepCount<T>(xs: seq<T>, p: T -> bool, x: T)
    ensures multiset(Keep(xs, p))[x] == if p(x) then multiset(xs)[x] else 0
    decreases |xs|
  {
    if |xs| > 0 {
      KeepCount(xs[1..], p, x);
      assert xs == [xs[0]] + xs[1..];
      assert multiset(xs) == multiset([xs[0]]) + multiset(xs[1..]);
    }
  }

  lemma {:induction false} KeepAppend<T>(xs: seq<T>, ys: seq<T>, p: T -> bool)
    ensures Keep(xs + ys, p) == Keep(xs, p) + Keep(ys, p)
    decreases |xs|
  {
    if |xs| == 0 {
      assert xs + ys == ys;
      assert Keep(xs, p) == [];
      assert [] + Keep(ys, p) == Keep(ys, p);
    } else {
      var a := if p(xs[0]) then [xs[0]] else [];
      var zs := xs + ys;
      assert zs[0] == xs[0] && zs[1..] == xs[1..] + ys;
      KeepAppend(xs[1..], ys, p);
      assert Keep(zs, p) == a + (Keep(xs[1..], p) + Keep(ys, p));
      assert Keep(xs, p) == a + Keep(xs[1..], p);
      assert a + (Keep(xs[1..], p) + Keep(ys, p)) == (a + Keep(xs[1..], p)) + Keep(ys, p);
    }
  }

  /** Keeping by `p` and then by `q` is keeping by their conjunction. */
  lemma {:induction false} KeepCompose<T>(xs: seq<T>, p: T -> bool, q: T -> bool, pq: T -> bool)
    requires forall x :: pq(x) == (p(x) && q(x))
    ensures Keep(Keep(xs, p), q) == Keep(xs, pq)
    decreases |xs|
  {
    if |xs| > 0 {
      KeepCompose(xs[1..], p, q, pq);
      var rest := Keep(xs[1..], p);
      assert pq(xs[0]) == (p(xs[0]) && q(xs[0]));
      if p(xs[0]) {
        var kept := Keep(xs, p);
        assert kept == [xs[0]] + rest;
        assert kept[0] == xs[0] && kept[1..] == rest;
        assert Keep(kept, q) == (if q(xs[0]) then [xs[0]] else []) + Keep(rest, q);
      } else {
        assert Keep(xs, p) == rest;
      }
    }
  }

  lemma {:induction false} MeetMembers<T>(sets: seq<set<T>>, y: T)
    requires |sets| > 0
    ensures y in Meet(sets) <==> forall j :: 0 <= j < |sets| ==> y in sets[j]
    decreases |sets|
  {
    if |sets| > 1 {
      MeetMembers(sets[1..], y);
      if y in sets[0] && y in Meet(sets[1..]) {
        forall j | 0 <= j < |sets| ensures y in sets[j] {
          if j > 0 { assert sets[j] == sets[1..][j - 1]; }
        }
      }
      if forall j :: 0 <= j < |sets| ==> y in sets[j] {
        forall j | 0 <= j < |sets[1..]| ensures y in sets[1..][j] {
          assert sets[1..][j] == sets[j + 1];
        }
      }
    }
  }

  lemma {:induction false} KeepAllOf<T>(xs: seq<T>, p: T -> bool)
    requires forall i :: 0 <= i < |xs| ==> p(xs[i])
    ensures Keep(xs, p) == xs
    decreases |xs|
  {
    if |xs| > 0 {
      KeepAllOf(xs[1..], p);
      assert xs == [xs[0]] + xs[1..];
    }
  }
}
