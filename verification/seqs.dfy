/** Order-preserving filtering and summation over sequences: the model of
    JavaScript's `Array.prototype.filter` and of `reduce((sum, x) => sum + f(x), 0)`
    as the dashboard pages use them. */
module Seqs {
  import opened Wrappers

  /** The elements of `s` that satisfy `p`, in their original order. */
  function Filter<T>(p: T -> bool, s: seq<T>): (r: seq<T>)
    ensures |r| <= |s|
    ensures forall i :: 0 <= i < |r| ==> p(r[i]) && r[i] in s
    ensures forall i :: 0 <= i < |s| && p(s[i]) ==> s[i] in r
  {
    if |s| == 0 then []
    else if p(s[0]) then [s[0]] + Filter(p, s[1..])
    else Filter(p, s[1..])
  }

  /** Filtering distributes over concatenation, so the relative order of
      the kept elements is the order of the input. */
  lemma {:induction false} FilterAppend<T>(p: T -> bool, a: seq<T>, b: seq<T>)
    ensures Filter(p, a + b) == Filter(p, a) + Filter(p, b)
  {
    if |a| == 0 {
      assert a + b == b;
    } else {
      assert (a + b)[1..] == a[1..] + b;
      FilterAppend(p, a[1..], b);
    }
  }

  /** A one-element sequence keeps its element exactly when it satisfies `p`. */
  lemma FilterSingle<T>(p: T -> bool, s: seq<T>)
    ensures |s| == 1 ==> Filter(p, s) == if p(s[0]) then s else []
  {
    if |s| == 1 {
      assert s[1..] == [];
      assert [s[0]] == s;
    }
  }

  /** A filter keeps nothing exactly when no element satisfies `p`. */
  lemma FilterEmpty<T>(p: T -> bool, s: seq<T>)
    ensures |Filter(p, s)| == 0 <==> forall i :: 0 <= i < |s| ==> !p(s[i])
  {
    var r := Filter(p, s);
    if |r| > 0 {
      assert r[0] in s;
    }
  }

  /** A filter that keeps every element returns its input unchanged. */
  lemma {:induction false} FilterKeepsAll<T>(p: T -> bool, s: seq<T>)
    requires forall i :: 0 <= i < |s| ==> p(s[i])
    ensures Filter(p, s) == s
  {
    if |s| > 0 {
      FilterKeepsAll(p, s[1..]);
    }
  }

  /** A weaker predicate keeps at least as many elements. */
  lemma {:induction false} FilterMonotone<T>(p: T -> bool, q: T -> bool, s: seq<T>)
    requires forall x :: p(x) ==> q(x)
    ensures |Filter(p, s)| <= |Filter(q, s)|
  {
    if |s| > 0 {
      FilterMonotone(p, q, s[1..]);
    }
  }

  /** Two predicates that never hold together count at most `|s|` elements between them. */
  lemma {:induction false} FilterSplit<T>(p: T -> bool, q: T -> bool, s: seq<T>)
    requires forall x :: !(p(x) && q(x))
    ensures |Filter(p, s)| + |Filter(q, s)| <= |s|
  {
    if |s| > 0 {
      FilterSplit(p, q, s[1..]);
    }
  }

  /** The exact sum of `f` over `s`; the empty sequence sums to 0. */
  function Sum<T>(f: T -> real, s: seq<T>): real
  {
    if |s| == 0 then 0.0 else f(s[0]) + Sum(f, s[1..])
  }

  /** A one-element sequence sums to its element's value. */
  lemma SumSingle<T>(f: T -> real, s: seq<T>)
    ensures |s| == 1 ==> Sum(f, s) == f(s[0])
  {
    if |s| == 1 {
      assert s[1..] == [];
    }
  }

  lemma {:induction false} SumAppend<T>(f: T -> real, a: seq<T>, b: seq<T>)
    ensures Sum(f, a + b) == Sum(f, a) + Sum(f, b)
  {
    if |a| == 0 {
      assert a + b == b;
    } else {
      assert (a + b)[1..] == a[1..] + b;
      SumAppend(f, a[1..], b);
    }
  }

  lemma {:induction false} SumNonNegative<T>(f: T -> real, s: seq<T>)
    requires forall i :: 0 <= i < |s| ==> f(s[i]) >= 0.0
    ensures Sum(f, s) >= 0.0
  {
    if |s| > 0 {
      SumNonNegative(f, s[1..]);
    }
  }

  /** Every summand of a sum of non-negative terms is bounded by the sum. */
  lemma {:induction false} SumBoundsEachTerm<T>(f: T -> real, s: seq<T>, k: nat)
    requires forall i :: 0 <= i < |s| ==> f(s[i]) >= 0.0
    requires k < |s|
    ensures f(s[k]) <= Sum(f, s)
  {
    if k == 0 {
      SumNonNegative(f, s[1..]);
    } else {
      SumBoundsEachTerm(f, s[1..], k - 1);
    }
  }

  /** A sum after replacing one term changes by exactly the difference of
      that term. */
  lemma {:induction false} SumUpdate<T>(f: T -> real, s: seq<T>, k: nat, x: T)
    requires k < |s|
    ensures Sum(f, s[k := x]) == Sum(f, s) - f(s[k]) + f(x)
  {
    if k == 0 {
      assert s[k := x][1..] == s[1..];
    } else {
      assert s[k := x][1..] == s[1..][k - 1 := x];
      SumUpdate(f, s[1..], k - 1, x);
    }
  }

  /** Removing one element removes exactly its term from the sum. */
  lemma SumRemove<T>(f: T -> real, s: seq<T>, k: nat)
    requires k < |s|
    ensures Sum(f, s[..k] + s[k + 1..]) == Sum(f, s) - f(s[k])
  {
    var front, back := s[..k], s[k + 1..];
    assert s == front + ([s[k]] + back);
    SumAppend(f, front, [s[k]] + back);
    assert Sum(f, [s[k]] + back) == f(s[k]) + Sum(f, back) by {
      assert ([s[k]] + back)[1..] == back;
    }
    SumAppend(f, front, back);
  }

  /** Two predicates that agree on every element filter alike. */
  lemma {:induction false} FilterSame<T>(p: T -> bool, q: T -> bool, s: seq<T>)
    requires forall i :: 0 <= i < |s| ==> p(s[i]) == q(s[i])
    ensures Filter(p, s) == Filter(q, s)
  {
    if |s| > 0 {
      FilterSame(p, q, s[1..]);
    }
  }

  /** `Array.prototype.findIndex`: the position of the first element that
      satisfies `p`, or `None` (JavaScript's -1) when there is none. */
  function Find<T>(p: T -> bool, s: seq<T>): (r: Option<nat>)
    ensures r.Some? ==> r.value < |s| && p(s[r.value])
    ensures r.Some? ==> forall j :: 0 <= j < r.value ==> !p(s[j])
    ensures r.None? <==> forall j :: 0 <= j < |s| ==> !p(s[j])
  {
    if |s| == 0 then None
    else if p(s[0]) then Some(0)
    else
      match Find(p, s[1..])
      case None => None
      case Some(i) => Some(i + 1)
  }

  /** `Array.prototype.map`. */
  function Map<T, U>(f: T -> U, s: seq<T>): (r: seq<U>)
    ensures |r| == |s|
    ensures forall i :: 0 <= i < |s| ==> r[i] == f(s[i])
  {
    seq(|s|, i requires 0 <= i < |s| => f(s[i]))
  }
}
