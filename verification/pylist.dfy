/** Python list comprehensions with a condition, and the subsequence relation
    they establish. */
module PyList {
  import opened Wrappers

  /** `r` is obtained from `s` by deleting elements, keeping the order. */
  predicate IsSubsequence<T(==)>(r: seq<T>, s: seq<T>)
    decreases |s|
  {
    || |r| == 0
    || (&& |s| > 0
        && ((r[0] == s[0] && IsSubsequence(r[1..], s[1..])) || IsSubsequence(r, s[1..])))
  }

  /** The number of positions of `s` whose element satisfies `keep`. */
  function CountKept<T>(s: seq<T>, keep: T -> bool): nat
    decreases |s|
  {
    if |s| == 0 then 0 else (if keep(s[0]) then 1 else 0) + CountKept(s[1..], keep)
  }

  /** `r` is the kept elements of `s`, in order, repeats included: a
      subsequence of kept elements that uses every kept position. */
  predicate FilterOf<T(==)>(r: seq<T>, s: seq<T>, keep: T -> bool) {
    && IsSubsequence(r, s)
    && (forall i | 0 <= i < |r| :: keep(r[i]))
    && |r| == CountKept(s, keep)
  }

  /** `[x for x in s if keep(x)]`: the kept elements, in order, and exactly those.
      A subsequence of kept elements as long as the number of kept positions
      must use every kept position, so the first, third and last clauses
      together determine the result, repeated elements included. */
  function Filter<T(==)>(s: seq<T>, keep: T -> bool): (r: seq<T>)
    ensures IsSubsequence(r, s)
    ensures |r| <= |s|
    ensures forall i | 0 <= i < |r| :: r[i] in s && keep(r[i])
    ensures forall i | 0 <= i < |s| :: keep(s[i]) ==> s[i] in r
    ensures |r| == CountKept(s, keep)
    decreases |s|
  {
    if |s| == 0 then []
    else
      var tail := Filter(s[1..], keep);
      if keep(s[0]) then
        assert ([s[0]] + tail)[1..] == tail;
        [s[0]] + tail
      else tail
  }

  /** The first index at or after `i` whose element satisfies `p`: the loop
      `for x in s[i:]: if p(x): ...; break`. */
  function FindFirst<T>(s: seq<T>, p: T -> bool, i: nat): (r: Option<nat>)
    requires i <= |s|
    ensures r.Some? ==> i <= r.value < |s| && p(s[r.value])
    ensures forall j | i <= j < |s| && (r.None? || j < r.value) :: !p(s[j])
    decreases |s| - i
  {
    if i == |s| then None
    else if p(s[i]) then Some(i)
    else FindFirst(s, p, i + 1)
  }

  /** A subsequence made of kept elements is no longer than the number of kept positions. */
  lemma {:induction false} KeptSubsequenceBound<T>(r: seq<T>, s: seq<T>, keep: T -> bool)
    requires IsSubsequence(r, s)
    requires forall i | 0 <= i < |r| :: keep(r[i])
    ensures |r| <= CountKept(s, keep)
    decreases |s|
  {
    if |r| > 0 {
      if r[0] == s[0] && IsSubsequence(r[1..], s[1..]) {
        KeptSubsequenceBound(r[1..], s[1..], keep);
      } else {
        KeptSubsequenceBound(r, s[1..], keep);
      }
    }
  }

  /** The filter is the only subsequence of kept elements that uses every kept
      position: no occurrence is dropped, repeated ones included. */
  lemma {:induction false} FilterUnique<T>(r: seq<T>, s: seq<T>, keep: T -> bool)
    requires FilterOf(r, s, keep)
    ensures r == Filter(s, keep)
    decreases |s|
  {
    if |s| > 0 {
      var tail := Filter(s[1..], keep);
      if |r| > 0 && r[0] == s[0] && IsSubsequence(r[1..], s[1..]) {
        assert keep(s[0]);
        FilterUnique(r[1..], s[1..], keep);
        assert r == [s[0]] + tail;
      } else if keep(s[0]) {
        if |r| > 0 {
          KeptSubsequenceBound(r, s[1..], keep);
        }
        assert false;
      } else {
        if |r| > 0 {
          FilterUnique(r, s[1..], keep);
        } else {
          assert |tail| == 0;
        }
      }
    }
  }

  /** A filter whose condition holds throughout keeps everything. */
  lemma {:induction false} FilterAll<T>(s: seq<T>, keep: T -> bool)
    requires forall i | 0 <= i < |s| :: keep(s[i])
    ensures Filter(s, keep) == s
    decreases |s|
  {
    if |s| > 0 {
      FilterAll(s[1..], keep);
    }
  }

  /** A filter whose condition fails throughout keeps nothing. */
  lemma {:induction false} FilterNone<T>(s: seq<T>, keep: T -> bool)
    requires forall i | 0 <= i < |s| :: !keep(s[i])
    ensures Filter(s, keep) == []
    decreases |s|
  {
    if |s| > 0 {
      FilterNone(s[1..], keep);
    }
  }

  /** Every position is kept exactly when the kept count is the length. */
  lemma {:induction false} KeptCountFull<T>(s: seq<T>, keep: T -> bool)
    ensures CountKept(s, keep) == |s| <==> forall i | 0 <= i < |s| :: keep(s[i])
    decreases |s|
  {
    if |s| > 0 {
      KeptCountFull(s[1..], keep);
      assert CountKept(s[1..], keep) <= |s| - 1 by {
        KeptCountBound(s[1..], keep);
      }
      assert forall i | 0 <= i < |s| - 1 :: s[1..][i] == s[i + 1];
    }
  }

  /** No more positions are kept than there are. */
  lemma {:induction false} KeptCountBound<T>(s: seq<T>, keep: T -> bool)
    ensures CountKept(s, keep) <= |s|
    decreases |s|
  {
    if |s| > 0 {
      KeptCountBound(s[1..], keep);
    }
  }

  /** Filtering a concatenation filters each part, in turn. */
  lemma {:induction false} FilterAppend<T>(a: seq<T>, b: seq<T>, keep: T -> bool)
    ensures Filter(a + b, keep) == Filter(a, keep) + Filter(b, keep)
    decreases |a|
  {
    if |a| == 0 {
      assert a + b == b;
    } else {
      var front := if keep(a[0]) then [a[0]] else [];
      assert (a + b)[0] == a[0];
      assert (a + b)[1..] == a[1..] + b;
      FilterAppend(a[1..], b, keep);
      assert Filter(a, keep) == front + Filter(a[1..], keep);
      SeqAssoc(front, Filter(a[1..], keep), Filter(b, keep));
    }
  }

  /** Filtering again with the same condition changes nothing. */
  lemma {:induction false} FilterIdempotent<T>(s: seq<T>, keep: T -> bool)
    ensures Filter(Filter(s, keep), keep) == Filter(s, keep)
  {
    FilterAll(Filter(s, keep), keep);
  }

  /** A prefix of a subsequence is a subsequence. */
  lemma {:induction false} PrefixOfSubsequence<T>(t: seq<T>, r: seq<T>, s: seq<T>)
    requires t <= r
    requires IsSubsequence(r, s)
    ensures IsSubsequence(t, s)
    decreases |s|
  {
    if |t| > 0 {
      if r[0] == s[0] && IsSubsequence(r[1..], s[1..]) {
        PrefixOfSubsequence(t[1..], r[1..], s[1..]);
      } else {
        PrefixOfSubsequence(t, r, s[1..]);
      }
    }
  }

  /** Every sequence is a subsequence of itself. */
  lemma {:induction false} SubsequenceRefl<T>(s: seq<T>)
    ensures IsSubsequence(s, s)
    decreases |s|
  {
    if |s| > 0 {
      SubsequenceRefl(s[1..]);
    }
  }

  /** Every element of a subsequence is an element of the whole. */
  lemma {:induction false} SubsequenceMembers<T>(r: seq<T>, s: seq<T>)
    requires IsSubsequence(r, s)
    ensures forall k | 0 <= k < |r| :: r[k] in s
    decreases |s|
  {
    if |r| > 0 {
      if r[0] == s[0] && IsSubsequence(r[1..], s[1..]) {
        SubsequenceMembers(r[1..], s[1..]);
        forall k | 0 <= k < |r| ensures r[k] in s {
          if k > 0 {
            assert r[k] == r[1..][k - 1];
          }
        }
      } else {
        SubsequenceMembers(r, s[1..]);
      }
    }
  }

  /** Concatenation is associative. */
  lemma {:induction false} SeqAssoc<T>(a: seq<T>, b: seq<T>, c: seq<T>)
    ensures a + b + c == a + (b + c)
  {
  }
}
