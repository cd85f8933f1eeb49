// Sequences as lists of a set, and the elements of one that satisfy a condition.
module Sequences {
  ghost predicate NoDuplicates<T>(s: seq<T>) {
    forall i, j :: 0 <= i < j < |s| ==> s[i] != s[j]
  }

  function Elements<T>(s: seq<T>): set<T> {
    set x | x in s
  }

  /** An order in which a set can be listed, each element once. */
  ghost predicate Lists<T>(s: seq<T>, S: set<T>) {
    NoDuplicates(s) && Elements(s) == S
  }

  lemma ElementsConcat<T>(a: seq<T>, b: seq<T>)
    ensures Elements(a + b) == Elements(a) + Elements(b)
  {
  }

  lemma NoDuplicatesConcat<T>(a: seq<T>, b: seq<T>)
    requires NoDuplicates(a) && NoDuplicates(b)
    requires forall x :: x in a ==> x !in b
    ensures NoDuplicates(a + b)
  {
    forall i, j | 0 <= i < j < |a + b|
      ensures (a + b)[i] != (a + b)[j]
    {
      if i < |a| <= j {
        assert a[i] in a;
        assert b[j - |a|] in b;
      }
    }
  }

  lemma TwiceCounted<T>(s: seq<T>, i: nat, j: nat)
    requires i < j < |s| && s[i] == s[j]
    ensures multiset(s)[s[i]] >= 2
  {
    assert s == s[..i] + [s[i]] + s[i + 1..j] + [s[j]] + s[j + 1..];
  }

  lemma {:induction false} OnceCounted<T>(s: seq<T>, x: T)
    requires NoDuplicates(s)
    ensures multiset(s)[x] <= 1
  {
    if s != [] {
      var init, last := s[..|s| - 1], s[|s| - 1];
      OnceCounted(init, x);
      assert s == init + [last];
    }
  }

  lemma ListsPermuted<T>(s: seq<T>, t: seq<T>, S: set<T>)
    requires Lists(s, S) && multiset(s) == multiset(t)
    ensures Lists(t, S)
  {
    forall x ensures x in s <==> x in t {
      assert x in multiset(s) <==> x in multiset(t);
    }
    forall i, j | 0 <= i < j < |t| ensures t[i] != t[j] {
      if t[i] == t[j] {
        TwiceCounted(t, i, j);
        OnceCounted(s, t[i]);
      }
    }
  }

  lemma ListsMore<T>(s: seq<T>, S: set<T>, x: T)
    requires Lists(s, S) && x !in S
    ensures Lists(s + [x], S + {x})
  {
    forall i | 0 <= i < |s| ensures s[i] != x {
      assert s[i] in Elements(s);
    }
  }

  lemma ListsTail<T>(s: seq<T>, S: set<T>)
    requires Lists(s, S) && s != []
    ensures s[0] in S && Lists(s[1..], S - {s[0]})
  {
    assert s == [s[0]] + s[1..];
    ElementsConcat([s[0]], s[1..]);
    forall i, j | 0 <= i < j < |s[1..]| ensures s[1..][i] != s[1..][j] {
      assert s[i + 1] != s[j + 1];
    }
  }

  lemma ListsConcat<T>(s: seq<T>, S: set<T>, t: seq<T>, T': set<T>)
    requires Lists(s, S) && Lists(t, T') && S !! T'
    ensures Lists(s + t, S + T')
  {
    forall x | x in s ensures x !in t {
      assert x in Elements(s) && x !in Elements(t);
    }
    NoDuplicatesConcat(s, t);
    ElementsConcat(s, t);
  }

  lemma {:induction false} ListsCount<T>(s: seq<T>, S: set<T>)
    requires Lists(s, S)
    ensures |s| == |S|
  {
    if s != [] {
      ListsTail(s, S);
      ListsCount(s[1..], S - {s[0]});
    }
  }

  // ── Prefixes and filters ────────────────────────────────────────────────────

  lemma InitAndLast<T>(s: seq<T>)
    requires s != []
    ensures s == s[..|s| - 1] + [s[|s| - 1]]
  {
  }

  lemma TakeMore<T>(s: seq<T>, i: nat)
    requires i < |s|
    ensures s[..i + 1] == s[..i] + [s[i]]
  {
  }

  lemma ConcatAssociative<T>(a: seq<T>, b: seq<T>, c: seq<T>)
    ensures (a + b) + c == a + (b + c)
  {
  }

  /** The elements of s that satisfy keep, in order. */
  function Filter<T(!new)>(s: seq<T>, keep: T -> bool): (r: seq<T>)
    ensures |r| <= |s|
  {
    if s == [] then []
    else
      var init := Filter(s[..|s| - 1], keep);
      if keep(s[|s| - 1]) then init + [s[|s| - 1]] else init
  }

  lemma {:induction false} FilterElements<T(!new)>(s: seq<T>, keep: T -> bool)
    ensures forall x :: x in Filter(s, keep) <==> x in s && keep(x)
  {
    if s != [] {
      FilterElements(s[..|s| - 1], keep);
      assert s == s[..|s| - 1] + [s[|s| - 1]];
    }
  }

  lemma {:induction false} FilterAll<T(!new)>(s: seq<T>, keep: T -> bool)
    requires forall x :: x in s ==> keep(x)
    ensures Filter(s, keep) == s
  {
    if s != [] {
      FilterAll(s[..|s| - 1], keep);
      assert s == s[..|s| - 1] + [s[|s| - 1]];
    }
  }

  lemma {:induction false} FilterNone<T(!new)>(s: seq<T>, keep: T -> bool)
    requires forall x :: x in s ==> !keep(x)
    ensures Filter(s, keep) == []
  {
    if s != [] {
      FilterNone(s[..|s| - 1], keep);
    }
  }

  lemma FilterMore<T(!new)>(s: seq<T>, i: nat, keep: T -> bool)
    requires i < |s|
    ensures Filter(s[..i + 1], keep) == if keep(s[i]) then Filter(s[..i], keep) + [s[i]] else Filter(s[..i], keep)
  {
    assert s[..i + 1][..i] == s[..i];
  }

  lemma {:induction false} FilterConcat<T(!new)>(s: seq<T>, t: seq<T>, keep: T -> bool)
    ensures Filter(s + t, keep) == Filter(s, keep) + Filter(t, keep)
  {
    if t == [] {
      assert s + t == s;
    } else {
      var init, last := t[..|t| - 1], t[|t| - 1];
      FilterConcat(s, init, keep);
      assert (s + t)[..|s + t| - 1] == s + init && (s + t)[|s + t| - 1] == last;
      ConcatAssociative(Filter(s, keep), Filter(init, keep), [last]);
    }
  }

  lemma {:induction false} FilterWeaker<T(!new)>(s: seq<T>, p: T -> bool, q: T -> bool)
    requires forall x :: x in s && q(x) ==> p(x)
    ensures Filter(Filter(s, p), q) == Filter(s, q)
  {
    if s != [] {
      var init, last := s[..|s| - 1], s[|s| - 1];
      FilterWeaker(init, p, q);
      if p(last) {
        assert (Filter(init, p) + [last])[..|Filter(init, p)|] == Filter(init, p);
      }
    }
  }

  lemma {:induction false} FilterSizes<T(!new)>(s: seq<T>, p: T -> bool, q: T -> bool)
    requires forall x :: x in s ==> (p(x) <==> !q(x))
    ensures |Filter(s, p)| + |Filter(s, q)| == |s|
  {
    if s != [] {
      FilterSizes(s[..|s| - 1], p, q);
    }
  }

  lemma {:induction false} FilterNoDuplicates<T(!new)>(s: seq<T>, keep: T -> bool)
    requires NoDuplicates(s)
    ensures NoDuplicates(Filter(s, keep))
  {
    if s != [] {
      var init, last := s[..|s| - 1], s[|s| - 1];
      FilterNoDuplicates(init, keep);
      FilterElements(init, keep);
      forall i | 0 <= i < |init| ensures init[i] != last {
      }
      forall i | 0 <= i < |Filter(init, keep)| ensures Filter(init, keep)[i] != last {
        assert Filter(init, keep)[i] in init;
      }
    }
  }

  /** r is what stands in s at the positions listed, in order. */
  ghost predicate PicksOut<T>(at: seq<nat>, s: seq<T>, r: seq<T>) {
    |at| == |r|
    && (forall n :: 0 <= n < |at| ==> at[n] < |s| && r[n] == s[at[n]])
    && (forall m, n :: 0 <= m < n < |at| ==> at[m] < at[n])
  }

  lemma PicksOneMore<T>(at: seq<nat>, s: seq<T>, r: seq<T>, x: T)
    requires PicksOut(at, s, r)
    ensures PicksOut(at, s + [x], r) && PicksOut(at + [|s|], s + [x], r + [x])
    ensures |s| !in at
  {
    assert (s + [x])[|s|] == x;
    forall n | 0 <= n < |at| ensures (s + [x])[at[n]] == s[at[n]] && at[n] != |s| {
    }
  }

  /** A filtered list is the list's own elements that are kept: in order, as often, and no other. */
  lemma {:induction false} FilterPicks<T(!new)>(s: seq<T>, keep: T -> bool) returns (at: seq<nat>)
    ensures PicksOut(at, s, Filter(s, keep))
    ensures forall i: nat :: i < |s| ==> (i in at <==> keep(s[i]))
  {
    if s == [] {
      at := [];
    } else {
      var init, x := s[..|s| - 1], s[|s| - 1];
      var before := FilterPicks(init, keep);
      assert s == init + [x];
      PicksOneMore(before, init, Filter(init, keep), x);
      at := if keep(x) then before + [|init|] else before;
      forall i: nat | i < |s| ensures i in at <==> keep(s[i]) {
        if i < |init| {
          assert s[i] == init[i];
        }
      }
    }
  }

  lemma {:induction false} FilterCounts<T(!new)>(s: seq<T>, keep: T -> bool, x: T)
    ensures multiset(Filter(s, keep))[x] == if keep(x) then multiset(s)[x] else 0
  {
    if s != [] {
      InitAndLast(s);
      FilterCounts(s[..|s| - 1], keep, x);
    }
  }

  lemma DropCounts<T>(s: seq<T>, i: nat, x: T)
    requires i < |s| && x != s[i]
    ensures multiset(s[..i] + s[i + 1..])[x] == multiset(s)[x]
  {
    assert s == s[..i] + [s[i]] + s[i + 1..];
  }

  lemma PutCounts<T>(s: seq<T>, i: nat, y: T, x: T)
    requires i < |s| && x != s[i] && x != y
    ensures multiset(s[i := y])[x] == multiset(s)[x]
  {
    assert s == s[..i] + [s[i]] + s[i + 1..];
    assert s[i := y] == s[..i] + [y] + s[i + 1..];
  }
}
