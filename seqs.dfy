/** Sequence algebra shared by the nodes: filtering, duplicate-free
    concatenation (the evaluator's `obs.extend([ob for ob in up if ob not in obs])`)
    and plain concatenation (`obs.extend(up)`). */
module Seqs {
  import opened Wrappers

  predicate NoDups<T(==)>(s: seq<T>) {
    forall i, j | 0 <= i < j < |s| :: s[i] != s[j]
  }

  function Count<T(==)>(s: seq<T>, x: T): nat {
    if |s| == 0 then 0 else Count(s[..|s| - 1], x) + (if s[|s| - 1] == x then 1 else 0)
  }

  /** The elements of `s` that satisfy `p`, in order: `[x for x in s if p(x)]`. */
  function Filter<T>(p: T -> bool, s: seq<T>): (r: seq<T>)
    ensures |r| <= |s|
    ensures forall i | 0 <= i < |r| :: r[i] in s && p(r[i])
    ensures forall i | 0 <= i < |s| && p(s[i]) :: s[i] in r
  {
    if |s| == 0 then [] else Filter(p, s[..|s| - 1]) + (if p(s[|s| - 1]) then [s[|s| - 1]] else [])
  }

  /** `a` is obtained from `b` by dropping elements. */
  predicate IsSubseq<T(==)>(a: seq<T>, b: seq<T>) {
    if |a| == 0 then true
    else if |b| == 0 then false
    else if a[|a| - 1] == b[|b| - 1] then IsSubseq(a[..|a| - 1], b[..|b| - 1])
    else IsSubseq(a, b[..|b| - 1])
  }

  lemma {:induction false} FilterIsSubseq<T>(p: T -> bool, s: seq<T>)
    ensures IsSubseq(Filter(p, s), s)
  {
    if |s| > 0 {
      var init := s[..|s| - 1];
      FilterIsSubseq(p, init);
      if p(s[|s| - 1]) {
        assert Filter(p, s)[..|Filter(p, s)| - 1] == Filter(p, init);
      } else {
        assert Filter(p, s) == Filter(p, init);
        SubseqOfPrefix(Filter(p, init), init, s);
      }
    }
  }

  lemma {:induction false} SubseqOfPrefix<T>(a: seq<T>, b: seq<T>, c: seq<T>)
    requires IsSubseq(a, b) && |c| > 0 && b == c[..|c| - 1]
    ensures IsSubseq(a, c)
    decreases |b|, 1
  {
    if |a| > 0 && a[|a| - 1] == c[|c| - 1] {
      SubseqDropLast(a, b);
    }
  }

  lemma {:induction false} SubseqDropLast<T>(a: seq<T>, b: seq<T>)
    requires IsSubseq(a, b) && |a| > 0
    ensures IsSubseq(a[..|a| - 1], b)
    decreases |b|, 0
  {
    if a[|a| - 1] == b[|b| - 1] {
      SubseqOfPrefix(a[..|a| - 1], b[..|b| - 1], b);
    } else {
      SubseqDropLast(a, b[..|b| - 1]);
      SubseqOfPrefix(a[..|a| - 1], b[..|b| - 1], b);
    }
  }

  /** Filtering twice with the same condition is filtering once. */
  lemma {:induction false} FilterIdempotent<T>(p: T -> bool, s: seq<T>)
    ensures Filter(p, Filter(p, s)) == Filter(p, s)
  {
    if |s| > 0 {
      var init := s[..|s| - 1];
      FilterIdempotent(p, init);
      if p(s[|s| - 1]) {
        var f := Filter(p, s);
        assert f[..|f| - 1] == Filter(p, init) && f[|f| - 1] == s[|s| - 1];
      } else {
        assert Filter(p, s) == Filter(p, init);
      }
    }
  }

  /** Filtering by a weaker condition first changes nothing. */
  lemma {:induction false} FilterOfFilter<T>(p: T -> bool, q: T -> bool, s: seq<T>)
    requires forall x :: p(x) ==> q(x)
    ensures Filter(p, Filter(q, s)) == Filter(p, s)
  {
    if |s| > 0 {
      var init, last := s[..|s| - 1], s[|s| - 1];
      FilterOfFilter(p, q, init);
      var f := Filter(q, s);
      if q(last) {
        assert f[..|f| - 1] == Filter(q, init) && f[|f| - 1] == last;
        assert Filter(p, f) == Filter(p, Filter(q, init)) + if p(last) then [last] else [];
      } else {
        assert !p(last) && f == Filter(q, init);
      }
    }
  }

  lemma AppendAssoc<T>(a: seq<T>, b: seq<T>, c: seq<T>)
    ensures a + (b + c) == (a + b) + c
  {
  }

  lemma PrefixTrans<T>(a: seq<T>, b: seq<T>, c: seq<T>)
    requires a <= b && b <= c
    ensures a <= c
  {
  }

  /** A chain of sequences, each a prefix of the next, keeps its first link a prefix of its last. */
  lemma {:induction false} ChainPrefix<T>(f: nat -> seq<T>, k: nat, n: nat)
    requires k <= n && forall j | k <= j < n :: f(j) <= f(j + 1)
    ensures f(k) <= f(n)
    decreases n - k
  {
    if k < n {
      ChainPrefix(f, k + 1, n);
      PrefixTrans(f(k), f(k + 1), f(n));
    }
  }

  /** A condition that holds of every element keeps the whole sequence. */
  lemma {:induction false} FilterAll<T>(p: T -> bool, s: seq<T>)
    requires forall i | 0 <= i < |s| :: p(s[i])
    ensures Filter(p, s) == s
  {
    if |s| > 0 {
      var init := s[..|s| - 1];
      assert forall i | 0 <= i < |init| :: init[i] == s[i];
      FilterAll(p, init);
      assert init + [s[|s| - 1]] == s;
    }
  }

  /** The filter keeps nothing of a sequence none of whose elements satisfy `p`. */
  lemma {:induction false} FilterNone<T>(p: T -> bool, s: seq<T>)
    requires forall i | 0 <= i < |s| :: !p(s[i])
    ensures Filter(p, s) == []
  {
    if |s| > 0 {
      var init := s[..|s| - 1];
      assert forall i | 0 <= i < |init| :: init[i] == s[i];
      FilterNone(p, init);
    }
  }

  /** Filtering never introduces a duplicate. */
  lemma {:induction false} FilterNoDups<T>(p: T -> bool, s: seq<T>)
    requires NoDups(s)
    ensures NoDups(Filter(p, s))
  {
    if |s| > 0 {
      var init := s[..|s| - 1];
      FilterNoDups(p, init);
    }
  }

  /** Filtering a concatenation filters each part. */
  lemma {:induction false} FilterConcat<T>(p: T -> bool, a: seq<T>, b: seq<T>)
    ensures Filter(p, a + b) == Filter(p, a) + Filter(p, b)
  {
    if |b| == 0 {
      assert a + b == a;
    } else {
      var init, last := b[..|b| - 1], b[|b| - 1];
      var kept := if p(last) then [last] else [];
      assert (a + b)[..|a + b| - 1] == a + init;
      calc {
        Filter(p, a + b);
        Filter(p, a + init) + kept;
        { FilterConcat(p, a, init); }
        (Filter(p, a) + Filter(p, init)) + kept;
        { AppendAssoc(Filter(p, a), Filter(p, init), kept); }
        Filter(p, a) + (Filter(p, init) + kept);
        Filter(p, a) + Filter(p, b);
      }
    }
  }

  /** Filtering out an element that occurs makes the sequence shorter. */
  lemma {:induction false} FilterDropsMember<T>(p: T -> bool, s: seq<T>, x: T)
    requires x in s && !p(x)
    ensures |Filter(p, s)| < |s|
  {
    var init := s[..|s| - 1];
    if s[|s| - 1] != x {
      assert x in init by { var i :| 0 <= i < |s| && s[i] == x; assert init[i] == x; }
      FilterDropsMember(p, init, x);
    }
  }

  /** The filter keeps every occurrence of an element that satisfies `p` and none of one that
      does not. */
  lemma {:induction false} FilterMultiplicity<T>(p: T -> bool, s: seq<T>, x: T)
    ensures multiset(Filter(p, s))[x] == if p(x) then multiset(s)[x] else 0
  {
    if |s| > 0 {
      var init := s[..|s| - 1];
      assert s == init + [s[|s| - 1]];
      FilterMultiplicity(p, init, x);
    }
  }

  /** The first element kept by the filter is the first element that satisfies `p`. */
  lemma {:induction false} FilterHead<T>(p: T -> bool, s: seq<T>)
    ensures |Filter(p, s)| > 0 <==> FirstIndex(p, s).Some?
    ensures FirstIndex(p, s).Some? ==> Filter(p, s)[0] == s[FirstIndex(p, s).value]
  {
    if |s| > 0 {
      FilterConcat(p, [s[0]], s[1..]);
      assert [s[0]] + s[1..] == s;
      assert Filter(p, [s[0]]) == Filter(p, []) + (if p(s[0]) then [s[0]] else []);
      if !p(s[0]) {
        FilterHead(p, s[1..]);
      }
    }
  }

  /** `acc + [x for x in up if x not in acc]`. */
  function AppendUnseen<T(==)>(acc: seq<T>, up: seq<T>): seq<T> {
    acc + Filter(x => x !in acc, up)
  }

  /** The lists of `ss` joined in order, each element dropped when an earlier list put it in already. */
  function DedupConcat<T(==)>(ss: seq<seq<T>>): seq<T> {
    if |ss| == 0 then [] else AppendUnseen(DedupConcat(ss[..|ss| - 1]), ss[|ss| - 1])
  }

  /** The lists of `ss` joined in order, duplicates kept. */
  function Concat<T>(ss: seq<seq<T>>): seq<T> {
    if |ss| == 0 then [] else Concat(ss[..|ss| - 1]) + ss[|ss| - 1]
  }

  function TotalLength<T>(ss: seq<seq<T>>): nat {
    if |ss| == 0 then 0 else TotalLength(ss[..|ss| - 1]) + |ss[|ss| - 1]|
  }

  /** An element is in the duplicate-free join iff one of the joined lists holds it. */
  lemma {:induction false} DedupConcatMember<T>(ss: seq<seq<T>>, x: T)
    ensures x in DedupConcat(ss) <==> exists i | 0 <= i < |ss| :: x in ss[i]
  {
    if |ss| > 0 {
      var init := ss[..|ss| - 1];
      DedupConcatMember(init, x);
      if x in DedupConcat(init) {
        var i :| 0 <= i < |init| && x in init[i];
        assert x in ss[i];
      }
      if exists i | 0 <= i < |ss| :: x in ss[i] {
        var i :| 0 <= i < |ss| && x in ss[i];
        if i < |ss| - 1 {
          assert x in init[i];
        }
      }
    }
  }

  /** Every element of the duplicate-free join appears once, provided each joined list is duplicate-free. */
  lemma {:induction false} DedupConcatNoDups<T>(ss: seq<seq<T>>)
    requires forall i | 0 <= i < |ss| :: NoDups(ss[i])
    ensures NoDups(DedupConcat(ss))
  {
    if |ss| > 0 {
      var init := ss[..|ss| - 1];
      DedupConcatNoDups(init);
      var acc := DedupConcat(init);
      var unseen := Filter(x => x !in acc, ss[|ss| - 1]);
      FilterNoDups(x => x !in acc, ss[|ss| - 1]);
      var r := acc + unseen;
      forall i, j | 0 <= i < j < |r| ensures r[i] != r[j] {
        if i < |acc| && j >= |acc| {
          assert r[j] in unseen;
          assert r[i] in acc;
        } else if i >= |acc| {
          assert r[i] == unseen[i - |acc|] && r[j] == unseen[j - |acc|];
        }
      }
    }
  }

  /** Joining a prefix of the lists gives a prefix of the join: what earlier lists contribute comes
      first, and nothing placed after that prefix occurs in those earlier lists. */
  lemma {:induction false} DedupConcatPrefix<T>(ss: seq<seq<T>>, k: nat)
    requires k <= |ss|
    ensures DedupConcat(ss[..k]) <= DedupConcat(ss)
    ensures forall j, i | |DedupConcat(ss[..k])| <= j < |DedupConcat(ss)| && 0 <= i < k ::
              DedupConcat(ss)[j] !in ss[i]
  {
    if k < |ss| {
      var init := ss[..|ss| - 1];
      assert init[..k] == ss[..k];
      DedupConcatPrefix(init, k);
      var acc := DedupConcat(init);
      forall j, i | |DedupConcat(ss[..k])| <= j < |DedupConcat(ss)| && 0 <= i < k
        ensures DedupConcat(ss)[j] !in ss[i]
      {
        if j >= |acc| {
          var y := DedupConcat(ss)[j];
          assert y in Filter(x => x !in acc, ss[|ss| - 1]);
          assert y !in acc;
          DedupConcatMember(init, y);
          assert ss[i] == init[i];
        } else {
          assert DedupConcat(ss)[j] == acc[j];
        }
      }
    } else {
      assert ss[..k] == ss;
    }
  }

  /** An element is in the plain join iff one of the joined lists holds it. */
  lemma {:induction false} ConcatMember<T>(ss: seq<seq<T>>, x: T)
    ensures x in Concat(ss) <==> exists i | 0 <= i < |ss| :: x in ss[i]
  {
    if |ss| > 0 {
      var init := ss[..|ss| - 1];
      ConcatMember(init, x);
      if x in Concat(init) {
        var i :| 0 <= i < |init| && x in init[i];
        assert x in ss[i];
      }
      if exists i | 0 <= i < |ss| :: x in ss[i] {
        var i :| 0 <= i < |ss| && x in ss[i];
        if i < |ss| - 1 {
          assert x in init[i];
        }
      }
    }
  }

  /** The plain join keeps every element of every list: its length is the sum of the lengths. */
  lemma {:induction false} ConcatLength<T>(ss: seq<seq<T>>)
    ensures |Concat(ss)| == TotalLength(ss)
  {
    if |ss| > 0 {
      ConcatLength(ss[..|ss| - 1]);
    }
  }

  /** `for x in s: if x not in acc: acc.append(x)` from an empty `acc`: first occurrences, in order. */
  function Dedup<T(==)>(s: seq<T>): seq<T> {
    if |s| == 0 then []
    else
      var d := Dedup(s[..|s| - 1]);
      if s[|s| - 1] in d then d else d + [s[|s| - 1]]
  }

  /** Dropping repeats loses no element and adds none. */
  lemma {:induction false} DedupMember<T>(s: seq<T>, x: T)
    ensures x in Dedup(s) <==> x in s
  {
    if |s| > 0 {
      DedupMember(s[..|s| - 1], x);
      assert s == s[..|s| - 1] + [s[|s| - 1]];
    }
  }

  /** Dropping repeats leaves none. */
  lemma {:induction false} DedupNoDups<T>(s: seq<T>)
    ensures NoDups(Dedup(s))
  {
    if |s| > 0 {
      DedupNoDups(s[..|s| - 1]);
    }
  }

  /** Index of the first element satisfying `p`, if any. */
  function FirstIndex<T>(p: T -> bool, s: seq<T>): (r: Option<nat>)
    ensures r.Some? ==> r.value < |s| && p(s[r.value]) && forall j | 0 <= j < r.value :: !p(s[j])
    ensures r.None? ==> forall j | 0 <= j < |s| :: !p(s[j])
  {
    if |s| == 0 then None
    else if p(s[0]) then Some(0)
    else match FirstIndex(p, s[1..])
      case None => None
      case Some(k) => Some(k + 1)
  }

}
