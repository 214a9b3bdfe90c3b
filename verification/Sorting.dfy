/** Sorting by a total order: the library sorts the sources call, and why their result is unique. */
module Sorting {
  /** Names three elements to which transitivity is applied; it is true of any three. */
  ghost predicate Chain<T>(a: T, b: T, c: T) {
    true
  }

  ghost predicate TotalOrder<T(!new)>(leq: (T, T) -> bool) {
    && (forall a, b :: leq(a, b) || leq(b, a))
    && (forall a, b :: leq(a, b) && leq(b, a) ==> a == b)
    && (forall a, b, c {:trigger Chain(a, b, c)} :: Chain(a, b, c) && leq(a, b) && leq(b, c) ==> leq(a, c))
  }

  ghost predicate SortedBy<T>(leq: (T, T) -> bool, s: seq<T>) {
    forall i, j :: 0 <= i < j < |s| ==> leq(s[i], s[j])
  }

  function Insert<T>(leq: (T, T) -> bool, x: T, s: seq<T>): (r: seq<T>)
    ensures multiset(r) == multiset(s) + multiset{x}
  {
    if s == [] then [x]
    else if leq(x, s[0]) then [x] + s
    else
      assert s == [s[0]] + s[1..];
      [s[0]] + Insert(leq, x, s[1..])
  }

  function Sort<T>(leq: (T, T) -> bool, s: seq<T>): (r: seq<T>)
    ensures multiset(r) == multiset(s)
  {
    if s == [] then []
    else
      assert s == [s[0]] + s[1..];
      Insert(leq, s[0], Sort(leq, s[1..]))
  }

  lemma MembersOfMultiset<T>(s: seq<T>, t: seq<T>)
    requires multiset(s) == multiset(t)
    ensures |s| == |t|
    ensures forall x :: x in s <==> x in t
  {
    assert |s| == |multiset(s)| == |multiset(t)| == |t|;
    forall x ensures x in s <==> x in t {
      assert x in s <==> x in multiset(s);
      assert x in t <==> x in multiset(t);
    }
  }

  lemma {:induction false} InsertSorted<T(!new)>(leq: (T, T) -> bool, x: T, s: seq<T>)
    requires TotalOrder(leq) && SortedBy(leq, s)
    ensures SortedBy(leq, Insert(leq, x, s))
  {
    if s != [] {
      if leq(x, s[0]) {
        var r := [x] + s;
        forall j | 0 < j < |r| ensures leq(x, r[j]) {
          assert r[j] == s[j - 1] && (j == 1 || leq(s[0], s[j - 1]));
          assert Chain(x, s[0], s[j - 1]);
        }
      } else {
        var tail := Insert(leq, x, s[1..]);
        InsertSorted(leq, x, s[1..]);
        forall j | 0 <= j < |tail| ensures leq(s[0], tail[j]) {
          assert tail[j] in multiset(tail);
          assert tail[j] == x || tail[j] in s[1..];
        }
      }
    }
  }

  lemma {:induction false} SortSorts<T(!new)>(leq: (T, T) -> bool, s: seq<T>)
    requires TotalOrder(leq)
    ensures SortedBy(leq, Sort(leq, s))
  {
    if s != [] {
      SortSorts(leq, s[1..]);
      InsertSorted(leq, s[0], Sort(leq, s[1..]));
    }
  }

  lemma LeastComesFirst<T(!new)>(leq: (T, T) -> bool, s: seq<T>, x: T)
    requires TotalOrder(leq) && SortedBy(leq, s) && x in s
    ensures leq(s[0], x)
  {
    var i :| 0 <= i < |s| && s[i] == x;
    if i == 0 {
      assert leq(x, x);
    }
  }

  lemma TailWithoutHead<T>(s: seq<T>)
    requires s != []
    ensures multiset(s[1..]) == multiset(s) - multiset{s[0]}
  {
    assert s == [s[0]] + s[1..];
  }

  lemma HeadsAgree<T(!new)>(leq: (T, T) -> bool, s: seq<T>, t: seq<T>)
    requires TotalOrder(leq) && SortedBy(leq, s) && SortedBy(leq, t) && s != [] && t != []
    requires s[0] in t && t[0] in s
    ensures s[0] == t[0]
  {
    LeastComesFirst(leq, s, t[0]);
    LeastComesFirst(leq, t, s[0]);
  }

  lemma TailStaysSorted<T>(leq: (T, T) -> bool, s: seq<T>)
    requires SortedBy(leq, s) && s != []
    ensures SortedBy(leq, s[1..])
  {
  }

  /** A sorted arrangement is determined by what it arranges. */
  lemma {:induction false} SortedIsUnique<T(!new)>(leq: (T, T) -> bool, s: seq<T>, t: seq<T>)
    requires TotalOrder(leq) && SortedBy(leq, s) && SortedBy(leq, t) && multiset(s) == multiset(t)
    ensures s == t
  {
    MembersOfMultiset(s, t);
    if s != [] {
      HeadsAgree(leq, s, t);
      TailWithoutHead(s);
      TailWithoutHead(t);
      TailStaysSorted(leq, s);
      TailStaysSorted(leq, t);
      SortedIsUnique(leq, s[1..], t[1..]);
      assert s == [s[0]] + s[1..] && t == [t[0]] + t[1..];
    }
  }

  /** Drop each element that repeats the one before it. */
  function Dedup<T(==, !new)>(s: seq<T>): (r: seq<T>)
    ensures forall x :: x in r <==> x in s
    ensures s != [] ==> r != [] && r[0] == s[0]
  {
    if |s| < 2 then s
    else
      assert s == [s[0]] + s[1..];
      if s[0] == s[1] then Dedup(s[1..]) else [s[0]] + Dedup(s[1..])
  }

  ghost predicate StrictlySortedBy<T>(leq: (T, T) -> bool, s: seq<T>) {
    forall i, j :: 0 <= i < j < |s| ==> leq(s[i], s[j]) && s[i] != s[j]
  }

  /** On a sorted sequence that leaves no repeats at all. */
  lemma {:induction false} DedupOfSortedIsStrict<T(!new)>(leq: (T, T) -> bool, s: seq<T>)
    requires TotalOrder(leq) && SortedBy(leq, s)
    ensures StrictlySortedBy(leq, Dedup(s))
  {
    if |s| >= 2 {
      DedupOfSortedIsStrict(leq, s[1..]);
      if s[0] != s[1] {
        var tail := Dedup(s[1..]);
        forall j | 0 <= j < |tail| ensures leq(s[0], tail[j]) && s[0] != tail[j] {
          LaterIsGreater(leq, s, tail[j]);
        }
      }
    }
  }

  lemma LaterIsGreater<T(!new)>(leq: (T, T) -> bool, s: seq<T>, x: T)
    requires TotalOrder(leq) && SortedBy(leq, s) && |s| >= 2 && s[0] != s[1] && x in s[1..]
    ensures leq(s[0], x) && s[0] != x
  {
    var i :| 0 <= i < |s[1..]| && s[1..][i] == x;
    assert s[i + 1] == x && leq(s[0], s[i + 1]);
    LeastComesFirst(leq, s[1..], x);
    assert s[1..][0] == s[1] && leq(s[1], x);
  }

  // ---- Lexicographic order of text ---------------------------------------------------

  predicate TextLeq(a: string, b: string) {
    if a == "" then true
    else if b == "" then false
    else if a[0] != b[0] then a[0] < b[0]
    else TextLeq(a[1..], b[1..])
  }

  lemma {:induction false} TextTotal(a: string, b: string)
    ensures TextLeq(a, b) || TextLeq(b, a)
    ensures TextLeq(a, b) && TextLeq(b, a) ==> a == b
  {
    if a != "" && b != "" && a[0] == b[0] {
      TextTotal(a[1..], b[1..]);
      assert a == [a[0]] + a[1..] && b == [b[0]] + b[1..];
    }
  }

  lemma {:induction false} TextTransitive(a: string, b: string, c: string)
    requires TextLeq(a, b) && TextLeq(b, c)
    ensures TextLeq(a, c)
  {
    if a != "" && b != "" && c != "" && a[0] == b[0] == c[0] {
      TextTransitive(a[1..], b[1..], c[1..]);
    }
  }

  /** `a` ends where `b` goes on, or has the smaller character where the two first differ. */
  ghost predicate TextBefore(a: string, b: string) {
    exists k :: 0 <= k <= |a| && k < |b| && a[..k] == b[..k] && (k == |a| || a[k] < b[k])
  }

  lemma {:induction false} TextOrderMeans(a: string, b: string)
    ensures TextLeq(a, b) && a != b <==> TextBefore(a, b)
  {
    if a == "" || b == "" || a[0] != b[0] {
      if TextLeq(a, b) && a != b { assert a[..0] == b[..0]; }
    } else {
      var a', b' := a[1..], b[1..];
      TextOrderMeans(a', b');
      assert a == [a[0]] + a' && b == [a[0]] + b';
      if TextBefore(a', b') {
        var k :| 0 <= k <= |a'| && k < |b'| && a'[..k] == b'[..k] && (k == |a'| || a'[k] < b'[k]);
        assert a[..k + 1] == [a[0]] + a'[..k] && b[..k + 1] == [a[0]] + b'[..k];
      }
      if TextBefore(a, b) {
        var k :| 0 <= k <= |a| && k < |b| && a[..k] == b[..k] && (k == |a| || a[k] < b[k]);
        assert k > 0;
        assert a'[..k - 1] == a[..k][1..] && b'[..k - 1] == b[..k][1..];
      }
    }
  }

  // ---- Parts of a list in its order ----------------------------------------------------

  /** Leaving out some places of `whole` gives `part`. */
  ghost predicate IsSubsequence<T(!new)>(part: seq<T>, whole: seq<T>) {
    part == []
    || (whole != []
        && (IsSubsequence(part, whole[1..]) || (part[0] == whole[0] && IsSubsequence(part[1..], whole[1..]))))
  }
}
