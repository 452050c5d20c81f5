// Small value-level helpers shared by the raffle model: an Option type for
// JavaScript's `undefined`, an order-preserving filter, the subsequence
// relation and repeated copies of one element.
module Common {

  /** `None` stands for JavaScript's `undefined` (a missing column, a missing key). */
  datatype Option<+T> = None | Some(value: T)

  /** A string field that JavaScript treats as truthy: present and non-empty. */
  predicate Truthy(o: Option<string>)
  {
    o.Some? && o.value != ""
  }

  /** `r` can be obtained from `s` by deleting elements, keeping the order of the rest. */
  ghost predicate IsSubsequence<T>(r: seq<T>, s: seq<T>)
    decreases |s|
  {
    if r == [] then true
    else if s == [] then false
    else (r[0] == s[0] && IsSubsequence(r[1..], s[1..])) || IsSubsequence(r, s[1..])
  }

  lemma {:induction false} SubsequenceNil<T>(s: seq<T>)
    ensures IsSubsequence([], s)
  {
  }

  /** Appending the same element to both sides keeps the subsequence relation. */
  lemma {:induction false} SubsequenceSnoc<T>(r: seq<T>, s: seq<T>, x: T)
    requires IsSubsequence(r, s)
    ensures IsSubsequence(r + [x], s + [x])
    decreases |s|
  {
    if r == [] {
      SingletonSubsequence(s, x);
      assert r + [x] == [x];
    } else {
      assert s != [];
      assert (r + [x])[1..] == r[1..] + [x];
      assert (s + [x])[1..] == s[1..] + [x];
      if r[0] == s[0] && IsSubsequence(r[1..], s[1..]) {
        SubsequenceSnoc(r[1..], s[1..], x);
      } else {
        SubsequenceSnoc(r, s[1..], x);
      }
    }
  }

  /** A single `x` is a subsequence of any sequence that ends in `x`. */
  lemma {:induction false} SingletonSubsequence<T>(s: seq<T>, x: T)
    ensures IsSubsequence([x], s + [x])
    decreases |s|
  {
    if s == [] {
      assert [x][1..] == [];
    } else {
      assert (s + [x])[1..] == s[1..] + [x];
      SingletonSubsequence(s[1..], x);
    }
  }

  /** Appending an element only to the larger side keeps the subsequence relation. */
  lemma {:induction false} SubsequenceExtend<T>(r: seq<T>, s: seq<T>, x: T)
    requires IsSubsequence(r, s)
    ensures IsSubsequence(r, s + [x])
    decreases |s|
  {
    if r != [] {
      assert s != [];
      assert (s + [x])[1..] == s[1..] + [x];
      if r[0] == s[0] && IsSubsequence(r[1..], s[1..]) {
        SubsequenceExtend(r[1..], s[1..], x);
      } else {
        SubsequenceExtend(r, s[1..], x);
      }
    }
  }

  /** The same first element on both sides keeps the subsequence relation. */
  lemma SubsequenceCons<T>(x: T, r: seq<T>, s: seq<T>)
    requires IsSubsequence(r, s)
    ensures IsSubsequence([x] + r, [x] + s)
  {
    assert ([x] + r)[1..] == r && ([x] + s)[1..] == s;
  }

  /** An element in front of the larger side only keeps the subsequence relation. */
  lemma SubsequenceDrop<T>(r: seq<T>, x: T, s: seq<T>)
    requires IsSubsequence(r, s)
    ensures IsSubsequence(r, [x] + s)
  {
    assert ([x] + s)[1..] == s;
  }

  /** The elements of `s` that satisfy `keep`, in their original order (JavaScript's `Array.prototype.filter`). */
  function Filter<T>(s: seq<T>, keep: T -> bool): (r: seq<T>)
    ensures |r| <= |s|
    ensures forall k :: 0 <= k < |r| ==> keep(r[k]) && r[k] in s
    ensures forall k :: 0 <= k < |s| && keep(s[k]) ==> s[k] in r
    ensures IsSubsequence(r, s)
    decreases |s|
  {
    if s == [] then []
    else if keep(s[0]) then [s[0]] + Filter(s[1..], keep)
    else Filter(s[1..], keep)
  }

  /** Each element is kept exactly as often as it occurs when it passes, and never otherwise. */
  lemma {:induction false} FilterCount<T>(s: seq<T>, keep: T -> bool, y: T)
    ensures multiset(Filter(s, keep))[y] == if keep(y) then multiset(s)[y] else 0
    decreases |s|
  {
    if s != [] {
      assert s == [s[0]] + s[1..];
      FilterCount(s[1..], keep, y);
    }
  }

  /** `n` copies of `x`, or none when `n` is not positive (a `for (i = 0; i < n; i++) push(x)` loop). */
  function Copies<T>(x: T, n: int): (r: seq<T>)
    ensures |r| == if n <= 0 then 0 else n
    ensures forall k :: 0 <= k < |r| ==> r[k] == x
  {
    if n <= 0 then [] else seq(n, _ => x)
  }

  /** Each copy counts once in the multiset, and nothing else is in it. */
  lemma {:induction false} CopiesMultiset<T>(x: T, n: int, y: T)
    ensures multiset(Copies(x, n))[y] == if y == x && n > 0 then n else 0
    decreases if n <= 0 then 0 else n
  {
    if n > 0 {
      assert Copies(x, n) == Copies(x, n - 1) + [x];
      CopiesMultiset(x, n - 1, y);
    }
  }

  /** Filtering a sequence with one more element at the end. */
  lemma {:induction false} FilterSnoc<T>(s: seq<T>, x: T, keep: T -> bool)
    ensures Filter(s + [x], keep) == Filter(s, keep) + (if keep(x) then [x] else [])
    decreases |s|
  {
    if s == [] {
      assert [x][1..] == [];
    } else {
      assert (s + [x])[1..] == s[1..] + [x];
      FilterSnoc(s[1..], x, keep);
    }
  }

  /** The first index at or after `from` whose element satisfies `p` (a `for ... of` loop that
      returns on the first match). */
  function FirstFrom<T>(s: seq<T>, p: T -> bool, from: nat): (r: Option<nat>)
    ensures r.Some? ==> from <= r.value < |s| && p(s[r.value]) && forall j :: from <= j < r.value ==> !p(s[j])
    ensures r.None? ==> forall j :: from <= j < |s| ==> !p(s[j])
    decreases |s| - from
  {
    if from >= |s| then None
    else if p(s[from]) then Some(from)
    else FirstFrom(s, p, from + 1)
  }

  /** `FirstFrom` only looks at whether each element satisfies `p`. */
  lemma {:induction false} FirstFromAgrees<T>(s: seq<T>, t: seq<T>, p: T -> bool, from: nat)
    requires |s| == |t|
    requires forall j :: from <= j < |s| ==> p(s[j]) == p(t[j])
    ensures FirstFrom(s, p, from) == FirstFrom(t, p, from)
    decreases |s| - from
  {
    if from < |s| && !p(s[from]) {
      FirstFromAgrees(s, t, p, from + 1);
    }
  }

  /** Appending an element changes `FirstFrom` only when nothing before it matched. */
  lemma {:induction false} FirstFromSnoc<T>(s: seq<T>, x: T, p: T -> bool, from: nat)
    requires from <= |s|
    ensures FirstFrom(s + [x], p, from) ==
      if FirstFrom(s, p, from).Some? then FirstFrom(s, p, from) else if p(x) then Some(|s|) else None
    decreases |s| - from
  {
    if from < |s| {
      assert (s + [x])[from] == s[from];
      if !p(s[from]) {
        FirstFromSnoc(s, x, p, from + 1);
      }
    } else {
      assert (s + [x])[from] == x;
      assert FirstFrom(s + [x], p, from + 1) == None;
    }
  }

  // ---------------------------------------------------------------------------
  // sums

  /** The sum of `f` over the elements. */
  function SumOf<T>(s: seq<T>, f: T -> nat): nat
  {
    if s == [] then 0 else f(s[0]) + SumOf(s[1..], f)
  }

  lemma {:induction false} SumOfAppend<T>(s: seq<T>, t: seq<T>, f: T -> nat)
    ensures SumOf(s + t, f) == SumOf(s, f) + SumOf(t, f)
  {
    if s != [] {
      assert (s + t)[1..] == s[1..] + t;
      SumOfAppend(s[1..], t, f);
    } else {
      assert s + t == t;
    }
  }

  /** Replacing one element changes the sum by the difference of the two values. */
  lemma {:induction false} SumOfUpdate<T>(s: seq<T>, i: nat, x: T, f: T -> nat)
    requires i < |s|
    ensures SumOf(s[i := x], f) + f(s[i]) == SumOf(s, f) + f(x)
  {
    if i > 0 {
      assert s[i := x][1..] == s[1..][i - 1 := x];
      SumOfUpdate(s[1..], i - 1, x, f);
    }
  }

  /** Sequences whose elements have the same values, place by place, have the same sum. */
  lemma {:induction false} SumOfAgrees<T>(s: seq<T>, t: seq<T>, f: T -> nat)
    requires |s| == |t| && forall i :: 0 <= i < |s| ==> f(s[i]) == f(t[i])
    ensures SumOf(s, f) == SumOf(t, f)
  {
    if s != [] {
      SumOfAgrees(s[1..], t[1..], f);
    }
  }

  /** The sum over a prefix one element longer. */
  lemma SumOfPrefix<T>(s: seq<T>, n: nat, f: T -> nat)
    requires n < |s|
    ensures SumOf(s[..n + 1], f) == SumOf(s[..n], f) + f(s[n])
  {
    assert s[..n + 1] == s[..n] + [s[n]];
    SumOfAppend(s[..n], [s[n]], f);
  }

  // ---------------------------------------------------------------------------
  // stable sorting

  /** `s` is ordered: no element is strictly before an element that precedes it. */
  ghost predicate SortedBy<T>(s: seq<T>, lt: (T, T) -> bool)
  {
    forall i, j :: 0 <= i < j < |s| ==> !lt(s[j], s[i])
  }

  /** `lt` is a strict order: irreflexive and transitive. */
  ghost predicate StrictOrder<T(!new)>(lt: (T, T) -> bool)
  {
    && (forall a :: !lt(a, a))
    && (forall a, b, c :: lt(a, b) && lt(b, c) ==> lt(a, c))
  }

  /** Inserts `x` before the first element it is strictly before, so after any equal ones. */
  function InsertBy<T>(x: T, s: seq<T>, lt: (T, T) -> bool): (r: seq<T>)
    ensures |r| == |s| + 1
    ensures multiset(r) == multiset(s) + multiset{x}
  {
    if s == [] || lt(x, s[0]) then [x] + s
    else
      assert s == [s[0]] + s[1..];
      [s[0]] + InsertBy(x, s[1..], lt)
  }

  /** Insertion sort, taking the elements in order: a stable sort by `lt`. */
  function SortBy<T>(s: seq<T>, lt: (T, T) -> bool): (r: seq<T>)
    ensures |r| == |s|
    ensures multiset(r) == multiset(s)
  {
    if s == [] then []
    else
      assert s == s[..|s| - 1] + [s[|s| - 1]];
      InsertBy(s[|s| - 1], SortBy(s[..|s| - 1], lt), lt)
  }

  lemma {:induction false} InsertBySorted<T(!new)>(x: T, s: seq<T>, lt: (T, T) -> bool)
    requires StrictOrder(lt) && SortedBy(s, lt)
    ensures SortedBy(InsertBy(x, s, lt), lt)
  {
    if s == [] {
    } else if lt(x, s[0]) {
      InsertBeforeSorted(x, s, lt);
    } else {
      InsertBySorted(x, s[1..], lt);
      InsertAfterSorted(x, s, lt);
    }
  }

  /** An element that goes before the head of an ordered list keeps it ordered. */
  lemma InsertBeforeSorted<T(!new)>(x: T, s: seq<T>, lt: (T, T) -> bool)
    requires StrictOrder(lt) && SortedBy(s, lt) && s != [] && lt(x, s[0])
    ensures SortedBy(InsertBy(x, s, lt), lt)
  {
    var r := InsertBy(x, s, lt);
    assert r == [x] + s;
    forall i, j | 0 <= i < j < |r| ensures !lt(r[j], r[i]) {
      if i == 0 {
        if j > 1 {
          assert !lt(s[j - 1], s[0]);
        }
      } else {
        assert r[i] == s[i - 1] && r[j] == s[j - 1];
      }
    }
  }

  /** An element that does not go before the head is inserted into the tail, which stays
      behind the head. */
  lemma InsertAfterSorted<T(!new)>(x: T, s: seq<T>, lt: (T, T) -> bool)
    requires StrictOrder(lt) && SortedBy(s, lt) && s != [] && !lt(x, s[0])
    requires SortedBy(InsertBy(x, s[1..], lt), lt)
    ensures SortedBy(InsertBy(x, s, lt), lt)
  {
    var rest := InsertBy(x, s[1..], lt);
    var r := InsertBy(x, s, lt);
    assert r == [s[0]] + rest;
    forall j | 0 <= j < |rest| ensures !lt(rest[j], s[0]) {
      InsertByElement(x, s[1..], lt, j);
      if rest[j] != x {
        var k :| 0 <= k < |s[1..]| && s[1..][k] == rest[j];
        assert s[k + 1] == rest[j];
      }
    }
    forall i, j | 0 <= i < j < |r| ensures !lt(r[j], r[i]) {
      if i == 0 {
        assert r[j] == rest[j - 1];
      } else {
        assert r[i] == rest[i - 1] && r[j] == rest[j - 1];
      }
    }
  }

  /** Every element of `InsertBy(x, s, lt)` is `x` or an element of `s`. */
  lemma InsertByElement<T>(x: T, s: seq<T>, lt: (T, T) -> bool, j: nat)
    requires j < |InsertBy(x, s, lt)|
    ensures InsertBy(x, s, lt)[j] == x || InsertBy(x, s, lt)[j] in s
  {
    var r := InsertBy(x, s, lt);
    assert r[j] in multiset(r);
    assert r[j] in multiset(s) + multiset{x};
  }

  /** `SortBy` orders its result whenever `lt` is a strict order. */
  lemma {:induction false} SortBySorted<T(!new)>(s: seq<T>, lt: (T, T) -> bool)
    requires StrictOrder(lt)
    ensures SortedBy(SortBy(s, lt), lt)
  {
    if s != [] {
      SortBySorted(s[..|s| - 1], lt);
      InsertBySorted(s[|s| - 1], SortBy(s[..|s| - 1], lt), lt);
    }
  }

  /** `f` applied to every element, in order (`Array.prototype.map`). */
  function Apply<T, U>(s: seq<T>, f: T -> U): (r: seq<U>)
    ensures |r| == |s|
    ensures forall k :: 0 <= k < |s| ==> r[k] == f(s[k])
  {
    seq(|s|, k requires 0 <= k < |s| => f(s[k]))
  }

  lemma ApplyCons<T, U>(x: T, s: seq<T>, f: T -> U)
    ensures Apply([x] + s, f) == [f(x)] + Apply(s, f)
  {
  }

  lemma {:induction false} InsertByApply<T, U>(x: T, s: seq<T>, lt: (T, T) -> bool, f: T -> U)
    ensures multiset(Apply(InsertBy(x, s, lt), f)) == multiset(Apply(s, f)) + multiset{f(x)}
  {
    if s == [] || lt(x, s[0]) {
      ApplyCons(x, s, f);
    } else {
      var rest := InsertBy(x, s[1..], lt);
      InsertByApply(x, s[1..], lt, f);
      ApplyCons(s[0], rest, f);
      ApplyCons(s[0], s[1..], f);
      assert [s[0]] + s[1..] == s;
    }
  }

  /** Sorting permutes the elements, so it permutes anything computed from each of them. */
  lemma {:induction false} SortByApply<T, U>(s: seq<T>, lt: (T, T) -> bool, f: T -> U)
    ensures multiset(Apply(SortBy(s, lt), f)) == multiset(Apply(s, f))
  {
    if s != [] {
      var n := |s| - 1;
      SortByApply(s[..n], lt, f);
      InsertByApply(s[n], SortBy(s[..n], lt), lt, f);
      assert Apply(s, f) == Apply(s[..n], f) + [f(s[n])];
    }
  }

  lemma {:induction false} InsertBySum<T>(x: T, s: seq<T>, lt: (T, T) -> bool, f: T -> nat)
    ensures SumOf(InsertBy(x, s, lt), f) == f(x) + SumOf(s, f)
  {
    if s != [] && !lt(x, s[0]) {
      InsertBySum(x, s[1..], lt, f);
    }
  }

  /** Sorting does not change a sum. */
  lemma {:induction false} SortBySum<T>(s: seq<T>, lt: (T, T) -> bool, f: T -> nat)
    ensures SumOf(SortBy(s, lt), f) == SumOf(s, f)
  {
    if s != [] {
      var n := |s| - 1;
      var sorted := SortBy(s[..n], lt);
      SortBySum(s[..n], lt, f);
      assert SortBy(s, lt) == InsertBy(s[n], sorted, lt);
      InsertBySum(s[n], sorted, lt, f);
      SumOfPrefix(s, n, f);
      assert s[..n + 1] == s;
    }
  }

}
