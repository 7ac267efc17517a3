/** Filtering of lists, and the stable sort that Python's `sorted` promises. */
module StableSort {

  function Filter<T(!new)>(p: T -> bool, s: seq<T>): (r: seq<T>)
    ensures |r| <= |s|
  {
    if s == [] then []
    else if p(s[0]) then [s[0]] + Filter(p, s[1..])
    else Filter(p, s[1..])
  }

  lemma {:induction false} FilterMembers<T(!new)>(p: T -> bool, s: seq<T>)
    ensures forall x :: x in Filter(p, s) <==> x in s && p(x)
  {
    if s != [] {
      FilterMembers(p, s[1..]);
      forall x ensures x in Filter(p, s) <==> x in s && p(x) {
        assert x in s <==> x == s[0] || x in s[1..];
      }
    }
  }

  lemma {:induction false} FilterAppend<T(!new)>(p: T -> bool, s: seq<T>, t: seq<T>)
    ensures Filter(p, s + t) == Filter(p, s) + Filter(p, t)
  {
    if s == [] {
      assert s + t == t;
    } else {
      assert (s + t)[1..] == s[1..] + t;
      FilterAppend(p, s[1..], t);
    }
  }

  lemma {:induction false} FilterAll<T(!new)>(p: T -> bool, s: seq<T>)
    requires forall x :: x in s ==> p(x)
    ensures Filter(p, s) == s
  {
    if s != [] {
      FilterAll(p, s[1..]);
    }
  }

  ghost predicate TotalPreorder<T(!new)>(le: (T, T) -> bool) {
    && (forall x, y :: le(x, y) || le(y, x))
    && (forall x, y, z :: le(x, y) && le(y, z) ==> le(x, z))
  }

  ghost predicate Sorted<T>(le: (T, T) -> bool, s: seq<T>) {
    forall i, j :: 0 <= i < j < |s| ==> le(s[i], s[j])
  }

  function Equiv<T>(le: (T, T) -> bool, x: T): T -> bool {
    y => le(x, y) && le(y, x)
  }

  /** What `sorted` promises: ascending order, and within each class of equal keys the
      elements of the input in their input order. */
  ghost predicate IsStableSort<T(!new)>(le: (T, T) -> bool, s: seq<T>, r: seq<T>) {
    && Sorted(le, r)
    && forall x :: Filter(Equiv(le, x), r) == Filter(Equiv(le, x), s)
  }

  function Insert<T>(le: (T, T) -> bool, x: T, s: seq<T>): seq<T> {
    if s == [] || le(x, s[0]) then [x] + s else [s[0]] + Insert(le, x, s[1..])
  }

  function Sort<T>(le: (T, T) -> bool, s: seq<T>): seq<T> {
    if s == [] then [] else Insert(le, s[0], Sort(le, s[1..]))
  }

  lemma {:induction false} InsertMultiset<T>(le: (T, T) -> bool, x: T, s: seq<T>)
    ensures multiset(Insert(le, x, s)) == multiset(s) + multiset{x}
  {
    if s != [] && !le(x, s[0]) {
      InsertMultiset(le, x, s[1..]);
      ConsMultiset(s[0], Insert(le, x, s[1..]));
      ConsMultiset(s[0], s[1..]);
      assert s == [s[0]] + s[1..];
    } else {
      ConsMultiset(x, s);
    }
  }

  lemma {:induction false} ConsMultiset<T>(x: T, s: seq<T>)
    ensures multiset([x] + s) == multiset(s) + multiset{x}
  {
  }

  lemma {:induction false} SortPermutes<T>(le: (T, T) -> bool, s: seq<T>)
    ensures multiset(Sort(le, s)) == multiset(s)
  {
    if s != [] {
      SortPermutes(le, s[1..]);
      InsertMultiset(le, s[0], Sort(le, s[1..]));
      assert s == [s[0]] + s[1..];
    }
  }

  lemma {:induction false} SameElements<T>(r: seq<T>, s: seq<T>)
    requires multiset(r) == multiset(s)
    ensures |r| == |s| && forall x :: x in r <==> x in s
  {
    assert |multiset(r)| == |multiset(s)|;
    assert forall x :: x in r <==> x in multiset(r);
  }

  lemma {:induction false} SortMultiset<T>(le: (T, T) -> bool, s: seq<T>)
    ensures multiset(Sort(le, s)) == multiset(s)
    ensures |Sort(le, s)| == |s|
    ensures forall x :: x in Sort(le, s) <==> x in s
  {
    SortPermutes(le, s);
    SameElements(Sort(le, s), s);
  }

  lemma {:induction false} InsertSorted<T(!new)>(le: (T, T) -> bool, x: T, s: seq<T>)
    requires TotalPreorder(le) && Sorted(le, s)
    ensures Sorted(le, Insert(le, x, s))
  {
    if s != [] && !le(x, s[0]) {
      InsertSorted(le, x, s[1..]);
      var t := Insert(le, x, s[1..]);
      InsertMultiset(le, x, s[1..]);
      forall y | y in t ensures le(s[0], y) {
        assert y in multiset(t);
        assert y == x || y in s[1..];
      }
    }
  }

  lemma {:induction false} SortSorted<T(!new)>(le: (T, T) -> bool, s: seq<T>)
    requires TotalPreorder(le)
    ensures Sorted(le, Sort(le, s))
  {
    if s != [] {
      SortSorted(le, s[1..]);
      InsertSorted(le, s[0], Sort(le, s[1..]));
    }
  }

  lemma {:induction false} FilterInsert<T(!new)>(le: (T, T) -> bool, p: T -> bool, x: T, s: seq<T>)
    requires TotalPreorder(le) && Sorted(le, s)
    ensures Filter(p, Insert(le, x, s)) == if p(x) then Insert(le, x, Filter(p, s)) else Filter(p, s)
  {
    if s == [] || le(x, s[0]) {
      assert ([x] + s)[1..] == s;
      var f := Filter(p, s);
      FilterMembers(p, s);
      if f != [] {
        assert f[0] in s;
        assert le(x, f[0]);
      }
    } else {
      FilterInsert(le, p, x, s[1..]);
      assert ([s[0]] + Insert(le, x, s[1..]))[1..] == Insert(le, x, s[1..]);
      if p(s[0]) {
        assert ([s[0]] + Filter(p, s[1..]))[1..] == Filter(p, s[1..]);
      }
    }
  }

  /** Dropping elements and sorting stably commute. */
  lemma {:induction false} FilterSort<T(!new)>(le: (T, T) -> bool, p: T -> bool, s: seq<T>)
    requires TotalPreorder(le)
    ensures Filter(p, Sort(le, s)) == Sort(le, Filter(p, s))
  {
    if s != [] {
      FilterSort(le, p, s[1..]);
      SortSorted(le, s[1..]);
      FilterInsert(le, p, s[0], Sort(le, s[1..]));
      if p(s[0]) {
        assert ([s[0]] + Filter(p, s[1..]))[1..] == Filter(p, s[1..]);
      }
    }
  }

  lemma {:induction false} SortOfSorted<T(!new)>(le: (T, T) -> bool, s: seq<T>)
    requires TotalPreorder(le) && Sorted(le, s)
    ensures Sort(le, s) == s
  {
    if s != [] {
      SortOfSorted(le, s[1..]);
    }
  }

  lemma {:induction false} SortOfEquivalent<T(!new)>(le: (T, T) -> bool, x: T, s: seq<T>)
    requires TotalPreorder(le)
    ensures Sort(le, Filter(Equiv(le, x), s)) == Filter(Equiv(le, x), s)
  {
    var f := Filter(Equiv(le, x), s);
    FilterMembers(Equiv(le, x), s);
    forall i, j | 0 <= i < j < |f| ensures le(f[i], f[j]) {
      assert f[i] in f && f[j] in f;
      assert le(f[i], x) && le(x, f[j]);
    }
    SortOfSorted(le, f);
  }

  /** `Sort` is the stable sort: it meets the promise, and nothing else does. */
  lemma {:induction false} SortIsTheStableSort<T(!new)>(le: (T, T) -> bool, s: seq<T>, r: seq<T>)
    requires TotalPreorder(le)
    ensures IsStableSort(le, s, r) <==> r == Sort(le, s)
  {
    SortSorted(le, s);
    forall x ensures Filter(Equiv(le, x), Sort(le, s)) == Filter(Equiv(le, x), s) {
      FilterSort(le, Equiv(le, x), s);
      SortOfEquivalent(le, x, s);
    }
    if IsStableSort(le, s, r) {
      SameClassesEqual(le, r, Sort(le, s));
    }
  }

  lemma {:induction false} SameClassesEqual<T(!new)>(le: (T, T) -> bool, r: seq<T>, t: seq<T>)
    requires TotalPreorder(le) && Sorted(le, r) && Sorted(le, t)
    requires forall x :: Filter(Equiv(le, x), r) == Filter(Equiv(le, x), t)
    ensures r == t
  {
    if r != [] {
      ClassMember(le, r, t, r[0]);
    }
    if t != [] {
      ClassMember(le, t, r, t[0]);
    }
    if r != [] {
      var a, b := r[0], t[0];
      HeadOfClass(le, r, a);
      HeadOfClass(le, t, a);
      assert a == Filter(Equiv(le, a), r)[0] == b;
      forall x ensures Filter(Equiv(le, x), r[1..]) == Filter(Equiv(le, x), t[1..]) {
        FilterTails(Equiv(le, x), r, t);
      }
      SameClassesEqual(le, r[1..], t[1..]);
      assert r == [a] + r[1..] && t == [b] + t[1..];
    }
  }

  lemma {:induction false} FilterTails<T(!new)>(p: T -> bool, r: seq<T>, t: seq<T>)
    requires r != [] && t != [] && r[0] == t[0] && Filter(p, r) == Filter(p, t)
    ensures Filter(p, r[1..]) == Filter(p, t[1..])
  {
    var head := if p(r[0]) then [r[0]] else [];
    assert Filter(p, r) == head + Filter(p, r[1..]) && Filter(p, t) == head + Filter(p, t[1..]);
    assert Filter(p, r[1..]) == Filter(p, r)[|head|..] == Filter(p, t)[|head|..];
  }

  lemma {:induction false} ClassMember<T(!new)>(le: (T, T) -> bool, r: seq<T>, t: seq<T>, x: T)
    requires TotalPreorder(le) && x in r && Filter(Equiv(le, x), r) == Filter(Equiv(le, x), t)
    ensures x in t
  {
    FilterMembers(Equiv(le, x), r);
    FilterMembers(Equiv(le, x), t);
  }

  lemma {:induction false} HeadOfClass<T(!new)>(le: (T, T) -> bool, s: seq<T>, x: T)
    requires TotalPreorder(le) && s != [] && le(x, s[0]) && le(s[0], x)
    ensures Filter(Equiv(le, x), s) == [s[0]] + Filter(Equiv(le, x), s[1..])
  {
  }

  /** Insertion behind the elements with an equal key. */
  function InsertLast<T>(le: (T, T) -> bool, x: T, s: seq<T>): seq<T> {
    if s == [] || !le(s[0], x) then [x] + s else [s[0]] + InsertLast(le, x, s[1..])
  }

  lemma {:induction false} InsertsCommute<T(!new)>(le: (T, T) -> bool, x: T, y: T, s: seq<T>)
    requires TotalPreorder(le) && Sorted(le, s)
    ensures Insert(le, x, InsertLast(le, y, s)) == InsertLast(le, y, Insert(le, x, s))
  {
    if s != [] {
      assert ([x] + s)[1..] == s && ([y] + s)[1..] == s;
      if le(s[0], y) {
        assert ([s[0]] + InsertLast(le, y, s[1..]))[1..] == InsertLast(le, y, s[1..]);
      }
      if !le(x, s[0]) {
        assert ([s[0]] + Insert(le, x, s[1..]))[1..] == Insert(le, x, s[1..]);
      }
      if le(s[0], y) && !le(x, s[0]) {
        InsertsCommute(le, x, y, s[1..]);
      }
    }
  }

  lemma {:induction false} SortAppend<T(!new)>(le: (T, T) -> bool, s: seq<T>, x: T)
    requires TotalPreorder(le)
    ensures Sort(le, s + [x]) == InsertLast(le, x, Sort(le, s))
  {
    if s == [] {
      assert s + [x] == [x];
    } else {
      assert (s + [x])[1..] == s[1..] + [x];
      SortAppend(le, s[1..], x);
      SortSorted(le, s[1..]);
      InsertsCommute(le, s[0], x, Sort(le, s[1..]));
    }
  }

  /** Re-sorting after every arrival gives the list that one sort at the end gives. */
  lemma {:induction false} ResortAfterAppend<T(!new)>(le: (T, T) -> bool, s: seq<T>, x: T)
    requires TotalPreorder(le)
    ensures Sort(le, Sort(le, s) + [x]) == Sort(le, s + [x])
  {
    SortAppend(le, s, x);
    SortAppend(le, Sort(le, s), x);
    SortSorted(le, s);
    SortOfSorted(le, Sort(le, s));
  }

  ghost predicate FirstLeast<T>(le: (T, T) -> bool, s: seq<T>, i: nat) {
    && i < |s|
    && (forall j :: 0 <= j < |s| ==> le(s[i], s[j]))
    && (forall j :: 0 <= j < i ==> !le(s[j], s[i]))
  }

  lemma {:induction false} HeadLeast<T(!new)>(le: (T, T) -> bool, s: seq<T>)
    requires TotalPreorder(le) && s != []
    requires |s| > 1 ==> Sort(le, s[1..]) != [] && le(s[0], Sort(le, s[1..])[0])
    ensures FirstLeast(le, s, 0)
  {
    SortSorted(le, s[1..]);
    SortMultiset(le, s[1..]);
    forall j | 0 < j < |s| ensures le(s[0], s[j]) {
      assert s[j] in s[1..];
      assert s[j] in Sort(le, s[1..]);
    }
  }

  lemma {:induction false} LaterLeast<T(!new)>(le: (T, T) -> bool, s: seq<T>, k: nat)
    requires TotalPreorder(le) && s != [] && FirstLeast(le, s[1..], k) && !le(s[0], s[1..][k])
    ensures FirstLeast(le, s, k + 1)
  {
    assert forall j :: 0 < j < |s| ==> s[j] == s[1..][j - 1];
  }

  /** The position of the earliest least element. */
  function LeastIndex<T>(le: (T, T) -> bool, s: seq<T>): (i: nat)
    requires s != []
    ensures i < |s|
  {
    if |s| == 1 then 0
    else
      var k := 1 + LeastIndex(le, s[1..]);
      if le(s[0], s[k]) then 0 else k
  }

  lemma {:induction false} LeastIndexIsFirst<T(!new)>(le: (T, T) -> bool, s: seq<T>)
    requires TotalPreorder(le) && s != []
    ensures FirstLeast(le, s, LeastIndex(le, s))
  {
    if |s| > 1 {
      LeastIndexIsFirst(le, s[1..]);
      var k := LeastIndex(le, s[1..]);
      if le(s[0], s[k + 1]) {
        assert forall j :: 0 < j < |s| ==> s[j] == s[1..][j - 1];
      } else {
        LaterLeast(le, s, k);
      }
    }
  }

  lemma {:induction false} LeastIndexOnly<T(!new)>(le: (T, T) -> bool, s: seq<T>, i: nat)
    requires TotalPreorder(le) && FirstLeast(le, s, i)
    ensures i == LeastIndex(le, s)
  {
    LeastIndexIsFirst(le, s);
  }

  function Without<T>(s: seq<T>, i: nat): seq<T>
    requires i < |s|
  {
    s[..i] + s[i + 1..]
  }

  lemma {:induction false} SortHeadStep<T>(le: (T, T) -> bool, s: seq<T>, k: nat)
    requires s != [] && k < |s| - 1 && !le(s[0], s[k + 1])
    requires Sort(le, s[1..]) == [s[1..][k]] + Sort(le, Without(s[1..], k))
    ensures Sort(le, s) == [s[k + 1]] + Sort(le, Without(s, k + 1))
  {
    var t, without := Sort(le, s[1..]), Without(s, k + 1);
    assert without[0] == s[0] && without[1..] == Without(s[1..], k);
    assert t[0] == s[k + 1] && t[1..] == Sort(le, Without(s[1..], k));
  }

  /** The head of the sorted list is the earliest least element, and the tail is the sort
      of what remains when that element leaves. */
  lemma {:induction false} SortHead<T(!new)>(le: (T, T) -> bool, s: seq<T>) returns (i: nat)
    requires TotalPreorder(le) && s != []
    ensures FirstLeast(le, s, i)
    ensures Sort(le, s) == [s[i]] + Sort(le, Without(s, i))
  {
    SortMultiset(le, s[1..]);
    if |s| == 1 || le(s[0], Sort(le, s[1..])[0]) {
      i := 0;
      assert Without(s, 0) == s[1..];
      HeadLeast(le, s);
    } else {
      var k := SortHead(le, s[1..]);
      i := k + 1;
      SortHeadStep(le, s, k);
      LaterLeast(le, s, k);
    }
  }

  function Map<T, U>(f: T -> U, s: seq<T>): (r: seq<U>)
    ensures |r| == |s| && forall i :: 0 <= i < |r| ==> r[i] == f(s[i])
  {
    seq(|s|, i requires 0 <= i < |s| => f(s[i]))
  }

  ghost predicate NoRepeats<T>(s: seq<T>) {
    forall i, j :: 0 <= i < j < |s| ==> s[i] != s[j]
  }

  lemma {:induction false} FilterOut<T(!new)>(p: T -> bool, s: seq<T>)
    requires forall x :: x in s ==> !p(x)
    ensures Filter(p, s) == []
  {
    if s != [] {
      FilterOut(p, s[1..]);
    }
  }

  // ---- where the elements go ----

  /** `x` goes right before the first element that is not smaller. */
  lemma {:induction false} InsertAt<T(!new)>(le: (T, T) -> bool, x: T, s: seq<T>) returns (k: nat)
    requires TotalPreorder(le) && Sorted(le, s)
    ensures k <= |s| && Insert(le, x, s) == s[..k] + [x] + s[k..]
    ensures (forall j :: 0 <= j < k ==> !le(x, s[j])) && (forall j :: k <= j < |s| ==> le(x, s[j]))
  {
    if s == [] || le(x, s[0]) {
      k := 0;
    } else {
      var m := InsertAt(le, x, s[1..]);
      k := m + 1;
      assert [s[0]] + s[1..][..m] == s[..k] && s[1..][m..] == s[k..];
      assert forall j :: 0 < j < |s| ==> s[j] == s[1..][j - 1];
    }
  }

  /** `pos` lists every position of `s` once, in the order of the keys, and among equal keys
      in the order of the positions. */
  ghost predicate InOrder<T>(le: (T, T) -> bool, s: seq<T>, pos: seq<nat>) {
    && |pos| == |s|
    && (forall p :: 0 <= p < |pos| ==> pos[p] < |s|)
    && (forall i :: 0 <= i < |s| ==> i in pos)
    && (forall p, q :: 0 <= p < q < |pos| ==> Before(le, s, pos[p], pos[q]))
  }

  ghost predicate Before<T>(le: (T, T) -> bool, s: seq<T>, i: int, j: int) {
    0 <= i < |s| && 0 <= j < |s| && le(s[i], s[j]) && (le(s[j], s[i]) ==> i < j)
  }

  ghost predicate Picks<T>(s: seq<T>, pos: seq<nat>, r: seq<T>) {
    |r| == |pos| && forall p :: 0 <= p < |pos| ==> pos[p] < |s| && r[p] == s[pos[p]]
  }

  /** One more element in front moves every position up by one. */
  ghost function Shifted(pos: seq<nat>, k: nat): (r: seq<nat>)
    requires k <= |pos|
    ensures |r| == |pos| + 1
    ensures forall p :: 0 <= p < |r| ==> r[p] == if p < k then pos[p] + 1 else if p == k then 0 else pos[p - 1] + 1
  {
    seq(|pos| + 1, p requires 0 <= p < |pos| + 1 =>
      if p < k then pos[p] + 1 else if p == k then 0 else pos[p - 1] + 1)
  }

  lemma {:induction false} ShiftedMember(pos: seq<nat>, k: nat, i: nat)
    requires k <= |pos| && (i > 0 ==> i - 1 in pos)
    ensures i in Shifted(pos, k)
  {
    var r := Shifted(pos, k);
    if i == 0 {
      assert r[k] == 0;
    } else {
      var p :| 0 <= p < |pos| && pos[p] == i - 1;
      assert r[if p < k then p else p + 1] == i;
    }
  }

  /** `k` is where the new first element belongs. */
  ghost predicate Fits<T>(le: (T, T) -> bool, s: seq<T>, pos: seq<nat>, k: nat)
    requires s != [] && InOrder(le, s[1..], pos)
  {
    && k <= |pos|
    && (forall p :: 0 <= p < k ==> !le(s[0], s[1..][pos[p]]))
    && (forall p :: k <= p < |pos| ==> le(s[0], s[1..][pos[p]]))
  }

  lemma {:induction false} ShiftedPair<T(!new)>(le: (T, T) -> bool, s: seq<T>, pos: seq<nat>, k: nat, p: nat, q: nat)
    requires TotalPreorder(le) && s != [] && InOrder(le, s[1..], pos) && Fits(le, s, pos, k) && p < q <= |pos|
    ensures Before(le, s, Shifted(pos, k)[p], Shifted(pos, k)[q])
  {
    var p', q' := if p < k then p else p - 1, if q < k then q else q - 1;
    if p != k && q != k {
      assert Before(le, s[1..], pos[p'], pos[q']);
    }
  }

  lemma {:induction false} ShiftedOrder<T(!new)>(le: (T, T) -> bool, s: seq<T>, pos: seq<nat>, k: nat)
    requires TotalPreorder(le) && s != [] && InOrder(le, s[1..], pos) && Fits(le, s, pos, k)
    ensures InOrder(le, s, Shifted(pos, k))
  {
    var r := Shifted(pos, k);
    forall i: nat | i < |s| ensures i in r {
      ShiftedMember(pos, k, i);
    }
    forall p: nat, q: nat | p < q < |r| ensures Before(le, s, r[p], r[q]) {
      ShiftedPair(le, s, pos, k, p, q);
    }
  }

  lemma {:induction false} ShiftedPicks<T>(s: seq<T>, pos: seq<nat>, t: seq<T>, k: nat)
    requires s != [] && Picks(s[1..], pos, t) && k <= |t|
    ensures Picks(s, Shifted(pos, k), t[..k] + [s[0]] + t[k..])
  {
  }

  /** The sorted list is the input read in the order of keys and positions. */
  lemma {:induction false} SortPositions<T(!new)>(le: (T, T) -> bool, s: seq<T>) returns (pos: seq<nat>)
    requires TotalPreorder(le)
    ensures InOrder(le, s, pos) && Picks(s, pos, Sort(le, s))
  {
    if s == [] {
      pos := [];
    } else {
      var rest := SortPositions(le, s[1..]);
      var t := Sort(le, s[1..]);
      SortSorted(le, s[1..]);
      var k := InsertAt(le, s[0], t);
      ShiftedPicks(s, rest, t, k);
      assert forall p :: 0 <= p < |rest| ==> t[p] == s[1..][rest[p]];
      ShiftedOrder(le, s, rest, k);
      pos := Shifted(rest, k);
    }
  }

  lemma {:induction false} PositionOrder<T>(le: (T, T) -> bool, s: seq<T>, pos: seq<nat>, p: nat, q: nat)
    requires InOrder(le, s, pos) && p < |pos| && q < |pos|
    ensures p < q <==> pos[p] != pos[q] && Before(le, s, pos[p], pos[q])
  {
    if p < q {
      assert Before(le, s, pos[p], pos[q]);
    } else if q < p {
      assert Before(le, s, pos[q], pos[p]);
    }
  }

  lemma {:induction false} SameFilter<T(!new)>(p: T -> bool, q: T -> bool, s: seq<T>)
    requires forall x :: x in s ==> p(x) == q(x)
    ensures Filter(p, s) == Filter(q, s)
  {
    if s != [] {
      SameFilter(p, q, s[1..]);
    }
  }
}
