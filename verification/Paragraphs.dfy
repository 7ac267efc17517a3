/** Paragraph splitting and joining. */
module Paragraphs {

  const SEPARATOR := "\n\n"

  predicate BreakAt(text: string, i: int) {
    0 <= i < |text| - 1 && text[i] == '\n' && text[i + 1] == '\n'
  }

  function FirstBreak(text: string, from: nat): (i: nat)
    requires from <= |text|
    ensures from <= i <= |text| && (i < |text| ==> BreakAt(text, i))
    ensures forall j :: from <= j < i ==> !BreakAt(text, j)
    decreases |text| - from
  {
    if from == |text| || BreakAt(text, from) then from else FirstBreak(text, from + 1)
  }

  /** `text.split("\n\n")`: cut at the leftmost separator, then split what follows it. */
  function Split(text: string): (ps: seq<string>)
    ensures ps != []
    decreases |text|
  {
    var i := FirstBreak(text, 0);
    if i == |text| then [text] else [text[..i]] + Split(text[i + 2..])
  }

  /** `"\n\n".join(ps)`. */
  function Join(ps: seq<string>): string {
    if ps == [] then "" else if |ps| == 1 then ps[0] else ps[0] + SEPARATOR + Join(ps[1..])
  }

  ghost predicate Unbroken(p: string) {
    forall j :: !BreakAt(p, j)
  }

  predicate EndsInNewline(p: string) {
    p != [] && p[|p| - 1] == '\n'
  }

  /** The lists that splitting produces: no piece holds a separator, and no piece but the last
      ends in a newline (the cut would have been one character earlier). */
  ghost predicate Canonical(ps: seq<string>) {
    && ps != []
    && (forall k :: 0 <= k < |ps| ==> Unbroken(ps[k]))
    && (forall k :: 0 <= k < |ps| - 1 ==> !EndsInNewline(ps[k]))
  }

  lemma {:induction false} JoinSplit(text: string)
    ensures Join(Split(text)) == text
    decreases |text|
  {
    var i := FirstBreak(text, 0);
    if i < |text| {
      JoinSplit(text[i + 2..]);
      var ps := Split(text);
      assert ps[1..] == Split(text[i + 2..]);
      assert text == text[..i] + SEPARATOR + text[i + 2..];
    }
  }

  lemma {:induction false} SplitCanonical(text: string)
    ensures Canonical(Split(text))
    decreases |text|
  {
    var i := FirstBreak(text, 0);
    if i < |text| {
      SplitCanonical(text[i + 2..]);
      var first := text[..i];
      assert Unbroken(first) by {
        forall j ensures !BreakAt(first, j) {
          assert BreakAt(first, j) ==> BreakAt(text, j);
        }
      }
      assert i > 0 && first[i - 1] == '\n' ==> BreakAt(text, i - 1);
    }
  }

  lemma {:induction false} FirstBreakOfJoin(p: string, rest: string)
    requires Unbroken(p) && !EndsInNewline(p)
    ensures FirstBreak(p + SEPARATOR + rest, 0) == |p|
  {
    var text := p + SEPARATOR + rest;
    assert BreakAt(text, |p|);
    forall j | 0 <= j < |p| ensures !BreakAt(text, j) {
      assert BreakAt(text, j) && j + 1 < |p| ==> BreakAt(p, j);
    }
  }

  lemma {:induction false} SplitPrefix(p: string, rest: string)
    requires Unbroken(p) && !EndsInNewline(p)
    ensures Split(p + SEPARATOR + rest) == [p] + Split(rest)
  {
    var text := p + SEPARATOR + rest;
    FirstBreakOfJoin(p, rest);
    assert text[..|p|] == p && text[|p| + 2..] == rest;
  }

  lemma {:induction false} SplitWhole(p: string)
    requires Unbroken(p)
    ensures Split(p) == [p]
  {
  }

  lemma {:induction false} CanonicalTail(ps: seq<string>)
    requires Canonical(ps) && |ps| > 1
    ensures Canonical(ps[1..])
  {
  }

  lemma {:induction false} SplitJoin(ps: seq<string>)
    requires Canonical(ps)
    ensures Split(Join(ps)) == ps
  {
    if |ps| > 1 {
      CanonicalTail(ps);
      SplitJoin(ps[1..]);
      SplitPrefix(ps[0], Join(ps[1..]));
      assert [ps[0]] + ps[1..] == ps;
    } else {
      SplitWhole(ps[0]);
      assert [ps[0]] == ps;
    }
  }

  /** Joining is undone by splitting exactly on the canonical lists. */
  lemma {:induction false} CanonicalRoundTrip(ps: seq<string>)
    ensures Canonical(ps) <==> Split(Join(ps)) == ps
  {
    if Canonical(ps) {
      SplitJoin(ps);
    }
    SplitCanonical(Join(ps));
  }

  lemma {:induction false} SliceCanonical(ps: seq<string>, a: nat, b: nat)
    requires Canonical(ps) && a < b <= |ps|
    ensures Canonical(ps[a..b])
  {
  }

  /** Total length of the paragraphs from `a` up to `b`, separators not counted. */
  function Size(ps: seq<string>, a: int, b: int): nat
    requires 0 <= a && b <= |ps|
    decreases b - a
  {
    if b <= a then 0 else Size(ps, a, b - 1) + |ps[b - 1]|
  }

  function Total(ps: seq<string>): nat {
    Size(ps, 0, |ps|)
  }

  lemma {:induction false} SizeGrows(ps: seq<string>, a: int, b: int, c: int)
    requires 0 <= a <= b <= c <= |ps|
    ensures Size(ps, a, b) <= Size(ps, a, c)
    decreases c - b
  {
    if b < c {
      SizeGrows(ps, a, b, c - 1);
    }
  }

  lemma {:induction false} SizeOfSlice(ps: seq<string>, a: int, b: int, c: int)
    requires 0 <= a <= b <= c <= |ps|
    ensures Size(ps[a..c], 0, b - a) == Size(ps, a, b)
    decreases b
  {
    if a < b {
      SizeOfSlice(ps, a, b - 1, c);
      assert ps[a..c][b - a - 1] == ps[b - 1];
    }
  }

  lemma {:induction false} SizeFromFront(ps: seq<string>, b: int)
    requires 0 < b <= |ps|
    ensures Size(ps, 0, b) == |ps[0]| + Size(ps[1..], 0, b - 1)
  {
    if b > 1 {
      SizeFromFront(ps, b - 1);
      assert ps[1..][b - 2] == ps[b - 1];
    }
  }

  lemma {:induction false} JoinLength(ps: seq<string>)
    requires ps != []
    ensures |Join(ps)| == Total(ps) + 2 * (|ps| - 1)
  {
    SizeFromFront(ps, |ps|);
    if |ps| > 1 {
      JoinLength(ps[1..]);
    }
  }

  // ---- slices ----

  lemma {:induction false} SliceSnoc<T>(s: seq<T>, a: int, b: int)
    requires 0 <= a <= b < |s|
    ensures s[a..b] + [s[b]] == s[a..b + 1]
  {
  }

  lemma {:induction false} SliceEnd<T>(s: seq<T>, a: int, b: int)
    requires 0 <= a < b < |s|
    ensures s[a..b] != [] && s[a..b][b - a - 1..] == [s[b - 1]]
    ensures s[b - 1..b + 1] == [s[b - 1], s[b]]
  {
  }

  lemma {:induction false} SliceOverlap<T>(s: seq<T>, b: int, c: int)
    requires 0 < b <= c <= |s|
    ensures s[..b] + s[b - 1..c][1..] == s[..c]
  {
  }
}
