/** Sequence helpers of the ingestion script: `find` and Python's slice `s[:n]`. */
module Sequences {

  function Min(a: int, b: int): int { if a <= b then a else b }
  function Max(a: int, b: int): int { if a <= b then b else a }

  ghost predicate IsPrefix<T>(r: seq<T>, s: seq<T>) {
    |r| <= |s| && r == s[..|r|]
  }

  /** What `find` promises of its result `r`: a prefix of `s` in which no
      element satisfies `p`, ending either at the end of `s` or right before
      an element that satisfies `p`. */
  ghost predicate StopsAtFirstMatch<T>(p: T -> bool, s: seq<T>, r: seq<T>) {
    IsPrefix(r, s)
    && (forall i :: 0 <= i < |r| ==> !p(r[i]))
    && (|r| == |s| || p(s[|r|]))
  }

  /** Appending is associative. */
  lemma AppendAssociates<T>(a: seq<T>, b: seq<T>, c: seq<T>)
    ensures (a + b) + c == a + (b + c)
  {
  }

  /** Reference definition of `find`: the elements before the first one that
      satisfies `p`, or all of `s` when none does. */
  function BeforeFirst<T>(p: T -> bool, s: seq<T>): seq<T>
  {
    if s == [] || p(s[0]) then [] else [s[0]] + BeforeFirst(p, s[1..])
  }

  lemma {:induction false} BeforeFirstStops<T>(p: T -> bool, s: seq<T>)
    ensures StopsAtFirstMatch(p, s, BeforeFirst(p, s))
  {
    if s != [] && !p(s[0]) {
      BeforeFirstStops(p, s[1..]);
      var r := BeforeFirst(p, s[1..]);
      assert BeforeFirst(p, s) == [s[0]] + r;
      assert s == [s[0]] + s[1..];
    }
  }

  /** Behind a prefix with no match, a matching element is where
      `BeforeFirst` stops. */
  lemma {:induction false} BeforeFirstAtMatch<T>(p: T -> bool, a: seq<T>, x: T, b: seq<T>)
    ensures (forall i :: 0 <= i < |a| ==> !p(a[i])) && p(x) ==> BeforeFirst(p, a + [x] + b) == a
  {
    if a != [] && (forall i :: 0 <= i < |a| ==> !p(a[i])) && p(x) {
      BeforeFirstAtMatch(p, a[1..], x, b);
      assert (a + [x] + b)[1..] == a[1..] + [x] + b;
    }
  }

  /** At most one sequence stops at the first match, so the characterisation
      determines `find` completely. */
  lemma StopIsUnique<T>(p: T -> bool, s: seq<T>, r1: seq<T>, r2: seq<T>)
    requires StopsAtFirstMatch(p, s, r1) && StopsAtFirstMatch(p, s, r2)
    ensures r1 == r2
  {
  }

  /** `find` returns its whole input exactly when no element satisfies `p`. */
  lemma BeforeFirstWholeIff<T>(p: T -> bool, s: seq<T>)
    ensures BeforeFirst(p, s) == s <==> forall i :: 0 <= i < |s| ==> !p(s[i])
  {
    BeforeFirstStops(p, s);
    if forall i :: 0 <= i < |s| ==> !p(s[i]) {
      assert StopsAtFirstMatch(p, s, s);
      StopIsUnique(p, s, s, BeforeFirst(p, s));
    }
  }

  /** The loop of `find`: scan with an index and return the slice in front of
      the first matching element, or the input itself. */
  method Find<T>(p: T -> bool, s: seq<T>) returns (r: seq<T>)
    ensures StopsAtFirstMatch(p, s, r)
    ensures r == BeforeFirst(p, s)
  {
    BeforeFirstStops(p, s);
    var i := 0;
    while i < |s|
      invariant 0 <= i <= |s|
      invariant forall k :: 0 <= k < i ==> !p(s[k])
    {
      if p(s[i]) {
        r := s[..i];
        StopIsUnique(p, s, r, BeforeFirst(p, s));
        return;
      }
      i := i + 1;
    }
    r := s;
    StopIsUnique(p, s, r, BeforeFirst(p, s));
  }

  /** Python's slice `s[:n]`: a count from the front when `n` is not
      negative (capped at `|s|`), and everything but the last `-n` elements
      when it is. */
  function Take<T>(s: seq<T>, n: int): (r: seq<T>)
    ensures IsPrefix(r, s)
    ensures 0 <= n ==> |r| == Min(n, |s|)
    ensures n < 0 ==> |r| == Max(0, |s| + n)
  {
    if 0 <= n then
      (if n <= |s| then s[..n] else s)
    else
      (if |s| + n <= 0 then [] else s[..|s| + n])
  }
}
