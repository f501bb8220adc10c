/** The parts of Rust's `str` that the migration pipeline relies on:
    `split` on a one-character pattern and `replace` of a character by "". */
module RustStr {

  /** Position of the first occurrence of `c` in `s`. */
  function IndexOf(s: string, c: char): (i: nat)
    requires c in s
    ensures i < |s| && s[i] == c && c !in s[..i]
  {
    if s[0] == c then 0 else 1 + IndexOf(s[1..], c)
  }

  /** The fragments joined back together, with `c` between neighbours. */
  function JoinWith(fs: seq<string>, c: char): string
  {
    if |fs| == 0 then []
    else if |fs| == 1 then fs[0]
    else fs[0] + [c] + JoinWith(fs[1..], c)
  }

  /** `s.split(c).collect::<Vec<_>>()`: the maximal runs of `s` between
      occurrences of `c`. There is always at least one fragment (possibly
      empty), each fragment is free of `c`, and there is more than one
      fragment exactly when `c` occurs. `JoinWithSplit` shows that joining
      the fragments with `c` gives `s` back. */
  function Split(s: string, c: char): (r: seq<string>)
    ensures |r| >= 1
    ensures forall k :: 0 <= k < |r| ==> c !in r[k]
    ensures |r| >= 2 <==> c in s
    decreases |s|
  {
    if c !in s then [s]
    else
      var i := IndexOf(s, c);
      [s[..i]] + Split(s[i + 1..], c)
  }

  /** Joining the fragments of `s` with `c` gives `s` back. */
  lemma {:induction false} JoinWithSplit(s: string, c: char)
    ensures JoinWith(Split(s, c), c) == s
    decreases |s|
  {
    if c in s {
      var i := IndexOf(s, c);
      var rest := Split(s[i + 1..], c);
      JoinWithSplit(s[i + 1..], c);
      assert Split(s, c) == [s[..i]] + rest;
      assert ([s[..i]] + rest)[1..] == rest;
      assert s[..i] + [c] + s[i + 1..] == s;
    }
  }

  /** The text of `s` before the first `c`, or all of `s` when `c` is absent. */
  function TextBefore(s: string, c: char): (r: string)
    ensures c !in r
    ensures |r| <= |s| && r == s[..|r|]
    ensures |r| < |s| ==> s[|r|] == c
  {
    if c in s then s[..IndexOf(s, c)] else s
  }

  /** A `c`-free prefix followed by `c` or by the end is the text before
      the first `c`. */
  lemma TextBeforeUnique(s: string, c: char, u: string)
    requires c !in u && |u| <= |s| && s[..|u|] == u
    requires |u| < |s| ==> s[|u|] == c
    ensures TextBefore(s, c) == u
  {
    if c in s {
      var i := IndexOf(s, c);
      assert forall k :: 0 <= k < |u| ==> s[k] == u[k];
    }
  }

  /** `s.replace(c, "")`: `s` with every `c` deleted. */
  function RemoveAll(s: string, c: char): (r: string)
    ensures c !in r
    ensures |r| <= |s|
  {
    if |s| == 0 then []
    else (if s[0] == c then [] else [s[0]]) + RemoveAll(s[1..], c)
  }

  lemma {:induction false} IndexOfAfterFree(a: string, c: char, b: string)
    requires c !in a
    ensures c in a + [c] + b && IndexOf(a + [c] + b, c) == |a|
  {
    var s := a + [c] + b;
    assert s[|a|] == c;
    if |a| > 0 {
      assert s[1..] == a[1..] + [c] + b;
      IndexOfAfterFree(a[1..], c, b);
    }
  }

  lemma {:induction false} JoinWithAppend(xs: seq<string>, ys: seq<string>, c: char)
    requires |xs| >= 1 && |ys| >= 1
    ensures JoinWith(xs + ys, c) == JoinWith(xs, c) + [c] + JoinWith(ys, c)
  {
    if |xs| > 1 {
      assert (xs + ys)[1..] == xs[1..] + ys;
      JoinWithAppend(xs[1..], ys, c);
    } else {
      assert (xs + ys)[1..] == ys;
    }
  }

  /** Splitting undoes joining: fragments free of `c`, joined with `c`,
      split back into exactly the same fragments. */
  lemma {:induction false} SplitJoinWith(fs: seq<string>, c: char)
    requires |fs| >= 1
    requires forall k :: 0 <= k < |fs| ==> c !in fs[k]
    ensures Split(JoinWith(fs, c), c) == fs
  {
    if |fs| == 1 {
      assert c !in fs[0];
    } else {
      var rest := fs[1..];
      var tail := JoinWith(rest, c);
      var s := fs[0] + [c] + tail;
      assert JoinWith(fs, c) == s;
      assert c !in fs[0];
      IndexOfAfterFree(fs[0], c, tail);
      assert s[..|fs[0]|] == fs[0];
      assert s[|fs[0]| + 1..] == tail;
      assert forall k :: 0 <= k < |rest| ==> c !in rest[k] by {
        forall k | 0 <= k < |rest| ensures c !in rest[k] {
          assert rest[k] == fs[k + 1];
        }
      }
      SplitJoinWith(rest, c);
      assert Split(s, c) == [fs[0]] + Split(tail, c);
      assert fs == [fs[0]] + rest;
    }
  }

  /** Splitting `a + [c] + b` gives the fragments of `a` followed by those of `b`. */
  lemma {:induction false} SplitAround(a: string, c: char, b: string)
    ensures Split(a + [c] + b, c) == Split(a, c) + Split(b, c)
  {
    var sa, sb := Split(a, c), Split(b, c);
    var fs := sa + sb;
    assert JoinWith(fs, c) == a + [c] + b by {
      JoinWithSplit(a, c);
      JoinWithSplit(b, c);
      JoinWithAppend(sa, sb, c);
    }
    assert forall k :: 0 <= k < |fs| ==> c !in fs[k] by {
      forall k | 0 <= k < |fs| ensures c !in fs[k] {
        if k < |sa| {
          assert fs[k] == sa[k];
        } else {
          assert fs[k] == sb[k - |sa|];
        }
      }
    }
    SplitJoinWith(fs, c);
  }

  /** The first fragment is the text before the first `c`. */
  lemma SplitFirst(s: string, c: char)
    ensures Split(s, c)[0] == TextBefore(s, c)
  {
  }

  /** What follows the first fragment is either nothing or a `c` and the
      remaining fragments joined. */
  lemma SplitTail(s: string, c: char)
    ensures |Split(s, c)| == 1 ==> s == Split(s, c)[0]
    ensures |Split(s, c)| >= 2 ==>
      s == Split(s, c)[0] + [c] + JoinWith(Split(s, c)[1..], c)
  {
    JoinWithSplit(s, c);
  }

  lemma {:induction false} RemoveAllAppend(a: string, b: string, c: char)
    ensures RemoveAll(a + b, c) == RemoveAll(a, c) + RemoveAll(b, c)
  {
    if |a| > 0 {
      assert (a + b)[1..] == a[1..] + b;
      RemoveAllAppend(a[1..], b, c);
    } else {
      assert a + b == b;
    }
  }

  /** Text without `c` is left as it is. */
  lemma {:induction false} RemoveAllAbsent(s: string, c: char)
    requires c !in s
    ensures RemoveAll(s, c) == s
  {
    if |s| > 0 {
      RemoveAllAbsent(s[1..], c);
    }
  }

  /** Every character other than `c` survives, in order: `RemoveAll` keeps
      `x` for each `x != c` and drops each `c`. */
  lemma RemoveAllCons(x: char, s: string, c: char)
    ensures RemoveAll([x] + s, c) == (if x == c then RemoveAll(s, c) else [x] + RemoveAll(s, c))
  {
    assert ([x] + s)[1..] == s;
  }
}
