/**
 * Dotted paths into the data: `addToPath` (index.js:324-334), which extends
 * the current path by one argument, and the `split(/\./)` that `resolve`
 * (index.js:286) applies to a path before walking it.
 */
module Paths {
  import opened Seqs

  /**
   * `addToPath`: an empty or "." part leaves the path as it is, except that
   * two empty strings give "."; otherwise the part is appended after a dot,
   * or stands alone when the path is empty.
   */
  function AddToPath(path: string, part: string): string
  {
    if path == "" && part == "" then "."
    else if part == "." || part == "" then path
    else if path != "" then path + "." + part
    else part
  }

  predicate DotFree(s: string)
  {
    forall i :: 0 <= i < |s| ==> s[i] != '.'
  }

  /** A part that AddToPath appends: neither empty nor containing a dot. */
  predicate Segment(s: string)
  {
    s != "" && DotFree(s)
  }

  /** The inverse of Split: the parts with a dot between each two. */
  function Join(parts: seq<string>): string
    requires |parts| >= 1
  {
    if |parts| == 1 then parts[0] else Join(parts[..|parts| - 1]) + "." + parts[|parts| - 1]
  }

  /**
   * `s.split(/\./)`: the maximal dot-free pieces of `s`, in order, keeping
   * empty pieces, so "" splits into [""] and "a..b" into ["a", "", "b"].
   */
  function Split(s: string): (parts: seq<string>)
    ensures |parts| >= 1
    ensures forall k :: 0 <= k < |parts| ==> DotFree(parts[k])
    ensures Join(parts) == s
  {
    if s == [] then [""]
    else
      var init := Split(s[..|s| - 1]);
      assert s == s[..|s| - 1] + [s[|s| - 1]];
      if s[|s| - 1] == '.' then init + [""]
      else
        var last := init[|init| - 1] + [s[|s| - 1]];
        assert (init[..|init| - 1] + [last])[..|init| - 1] == init[..|init| - 1];
        init[..|init| - 1] + [last]
  }

  /** A dot-free string is a single piece. */
  lemma {:induction false} SplitDotFree(s: string)
    requires DotFree(s)
    ensures Split(s) == [s]
  {
    if s != [] {
      SplitDotFree(s[..|s| - 1]);
    }
  }

  /** Appending a dot starts a new, empty piece. */
  lemma SplitSnocDot(s: string)
    ensures Split(s + ".") == Split(s) + [""]
  {
    assert (s + ".")[..|s|] == s;
  }

  /** Appending any other character extends the last piece. */
  lemma SplitSnocChar(s: string, c: char)
    requires c != '.'
    ensures var p := Split(s); Split(s + [c]) == p[..|p| - 1] + [p[|p| - 1] + [c]]
  {
    assert (s + [c])[..|s|] == s;
  }

  lemma ExtendLastAppend(a: seq<string>, b: seq<string>, c: char)
    requires |b| >= 1
    ensures (a + b)[..|a + b| - 1] + [(a + b)[|a + b| - 1] + [c]] == a + (b[..|b| - 1] + [b[|b| - 1] + [c]])
  {
  }

  /** Splitting distributes over a dot: the pieces of `x.k` are those of `x` then those of `k`. */
  lemma {:induction false} SplitDot(x: string, k: string)
    ensures Split(x + "." + k) == Split(x) + Split(k)
    decreases |k|
  {
    if k == [] {
      assert x + "." + k == x + ".";
      SplitSnocDot(x);
    } else {
      var k', c := k[..|k| - 1], k[|k| - 1];
      assert k == k' + [c];
      ConcatAssoc(x + ".", k', [c]);
      SplitDot(x, k');
      if c == '.' {
        assert [c] == ".";
        SplitDotSnocDot(x, k');
      } else {
        SplitDotSnocChar(x, k', c);
      }
    }
  }

  /** One step of SplitDot: a dot appended to `k` starts a new piece on both sides. */
  lemma SplitDotSnocDot(x: string, k: string)
    requires Split(x + "." + k) == Split(x) + Split(k)
    ensures Split(x + "." + k + ".") == Split(x) + Split(k + ".")
  {
    ConcatAssoc(Split(x), Split(k), [""]);
    SplitSnocDot(x + "." + k);
    SplitSnocDot(k);
  }

  /** One step of SplitDot: another character appended to `k` extends the last piece on both sides. */
  lemma SplitDotSnocChar(x: string, k: string, c: char)
    requires Split(x + "." + k) == Split(x) + Split(k) && c != '.'
    ensures Split(x + "." + k + [c]) == Split(x) + Split(k + [c])
  {
    SplitSnocChar(x + "." + k, c);
    SplitSnocChar(k, c);
    ExtendLastAppend(Split(x), Split(k), c);
  }

  /** Join then Split gives back any list of dot-free parts. */
  lemma {:induction false} SplitJoin(parts: seq<string>)
    requires |parts| >= 1
    requires forall k :: 0 <= k < |parts| ==> DotFree(parts[k])
    ensures Split(Join(parts)) == parts
  {
    if |parts| == 1 {
      SplitDotFree(parts[0]);
    } else {
      var init, last := parts[..|parts| - 1], parts[|parts| - 1];
      assert parts == init + [last];
      assert Join(parts) == Join(init) + "." + last;
      SplitJoin(init);
      SplitDot(Join(init), last);
      SplitDotFree(last);
    }
  }

  /**
   * Adding a segment to a path adds exactly one piece to its split, whatever
   * the path, the root "." included (which then splits into ["", "", k]).
   */
  lemma SplitAddToPath(path: string, k: string)
    requires path != "" && Segment(k)
    ensures Split(AddToPath(path, k)) == Split(path) + [k]
  {
    SplitDot(path, k);
    SplitDotFree(k);
  }

  /**
   * Adding a dotted argument whose pieces are all non-empty is the same as
   * adding its pieces one by one.
   */
  lemma AddToPathAssociative(path: string, a: string, b: string)
    requires a != "" && a != "." && b != "" && b != "."
    ensures AddToPath(AddToPath(path, a), b) == AddToPath(path, a + "." + b)
  {
    assert |a + "." + b| >= 2;
  }
}
