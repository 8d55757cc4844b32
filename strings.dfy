/** The two pieces of JavaScript's string library the reporter relies on:
    `Array.prototype.join` and, to state round trips, `String.prototype.split`
    on a one-character separator. */
module Strings {

  /** `xs.join(sep)`: the elements with `sep` between neighbours, "" for no elements. */
  function Join(xs: seq<string>, sep: string): (r: string)
    ensures |xs| == 0 ==> r == ""
    ensures |xs| == 1 ==> r == xs[0]
  {
    if |xs| == 0 then ""
    else if |xs| == 1 then xs[0]
    else xs[0] + sep + Join(xs[1..], sep)
  }

  /** Joining two non-empty runs puts exactly one separator where they meet. */
  lemma {:induction false} JoinAppend(a: seq<string>, b: seq<string>, sep: string)
    requires |a| >= 1 && |b| >= 1
    ensures Join(a + b, sep) == Join(a, sep) + sep + Join(b, sep)
  {
    if |a| == 1 {
      assert (a + b)[1..] == b;
    } else {
      assert (a + b)[1..] == a[1..] + b;
      JoinAppend(a[1..], b, sep);
    }
  }

  /** `s.split(c)`: the maximal pieces of `s` between occurrences of `c`;
      always at least one piece ("" splits into [""]). */
  function Split(s: string, c: char): (r: seq<string>)
    ensures |r| >= 1
    ensures forall k :: 0 <= k < |r| ==> c !in r[k]
  {
    if |s| == 0 then [""]
    else
      var rest := Split(s[1..], c);
      if s[0] == c then [""] + rest
      else [[s[0]] + rest[0]] + rest[1..]
  }

  /** Every element of `xs` starts with `p`. */
  function Prefixed(p: string, xs: seq<string>): (r: seq<string>)
    ensures |r| == |xs|
    ensures forall k :: 0 <= k < |xs| ==> r[k] == p + xs[k]
  {
    seq(|xs|, k requires 0 <= k < |xs| => p + xs[k])
  }

  /** A string without the separator is a single piece. */
  lemma {:induction false} SplitWithout(s: string, c: char)
    requires c !in s
    ensures Split(s, c) == [s]
  {
    if |s| > 0 {
      SplitWithout(s[1..], c);
      assert [s[0]] + s[1..] == s;
    }
  }

  /** The first piece ends at the first separator. */
  lemma {:induction false} SplitAround(a: string, c: char, b: string)
    requires c !in a
    ensures Split(a + [c] + b, c) == [a] + Split(b, c)
  {
    var s := a + [c] + b;
    if |a| == 0 {
      assert s[1..] == b;
    } else {
      assert s[1..] == a[1..] + [c] + b;
      SplitAround(a[1..], c, b);
      assert [a[0]] + a[1..] == a;
    }
  }

  /** Splitting undoes joining on a one-character separator that no element contains. */
  lemma {:induction false} SplitJoin(xs: seq<string>, c: char)
    requires |xs| >= 1
    requires forall k :: 0 <= k < |xs| ==> c !in xs[k]
    ensures Split(Join(xs, [c]), c) == xs
  {
    if |xs| == 1 {
      SplitWithout(xs[0], c);
    } else {
      SplitJoin(xs[1..], c);
      SplitAround(xs[0], c, Join(xs[1..], [c]));
      assert [xs[0]] + xs[1..] == xs;
    }
  }

  /** `p + Join(xs, q + p)` puts `p` in front of every element and `q` between them. */
  lemma {:induction false} JoinPrefixed(p: string, q: string, xs: seq<string>)
    requires |xs| >= 1
    ensures p + Join(xs, q + p) == Join(Prefixed(p, xs), q)
  {
    if |xs| > 1 {
      JoinPrefixed(p, q, xs[1..]);
      assert Prefixed(p, xs)[1..] == Prefixed(p, xs[1..]);
      calc {
        p + Join(xs, q + p);
        p + (xs[0] + (q + p) + Join(xs[1..], q + p));
        (p + xs[0]) + q + (p + Join(xs[1..], q + p));
        (p + xs[0]) + q + Join(Prefixed(p, xs[1..]), q);
      }
    }
  }
}
