/**
 * JavaScript string helpers the model needs: `Array.prototype.join`,
 * `String.prototype.split` with a non-empty string separator, and the
 * decimal rendering of a non-negative number inside a template literal.
 */
module Strings {

  /** `xs.join(sep)`. */
  function Join(xs: seq<string>, sep: string): (r: string)
    ensures |xs| == 0 ==> r == ""
  {
    if |xs| == 0 then ""
    else if |xs| == 1 then xs[0]
    else xs[0] + sep + Join(xs[1..], sep)
  }

  /** `s.split(sep)` for a non-empty separator: occurrences are matched left to
      right without overlap; the empty string splits into `[""]`. */
  function Split(s: string, sep: string): (parts: seq<string>)
    requires |sep| > 0
    ensures |parts| >= 1
  {
    SplitFrom(s, sep, "")
  }

  /** Splits `s`, where `cur` is the part of the current piece already scanned. */
  function SplitFrom(s: string, sep: string, cur: string): (parts: seq<string>)
    requires |sep| > 0
    ensures |parts| >= 1
    decreases |s|
  {
    if |s| == 0 then [cur]
    else if |sep| <= |s| && s[..|sep|] == sep then [cur] + SplitFrom(s[|sep|..], sep, "")
    else SplitFrom(s[1..], sep, cur + [s[0]])
  }

  lemma JoinCons(x: string, xs: seq<string>, sep: string)
    requires |xs| >= 1
    ensures Join([x] + xs, sep) == x + sep + Join(xs, sep)
  {
    assert ([x] + xs)[1..] == xs;
  }

  /** The joined text opens with the first part. */
  lemma {:induction false} JoinKeepsFirst(xs: seq<string>, sep: string)
    requires |xs| >= 1
    ensures |Join(xs, sep)| >= |xs[0]| && Join(xs, sep)[..|xs[0]|] == xs[0]
  {
    if |xs| > 1 {
      assert Join(xs, sep) == xs[0] + (sep + Join(xs[1..], sep));
    }
  }

  lemma {:induction false} JoinSplitFrom(s: string, sep: string, cur: string)
    requires |sep| > 0
    ensures Join(SplitFrom(s, sep, cur), sep) == cur + s
    decreases |s|
  {
    if |s| == 0 {
    } else if |sep| <= |s| && s[..|sep|] == sep {
      var rest := SplitFrom(s[|sep|..], sep, "");
      assert SplitFrom(s, sep, cur) == [cur] + rest;
      JoinSplitFrom(s[|sep|..], sep, "");
      JoinCons(cur, rest, sep);
      assert s == sep + s[|sep|..];
      assert cur + s == cur + sep + ("" + s[|sep|..]);
    } else {
      assert SplitFrom(s, sep, cur) == SplitFrom(s[1..], sep, cur + [s[0]]);
      JoinSplitFrom(s[1..], sep, cur + [s[0]]);
      assert cur + s == (cur + [s[0]]) + s[1..];
    }
  }

  /** Joining the pieces of a split with the same separator gives the input back. */
  lemma JoinSplit(s: string, sep: string)
    requires |sep| > 0
    ensures Join(Split(s, sep), sep) == s
  {
    JoinSplitFrom(s, sep, "");
  }

  /** Scanning a stretch that cannot start a separator only extends the current piece. */
  lemma {:induction false} SplitFromSkips(x: string, rest: string, sep: string, cur: string)
    requires |sep| > 0
    requires sep[0] !in x
    ensures SplitFrom(x + rest, sep, cur) == SplitFrom(rest, sep, cur + x)
    decreases |x|
  {
    if |x| > 0 {
      var s := x + rest;
      assert s[0] == x[0] && s[0] != sep[0];
      assert s[1..] == x[1..] + rest;
      SplitFromSkips(x[1..], rest, sep, cur + [x[0]]);
      assert cur + [x[0]] + x[1..] == cur + x;
    } else {
      assert x + rest == rest && cur + x == cur;
    }
  }

  /** Splitting a join gives the pieces back when no piece holds the separator's first character. */
  lemma {:induction false} SplitJoin(xs: seq<string>, sep: string)
    requires |sep| > 0 && |xs| >= 1
    requires forall i :: 0 <= i < |xs| ==> sep[0] !in xs[i]
    ensures Split(Join(xs, sep), sep) == xs
    decreases |xs|
  {
    if |xs| == 1 {
      SplitFromSkips(xs[0], "", sep, "");
      assert xs[0] + "" == xs[0] && "" + xs[0] == xs[0];
    } else {
      var tail := Join(xs[1..], sep);
      SplitFromSkips(xs[0], sep + tail, sep, "");
      assert xs[0] + sep + tail == xs[0] + (sep + tail);
      assert "" + xs[0] == xs[0];
      assert (sep + tail)[..|sep|] == sep && (sep + tail)[|sep|..] == tail;
      assert SplitFrom(sep + tail, sep, xs[0]) == [xs[0]] + SplitFrom(tail, sep, "");
      SplitJoin(xs[1..], sep);
      assert [xs[0]] + xs[1..] == xs;
    }
  }

  /** The pieces of `s` split at the first `c`: what precedes it, and the rest split on. */
  lemma SplitAtFirst(s: string, c: char, k: nat)
    requires k < |s| && s[k] == c && c !in s[..k]
    ensures Split(s, [c]) == [s[..k]] + Split(s[k + 1..], [c])
  {
    assert s == s[..k] + s[k..];
    SplitFromSkips(s[..k], s[k..], [c], "");
    assert "" + s[..k] == s[..k];
    assert s[k..][..1] == [c] && s[k..][1..] == s[k + 1..];
    assert SplitFrom(s[k..], [c], s[..k]) == [s[..k]] + SplitFrom(s[k + 1..], [c], "");
  }

  /** A string without `c` is a single piece. */
  lemma SplitWithout(s: string, c: char)
    requires c !in s
    ensures Split(s, [c]) == [s]
  {
    SplitFromSkips(s, "", [c], "");
    assert s + "" == s && "" + s == s;
  }

  /** A string that never holds the separator's second character is a single piece. */
  lemma {:induction false} SplitFromWithoutSecond(s: string, sep: string, cur: string)
    requires |sep| >= 2 && sep[1] !in s
    ensures SplitFrom(s, sep, cur) == [cur + s]
    decreases |s|
  {
    if |s| == 0 {
      assert cur + s == cur;
    } else {
      if |sep| <= |s| {
        assert s[..|sep|][1] == s[1];
      }
      SplitFromWithoutSecond(s[1..], sep, cur + [s[0]]);
      assert cur + [s[0]] + s[1..] == cur + s;
    }
  }

  lemma SplitWithoutSecond(s: string, sep: string)
    requires |sep| >= 2 && sep[1] !in s
    ensures Split(s, sep) == [s]
  {
    SplitFromWithoutSecond(s, sep, "");
    assert "" + s == s;
  }

  /** The position of the first occurrence of `c`. */
  function FirstIndexOf(s: string, c: char): (k: nat)
    requires c in s
    ensures k < |s| && s[k] == c && c !in s[..k]
  {
    if s[0] == c then 0
    else
      var k := 1 + FirstIndexOf(s[1..], c);
      assert s[..k] == [s[0]] + s[1..][..k - 1];
      k
  }

  function DigitChar(d: nat): (c: char)
    requires d < 10
    ensures '0' <= c <= '9'
  {
    "0123456789"[d]
  }

  /** Decimal rendering of `n`, as a template literal prints a number. */
  function NatToString(n: nat): (s: string)
    ensures |s| >= 1
    ensures forall i :: 0 <= i < |s| ==> '0' <= s[i] <= '9'
  {
    if n < 10 then [DigitChar(n)] else NatToString(n / 10) + [DigitChar(n % 10)]
  }

  /** Decimal rendering of an integer, with a leading minus sign when negative. */
  function IntToString(n: int): (s: string)
    ensures |s| >= 1
    ensures s[0] == '-' || '0' <= s[0] <= '9'
  {
    if n < 0 then "-" + NatToString(-n) else NatToString(n)
  }
}
