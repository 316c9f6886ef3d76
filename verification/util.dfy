/** Small helpers shared by the whole model: an optional value, the
    clamp the firmware writes as `max(lo, min(hi, x))`, and the
    single-character `str.split` of the request handlers together with its
    inverse `Join`. */
module Util {

  /** A value that may be absent (a missing radio, a failed parse). */
  datatype Option<+T> = None | Some(value: T)

  /** `max(lo, min(hi, x))`: the value kept inside `[lo, hi]`. */
  function Clamp(lo: int, hi: int, x: int): (r: int)
    requires lo <= hi
    ensures lo <= r <= hi
    ensures lo <= x <= hi ==> r == x
    ensures x < lo ==> r == lo
    ensures hi < x ==> r == hi
  {
    if x < lo then lo else if hi < x then hi else x
  }

  /** `s.startswith(p)`. */
  predicate StartsWith(s: string, p: string) {
    |p| <= |s| && s[..|p|] == p
  }

  /** Glues the pieces back together with `c` between neighbours. */
  function Join(pieces: seq<string>, c: char): string
    requires |pieces| >= 1
    decreases |pieces|
  {
    if |pieces| == 1 then pieces[0] else pieces[0] + [c] + Join(pieces[1..], c)
  }

  /** Python's `s.split(c)` for a one-character separator: the maximal
      runs between separators, including empty ones at either end. */
  function Split(s: string, c: char): (pieces: seq<string>)
    ensures |pieces| >= 1
    ensures Join(pieces, c) == s
    ensures forall i :: 0 <= i < |pieces| ==> c !in pieces[i]
    decreases |s|
  {
    if |s| == 0 then [""]
    else
      var rest := Split(s[1..], c);
      if s[0] == c then
        assert s == [c] + s[1..];
        [""] + rest
      else
        var first := [s[0]] + rest[0];
        if |rest| == 1 then
          assert s == [s[0]] + s[1..];
          [first]
        else
          assert Join(rest, c) == rest[0] + [c] + Join(rest[1..], c);
          assert s == [s[0]] + s[1..];
          assert ([first] + rest[1..])[1..] == rest[1..];
          [first] + rest[1..]
  }

  /** The separator occurs in `s` exactly when the split yields more than
      one piece. */
  lemma SplitCountsSeparator(s: string, c: char)
    ensures c in s <==> |Split(s, c)| >= 2
  {
    var p := Split(s, c);
    if |p| >= 2 {
      assert Join(p, c) == p[0] + [c] + Join(p[1..], c);
      assert s[|p[0]|] == c;
    }
  }

  /** Splitting text that does not contain the separator gives it back whole. */
  lemma {:induction false} SplitNoSeparator(s: string, c: char)
    requires c !in s
    ensures Split(s, c) == [s]
  {
    if |s| > 0 {
      assert c !in s[1..] by {
        forall i | 0 <= i < |s[1..]| ensures s[1..][i] != c {
          assert s[1..][i] == s[i + 1];
        }
      }
      SplitNoSeparator(s[1..], c);
    }
  }

  /** A separator right after a separator-free prefix ends the first piece. */
  lemma {:induction false} SplitAfterPrefix(a: string, c: char, t: string)
    requires c !in a
    ensures Split(a + [c] + t, c) == [a] + Split(t, c)
    decreases |a|
  {
    var s := a + [c] + t;
    if |a| == 0 {
      assert s == [c] + t;
      assert s[1..] == t;
    } else {
      assert s[1..] == a[1..] + [c] + t;
      assert c !in a[1..] by {
        forall i | 0 <= i < |a[1..]| ensures a[1..][i] != c {
          assert a[1..][i] == a[i + 1];
        }
      }
      SplitAfterPrefix(a[1..], c, t);
      assert [a[0]] + a[1..] == a;
    }
  }

  /** One separator between two separator-free texts gives two pieces. */
  lemma SplitPair(a: string, c: char, b: string)
    requires c !in a && c !in b
    ensures Split(a + [c] + b, c) == [a, b]
  {
    SplitAfterPrefix(a, c, b);
    SplitNoSeparator(b, c);
  }

  /** Split undoes Join when no piece holds the separator. */
  lemma {:induction false} SplitJoin(pieces: seq<string>, c: char)
    requires |pieces| >= 1
    requires forall i :: 0 <= i < |pieces| ==> c !in pieces[i]
    ensures Split(Join(pieces, c), c) == pieces
    decreases |pieces|
  {
    if |pieces| == 1 {
      SplitNoSeparator(pieces[0], c);
    } else {
      var tail := pieces[1..];
      assert forall i :: 0 <= i < |tail| ==> c !in tail[i] by {
        forall i | 0 <= i < |tail| ensures c !in tail[i] {
          assert tail[i] == pieces[i + 1];
        }
      }
      SplitJoin(tail, c);
      SplitAfterPrefix(pieces[0], c, Join(tail, c));
      assert [pieces[0]] + tail == pieces;
    }
  }
}
