/**
 * The JavaScript string operations the contact normaliser relies on, on
 * strings as sequences of characters: the `\s` and `\d` character classes,
 * `replace(/…/g, "")` with a one-character class, `startsWith`, `includes`,
 * `split` on a non-empty separator and `Array.prototype.join`.
 */
module Text {
  import opened Seqs

  /**
   * The characters of the ECMAScript `\s` class: the WhiteSpace code points
   * (TAB, VT, FF, SP, NBSP, ZWNBSP and the other Zs space separators) and the
   * LineTerminator code points (LF, CR, LS, PS).
   */
  predicate IsJsWhitespace(c: char)
  {
    var n := c as int;
    n == 0x09 || n == 0x0A || n == 0x0B || n == 0x0C || n == 0x0D || n == 0x20
    || n == 0xA0 || n == 0x1680 || (0x2000 <= n <= 0x200A)
    || n == 0x2028 || n == 0x2029 || n == 0x202F || n == 0x205F
    || n == 0x3000 || n == 0xFEFF
  }

  /** The ECMAScript `\d` class. */
  predicate IsDigit(c: char)
  {
    '0' <= c <= '9'
  }

  /** `s.replace(/[class]/g, "")`: every character of the class deleted, the rest kept in order. */
  function RemoveWhere(s: string, drop: char -> bool): (r: string)
    ensures forall i :: 0 <= i < |r| ==> !drop(r[i]) && r[i] in s
    ensures forall i :: 0 <= i < |s| && !drop(s[i]) ==> s[i] in r
    ensures IsSubsequence(r, s)
    decreases |s|
  {
    if s == [] then []
    else
      var init := s[..|s| - 1];
      var last := s[|s| - 1];
      var kept := RemoveWhere(init, drop);
      assert s == init + [last];
      if drop(last) then
        SubsequenceExtend(kept, init, last);
        kept
      else
        SubsequenceAppendBoth(kept, init, last);
        kept + [last]
  }

  /** `RemoveWhere` applied to every element of a list. */
  function RemoveEach(xs: seq<string>, drop: char -> bool): seq<string>
  {
    seq(|xs|, i requires 0 <= i < |xs| => RemoveWhere(xs[i], drop))
  }

  /** `s.replace(/\s+/g, "")`: all whitespace removed, wherever it stands. */
  function StripWhitespace(s: string): string
  {
    RemoveWhere(s, IsJsWhitespace)
  }

  /**
   * Deleting keeps every other character as often as it occurs: a character
   * of the class occurs no more, any other occurs as many times as in `s`.
   */
  lemma {:induction false} RemoveWhereCounts(s: string, drop: char -> bool)
    ensures forall c :: multiset(RemoveWhere(s, drop))[c] == if drop(c) then 0 else multiset(s)[c]
    decreases |s|
  {
    if s != [] {
      var init := s[..|s| - 1];
      var last := s[|s| - 1];
      RemoveWhereCounts(init, drop);
      assert s == init + [last];
      assert multiset(s) == multiset(init) + multiset{last};
    }
  }

  /** Deleting nothing changes nothing. */
  lemma {:induction false} RemoveWhereNoop(s: string, drop: char -> bool)
    requires forall i :: 0 <= i < |s| ==> !drop(s[i])
    ensures RemoveWhere(s, drop) == s
    decreases |s|
  {
    if s != [] {
      RemoveWhereNoop(s[..|s| - 1], drop);
      assert s == s[..|s| - 1] + [s[|s| - 1]];
    }
  }

  /** Deleting distributes over concatenation. */
  lemma {:induction false} RemoveWhereConcat(a: string, b: string, drop: char -> bool)
    ensures RemoveWhere(a + b, drop) == RemoveWhere(a, drop) + RemoveWhere(b, drop)
    decreases |b|
  {
    if b == [] {
      assert a + b == a;
    } else {
      var binit := b[..|b| - 1];
      RemoveWhereConcat(a, binit, drop);
      assert (a + b)[..|a + b| - 1] == a + binit;
      assert (a + b)[|a + b| - 1] == b[|b| - 1];
    }
  }

  /**
   * Two deletion passes, one after the other, delete exactly the characters
   * of either class in one pass.
   */
  lemma {:induction false} RemoveWhereTwice(s: string, p: char -> bool, q: char -> bool, either: char -> bool)
    requires forall c :: either(c) == (p(c) || q(c))
    ensures RemoveWhere(RemoveWhere(s, p), q) == RemoveWhere(s, either)
    decreases |s|
  {
    if s != [] {
      var init := s[..|s| - 1];
      var last := s[|s| - 1];
      RemoveWhereTwice(init, p, q, either);
      var first := RemoveWhere(init, p);
      if !p(last) {
        assert RemoveWhere(s, p) == first + [last];
        assert (first + [last])[..|first|] == first;
      }
    }
  }

  /** `s.startsWith(prefix)`. */
  predicate StartsWith(s: string, prefix: string)
  {
    |prefix| <= |s| && s[..|prefix|] == prefix
  }

  /** `pat` occurs in `s` at position `k`. */
  predicate OccursAt(s: string, pat: string, k: nat)
  {
    k + |pat| <= |s| && s[k..k + |pat|] == pat
  }

  /** `s.indexOf(pat, from)`: the first position at or after `from` where `pat` occurs, or -1. */
  function IndexOfFrom(s: string, pat: string, from: nat): (r: int)
    requires from <= |s|
    ensures r == -1 || (from <= r <= |s| && OccursAt(s, pat, r))
    ensures r == -1 ==> forall k: nat :: from <= k <= |s| ==> !OccursAt(s, pat, k)
    ensures r >= 0 ==> forall k: nat :: from <= k < r ==> !OccursAt(s, pat, k)
    decreases |s| - from
  {
    if OccursAt(s, pat, from) then from
    else if from == |s| then -1
    else IndexOfFrom(s, pat, from + 1)
  }

  /** `s.indexOf(pat)`. */
  function IndexOf(s: string, pat: string): int
  {
    IndexOfFrom(s, pat, 0)
  }

  /** `s.includes(pat)`. */
  function Includes(s: string, pat: string): bool
  {
    IndexOf(s, pat) >= 0
  }

  /** `s.includes(pat)` holds exactly when `pat` occurs somewhere in `s`. */
  lemma IncludesOccurs(s: string, pat: string)
    ensures Includes(s, pat) <==> exists k: nat :: k <= |s| && OccursAt(s, pat, k)
  {
    if Includes(s, pat) {
      assert OccursAt(s, pat, IndexOf(s, pat));
    }
  }

  /** An occurrence inside a prefix of `s` is an occurrence in `s`. */
  lemma OccursInPrefix(s: string, pat: string, n: nat, k: nat)
    requires n <= |s| && OccursAt(s[..n], pat, k)
    ensures OccursAt(s, pat, k) && k + |pat| <= n
  {
    assert s[..n][k..k + |pat|] == s[k..k + |pat|];
  }

  /**
   * `s.split(sep)` for a non-empty separator: the pieces between the
   * occurrences of `sep`, found left to right without overlapping.
   */
  function Split(s: string, sep: string): (pieces: seq<string>)
    requires |sep| > 0
    ensures |pieces| >= 1
    decreases |s|
  {
    var i := IndexOf(s, sep);
    if i < 0 then [s]
    else
      var head := s[..i];
      [head] + Split(s[i + |sep|..], sep)
  }

  /** The number of characters of all the elements of `xs` together. */
  function TotalLength(xs: seq<string>): nat
  {
    if xs == [] then 0 else |xs[0]| + TotalLength(xs[1..])
  }

  /**
   * `xs.join(sep)`: the elements with `sep` between consecutive ones; "" for
   * no elements. Exactly one separator stands between two elements.
   */
  function Join(xs: seq<string>, sep: string): (r: string)
    ensures xs == [] ==> r == ""
    ensures xs != [] ==> |r| == TotalLength(xs) + (|xs| - 1) * |sep|
  {
    if xs == [] then ""
    else if |xs| == 1 then xs[0]
    else xs[0] + sep + Join(xs[1..], sep)
  }

  /** A split yields several pieces exactly when the separator occurs. */
  lemma SplitSeveralIff(s: string, sep: string)
    requires |sep| > 0
    ensures |Split(s, sep)| >= 2 <==> Includes(s, sep)
  {
  }

  /** No piece of a split contains the separator. */
  lemma {:induction false} SplitPiecesExcludeSeparator(s: string, sep: string)
    requires |sep| > 0
    ensures forall j :: 0 <= j < |Split(s, sep)| ==> !Includes(Split(s, sep)[j], sep)
    decreases |s|
  {
    var i := IndexOf(s, sep);
    if i < 0 {
    } else {
      var head := s[..i];
      var rest := s[i + |sep|..];
      SplitPiecesExcludeSeparator(rest, sep);
      if Includes(head, sep) {
        var k := IndexOf(head, sep);
        OccursInPrefix(s, sep, i, k);
        assert false;
      }
      assert Split(s, sep) == [head] + Split(rest, sep);
    }
  }

  /**
   * A split cuts at the leftmost occurrence each time: no piece but the last,
   * followed by all but the last character of the separator, already holds
   * the separator (so `"::::"` splits on `":::"` as `["", ":"]`).
   */
  lemma {:induction false} SplitLeftmost(s: string, sep: string)
    requires |sep| > 0
    ensures forall j :: 0 <= j < |Split(s, sep)| - 1 ==>
              !Includes(Split(s, sep)[j] + sep[..|sep| - 1], sep)
    decreases |s|
  {
    var i := IndexOf(s, sep);
    if i >= 0 {
      var head := s[..i];
      var rest := s[i + |sep|..];
      SplitLeftmost(rest, sep);
      assert Split(s, sep) == [head] + Split(rest, sep);
      var n := i + |sep| - 1;
      assert head + sep[..|sep| - 1] == s[..n] by {
        assert s[i..i + |sep|] == sep;
      }
      if Includes(s[..n], sep) {
        var k := IndexOf(s[..n], sep);
        OccursInPrefix(s, sep, n, k);
        assert false;
      }
    }
  }

  /** Joining the pieces of a split gives back the original string. */
  lemma {:induction false} JoinSplit(s: string, sep: string)
    requires |sep| > 0
    ensures Join(Split(s, sep), sep) == s
    decreases |s|
  {
    var i := IndexOf(s, sep);
    if i >= 0 {
      var head := s[..i];
      var rest := s[i + |sep|..];
      var tail := Split(rest, sep);
      JoinSplit(rest, sep);
      var pieces := [head] + tail;
      assert Split(s, sep) == pieces;
      assert |pieces| >= 2 && pieces[0] == head && pieces[1..] == tail;
      assert Join(pieces, sep) == head + sep + Join(tail, sep);
      assert s == head + sep + rest by {
        assert s[i..i + |sep|] == sep;
        assert s == s[..i] + s[i..i + |sep|] + s[i + |sep|..];
      }
    }
  }

  /**
   * Splitting a join gives back the elements, provided no element contains
   * the separator's first character (so no occurrence of the separator can
   * start inside an element).
   */
  lemma {:induction false} SplitJoin(xs: seq<string>, sep: string)
    requires |sep| > 0 && |xs| > 0
    requires forall i, j :: 0 <= i < |xs| && 0 <= j < |xs[i]| ==> xs[i][j] != sep[0]
    ensures Split(Join(xs, sep), sep) == xs
    decreases |xs|
  {
    var x := xs[0];
    if |xs| == 1 {
      forall k: nat | k <= |x|
        ensures !OccursAt(x, sep, k)
      {
        if k + |sep| <= |x| {
          assert x[k..k + |sep|][0] == x[k];
        }
      }
      assert Join(xs, sep) == x;
    } else {
      var rest := Join(xs[1..], sep);
      var s := x + sep + rest;
      assert OccursAt(s, sep, |x|) by {
        assert s[|x|..|x| + |sep|] == sep;
      }
      forall k: nat | k < |x|
        ensures !OccursAt(s, sep, k)
      {
        assert s[k] == x[k];
      }
      var i := IndexOf(s, sep);
      assert i == |x|;
      assert s[..i] == x;
      assert s[i + |sep|..] == rest;
      SplitJoin(xs[1..], sep);
    }
  }

  /**
   * Deleting a class of characters commutes with joining, when the separator
   * has none of them.
   */
  lemma {:induction false} RemoveWhereJoin(xs: seq<string>, sep: string, drop: char -> bool)
    requires forall i :: 0 <= i < |sep| ==> !drop(sep[i])
    ensures Join(RemoveEach(xs, drop), sep) == RemoveWhere(Join(xs, sep), drop)
    decreases |xs|
  {
    var ys := RemoveEach(xs, drop);
    if xs == [] {
    } else if |xs| == 1 {
    } else {
      RemoveWhereJoin(xs[1..], sep, drop);
      assert ys[1..] == RemoveEach(xs[1..], drop);
      RemoveWhereNoop(sep, drop);
      RemoveWhereConcat(xs[0] + sep, Join(xs[1..], sep), drop);
      RemoveWhereConcat(xs[0], sep, drop);
    }
  }
}
