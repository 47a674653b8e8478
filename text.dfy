/**
 * String operations the dashboard relies on: JavaScript's `trim`, `toLowerCase`,
 * `split` on one character and `join`, and the decimal rendering of integers.
 */
module Text {

  /** The code points `String.prototype.trim` removes (WhiteSpace and LineTerminator). */
  predicate IsWhitespace(c: char) {
    || c == ' ' || c == '\t' || c == '\n' || c == '\r'
    || c == '\U{000B}' || c == '\U{000C}' || c == '\U{00A0}' || c == '\U{1680}'
    || ('\U{2000}' <= c <= '\U{200A}')
    || c == '\U{2028}' || c == '\U{2029}' || c == '\U{202F}' || c == '\U{205F}'
    || c == '\U{3000}' || c == '\U{FEFF}'
  }

  predicate AllWhitespace(s: string) {
    forall i :: 0 <= i < |s| ==> IsWhitespace(s[i])
  }

  /** Neither starts nor ends with whitespace. */
  predicate IsTrimmed(s: string) {
    s == [] || (!IsWhitespace(s[0]) && !IsWhitespace(s[|s| - 1]))
  }

  /** The length of the longest prefix of `s` whose elements satisfy `p`. */
  function CountLeading<T>(s: seq<T>, p: T -> bool): (n: nat)
    ensures n <= |s|
    ensures forall k :: 0 <= k < n ==> p(s[k])
    ensures n < |s| ==> !p(s[n])
  {
    if s != [] && p(s[0]) then 1 + CountLeading(s[1..], p) else 0
  }

  /** The length of the longest suffix of `s` whose elements satisfy `p`. */
  function CountTrailing<T>(s: seq<T>, p: T -> bool): (n: nat)
    ensures n <= |s|
    ensures forall k :: |s| - n <= k < |s| ==> p(s[k])
    ensures n < |s| ==> !p(s[|s| - n - 1])
  {
    if s != [] && p(s[|s| - 1]) then 1 + CountTrailing(s[..|s| - 1], p) else 0
  }

  /** `s` without its longest prefix and longest suffix of elements satisfying `p`. */
  function Strip<T>(s: seq<T>, p: T -> bool): (r: seq<T>)
    ensures r == [] || (!p(r[0]) && !p(r[|r| - 1]))
    ensures r == [] <==> forall k :: 0 <= k < |s| ==> p(s[k])
    ensures (s == [] || (!p(s[0]) && !p(s[|s| - 1]))) ==> r == s
  {
    var i := CountLeading(s, p);
    var t := s[i..];
    var j := CountTrailing(t, p);
    assert t != [] ==> !p(t[0]) && j < |t| by {
      if t != [] { assert t[0] == s[i]; }
    }
    assert t[..|t| - j] == [] ==> i == |s|;
    t[..|t| - j]
  }

  /** What `Strip` removes satisfies `p` and comes from both ends of `s`. */
  lemma StripIsInnerPart<T>(s: seq<T>, p: T -> bool) returns (i: nat)
    ensures var r := Strip(s, p);
            && i + |r| <= |s|
            && (forall k :: 0 <= k < |r| ==> r[k] == s[i + k])
            && (forall k :: 0 <= k < i ==> p(s[k]))
            && (forall k :: i + |r| <= k < |s| ==> p(s[k]))
  {
    i := CountLeading(s, p);
    var t := s[i..];
    var j := CountTrailing(t, p);
    forall k | i + |t| - j <= k < |s| ensures p(s[k]) {
      assert s[k] == t[k - i];
    }
  }

  /**
   * JavaScript's `trim`: what is left between the leading and the trailing
   * whitespace. The result is trimmed, it is empty exactly when `s` is blank,
   * and a string that is already trimmed is left alone.
   */
  function Trim(s: string): (r: string)
    ensures IsTrimmed(r)
    ensures r == [] <==> AllWhitespace(s)
    ensures IsTrimmed(s) ==> r == s
  {
    Strip(s, IsWhitespace)
  }

  /** What `trim` keeps is a run of `s`; what it removes is whitespace from both ends. */
  lemma TrimIsInnerPart(s: string) returns (i: nat)
    ensures var r := Trim(s);
            && i + |r| <= |s|
            && (forall k :: 0 <= k < |r| ==> r[k] == s[i + k])
            && (forall k :: 0 <= k < i ==> IsWhitespace(s[k]))
            && (forall k :: i + |r| <= k < |s| ==> IsWhitespace(s[k]))
  {
    i := StripIsInnerPart(s, IsWhitespace);
  }

  /** A leading element satisfying `p` makes no difference to `Strip`. */
  lemma StripCons<T>(c: T, t: seq<T>, p: T -> bool)
    requires p(c)
    ensures Strip([c] + t, p) == Strip(t, p)
  {
    var s := [c] + t;
    assert s[1..] == t;
    assert s[CountLeading(s, p)..] == t[CountLeading(t, p)..];
  }

  /** A leading space makes no difference to `trim`. */
  lemma TrimLeadingSpace(t: string)
    ensures Trim(" " + t) == Trim(t)
  {
    StripCons(' ', t, IsWhitespace);
  }

  /** What `trim` keeps is part of the input, so it lacks every character the input lacks. */
  lemma TrimKeepsAbsent(s: string, c: char)
    requires c !in s
    ensures c !in Trim(s)
  {
    var i := TrimIsInnerPart(s);
    var r := Trim(s);
    forall k | 0 <= k < |r| ensures r[k] != c {
      assert r[k] == s[i + k];
    }
  }

  /** Lower-cases the ASCII letters A to Z and leaves every other character alone. */
  function LowerChar(c: char): char {
    if 'A' <= c <= 'Z' then (c as int + 32) as char else c
  }

  /** `toLowerCase`, on ASCII letters. */
  function ToLower(s: string): (r: string)
    ensures |r| == |s|
    ensures forall i :: 0 <= i < |s| ==> r[i] == LowerChar(s[i])
  {
    if s == [] then [] else [LowerChar(s[0])] + ToLower(s[1..])
  }

  /** Lower-casing never produces a character that is not lower-cased from itself. */
  lemma LowerKeepsAbsent(s: string, c: char)
    requires c !in s && !('a' <= c <= 'z')
    ensures c !in ToLower(s)
  {
    var r := ToLower(s);
    forall i | 0 <= i < |r| ensures r[i] != c {
      assert s[i] in s;
    }
  }

  /** The position of the first `c` in `s`. */
  function FirstIndex(s: string, c: char): (i: nat)
    requires c in s
    ensures i < |s| && s[i] == c && c !in s[..i]
  {
    if s[0] == c then 0
    else
      var j := FirstIndex(s[1..], c);
      assert s[..j + 1] == [s[0]] + s[1..][..j];
      j + 1
  }

  /** `Array.prototype.join(sep)`: the parts with `sep` between neighbours. */
  function Join(parts: seq<string>, sep: string): string {
    if |parts| == 0 then ""
    else if |parts| == 1 then parts[0]
    else parts[0] + sep + Join(parts[1..], sep)
  }

  /** A join ends with its last part. */
  lemma {:induction false} JoinEndsWithLast(parts: seq<string>, sep: string)
    requires |parts| >= 1
    ensures var j, last := Join(parts, sep), parts[|parts| - 1];
            |last| <= |j| && j[|j| - |last|..] == last
  {
    if |parts| > 1 {
      JoinEndsWithLast(parts[1..], sep);
      assert parts[1..][|parts| - 2] == parts[|parts| - 1];
    }
  }

  /**
   * `String.prototype.split(sep)` for a one-character separator: the pieces
   * between separators: at least one piece, none containing `sep`.
   */
  function Split(s: string, sep: char): (parts: seq<string>)
    ensures |parts| >= 1
    ensures forall k :: 0 <= k < |parts| ==> sep !in parts[k]
    decreases |s|
  {
    if sep !in s then [s]
    else
      var i := FirstIndex(s, sep);
      var rest := Split(s[i + 1..], sep);
      var parts := [s[..i]] + rest;
      assert parts[1..] == rest;
      parts
  }

  /** Joining the pieces back with the separator gives the original string. */
  lemma {:induction false} JoinSplit(s: string, sep: char)
    ensures Join(Split(s, sep), [sep]) == s
    decreases |s|
  {
    if sep in s {
      var i := FirstIndex(s, sep);
      var rest := Split(s[i + 1..], sep);
      SplitAtSeparator(s, sep, i);
      JoinSplit(s[i + 1..], sep);
      JoinCons(s[..i], rest, [sep]);
      assert s == s[..i] + [sep] + s[i + 1..];
    }
  }

  lemma JoinCons(head: string, rest: seq<string>, sep: string)
    requires |rest| >= 1
    ensures Join([head] + rest, sep) == head + sep + Join(rest, sep)
  {
    assert ([head] + rest)[1..] == rest;
  }

  /** A first character other than the separator belongs to the first piece. */
  lemma SplitCons(c: char, s: string, sep: char)
    requires c != sep
    ensures var parts := Split(s, sep);
            Split([c] + s, sep) == [[c] + parts[0]] + parts[1..]
  {
    var cs := [c] + s;
    assert cs[1..] == s;
    if sep in s {
      var i := FirstIndex(s, sep);
      assert cs[i + 1] == sep && cs[..i + 1] == [c] + s[..i];
      assert sep !in cs[..i + 1];
      assert cs[i + 2..] == s[i + 1..];
      SplitAtSeparator(cs, sep, i + 1);
      SplitAtSeparator(s, sep, i);
    } else {
      assert sep !in cs;
    }
  }

  /** Splitting undoes joining when no part contains the separator. */
  lemma {:induction false} SplitJoin(parts: seq<string>, sep: char)
    requires |parts| >= 1
    requires forall k :: 0 <= k < |parts| ==> sep !in parts[k]
    ensures Split(Join(parts, [sep]), sep) == parts
  {
    if |parts| > 1 {
      var s := Join(parts, [sep]);
      var p := parts[0];
      var tail := Join(parts[1..], [sep]);
      assert s == p + [sep] + tail;
      assert s[|p|] == sep;
      var i := FirstIndex(s, sep);
      assert s[..i] == p;
      assert s[i + 1..] == tail;
      SplitJoin(parts[1..], sep);
    }
  }

  lemma FirstIndexIs(s: string, c: char, i: nat)
    requires i < |s| && s[i] == c && c !in s[..i]
    ensures FirstIndex(s, c) == i
  {
  }

  /** Splitting at the first separator. */
  lemma SplitAtSeparator(s: string, sep: char, i: nat)
    requires i < |s| && s[i] == sep && sep !in s[..i]
    ensures Split(s, sep) == [s[..i]] + Split(s[i + 1..], sep)
  {
    FirstIndexIs(s, sep, i);
  }

  lemma SplitConcatNoSep(a: string, b: string, sep: char)
    requires sep !in a
    ensures Split(a + [sep] + b, sep) == [a] + Split(b, sep)
  {
    var s := a + [sep] + b;
    assert s[..|a|] == a;
    assert s[|a| + 1..] == b;
    SplitAtSeparator(s, sep, |a|);
  }

  lemma SplitJoinedAtFirst(a: string, b: string, sep: char, i: nat)
    requires i < |a| && a[i] == sep && sep !in a[..i]
    ensures Split(a + [sep] + b, sep) == [a[..i]] + Split(a[i + 1..] + [sep] + b, sep)
  {
    var s := a + [sep] + b;
    assert s[..i] == a[..i];
    assert s[i + 1..] == a[i + 1..] + [sep] + b;
    SplitAtSeparator(s, sep, i);
  }

  lemma Regroup<T>(whole: seq<T>, left: seq<T>, head: T, mid: seq<T>, x: seq<T>, y: seq<T>)
    requires whole == [head] + mid && mid == x + y && left == [head] + x
    ensures whole == left + y
  {
  }

  lemma SplitConcatAtSep(a: string, b: string, sep: char, i: nat)
    requires i < |a| && a[i] == sep && sep !in a[..i]
    requires Split(a[i + 1..] + [sep] + b, sep) == Split(a[i + 1..], sep) + Split(b, sep)
    ensures Split(a + [sep] + b, sep) == Split(a, sep) + Split(b, sep)
  {
    SplitJoinedAtFirst(a, b, sep, i);
    SplitAtSeparator(a, sep, i);
    Regroup(Split(a + [sep] + b, sep), Split(a, sep), a[..i],
            Split(a[i + 1..] + [sep] + b, sep), Split(a[i + 1..], sep), Split(b, sep));
  }

  /** Splitting at a separator splits each side independently. */
  lemma {:induction false} SplitConcat(a: string, b: string, sep: char)
    ensures Split(a + [sep] + b, sep) == Split(a, sep) + Split(b, sep)
    decreases |a|
  {
    if sep !in a {
      SplitConcatNoSep(a, b, sep);
    } else {
      var i := FirstIndex(a, sep);
      SplitConcat(a[i + 1..], b, sep);
      SplitConcatAtSep(a, b, sep, i);
    }
  }

  /**
   * When two strings split at their first `sep` (neither head contains one),
   * equality of the whole strings means equality of heads and of tails.
   */
  lemma SplitAtFirst(a: string, b: string, c: string, d: string, sep: char)
    requires sep !in a && sep !in c
    requires a + [sep] + b == c + [sep] + d
    ensures a == c && b == d
  {
    var s := a + [sep] + b;
    forall k | 0 <= k < |a| ensures s[k] != sep {
      assert s[k] == a[k] && a[k] in a;
    }
    forall k | 0 <= k < |c| ensures s[k] != sep {
      assert s[k] == c[k] && c[k] in c;
    }
    assert s[|a|] == sep && s[|c|] == sep;
    assert a == s[..|a|] && c == s[..|c|];
    assert b == s[|a| + 1..] && d == s[|c| + 1..];
  }

  predicate IsDigit(c: char) {
    '0' <= c <= '9'
  }

  function DigitChar(d: int): (c: char)
    requires 0 <= d < 10
    ensures IsDigit(c) && c as int - '0' as int == d
  {
    ('0' as int + d) as char
  }

  /** The decimal digits of `n`, most significant first, without leading zeros. */
  function NatToDecimal(n: nat): (r: string)
    ensures 1 <= |r| && (n >= 10 ==> 2 <= |r|)
    ensures forall i :: 0 <= i < |r| ==> IsDigit(r[i])
    decreases n
  {
    if n < 10 then [DigitChar(n)] else NatToDecimal(n / 10) + [DigitChar(n % 10)]
  }

  /** Different numbers have different decimal renderings. */
  lemma {:induction false} NatToDecimalInjective(m: nat, n: nat)
    requires NatToDecimal(m) == NatToDecimal(n)
    ensures m == n
    decreases m
  {
    var r := NatToDecimal(m);
    if m < 10 && n < 10 {
      assert DigitChar(m) == r[0] == DigitChar(n);
    } else if m >= 10 && n >= 10 {
      assert DigitChar(m % 10) == r[|r| - 1] == DigitChar(n % 10);
      assert NatToDecimal(m / 10) == r[..|r| - 1] == NatToDecimal(n / 10);
      NatToDecimalInjective(m / 10, n / 10);
    }
  }

  /** The decimal rendering of an integer, with a leading `-` when negative. */
  function IntToDecimal(i: int): (r: string)
    ensures forall k :: 0 <= k < |r| ==> IsDigit(r[k]) || r[k] == '-'
  {
    if i < 0 then "-" + NatToDecimal(-i) else NatToDecimal(i)
  }

  lemma IntToDecimalInjective(i: int, j: int)
    requires IntToDecimal(i) == IntToDecimal(j)
    ensures i == j
  {
    var r := IntToDecimal(i);
    assert r[0] == '-' <==> i < 0;
    assert r[0] == '-' <==> j < 0;
    if i < 0 {
      assert NatToDecimal(-i) == r[1..] == NatToDecimal(-j);
      NatToDecimalInjective(-i, -j);
    } else {
      NatToDecimalInjective(i, j);
    }
  }
}
