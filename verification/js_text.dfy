/** The few pieces of JavaScript's string library that the site's logic relies on:
    what `String.prototype.trim` and the regular-expression class `\s` call
    white space, what `.` refuses to match, `startsWith`, `trim`, `split` on one
    character, and deleting every occurrence of one character. */
module JsText {

  /** Line terminators: the characters a regular-expression `.` does not match. */
  predicate IsLineTerminator(c: char) {
    c == '\n' || c == '\r' || c == '\U{2028}' || c == '\U{2029}'
  }

  /** White space as `trim` and `\s` see it: the ECMAScript WhiteSpace code points
      (tab, vertical tab, form feed, space, no-break space, the byte-order mark and
      every other space separator) plus the line terminators. */
  predicate IsSpace(c: char) {
    || c == '\t' || c == '\U{000B}' || c == '\U{000C}' || c == ' '
    || c == '\U{00A0}' || c == '\U{1680}' || ('\U{2000}' <= c <= '\U{200A}')
    || c == '\U{202F}' || c == '\U{205F}' || c == '\U{3000}' || c == '\U{FEFF}'
    || IsLineTerminator(c)
  }

  /** The ASCII digits matched by `\d`. */
  predicate IsDigit(c: char) {
    '0' <= c <= '9'
  }

  predicate AllSpace(s: string) {
    forall i :: 0 <= i < |s| ==> IsSpace(s[i])
  }

  predicate StartsWith(s: string, prefix: string) {
    |prefix| <= |s| && s[..|prefix|] == prefix
  }

  /** Number of white-space characters at the front of `s`. */
  function LeadingSpace(s: string): (n: nat)
    ensures n <= |s|
    ensures AllSpace(s[..n])
    ensures n < |s| ==> !IsSpace(s[n])
  {
    if |s| == 0 || !IsSpace(s[0]) then 0
    else
      var n := 1 + LeadingSpace(s[1..]);
      assert s[..n] == [s[0]] + s[1..][..n - 1];
      n
  }

  /** Number of white-space characters at the end of `s`. */
  function TrailingSpace(s: string): (n: nat)
    ensures n <= |s|
    ensures AllSpace(s[|s| - n..])
    ensures n < |s| ==> !IsSpace(s[|s| - n - 1])
  {
    if |s| == 0 || !IsSpace(s[|s| - 1]) then 0
    else
      var m := TrailingSpace(s[..|s| - 1]);
      TrailingStep(s, m);
      1 + m
  }

  /** One more white-space character at the end extends the trailing run. */
  lemma TrailingStep(s: string, m: nat)
    requires s != [] && IsSpace(s[|s| - 1]) && m <= |s| - 1
    requires AllSpace(s[..|s| - 1][|s| - 1 - m..])
    requires m < |s| - 1 ==> !IsSpace(s[..|s| - 1][|s| - 1 - m - 1])
    ensures AllSpace(s[|s| - (m + 1)..])
    ensures m + 1 < |s| ==> !IsSpace(s[|s| - (m + 1) - 1])
  {
    assert s[|s| - (m + 1)..] == s[..|s| - 1][|s| - 1 - m..] + [s[|s| - 1]];
    AllSpaceConcat(s[..|s| - 1][|s| - 1 - m..], [s[|s| - 1]]);
  }

  /** Where the trimmed slice of `s` ends. */
  function TrimEnd(s: string): (j: nat)
    ensures LeadingSpace(s) <= j <= |s|
  {
    |s| - TrailingSpace(s[LeadingSpace(s)..])
  }

  /** `String.prototype.trim`: the slice of `s` left after removing white space
      from both ends. */
  function Trim(s: string): (r: string)
    ensures exists i, j :: 0 <= i <= j <= |s| && r == s[i..j] && AllSpace(s[..i]) && AllSpace(s[j..])
    ensures r == [] || (!IsSpace(r[0]) && !IsSpace(r[|r| - 1]))
    ensures r == [] <==> AllSpace(s)
  {
    TrimSlice(s);
    s[LeadingSpace(s)..TrimEnd(s)]
  }

  lemma TrimSlice(s: string)
    ensures AllSpace(s[..LeadingSpace(s)]) && AllSpace(s[TrimEnd(s)..])
    ensures LeadingSpace(s) < TrimEnd(s) ==> !IsSpace(s[LeadingSpace(s)]) && !IsSpace(s[TrimEnd(s) - 1])
    ensures LeadingSpace(s) == TrimEnd(s) <==> AllSpace(s)
  {
    var i := LeadingSpace(s);
    var n := TrailingSpace(s[i..]);
    var j := TrimEnd(s);
    assert j == |s| - n;
    SpaceBehind(s, i, n);
    SpaceAround(s, i, n);
    if i < j {
      assert s[j - 1] == s[|s| - n - 1];
    }
  }

  /** What the trailing count of the suffix `s[i..]` says about `s` itself. */
  lemma SpaceBehind(s: string, i: nat, n: nat)
    requires i + n <= |s|
    requires AllSpace(s[i..][|s| - i - n..])
    requires n < |s| - i ==> !IsSpace(s[i..][|s| - i - n - 1])
    ensures AllSpace(s[|s| - n..])
    ensures i < |s| - n ==> !IsSpace(s[|s| - n - 1])
  {
    assert s[i..][|s| - i - n..] == s[|s| - n..];
  }

  /** White space at both ends meets exactly when all of `s` is white space. */
  lemma SpaceAround(s: string, i: nat, n: nat)
    requires i + n <= |s|
    requires AllSpace(s[..i]) && (i < |s| ==> !IsSpace(s[i]))
    requires AllSpace(s[|s| - n..])
    ensures i == |s| - n <==> AllSpace(s)
  {
    if i == |s| - n {
      assert s == s[..i] + s[|s| - n..];
      AllSpaceConcat(s[..i], s[|s| - n..]);
    }
  }

  /** A string that neither starts nor ends with white space trims to itself. */
  lemma TrimUnspaced(s: string)
    requires s != [] && !IsSpace(s[0]) && !IsSpace(s[|s| - 1])
    ensures Trim(s) == s
  {
    assert LeadingSpace(s) == 0;
    assert s[0..] == s;
    assert TrailingSpace(s) == 0;
  }

  lemma AllSpaceConcat(a: string, b: string)
    ensures AllSpace(a + b) <==> AllSpace(a) && AllSpace(b)
  {
    if AllSpace(a + b) {
      forall k | 0 <= k < |a| ensures IsSpace(a[k]) {
        assert a[k] == (a + b)[k];
      }
      forall k | 0 <= k < |b| ensures IsSpace(b[k]) {
        assert b[k] == (a + b)[|a| + k];
      }
    }
    if AllSpace(a) && AllSpace(b) {
      forall k | 0 <= k < |a + b| ensures IsSpace((a + b)[k]) {
        if k < |a| {
          assert (a + b)[k] == a[k];
        } else {
          assert (a + b)[k] == b[k - |a|];
        }
      }
    }
  }

  /** Index of the first `c` in `s`, or `|s|` when there is none. */
  function IndexOf(s: string, c: char): (k: nat)
    ensures k <= |s|
    ensures c !in s[..k]
    ensures k < |s| ==> s[k] == c
  {
    if |s| == 0 then 0
    else if s[0] == c then 0
    else
      var k := 1 + IndexOf(s[1..], c);
      assert s[..k] == [s[0]] + s[1..][..k - 1];
      k
  }

  /** The inverse of `Split`: the pieces glued back together with `sep`. */
  function Join(parts: seq<string>, sep: char): string
    requires |parts| >= 1
  {
    if |parts| == 1 then parts[0] else parts[0] + [sep] + Join(parts[1..], sep)
  }

  /** `s.split(sep)` for a one-character separator: the maximal `sep`-free pieces
      in order; `n` separators give `n + 1` pieces, and the empty string gives one
      empty piece. */
  function Split(s: string, sep: char): (parts: seq<string>)
    ensures |parts| >= 1
    ensures forall i :: 0 <= i < |parts| ==> sep !in parts[i]
    ensures Join(parts, sep) == s
    decreases |s|
  {
    var k := IndexOf(s, sep);
    if k == |s| then
      assert s[..k] == s;
      [s]
    else
      var rest := Split(s[k + 1..], sep);
      assert s == s[..k] + [sep] + s[k + 1..];
      [s[..k]] + rest
  }

  /** `Split` undoes `Join` whenever no piece contains the separator, so a split
      never loses or invents a piece. */
  lemma {:induction false} SplitJoin(parts: seq<string>, sep: char)
    requires |parts| >= 1
    requires forall i :: 0 <= i < |parts| ==> sep !in parts[i]
    ensures Split(Join(parts, sep), sep) == parts
    decreases |parts|
  {
    if |parts| == 1 {
      IndexOfAbsent(parts[0], sep);
    } else {
      SplitCons(parts[0], sep, Join(parts[1..], sep));
      SplitJoin(parts[1..], sep);
      assert parts == [parts[0]] + parts[1..];
    }
  }

  /** A separator-free piece, the separator, then the rest split as a piece
      followed by the split of the rest. */
  lemma SplitCons(p: string, sep: char, tail: string)
    requires sep !in p
    ensures Split(p + [sep] + tail, sep) == [p] + Split(tail, sep)
  {
    var s := p + [sep] + tail;
    IndexOfAfter(p, sep, tail);
    assert s[|p| + 1..] == tail;
    assert s[..|p|] == p;
  }

  lemma IndexOfAbsent(s: string, c: char)
    requires c !in s
    ensures IndexOf(s, c) == |s|
  {
  }

  lemma {:induction false} IndexOfAfter(a: string, c: char, b: string)
    requires c !in a
    ensures IndexOf(a + [c] + b, c) == |a|
    decreases |a|
  {
    if |a| > 0 {
      assert (a + [c] + b)[1..] == a[1..] + [c] + b;
      IndexOfAfter(a[1..], c, b);
    }
  }

  /** `s.replace(/x/g, '')` for a single character `x`. */
  function RemoveChar(s: string, x: char): (r: string)
    ensures x !in r
    ensures multiset(r) == multiset(s)[x := 0]
    ensures x !in s ==> r == s
  {
    if |s| == 0 then []
    else
      assert s == [s[0]] + s[1..];
      if s[0] == x then RemoveChar(s[1..], x) else [s[0]] + RemoveChar(s[1..], x)
  }

  /** A single character is dropped when it is `x` and kept otherwise. */
  lemma RemoveCharOne(c: char, x: char)
    ensures RemoveChar([c], x) == if c == x then [] else [c]
  {
    assert [c][1..] == [];
  }

  /** Deletion works piece by piece, so the kept characters stay in their order:
      with `RemoveCharOne` this fixes the result of every string. */
  lemma {:induction false} RemoveCharConcat(a: string, b: string, x: char)
    ensures RemoveChar(a + b, x) == RemoveChar(a, x) + RemoveChar(b, x)
    decreases |a|
  {
    if a == [] {
      assert a + b == b;
    } else {
      assert (a + b)[0] == a[0];
      assert (a + b)[1..] == a[1..] + b;
      RemoveCharConcat(a[1..], b, x);
    }
  }
}
