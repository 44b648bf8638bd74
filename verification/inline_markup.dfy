// The inline markup of the blog's lite-markdown: the two global replacements
// of src/pages/BlogPostPage.js that turn `**text**` into bold and `` `text` ``
// into inline code, applied one after the other (bold first).
//
// The page builds an HTML string; here the result is a stream of tokens in
// which a markup tag is one atomic token. Because the code replacement runs
// over the string that already holds the bold tags, the tags take part in the
// second scan like any other text: they are matched by `.` and can never be
// part of a delimiter (neither tag contains a backtick or a line break).
module InlineMarkup {
  import opened JsText
  import opened Wrappers

  datatype Tag = Strong | Code

  datatype Token = Char(c: char) | Open(tag: Tag) | Close(tag: Tag)

  /** The source delimiter of each kind of span. */
  function Delimiter(tag: Tag): (d: string)
    ensures |d| > 0
  {
    match tag
    case Strong => "**"
    case Code => "`"
  }

  /** Plain text as a token stream. */
  function Chars(s: string): (ts: seq<Token>)
    ensures |ts| == |s|
    ensures forall i :: 0 <= i < |s| ==> ts[i] == Char(s[i])
  {
    seq(|s|, i requires 0 <= i < |s| => Char(s[i]))
  }

  /** The source text one token stands for. */
  function Source(t: Token): string {
    match t
    case Char(c) => [c]
    case Open(tag) => Delimiter(tag)
    case Close(tag) => Delimiter(tag)
  }

  /** The source text a token stream stands for: every tag turned back into its delimiter. */
  function Unparse(ts: seq<Token>): string {
    if ts == [] then [] else Source(ts[0]) + Unparse(ts[1..])
  }

  /** The text a reader sees: the characters with every tag dropped, which is what
      a replacement by `'$1'` leaves. */
  function Erase(ts: seq<Token>): string {
    if ts == [] then []
    else if ts[0].Char? then [ts[0].c] + Erase(ts[1..])
    else Erase(ts[1..])
  }

  /** The open/close tokens of one tag kind, in order (`true` for an opening tag). */
  function Tags(ts: seq<Token>, tag: Tag): seq<bool> {
    if ts == [] then []
    else if ts[0] == Open(tag) then [true] + Tags(ts[1..], tag)
    else if ts[0] == Close(tag) then [false] + Tags(ts[1..], tag)
    else Tags(ts[1..], tag)
  }

  /** Tags of one kind that open and close in strict alternation, every span closed. */
  predicate Alternating(bs: seq<bool>) {
    |bs| % 2 == 0 && forall i :: 0 <= i < |bs| ==> bs[i] == (i % 2 == 0)
  }

  /** Does the regular-expression `.` accept this token? A tag stands for text
      without line terminators, so it does. */
  predicate Dot(t: Token) {
    !(t.Char? && IsLineTerminator(t.c))
  }

  predicate AllDot(ts: seq<Token>) {
    forall k :: 0 <= k < |ts| ==> Dot(ts[k])
  }

  /** Does the delimiter of `tag` start at position `p`? */
  predicate DelimiterAt(ts: seq<Token>, p: nat, tag: Tag) {
    match tag
    case Strong => p + 2 <= |ts| && ts[p] == Char('*') && ts[p + 1] == Char('*')
    case Code => p + 1 <= |ts| && ts[p] == Char('`')
  }

  lemma {:induction false} DelimiterChars(ts: seq<Token>, p: nat, tag: Tag)
    requires DelimiterAt(ts, p, tag)
    ensures p + |Delimiter(tag)| <= |ts| && ts[p..p + |Delimiter(tag)|] == Chars(Delimiter(tag))
  {
  }

  /** The lazy `(.*?)` followed by the closing delimiter, tried from position `q`:
      the first delimiter reachable through `.`-tokens only. */
  function CloseFrom(ts: seq<Token>, tag: Tag, q: nat): (r: Option<nat>)
    requires q <= |ts|
    ensures r.Some? ==> q <= r.value && DelimiterAt(ts, r.value, tag) && AllDot(ts[q..r.value])
    decreases |ts| - q
  {
    if q + |Delimiter(tag)| > |ts| then None
    else if DelimiterAt(ts, q, tag) then Some(q)
    else if !Dot(ts[q]) then None
    else
      var r := CloseFrom(ts, tag, q + 1);
      assert r.Some? ==> ts[q..r.value] == [ts[q]] + ts[q + 1..r.value];
      r
  }

  /** The lazy search misses nothing: whenever a closing delimiter is reachable
      through `.`-tokens, it finds one no later than that. */
  lemma {:induction false} CloseFromFinds(ts: seq<Token>, tag: Tag, q: nat, j: nat)
    requires q <= j && DelimiterAt(ts, j, tag) && AllDot(ts[q..j])
    ensures CloseFrom(ts, tag, q).Some? && CloseFrom(ts, tag, q).value <= j
    decreases j - q
  {
    if !DelimiterAt(ts, q, tag) {
      assert q < j;
      assert ts[q..j][0] == ts[q];
      assert ts[q + 1..j] == ts[q..j][1..];
      CloseFromFinds(ts, tag, q + 1, j);
    }
  }

  /** One step of the scan at the front of `ts`: what it emits and how many tokens
      it consumes. */
  datatype Step = Step(emitted: seq<Token>, consumed: nat)

  /** Where a match starts, the step wraps its inside in `Open`/`Close` and
      consumes the whole match; elsewhere it copies one token. */
  function Scan(ts: seq<Token>, tag: Tag): (r: Step)
    requires ts != []
    ensures 0 < r.consumed <= |ts|
  {
    var n := |Delimiter(tag)|;
    if DelimiterAt(ts, 0, tag) && CloseFrom(ts, tag, n).Some? then
      var q := CloseFrom(ts, tag, n).value;
      Step([Open(tag)] + ts[n..q] + [Close(tag)], q + n)
    else
      Step([ts[0]], 1)
  }

  /** What one step emits stands for exactly the tokens it consumes. */
  lemma {:induction false} ScanRoundTrip(ts: seq<Token>, tag: Tag)
    requires ts != []
    ensures Unparse(Scan(ts, tag).emitted) == Unparse(ts[..Scan(ts, tag).consumed])
  {
    var n := |Delimiter(tag)|;
    if DelimiterAt(ts, 0, tag) && CloseFrom(ts, tag, n).Some? {
      MatchRoundTrip(ts, tag, CloseFrom(ts, tag, n).value);
    } else {
      assert ts[..1] == [ts[0]];
    }
  }

  /** The global replacement of `delimiter (.*?) delimiter` by a tagged span:
      scan steps from left to right until the text is used up. */
  function Substitute(ts: seq<Token>, tag: Tag): seq<Token>
    decreases |ts|
  {
    if ts == [] then []
    else
      var step := Scan(ts, tag);
      step.emitted + Substitute(ts[step.consumed..], tag)
  }

  /** The replacement only re-reads the text: the tokens it produces stand for
      exactly the ones it was given. */
  lemma {:induction false} SubstituteRoundTrip(ts: seq<Token>, tag: Tag)
    ensures Unparse(Substitute(ts, tag)) == Unparse(ts)
    decreases |ts|
  {
    if ts != [] {
      var step := Scan(ts, tag);
      var rest := ts[step.consumed..];
      SubstituteRoundTrip(rest, tag);
      ScanRoundTrip(ts, tag);
      UnparseJoin(step.emitted, Substitute(rest, tag), ts[..step.consumed], rest);
      SplitAt(ts, step.consumed);
    }
  }

  /** Pieces that stand for `a` and `b` together stand for `a + b`. */
  lemma {:induction false} UnparseJoin(front: seq<Token>, back: seq<Token>, a: seq<Token>, b: seq<Token>)
    requires Unparse(front) == Unparse(a) && Unparse(back) == Unparse(b)
    ensures Unparse(front + back) == Unparse(a + b)
  {
    UnparseConcat(front, back);
    UnparseConcat(a, b);
  }

  /** A match is its opening delimiter, its inside and its closing delimiter. */
  lemma {:induction false} MatchPieces(ts: seq<Token>, n: nat, q: nat)
    requires 0 < n <= q && q + n <= |ts|
    ensures ts[..q + n] == ts[..n] + ts[n..q] + ts[q..q + n]
  {
    assert ts[..q] == ts[..n] + ts[n..q];
    assert ts[..q + n] == ts[..q] + ts[q..q + n];
  }

  lemma {:induction false} SplitAt(ts: seq<Token>, k: nat)
    requires k <= |ts|
    ensures ts[..k] + ts[k..] == ts
  {
  }

  lemma {:induction false} MatchRoundTrip(ts: seq<Token>, tag: Tag, q: nat)
    requires |Delimiter(tag)| <= q && q + |Delimiter(tag)| <= |ts|
    requires DelimiterAt(ts, 0, tag) && DelimiterAt(ts, q, tag)
    ensures Unparse([Open(tag)] + ts[|Delimiter(tag)|..q] + [Close(tag)]) == Unparse(ts[..q + |Delimiter(tag)|])
  {
    var d := Delimiter(tag);
    var n := |d|;
    var mid := ts[n..q];
    MatchPieces(ts, n, q);
    DelimiterChars(ts, 0, tag);
    DelimiterChars(ts, q, tag);
    UnparseConcat(ts[..n] + mid, ts[q..q + n]);
    UnparseConcat(ts[..n], mid);
    UnparseChars(d);
    UnparseConcat([Open(tag)] + mid, [Close(tag)]);
    UnparseConcat([Open(tag)], mid);
  }

  lemma {:induction false} UnparseConcat(a: seq<Token>, b: seq<Token>)
    ensures Unparse(a + b) == Unparse(a) + Unparse(b)
    decreases |a|
  {
    if a != [] {
      assert (a + b)[0] == a[0];
      assert (a + b)[1..] == a[1..] + b;
      UnparseConcat(a[1..], b);
    } else {
      assert a + b == b;
    }
  }

  lemma {:induction false} UnparseChars(s: string)
    ensures Unparse(Chars(s)) == s
    decreases |s|
  {
    if s != [] {
      assert Chars(s)[1..] == Chars(s[1..]);
      UnparseChars(s[1..]);
    }
  }

  lemma {:induction false} EraseChars(s: string)
    ensures Erase(Chars(s)) == s
    decreases |s|
  {
    if s != [] {
      assert Chars(s)[1..] == Chars(s[1..]);
      EraseChars(s[1..]);
    }
  }

  lemma {:induction false} TagsConcat(a: seq<Token>, b: seq<Token>, tag: Tag)
    ensures Tags(a + b, tag) == Tags(a, tag) + Tags(b, tag)
    decreases |a|
  {
    if a != [] {
      assert (a + b)[0] == a[0];
      assert (a + b)[1..] == a[1..] + b;
      TagsConcat(a[1..], b, tag);
    } else {
      assert a + b == b;
    }
  }

  lemma {:induction false} CharsHaveNoTags(s: string, tag: Tag)
    ensures Tags(Chars(s), tag) == []
    decreases |s|
  {
    if s != [] {
      assert Chars(s)[1..] == Chars(s[1..]);
      CharsHaveNoTags(s[1..], tag);
    }
  }

  /** The tags inside a match are the tags of its contents; the wrapped span adds
      one opening and one closing tag of its own kind. */
  lemma {:induction false} MatchTags(ts: seq<Token>, tag: Tag, q: nat, t: Tag)
    requires |Delimiter(tag)| <= q && q + |Delimiter(tag)| <= |ts|
    requires DelimiterAt(ts, 0, tag) && DelimiterAt(ts, q, tag)
    ensures Tags(ts[..q + |Delimiter(tag)|], t) == Tags(ts[|Delimiter(tag)|..q], t)
    ensures Tags([Open(tag)] + ts[|Delimiter(tag)|..q] + [Close(tag)], t)
      == if t == tag then [true] + Tags(ts[|Delimiter(tag)|..q], t) + [false] else Tags(ts[|Delimiter(tag)|..q], t)
  {
    var n := |Delimiter(tag)|;
    var mid := ts[n..q];
    MatchPieces(ts, n, q);
    DelimiterChars(ts, 0, tag);
    DelimiterChars(ts, q, tag);
    CharsHaveNoTags(Delimiter(tag), t);
    TagsConcat(ts[..n] + mid, ts[q..q + n], t);
    TagsConcat(ts[..n], mid, t);
    TagsConcat([Open(tag)] + mid, [Close(tag)], t);
    TagsConcat([Open(tag)], mid, t);
  }

  /** What one step does to the tags of kind `t`: a copied token keeps its own
      tag, and a match keeps the tags of its contents, adding one opening and one
      closing tag when `t` is the kind being replaced. */
  lemma {:induction false} ScanTags(ts: seq<Token>, tag: Tag, t: Tag)
    requires ts != []
    ensures t != tag ==> Tags(Scan(ts, tag).emitted, t) == Tags(ts[..Scan(ts, tag).consumed], t)
    ensures t == tag && Tags(ts, tag) == [] ==>
      (Tags(Scan(ts, tag).emitted, tag) == [] || Tags(Scan(ts, tag).emitted, tag) == [true, false])
      && Tags(ts[Scan(ts, tag).consumed..], tag) == []
  {
    var k := Scan(ts, tag).consumed;
    TagsConcat(ts[..k], ts[k..], t);
    assert ts[..k] + ts[k..] == ts;
    if DelimiterAt(ts, 0, tag) && CloseFrom(ts, tag, |Delimiter(tag)|).Some? {
      MatchStepTags(ts, tag, t);
    } else {
      CopyStepTags(ts, tag, t);
    }
  }

  /** `ScanTags` where a match starts. */
  lemma {:induction false} MatchStepTags(ts: seq<Token>, tag: Tag, t: Tag)
    requires ts != [] && DelimiterAt(ts, 0, tag) && CloseFrom(ts, tag, |Delimiter(tag)|).Some?
    ensures Tags(Scan(ts, tag).emitted, t) ==
      if t == tag then [true] + Tags(ts[..Scan(ts, tag).consumed], t) + [false]
      else Tags(ts[..Scan(ts, tag).consumed], t)
  {
    var n := |Delimiter(tag)|;
    var q := CloseFrom(ts, tag, n).value;
    assert Scan(ts, tag) == Step([Open(tag)] + ts[n..q] + [Close(tag)], q + n);
    MatchTags(ts, tag, q, t);
  }

  /** `ScanTags` where the first token is copied. */
  lemma {:induction false} CopyStepTags(ts: seq<Token>, tag: Tag, t: Tag)
    requires ts != [] && !(DelimiterAt(ts, 0, tag) && CloseFrom(ts, tag, |Delimiter(tag)|).Some?)
    ensures Scan(ts, tag).emitted == ts[..Scan(ts, tag).consumed]
  {
    assert ts[..1] == [ts[0]];
  }

  /** A replacement for one kind of span leaves the spans of the other kind exactly
      where they were: the code pass cannot add, drop or reorder bold tags. */
  lemma {:induction false} SubstituteKeepsOtherTags(ts: seq<Token>, tag: Tag, other: Tag)
    requires other != tag
    ensures Tags(Substitute(ts, tag), other) == Tags(ts, other)
    decreases |ts|
  {
    if ts != [] {
      var step := Scan(ts, tag);
      var k := step.consumed;
      SubstituteUnfold(ts, tag);
      SubstituteKeepsOtherTags(ts[k..], tag, other);
      ScanTags(ts, tag, other);
      TagsJoin(ts, k, step.emitted, Substitute(ts[k..], tag), other);
    }
  }

  /** A non-empty replacement is its first step followed by the replacement of
      what the step left. */
  lemma {:induction false} SubstituteUnfold(ts: seq<Token>, tag: Tag)
    requires ts != []
    ensures Substitute(ts, tag) == Scan(ts, tag).emitted + Substitute(ts[Scan(ts, tag).consumed..], tag)
  {
  }

  /** Pieces with the tags of the two halves of `ts` together have the tags of `ts`. */
  lemma {:induction false} TagsJoin(ts: seq<Token>, k: nat, front: seq<Token>, back: seq<Token>, t: Tag)
    requires k <= |ts|
    requires Tags(front, t) == Tags(ts[..k], t) && Tags(back, t) == Tags(ts[k..], t)
    ensures Tags(front + back, t) == Tags(ts, t)
  {
    var a, b := ts[..k], ts[k..];
    assert a + b == ts;
    TagsConcat(front, back, t);
    TagsConcat(a, b, t);
  }

  /** On text holding no tags of its kind, a replacement produces spans that open
      and close in strict alternation, none left open. */
  lemma {:induction false} SubstituteAlternates(ts: seq<Token>, tag: Tag)
    requires Tags(ts, tag) == []
    ensures Alternating(Tags(Substitute(ts, tag), tag))
    decreases |ts|
  {
    if ts != [] {
      var step := Scan(ts, tag);
      var k := step.consumed;
      ScanTags(ts, tag, tag);
      SubstituteAlternates(ts[k..], tag);
      TagsConcat(step.emitted, Substitute(ts[k..], tag), tag);
      AlternatingConcat(Tags(step.emitted, tag), Tags(Substitute(ts[k..], tag), tag));
    }
  }

  lemma {:induction false} AlternatingConcat(a: seq<bool>, b: seq<bool>)
    requires a == [] || a == [true, false]
    requires Alternating(b)
    ensures Alternating(a + b)
  {
    forall i | 0 <= i < |a + b| ensures (a + b)[i] == (i % 2 == 0) {
      if i >= |a| {
        assert (a + b)[i] == b[i - |a|];
      }
    }
  }

  /** Positions `i` and `j` hold an opening and a closing delimiter with nothing
      but `.`-tokens between them: the regular expression has something to match. */
  predicate IsPair(ts: seq<Token>, tag: Tag, i: nat, j: nat) {
    && i + |Delimiter(tag)| <= j
    && DelimiterAt(ts, i, tag)
    && DelimiterAt(ts, j, tag)
    && AllDot(ts[i + |Delimiter(tag)|..j])
  }

  predicate HasPair(ts: seq<Token>, tag: Tag) {
    exists i: nat, j: nat | i <= j <= |ts| :: IsPair(ts, tag, i, j)
  }

  lemma {:induction false} PairShift(ts: seq<Token>, tag: Tag, i: nat, j: nat)
    requires |ts| > 0
    requires IsPair(ts[1..], tag, i, j)
    ensures IsPair(ts, tag, i + 1, j + 1)
  {
    var n := |Delimiter(tag)|;
    assert ts[1..][i..i + n] == ts[i + 1..i + 1 + n];
    assert ts[1..][j..j + n] == ts[j + 1..j + 1 + n];
    assert ts[1..][i + n..j] == ts[i + 1 + n..j + 1];
  }

  /** Text with no delimiter pair comes out of the replacement unchanged. */
  lemma {:induction false} NoPairUnchanged(ts: seq<Token>, tag: Tag)
    requires !HasPair(ts, tag)
    ensures Substitute(ts, tag) == ts
    decreases |ts|
  {
    var n := |Delimiter(tag)|;
    if ts != [] {
      if DelimiterAt(ts, 0, tag) && CloseFrom(ts, tag, n).Some? {
        var q := CloseFrom(ts, tag, n).value;
        assert IsPair(ts, tag, 0, q);
        assert false;
      }
      assert Scan(ts, tag) == Step([ts[0]], 1);
      if HasPair(ts[1..], tag) {
        var i: nat, j: nat :| i <= j <= |ts[1..]| && IsPair(ts[1..], tag, i, j);
        PairShift(ts, tag, i, j);
        assert false;
      }
      NoPairUnchanged(ts[1..], tag);
      assert [ts[0]] + ts[1..] == ts;
    }
  }

  /** Wherever a delimiter pair exists, the replacement produces at least one span. */
  lemma {:induction false} PairMarksUp(ts: seq<Token>, tag: Tag, i: nat, j: nat)
    requires IsPair(ts, tag, i, j)
    ensures Tags(Substitute(ts, tag), tag) != []
    decreases |ts|
  {
    var n := |Delimiter(tag)|;
    if DelimiterAt(ts, 0, tag) && CloseFrom(ts, tag, n).Some? {
      MatchAtFrontMarksUp(ts, tag);
    } else if i == 0 {
      CloseFromFinds(ts, tag, n, j);
      assert false;
    } else {
      PairShiftDown(ts, tag, i, j);
      PairMarksUp(ts[1..], tag, i - 1, j - 1);
      CopiedFrontKeepsTags(ts, tag);
    }
  }

  lemma {:induction false} MatchAtFrontMarksUp(ts: seq<Token>, tag: Tag)
    requires DelimiterAt(ts, 0, tag) && CloseFrom(ts, tag, |Delimiter(tag)|).Some?
    ensures Tags(Substitute(ts, tag), tag) != []
  {
    var step := Scan(ts, tag);
    TagsConcat(step.emitted, Substitute(ts[step.consumed..], tag), tag);
    MatchTags(ts, tag, CloseFrom(ts, tag, |Delimiter(tag)|).value, tag);
  }

  lemma {:induction false} CopiedFrontKeepsTags(ts: seq<Token>, tag: Tag)
    requires ts != [] && !(DelimiterAt(ts, 0, tag) && CloseFrom(ts, tag, |Delimiter(tag)|).Some?)
    ensures Tags(Substitute(ts[1..], tag), tag) != [] ==> Tags(Substitute(ts, tag), tag) != []
  {
    assert Substitute(ts, tag) == [ts[0]] + Substitute(ts[1..], tag);
    TagsConcat([ts[0]], Substitute(ts[1..], tag), tag);
  }

  lemma {:induction false} PairShiftDown(ts: seq<Token>, tag: Tag, i: nat, j: nat)
    requires IsPair(ts, tag, i, j) && i > 0
    ensures IsPair(ts[1..], tag, i - 1, j - 1)
  {
    var n := |Delimiter(tag)|;
    var outer := ts[i + n..j];
    var inner := ts[1..][i - 1 + n..j - 1];
    assert inner == outer by { TailSlice(ts, i - 1 + n, j - 1); }
    assert DelimiterAt(ts[1..], i - 1, tag) && DelimiterAt(ts[1..], j - 1, tag) by {
      DelimiterShift(ts, i, tag);
      DelimiterShift(ts, j, tag);
    }
  }

  lemma {:induction false} TailSlice(ts: seq<Token>, a: nat, b: nat)
    requires a <= b < |ts|
    ensures ts[1..][a..b] == ts[a + 1..b + 1]
  {
    forall k | 0 <= k < b - a ensures ts[1..][a..b][k] == ts[a + 1..b + 1][k] {
      assert ts[1..][a..b][k] == ts[1..][a + k];
    }
  }

  lemma {:induction false} DelimiterShift(ts: seq<Token>, p: nat, tag: Tag)
    requires p > 0 && DelimiterAt(ts, p, tag)
    ensures DelimiterAt(ts[1..], p - 1, tag)
  {
  }

  /** On text holding no spans of its kind, the replacement changes something
      exactly when a delimiter pair exists. */
  lemma {:induction false} SubstituteChangesIffPair(ts: seq<Token>, tag: Tag)
    requires Tags(ts, tag) == []
    ensures Substitute(ts, tag) == ts <==> !HasPair(ts, tag)
  {
    if HasPair(ts, tag) {
      var i: nat, j: nat :| IsPair(ts, tag, i, j);
      PairMarksUp(ts, tag, i, j);
    } else {
      NoPairUnchanged(ts, tag);
    }
  }

  // ---------------------------------------------------------------------------
  // The replacement described by the matches it makes, independently of the
  // scanning functions: together with `Substitute([]) == []` the three lemmas
  // below determine the result of every input.

  /** The match the lazy `(.*?)` makes from an opening delimiter at `i`: the
      closing delimiter at `j` is the first one after the opening delimiter. */
  predicate LazyPair(ts: seq<Token>, tag: Tag, i: nat, j: nat) {
    && IsPair(ts, tag, i, j)
    && forall k :: i + |Delimiter(tag)| <= k < j ==> !DelimiterAt(ts, k, tag)
  }

  /** The lazy search stops at the first closing delimiter. */
  lemma {:induction false} CloseFromIsFirst(ts: seq<Token>, tag: Tag, q: nat)
    requires q <= |ts| && CloseFrom(ts, tag, q).Some?
    ensures forall k :: q <= k < CloseFrom(ts, tag, q).value ==> !DelimiterAt(ts, k, tag)
    decreases |ts| - q
  {
    if !DelimiterAt(ts, q, tag) {
      CloseFromIsFirst(ts, tag, q + 1);
    }
  }

  /** Whenever a pair opens at the front, so does a lazy one, ending no later. */
  lemma {:induction false} PairHasLazy(ts: seq<Token>, tag: Tag, j: nat)
    requires IsPair(ts, tag, 0, j)
    ensures exists q: nat :: q <= j && LazyPair(ts, tag, 0, q)
  {
    var n := |Delimiter(tag)|;
    CloseFromFinds(ts, tag, n, j);
    CloseFromIsFirst(ts, tag, n);
    var q := CloseFrom(ts, tag, n).value;
    assert LazyPair(ts, tag, 0, q);
  }

  /** A match the scan finds at the front is a pair. */
  lemma {:induction false} MatchIsPair(ts: seq<Token>, tag: Tag)
    ensures var n := |Delimiter(tag)|;
      n <= |ts| && DelimiterAt(ts, 0, tag) && CloseFrom(ts, tag, n).Some? ==>
        IsPair(ts, tag, 0, CloseFrom(ts, tag, n).value)
  {
  }

  /** Leftmost: where no pair opens, the first token is copied and the search
      goes on from the next one. */
  lemma {:induction false} SubstituteCopies(ts: seq<Token>, tag: Tag)
    requires ts != [] && forall j :: !IsPair(ts, tag, 0, j)
    ensures Substitute(ts, tag) == [ts[0]] + Substitute(ts[1..], tag)
  {
    MatchIsPair(ts, tag);
    SubstituteUnfold(ts, tag);
  }

  /** The scan's search finds exactly the lazy match. */
  lemma {:induction false} LazyIsFound(ts: seq<Token>, tag: Tag, q: nat)
    requires LazyPair(ts, tag, 0, q)
    ensures CloseFrom(ts, tag, |Delimiter(tag)|) == Some(q)
  {
    var n := |Delimiter(tag)|;
    CloseFromFinds(ts, tag, n, q);
    CloseFromIsFirst(ts, tag, n);
  }

  lemma {:induction false} ScanLazy(ts: seq<Token>, tag: Tag, q: nat)
    requires LazyPair(ts, tag, 0, q)
    ensures 0 < |Delimiter(tag)| <= q && q + |Delimiter(tag)| <= |ts|
    ensures Scan(ts, tag) ==
      Step([Open(tag)] + ts[|Delimiter(tag)|..q] + [Close(tag)], q + |Delimiter(tag)|)
  {
    LazyIsFound(ts, tag, q);
  }

  /** Lazy and global: a pair opening at the front becomes one span around the
      text up to the first closing delimiter, and the search goes on after it. */
  lemma {:induction false} SubstituteLazy(ts: seq<Token>, tag: Tag, q: nat)
    requires LazyPair(ts, tag, 0, q)
    ensures Substitute(ts, tag) ==
      [Open(tag)] + ts[|Delimiter(tag)|..q] + [Close(tag)] + Substitute(ts[q + |Delimiter(tag)|..], tag)
  {
    SubstituteUnfoldIf(ts, tag);
    ScanLazyIf(ts, tag, q);
  }

  /** The two facts `SubstituteLazy` combines, stated without preconditions so
      that using them leaves no obligation behind. */
  lemma {:induction false} SubstituteUnfoldIf(ts: seq<Token>, tag: Tag)
    ensures ts != [] ==>
      Substitute(ts, tag) == Scan(ts, tag).emitted + Substitute(ts[Scan(ts, tag).consumed..], tag)
  {
  }

  lemma {:induction false} ScanLazyIf(ts: seq<Token>, tag: Tag, q: nat)
    ensures LazyPair(ts, tag, 0, q) ==>
      && 0 < |Delimiter(tag)| <= q && q + |Delimiter(tag)| <= |ts| && ts != []
      && Scan(ts, tag) == Step([Open(tag)] + ts[|Delimiter(tag)|..q] + [Close(tag)], q + |Delimiter(tag)|)
  {
    if LazyPair(ts, tag, 0, q) {
      ScanLazy(ts, tag, q);
    }
  }

  /** Text a regular-expression `.` matches throughout. */
  predicate NoLineBreak(s: string) {
    forall i :: 0 <= i < |s| ==> !IsLineTerminator(s[i])
  }

  lemma {:induction false} CharsConcat(a: string, b: string)
    ensures Chars(a + b) == Chars(a) + Chars(b)
  {
  }

  /** A `**…**` at the front whose inside holds no asterisk becomes one bold span. */
  lemma {:induction false} OneBoldSpan(y: string, z: string)
    requires '*' !in y && NoLineBreak(y)
    ensures Substitute(Chars("**" + y + "**" + z), Strong) ==
      [Open(Strong)] + Chars(y) + [Close(Strong)] + Substitute(Chars(z), Strong)
  {
    BoldChars(y, z);
    BoldSpanTokens(Chars(y), Chars(z));
  }

  lemma {:induction false} BoldChars(y: string, z: string)
    requires '*' !in y && NoLineBreak(y)
    ensures Chars("**" + y + "**" + z) == [Char('*'), Char('*')] + Chars(y) + [Char('*'), Char('*')] + Chars(z)
    ensures forall k :: 0 <= k < |Chars(y)| ==> Chars(y)[k] != Char('*') && Dot(Chars(y)[k])
  {
    CharsConcat("**" + y + "**", z);
    CharsConcat("**" + y, "**");
    CharsConcat("**", y);
  }

  lemma {:induction false} BoldSpanTokens(y: seq<Token>, rest: seq<Token>)
    requires forall k :: 0 <= k < |y| ==> y[k] != Char('*') && Dot(y[k])
    ensures Substitute([Char('*'), Char('*')] + y + [Char('*'), Char('*')] + rest, Strong) ==
      [Open(Strong)] + y + [Close(Strong)] + Substitute(rest, Strong)
  {
    var ts := [Char('*'), Char('*')] + y + [Char('*'), Char('*')] + rest;
    var q := 2 + |y|;
    assert ts[2..q] == y;
    assert ts[q + 2..] == rest;
    assert forall k :: 2 <= k < q ==> ts[k] == y[k - 2];
    assert LazyPair(ts, Strong, 0, q);
    SubstituteLazy(ts, Strong, q);
  }

  lemma {:induction false} NoPairAtFront(ts: seq<Token>, tag: Tag)
    requires !DelimiterAt(ts, 0, tag)
    ensures forall j :: !IsPair(ts, tag, 0, j)
  {
  }

  /** Text without the delimiter's character is copied as it is by the pass. */
  lemma {:induction false} CopyPlain(m: string, z: string, tag: Tag)
    requires Delimiter(tag)[0] !in m
    ensures Substitute(Chars(m + z), tag) == Chars(m) + Substitute(Chars(z), tag)
  {
    CharsConcat(m, z);
    CopyTokens(Chars(m), Chars(z), tag);
  }

  lemma {:induction false} CopyTokens(m: seq<Token>, rest: seq<Token>, tag: Tag)
    requires forall k :: 0 <= k < |m| ==> m[k] != Char(Delimiter(tag)[0])
    ensures Substitute(m + rest, tag) == m + Substitute(rest, tag)
    decreases |m|
  {
    if m == [] {
      assert m + rest == rest;
    } else {
      CopyTokens(m[1..], rest, tag);
      CopyTokensStep(m, rest, tag);
    }
  }

  /** The inductive step of `CopyTokens`. */
  lemma {:induction false} CopyTokensStep(m: seq<Token>, rest: seq<Token>, tag: Tag)
    requires m != [] && m[0] != Char(Delimiter(tag)[0])
    requires Substitute(m[1..] + rest, tag) == m[1..] + Substitute(rest, tag)
    ensures Substitute(m + rest, tag) == m + Substitute(rest, tag)
  {
    ConsSplit(m, rest);
    UnopenedFront(m + rest, tag);
    ConsJoin(m, Substitute(rest, tag));
  }

  lemma {:induction false} ConsSplit(m: seq<Token>, rest: seq<Token>)
    requires m != []
    ensures (m + rest)[0] == m[0] && (m + rest)[1..] == m[1..] + rest
  {
  }

  /** A first token that cannot begin the delimiter is copied by the pass. */
  lemma {:induction false} UnopenedFront(ts: seq<Token>, tag: Tag)
    requires ts != [] && ts[0] != Char(Delimiter(tag)[0])
    ensures Substitute(ts, tag) == [ts[0]] + Substitute(ts[1..], tag)
  {
    NoPairAtFront(ts, tag);
    SubstituteCopies(ts, tag);
  }

  lemma {:induction false} ConsJoin(m: seq<Token>, r: seq<Token>)
    requires m != []
    ensures [m[0]] + (m[1..] + r) == m + r
  {
    assert [m[0]] + m[1..] == m;
  }

  /** Two bold pairs make two spans, with the text between them copied: the lazy
      match does not reach across to the last delimiter. */
  lemma {:induction false} TwoBoldSpans(x: string, m: string, y: string)
    requires '*' !in x && '*' !in m && '*' !in y && NoLineBreak(x) && NoLineBreak(y)
    ensures BoldSpans("**" + x + "**" + m + "**" + y + "**") ==
      [Open(Strong)] + Chars(x) + [Close(Strong)] + Chars(m) + [Open(Strong)] + Chars(y) + [Close(Strong)]
  {
    var a := [Open(Strong)] + Chars(x) + [Close(Strong)];
    var b := [Open(Strong)] + Chars(y) + [Close(Strong)];
    var last := "**" + y + "**";
    var tail := m + last;
    var full := "**" + x + "**" + m + "**" + y + "**";
    assert full == "**" + x + "**" + tail by { StringRegroup("**", x, m, y); }
    assert Substitute(Chars(full), Strong) == a + Substitute(Chars(tail), Strong) by { OneBoldSpan(x, tail); }
    assert Substitute(Chars(tail), Strong) == Chars(m) + Substitute(Chars(last), Strong) by { CopyPlain(m, last, Strong); }
    assert Substitute(Chars(last), Strong) == b by { LastBoldSpan(y); }
    TokensRegroup([Open(Strong)], Chars(x), [Close(Strong)], Chars(m), Chars(y));
    BoldSpansUnfold(full);
  }

  lemma {:induction false} StringRegroup(d: string, x: string, m: string, y: string)
    ensures d + x + d + m + d + y + d == d + x + d + (m + (d + y + d))
  {
  }

  lemma {:induction false} TokensRegroup(o: seq<Token>, x: seq<Token>, c: seq<Token>, m: seq<Token>, y: seq<Token>)
    ensures o + x + c + (m + (o + y + c)) == o + x + c + m + o + y + c
  {
  }

  lemma {:induction false} BoldSpansUnfold(s: string)
    ensures BoldSpans(s) == Substitute(Chars(s), Strong)
  {
  }

  lemma {:induction false} LastBoldSpan(y: string)
    requires '*' !in y && NoLineBreak(y)
    ensures Substitute(Chars("**" + y + "**"), Strong) == [Open(Strong)] + Chars(y) + [Close(Strong)]
  {
    OneBoldSpan(y, "");
    assert "**" + y + "**" + "" == "**" + y + "**";
    assert Chars("") == [];
  }

  /** The bold-only parse applied to `- **` list items. */
  function BoldSpans(s: string): (ts: seq<Token>)
    ensures Unparse(ts) == s
  {
    UnparseChars(s);
    SubstituteRoundTrip(Chars(s), Strong);
    Substitute(Chars(s), Strong)
  }

  /** The paragraph parse: bold spans first, then code spans over the result. */
  function Spans(s: string): (ts: seq<Token>)
    ensures Unparse(ts) == s
  {
    UnparseChars(s);
    SubstituteRoundTrip(Chars(s), Strong);
    SubstituteRoundTrip(Substitute(Chars(s), Strong), Code);
    Substitute(Substitute(Chars(s), Strong), Code)
  }

  /** Both kinds of span in a parsed paragraph open and close in strict alternation. */
  lemma {:induction false} SpansAlternate(s: string)
    ensures Alternating(Tags(Spans(s), Strong))
    ensures Alternating(Tags(Spans(s), Code))
  {
    CharsHaveNoTags(s, Strong);
    CharsHaveNoTags(s, Code);
    var bold := Substitute(Chars(s), Strong);
    SubstituteAlternates(Chars(s), Strong);
    SubstituteKeepsOtherTags(bold, Code, Strong);
    SubstituteKeepsOtherTags(Chars(s), Strong, Code);
    SubstituteAlternates(bold, Code);
  }

  /** A paragraph comes out as plain, unchanged text exactly when it holds neither
      a `**…**` pair nor a `` `…` `` pair. */
  lemma {:induction false} SpansPlainIff(s: string)
    ensures Spans(s) == Chars(s) <==> !HasPair(Chars(s), Strong) && !HasPair(Chars(s), Code)
  {
    CharsHaveNoTags(s, Strong);
    SubstituteChangesIffPair(Chars(s), Strong);
    if HasPair(Chars(s), Strong) {
      BoldSurvivesCode(s);
    } else {
      CharsHaveNoTags(s, Code);
      SubstituteChangesIffPair(Chars(s), Code);
    }
  }

  lemma {:induction false} BoldSurvivesCode(s: string)
    requires HasPair(Chars(s), Strong)
    ensures Spans(s) != Chars(s)
  {
    CharsHaveNoTags(s, Strong);
    var i: nat, j: nat :| i <= j <= |Chars(s)| && IsPair(Chars(s), Strong, i, j);
    PairMarksUp(Chars(s), Strong, i, j);
    SubstituteKeepsOtherTags(Substitute(Chars(s), Strong), Code, Strong);
  }

  // ---------------------------------------------------------------------------
  // A worked paragraph.

  /** Text in which neither delimiter occurs. */
  predicate NoDelimiters(s: string) {
    '*' !in s && '`' !in s
  }

  /** A paragraph with one bold pair and, after it, one code pair gives a bold
      span and a code span, with the text around them copied. */
  lemma {:induction false} BoldThenCode(a: string, x: string, m: string, y: string, z: string)
    requires NoDelimiters(a) && NoDelimiters(x) && NoDelimiters(m) && NoDelimiters(y) && NoDelimiters(z)
    requires NoLineBreak(x) && NoLineBreak(y)
    ensures Spans(a + "**" + x + "**" + m + "`" + y + "`" + z) ==
      Chars(a) + [Open(Strong)] + Chars(x) + [Close(Strong)] + Chars(m) +
      [Open(Code)] + Chars(y) + [Close(Code)] + Chars(z)
  {
    var tail := m + "`" + y + "`" + z;
    var front := Chars(a) + [Open(Strong)] + Chars(x) + [Close(Strong)] + Chars(m);
    var code := [Char('`')] + Chars(y) + [Char('`')] + Chars(z);
    calc {
      Spans(a + "**" + x + "**" + m + "`" + y + "`" + z);
    == { ParagraphRegroup(a, x, m, y, z); }
      Spans(a + ("**" + x + "**" + tail));
    == { SpansUnfold(a + ("**" + x + "**" + tail)); }
      Substitute(Substitute(Chars(a + ("**" + x + "**" + tail)), Strong), Code);
    == { BoldPass(a, x, tail); }
      Substitute(Chars(a) + ([Open(Strong)] + Chars(x) + [Close(Strong)] + Chars(tail)), Code);
    == { CodeChars(m, y, z); BoldRegroup(Chars(a), Chars(x), Chars(m), code); }
      Substitute(front + code, Code);
    == { TicklessFront(a, x, m); CodePass(front, y, z); }
      front + ([Open(Code)] + Chars(y) + [Close(Code)] + Chars(z));
    == { CodeRegroup(front, Chars(y), Chars(z)); }
      front + [Open(Code)] + Chars(y) + [Close(Code)] + Chars(z);
    }
  }

  lemma {:induction false} ParagraphRegroup(a: string, x: string, m: string, y: string, z: string)
    ensures a + "**" + x + "**" + m + "`" + y + "`" + z == a + ("**" + x + "**" + (m + "`" + y + "`" + z))
  {
  }

  /** The bold pass copies the text around the one bold pair. */
  lemma {:induction false} BoldPass(a: string, x: string, tail: string)
    requires '*' !in a && '*' !in x && '*' !in tail && NoLineBreak(x)
    ensures Substitute(Chars(a + ("**" + x + "**" + tail)), Strong) ==
      Chars(a) + ([Open(Strong)] + Chars(x) + [Close(Strong)] + Chars(tail))
  {
    CopyPlain(a, "**" + x + "**" + tail, Strong);
    OneBoldSpan(x, tail);
    UntouchedText(tail, Strong);
  }

  /** The code pass copies the tokens before the one code pair and the text after it. */
  lemma {:induction false} CodePass(front: seq<Token>, y: string, z: string)
    requires forall k :: 0 <= k < |front| ==> front[k] != Char(Delimiter(Code)[0])
    requires '`' !in y && '`' !in z && NoLineBreak(y)
    ensures Substitute(front + ([Char('`')] + Chars(y) + [Char('`')] + Chars(z)), Code) ==
      front + ([Open(Code)] + Chars(y) + [Close(Code)] + Chars(z))
  {
    var code := [Char('`')] + Chars(y) + [Char('`')] + Chars(z);
    CopyTokens(front, code, Code);
    CodeSpanTokens(Chars(y), Chars(z));
    UntouchedText(z, Code);
  }

  lemma {:induction false} SpansUnfold(s: string)
    ensures Spans(s) == Substitute(Substitute(Chars(s), Strong), Code)
  {
  }

  lemma {:induction false} CodeRegroup(f: seq<Token>, y: seq<Token>, z: seq<Token>)
    ensures f + ([Open(Code)] + y + [Close(Code)] + z) == f + [Open(Code)] + y + [Close(Code)] + z
  {
  }

  /** Text without the delimiter's character comes out as it went in. */
  lemma {:induction false} UntouchedText(s: string, tag: Tag)
    requires Delimiter(tag)[0] !in s
    ensures Substitute(Chars(s), tag) == Chars(s)
  {
    CopyPlain(s, "", tag);
    assert s + "" == s;
    assert Chars("") == [];
  }

  lemma {:induction false} CodeChars(m: string, y: string, z: string)
    ensures Chars(m + "`" + y + "`" + z) == Chars(m) + ([Char('`')] + Chars(y) + [Char('`')] + Chars(z))
  {
    CharsConcat(m + "`" + y + "`", z);
    CharsConcat(m + "`" + y, "`");
    CharsConcat(m + "`", y);
    CharsConcat(m, "`");
  }

  lemma {:induction false} BoldRegroup(a: seq<Token>, x: seq<Token>, m: seq<Token>, c: seq<Token>)
    ensures a + ([Open(Strong)] + x + [Close(Strong)] + (m + c)) ==
      a + [Open(Strong)] + x + [Close(Strong)] + m + c
  {
  }

  /** The text before the code pair, bold tags included, holds no backtick. */
  lemma {:induction false} TicklessFront(a: string, x: string, m: string)
    requires '`' !in a && '`' !in x && '`' !in m
    ensures var front := Chars(a) + [Open(Strong)] + Chars(x) + [Close(Strong)] + Chars(m);
      forall k :: 0 <= k < |front| ==> front[k] != Char(Delimiter(Code)[0])
  {
    var front := Chars(a) + [Open(Strong)] + Chars(x) + [Close(Strong)] + Chars(m);
    forall k | 0 <= k < |front| ensures front[k] != Char('`') {
      if k < |a| {
        assert front[k] == Char(a[k]);
      } else if |a| < k < |a| + 1 + |x| {
        assert front[k] == Char(x[k - |a| - 1]);
      } else if |a| + |x| + 2 <= k {
        assert front[k] == Char(m[k - |a| - |x| - 2]);
      }
    }
  }

  /** A `` `…` `` at the front whose inside holds no backtick becomes one code span. */
  lemma {:induction false} CodeSpanTokens(y: seq<Token>, rest: seq<Token>)
    requires forall k :: 0 <= k < |y| ==> y[k] != Char('`') && Dot(y[k])
    ensures Substitute([Char('`')] + y + [Char('`')] + rest, Code) ==
      [Open(Code)] + y + [Close(Code)] + Substitute(rest, Code)
  {
    var ts := [Char('`')] + y + [Char('`')] + rest;
    var q := 1 + |y|;
    assert ts[1..q] == y;
    assert ts[q + 1..] == rest;
    assert forall k :: 1 <= k < q ==> ts[k] == y[k - 1];
    assert LazyPair(ts, Code, 0, q);
    SubstituteLazy(ts, Code, q);
  }

  /** The paragraph "Paragraph with **bold** and `code`." has one bold span and
      one code span. */
  lemma {:induction false} ParagraphExample()
    ensures Spans("Paragraph with **bold** and `code`.") ==
      Chars("Paragraph with ") + [Open(Strong)] + Chars("bold") + [Close(Strong)] + Chars(" and ") +
      [Open(Code)] + Chars("code") + [Close(Code)] + Chars(".")
  {
    ParagraphPieces();
    ParagraphJoined();
    BoldThenCode("Paragraph with ", "bold", " and ", "code", ".");
  }

  lemma {:induction false} ParagraphPieces()
    ensures NoDelimiters("Paragraph with ") && NoDelimiters("bold") && NoDelimiters(" and ")
    ensures NoDelimiters("code") && NoDelimiters(".")
    ensures NoLineBreak("bold") && NoLineBreak("code")
  {
  }

  lemma {:induction false} ParagraphJoined()
    ensures "Paragraph with " + "**" + "bold" + "**" + " and " + "`" + "code" + "`" + "." ==
      "Paragraph with **bold** and `code`."
  {
  }
}
