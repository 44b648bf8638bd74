// `getPlainText` of src/pages/BlogPostPage.js: the text handed to the speech
// engine. Six global replacements run in order over the post body, then the
// result is trimmed:
//   /#{1,3}\s/g -> ''    /\*\*(.*?)\*\*/g -> '$1'    /`(.*?)`/g -> '$1'
//   />\s/g -> ''         /-\s/g -> ''                /\n+/g -> '. '
// A global replacement scans left to right: where the pattern matches it drops
// the match and resumes just after it, elsewhere it keeps one character and
// moves on by one.
module PlainText {
  import opened JsText
  import opened InlineMarkup

  /** The three deleting patterns that are not delimited spans. */
  datatype Pattern =
    | HeaderMark          // /#{1,3}\s/
    | MarkerSpace(lead: char)  // />\s/ and /-\s/

  /** Number of '#' at the front of `s`. */
  function HashRun(s: string): (n: nat)
    ensures n <= |s|
    ensures forall k :: 0 <= k < n ==> s[k] == '#'
    ensures n < |s| ==> s[n] != '#'
  {
    if |s| == 0 || s[0] != '#' then 0 else 1 + HashRun(s[1..])
  }

  /** Length of the match of `p` at the front of `s`, 0 when there is none.
      `#{1,3}` is greedy and may give back '#'s, but a '#' is never white space,
      so the only candidate is the whole run of up to three '#'s, and it matches
      exactly when the run is at most three long and a white-space character
      follows it. */
  function MatchLen(p: Pattern, s: string): (n: nat)
    ensures n <= |s|
  {
    match p
    case HeaderMark =>
      var h := HashRun(s);
      if 1 <= h <= 3 && h < |s| && IsSpace(s[h]) then h + 1 else 0
    case MarkerSpace(lead) =>
      if 2 <= |s| && s[0] == lead && IsSpace(s[1]) then 2 else 0
  }

  /** The characters a match of `p` can consist of. */
  predicate Removable(p: Pattern, c: char) {
    IsSpace(c) || (if p.HeaderMark? then c == '#' else c == p.lead)
  }

  /** `s.replace(p, '')` with the global flag. */
  function RemoveMatches(p: Pattern, s: string): (r: string)
    ensures |r| <= |s|
    decreases |s|
  {
    if s == [] then []
    else
      var n := MatchLen(p, s);
      if n > 0 then RemoveMatches(p, s[n..]) else [s[0]] + RemoveMatches(p, s[1..])
  }

  /** The pattern matches nowhere in `s`. */
  predicate NoMatch(p: Pattern, s: string) {
    forall i :: 0 <= i < |s| ==> MatchLen(p, s[i..]) == 0
  }

  /** A replacement changes the text exactly when the pattern matches somewhere
      in it. */
  lemma {:induction false} RemoveMatchesIff(p: Pattern, s: string)
    ensures RemoveMatches(p, s) == s <==> NoMatch(p, s)
    decreases |s|
  {
    if s != [] {
      var n := MatchLen(p, s);
      NoMatchCons(p, s);
      if n > 0 {
        RemoveMatchesSkip(p, s);
      } else {
        RemoveMatchesCopy(p, s);
        RemoveMatchesIff(p, s[1..]);
        ConsEqual(s, RemoveMatches(p, s[1..]));
      }
    }
  }

  /** Where the pattern matches at the front, the match is dropped. */
  lemma RemoveMatchesSkip(p: Pattern, s: string)
    requires MatchLen(p, s) > 0
    ensures RemoveMatches(p, s) == RemoveMatches(p, s[MatchLen(p, s)..])
    ensures |RemoveMatches(p, s)| < |s|
  {
  }

  /** Where the pattern does not match at the front, one character is kept. */
  lemma RemoveMatchesCopy(p: Pattern, s: string)
    requires s != [] && MatchLen(p, s) == 0
    ensures RemoveMatches(p, s) == [s[0]] + RemoveMatches(p, s[1..])
  {
  }

  /** The pattern matches nowhere in a non-empty text exactly when it matches
      neither at the front nor in the rest. */
  lemma NoMatchCons(p: Pattern, s: string)
    requires s != []
    ensures NoMatch(p, s) <==> MatchLen(p, s) == 0 && NoMatch(p, s[1..])
  {
    if NoMatch(p, s) {
      assert s[0..] == s;
      forall i | 0 <= i < |s[1..]| ensures MatchLen(p, s[1..][i..]) == 0 {
        assert s[1..][i..] == s[i + 1..];
      }
    }
    if MatchLen(p, s) == 0 && NoMatch(p, s[1..]) {
      forall i | 0 <= i < |s| ensures MatchLen(p, s[i..]) == 0 {
        if i > 0 {
          assert s[i..] == s[1..][i - 1..];
        } else {
          assert s[0..] == s;
        }
      }
    }
  }

  lemma ConsEqual(s: string, r: string)
    requires s != []
    ensures [s[0]] + r == s <==> r == s[1..]
  {
    if [s[0]] + r == s {
      assert r == ([s[0]] + r)[1..];
    }
  }

  /** A match consists of removable characters only. */
  lemma MatchIsRemovable(p: Pattern, s: string)
    ensures forall k :: 0 <= k < MatchLen(p, s) ==> Removable(p, s[k])
  {
  }

  lemma NoCharIn(x: string, c: char)
    requires c !in x
    ensures multiset(x)[c] == 0
  {
  }

  /** A replacement removes nothing but the pattern's own characters. */
  lemma {:induction false} RemoveMatchesKeeps(p: Pattern, s: string, c: char)
    requires !Removable(p, c)
    ensures multiset(RemoveMatches(p, s))[c] == multiset(s)[c]
    decreases |s|
  {
    if s != [] {
      var n := MatchLen(p, s);
      if n > 0 {
        RemoveMatchesSkip(p, s);
        RemoveMatchesKeeps(p, s[n..], c);
        MatchKeeps(p, s, c);
      } else {
        RemoveMatchesCopy(p, s);
        RemoveMatchesKeeps(p, s[1..], c);
        CountCons(s, RemoveMatches(p, s[1..]), c);
      }
    }
  }

  lemma CountCons(s: string, r: string, c: char)
    requires s != [] && multiset(r)[c] == multiset(s[1..])[c]
    ensures multiset([s[0]] + r)[c] == multiset(s)[c]
  {
    assert s == [s[0]] + s[1..];
  }

  /** A header marker, one to three '#' and a white-space character, is
      deleted, and the replacement goes on right after it. */
  lemma {:induction false} HeaderMarkerDropped(h: nat, w: char, x: string)
    requires 1 <= h <= 3 && IsSpace(w)
    ensures RemoveMatches(HeaderMark, seq(h, k => '#') + [w] + x) == RemoveMatches(HeaderMark, x)
  {
    var s := seq(h, k => '#') + [w] + x;
    assert s[h] == w && w != '#';
    assert forall k :: 0 <= k < h ==> s[k] == '#';
    assert HashRun(s) == h;
    assert MatchLen(HeaderMark, s) == h + 1;
    assert s[h + 1..] == x;
  }

  /** A quote or bullet marker, its character and a white-space character, is
      deleted, and the replacement goes on right after it. */
  lemma {:induction false} MarkerDropped(lead: char, w: char, x: string)
    requires IsSpace(w)
    ensures RemoveMatches(MarkerSpace(lead), [lead, w] + x) == RemoveMatches(MarkerSpace(lead), x)
  {
    var s := [lead, w] + x;
    assert MatchLen(MarkerSpace(lead), s) == 2;
    assert s[2..] == x;
  }

  /** Dropping a match at the front keeps every character the pattern cannot
      match. */
  lemma MatchKeeps(p: Pattern, s: string, c: char)
    requires !Removable(p, c)
    ensures multiset(s[MatchLen(p, s)..])[c] == multiset(s)[c]
  {
    var n := MatchLen(p, s);
    MatchIsRemovable(p, s);
    assert s == s[..n] + s[n..];
    assert c !in s[..n] by {
      forall k | 0 <= k < n ensures s[..n][k] != c {
        assert s[..n][k] == s[k];
      }
    }
    NoCharIn(s[..n], c);
  }

  // ---------------------------------------------------------------------------
  // The two span replacements by '$1'.

  // The bold replacement (for `Strong`) and the code replacement (for `Code`)
  // by '$1': the matched spans are found as for rendering, and their delimiters
  // dropped.
  function Unwrap(s: string, tag: Tag): string {
    Erase(Substitute(Chars(s), tag))
  }

  /** Dropping tags never lengthens the text, and shortens it when a tag of
      the given kind is present. */
  lemma {:induction false} EraseShorter(ts: seq<Token>, tag: Tag)
    ensures |Erase(ts)| <= |Unparse(ts)|
    ensures Tags(ts, tag) != [] ==> |Erase(ts)| < |Unparse(ts)|
    decreases |ts|
  {
    if ts != [] {
      EraseShorter(ts[1..], tag);
    }
  }

  /** An unwrap changes the text exactly when there is a delimited span to unwrap. */
  lemma UnwrapIff(s: string, tag: Tag)
    ensures Unwrap(s, tag) == s <==> !HasPair(Chars(s), tag)
  {
    var ts := Chars(s);
    if HasPair(ts, tag) {
      var i: nat, j: nat :| i <= j <= |ts| && IsPair(ts, tag, i, j);
      PairMarksUp(ts, tag, i, j);
      EraseShorter(Substitute(ts, tag), tag);
      SubstituteRoundTrip(ts, tag);
      UnparseChars(s);
    } else {
      NoPairUnchanged(ts, tag);
      EraseChars(s);
    }
  }

  /** Characters of no delimiter. */
  predicate Undelimited(c: char) {
    c != '*' && c != '`'
  }

  /** Dropping tags keeps every character that is part of no delimiter. */
  lemma {:induction false} EraseKeeps(ts: seq<Token>, c: char)
    requires Undelimited(c)
    ensures multiset(Erase(ts))[c] == multiset(Unparse(ts))[c]
    decreases |ts|
  {
    if ts != [] {
      EraseKeeps(ts[1..], c);
      var src := Source(ts[0]);
      assert multiset(Unparse(ts)) == multiset(src) + multiset(Unparse(ts[1..]));
      if ts[0].Char? {
        assert multiset(Erase(ts)) == multiset([ts[0].c]) + multiset(Erase(ts[1..]));
      } else {
        assert src == "**" || src == "`";
        NoCharIn(src, c);
      }
    }
  }

  /** An unwrap removes delimiter characters only. */
  lemma UnwrapKeeps(s: string, tag: Tag, c: char)
    requires Undelimited(c)
    ensures multiset(Unwrap(s, tag))[c] == multiset(s)[c]
  {
    EraseKeeps(Substitute(Chars(s), tag), c);
    SubstituteRoundTrip(Chars(s), tag);
    UnparseChars(s);
  }

  // ---------------------------------------------------------------------------
  // /\n+/g -> '. '

  /** Number of '\n' at the front of `s`. */
  function NewlineRun(s: string): (n: nat)
    ensures 0 < |s| && s[0] == '\n' ==> 0 < n
    ensures n <= |s|
    ensures forall k :: 0 <= k < n ==> s[k] == '\n'
    ensures n < |s| ==> s[n] != '\n'
  {
    if |s| == 0 || s[0] != '\n' then 0 else 1 + NewlineRun(s[1..])
  }

  /** Every maximal run of line feeds becomes a pause ". ". */
  function CollapseNewlines(s: string): (r: string)
    ensures '\n' !in r
    decreases |s|
  {
    if s == [] then []
    else if s[0] == '\n' then ". " + CollapseNewlines(s[NewlineRun(s)..])
    else [s[0]] + CollapseNewlines(s[1..])
  }

  /** Text without line feeds is left alone. */
  lemma {:induction false} CollapseNoNewline(s: string)
    requires '\n' !in s
    ensures CollapseNewlines(s) == s
    decreases |s|
  {
    if s != [] {
      assert s == [s[0]] + s[1..];
      CollapseNoNewline(s[1..]);
    }
  }

  function Newlines(k: nat): (s: string)
    ensures |s| == k && forall i :: 0 <= i < k ==> s[i] == '\n'
  {
    seq(k, i => '\n')
  }

  /** One run of line feeds between newline-free text and text that does not
      start with a line feed becomes one pause; with `CollapseNoNewline` this
      fixes the result on every input, run by run. */
  lemma {:induction false} CollapseRun(a: string, k: nat, b: string)
    requires '\n' !in a && 0 < k
    requires b == [] || b[0] != '\n'
    ensures CollapseNewlines(a + Newlines(k) + b) == a + ". " + CollapseNewlines(b)
    decreases |a|
  {
    var s := a + Newlines(k) + b;
    if a == [] {
      assert s == Newlines(k) + b;
      assert NewlineRun(s) == k by {
        if k < |s| { assert s[k] == b[0]; }
        NewlineRunIs(s, k);
      }
      assert s[k..] == b;
    } else {
      assert s[0] == a[0];
      assert s[1..] == a[1..] + Newlines(k) + b;
      CollapseRun(a[1..], k, b);
      assert a == [a[0]] + a[1..];
    }
  }

  /** `NewlineRun` is the length of the leading line feeds. */
  lemma NewlineRunIs(s: string, k: nat)
    requires k <= |s|
    requires forall i :: 0 <= i < k ==> s[i] == '\n'
    requires k < |s| ==> s[k] != '\n'
    ensures NewlineRun(s) == k
  {
  }

  // ---------------------------------------------------------------------------

  /** `getPlainText(content)`. */
  function GetPlainText(content: string): (r: string)
    ensures '\n' !in r
    ensures r == [] || (!IsSpace(r[0]) && !IsSpace(r[|r| - 1]))
  {
    var headers := RemoveMatches(HeaderMark, content);
    var bold := Unwrap(headers, Strong);
    var code := Unwrap(bold, Code);
    var quotes := RemoveMatches(MarkerSpace('>'), code);
    var bullets := RemoveMatches(MarkerSpace('-'), quotes);
    var joined := CollapseNewlines(bullets);
    var r := Trim(joined);
    SliceNoNewline(joined);
    r
  }

  lemma SliceNoNewline(s: string)
    requires '\n' !in s
    ensures '\n' !in Trim(s)
  {
    var r := Trim(s);
    var i, j :| 0 <= i <= j <= |s| && r == s[i..j];
    forall k | 0 <= k < |r| ensures r[k] != '\n' {
      assert r[k] == s[i + k];
    }
  }

  /** Characters some stage may remove or insert: markup characters, the dot of
      a pause and white space. */
  predicate Markup(c: char) {
    IsSpace(c) || c == '#' || c == '*' || c == '`' || c == '>' || c == '-' || c == '.'
  }

  lemma AllSpaceHasNo(x: string, c: char)
    requires AllSpace(x) && !IsSpace(c)
    ensures multiset(x)[c] == 0
  {
    assert c !in x by {
      forall k | 0 <= k < |x| ensures x[k] != c { }
    }
  }

  /** `trim` removes white space only. */
  lemma TrimKeeps(s: string, c: char)
    requires !IsSpace(c)
    ensures multiset(Trim(s))[c] == multiset(s)[c]
  {
    var i, j :| 0 <= i <= j <= |s| && Trim(s) == s[i..j] && AllSpace(s[..i]) && AllSpace(s[j..]);
    assert s == s[..i] + s[i..j] + s[j..];
    AllSpaceHasNo(s[..i], c);
    AllSpaceHasNo(s[j..], c);
  }

  /** Turning line feeds into pauses adds only dots and spaces. */
  lemma {:induction false} CollapseKeeps(s: string, c: char)
    requires c != '\n' && c != '.' && c != ' '
    ensures multiset(CollapseNewlines(s))[c] == multiset(s)[c]
    decreases |s|
  {
    if s != [] {
      if s[0] == '\n' {
        CollapseKeeps(s[NewlineRun(s)..], c);
        CollapseKeepsRun(s, c);
      } else {
        CollapseKeeps(s[1..], c);
        CollapseKeepsChar(s, c);
      }
    }
  }

  /** The step of `CollapseKeeps` at a run of line feeds. */
  lemma CollapseKeepsRun(s: string, c: char)
    requires s != [] && s[0] == '\n' && c != '\n' && c != '.' && c != ' '
    requires multiset(CollapseNewlines(s[NewlineRun(s)..]))[c] == multiset(s[NewlineRun(s)..])[c]
    ensures multiset(CollapseNewlines(s))[c] == multiset(s)[c]
  {
    var out := CollapseNewlines(s[NewlineRun(s)..]);
    NewlineRunKeeps(s, c);
    assert CollapseNewlines(s) == ". " + out;
    assert multiset(". " + out) == multiset(". ") + multiset(out);
  }

  /** The step of `CollapseKeeps` at any other character. */
  lemma CollapseKeepsChar(s: string, c: char)
    requires s != [] && s[0] != '\n'
    requires multiset(CollapseNewlines(s[1..]))[c] == multiset(s[1..])[c]
    ensures multiset(CollapseNewlines(s))[c] == multiset(s)[c]
  {
    var out := CollapseNewlines(s[1..]);
    assert CollapseNewlines(s) == [s[0]] + out;
    assert multiset([s[0]] + out) == multiset([s[0]]) + multiset(out);
    assert s == [s[0]] + s[1..];
  }

  /** Dropping the leading line feeds keeps every other character. */
  lemma NewlineRunKeeps(s: string, c: char)
    requires c != '\n'
    ensures multiset(s[NewlineRun(s)..])[c] == multiset(s)[c]
  {
    var n := NewlineRun(s);
    assert s == s[..n] + s[n..];
    assert c !in s[..n] by {
      forall k | 0 <= k < n ensures s[..n][k] != c {
        assert s[..n][k] == s[k];
      }
    }
    NoCharIn(s[..n], c);
  }

  /** What is read aloud keeps every character of the post that is not markup:
      every letter, digit and punctuation mark other than `# * ` > - .` occurs
      as often as in the source. */
  lemma PlainTextKeeps(content: string, c: char)
    requires !Markup(c)
    ensures multiset(GetPlainText(content))[c] == multiset(content)[c]
  {
    var headers := RemoveMatches(HeaderMark, content);
    var bold := Unwrap(headers, Strong);
    var code := Unwrap(bold, Code);
    var quotes := RemoveMatches(MarkerSpace('>'), code);
    var bullets := RemoveMatches(MarkerSpace('-'), quotes);
    RemoveMatchesKeeps(HeaderMark, content, c);
    UnwrapKeeps(headers, Strong, c);
    UnwrapKeeps(bold, Code, c);
    RemoveMatchesKeeps(MarkerSpace('>'), code, c);
    RemoveMatchesKeeps(MarkerSpace('-'), quotes, c);
    CollapseKeeps(bullets, c);
    TrimKeeps(CollapseNewlines(bullets), c);
  }
}
