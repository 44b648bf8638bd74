// The lite-markdown block renderer `renderContent` of src/pages/BlogPostPage.js.
//
// The post body is trimmed and split on '\n'; every line is trimmed again and
// classified, in this order: "## " heading, "### " heading, "> " quote,
// "- **" rich list item, "- " plain list item, numbered point, non-empty
// paragraph, and otherwise nothing. List items gather in one pending list that
// is emitted just before the next heading, quote, numbered point or paragraph,
// and once more at the end. A blank line matches no branch, so it neither emits
// anything nor ends the pending list.
module LiteMarkdown {
  import opened JsText
  import opened InlineMarkup

  /** A `<li>`: a `- **` item is rendered as markup with bold spans; a plain `- `
      item is a text node, kept verbatim. */
  datatype ListItem = RichItem(body: seq<Token>) | PlainItem(text: string)

  datatype Block =
    | Heading(level: nat, text: string)
    | Quote(text: string)
    | BulletList(items: seq<ListItem>)
    | Numbered(number: string, text: string)
    | Paragraph(body: seq<Token>)

  /** What one line contributes. */
  datatype LineKind = Blank | Bullet(item: ListItem) | Emit(block: Block)

  /** Length of the leading digit run of `s`. */
  function DigitRun(s: string): (n: nat)
    ensures n <= |s|
    ensures forall k :: 0 <= k < n ==> IsDigit(s[k])
    ensures n < |s| ==> !IsDigit(s[n])
  {
    if |s| == 0 || !IsDigit(s[0]) then 0 else 1 + DigitRun(s[1..])
  }

  /** `/^\d+\.\s/` matches: one or more digits, a dot and one white-space
      character. The greedy digit run can only give back digits, which are neither
      a dot, so the match exists exactly when the whole run is followed by them. */
  predicate IsNumberedLine(s: string) {
    var n := DigitRun(s);
    0 < n && n + 1 < |s| && s[n] == '.' && IsSpace(s[n + 1])
  }

  /** The branch chain of the line loop, applied to the trimmed line. */
  function KindOf(t: string): (k: LineKind)
    ensures k == Blank <==> t == []
    ensures k.Emit? ==> !k.block.BulletList?
    ensures k.Emit? && k.block.Heading? ==>
      (k.block.level == 2 && t == "## " + k.block.text) ||
      (k.block.level == 3 && t == "### " + k.block.text)
    ensures k.Emit? && k.block.Quote? ==> '"' !in k.block.text
    ensures k.Emit? && k.block.Numbered? ==>
      && k.block.number != []
      && (forall i :: 0 <= i < |k.block.number| ==> IsDigit(k.block.number[i]))
      && exists w :: IsSpace(w) && t == k.block.number + ['.', w] + k.block.text
    ensures k.Bullet? && k.item.PlainItem? ==> t == "- " + k.item.text
    ensures k.Bullet? && k.item.RichItem? ==> "- " + Unparse(k.item.body) == t && StartsWith(t, "- **")
    ensures k.Emit? && k.block.Paragraph? ==> Unparse(k.block.body) == t
  {
    if StartsWith(t, "## ") then
      assert t == "## " + t[3..];
      Emit(Heading(2, t[3..]))
    else if StartsWith(t, "### ") then
      assert t == "### " + t[4..];
      Emit(Heading(3, t[4..]))
    else if StartsWith(t, "> ") then
      Emit(Quote(RemoveChar(t[2..], '"')))
    else if StartsWith(t, "- **") then
      assert t == "- " + t[2..];
      Bullet(RichItem(BoldSpans(t[2..])))
    else if StartsWith(t, "- ") then
      assert t == "- " + t[2..];
      Bullet(PlainItem(t[2..]))
    else if IsNumberedLine(t) then
      var n := DigitRun(t);
      assert t == t[..n] + ['.', t[n + 1]] + t[n + 2..];
      Emit(Numbered(t[..n], t[n + 2..]))
    else if |t| > 0 then
      Emit(Paragraph(Spans(t)))
    else
      Blank
  }

  /** A line is trimmed, then run through the branch chain. */
  function Classify(line: string): LineKind {
    KindOf(Trim(line))
  }

  /** Since the line is trimmed first, "##" alone is a paragraph rather than an
      empty heading: every heading has text. */
  lemma HeadingHasText(line: string)
    requires Classify(line).Emit? && Classify(line).block.Heading?
    ensures Classify(line).block.text != []
  {
    var t := Trim(line);
    assert t[|t| - 1] != ' ';
  }

  /** The blocks emitted so far and the pending list (`currentList`). */
  datatype State = State(blocks: seq<Block>, pending: seq<ListItem>)

  /** `flushList`: the blocks with the pending list appended, when there is one. */
  function Flush(st: State): (blocks: seq<Block>)
    ensures |st.pending| == 0 ==> blocks == st.blocks
    ensures |st.pending| > 0 ==> blocks == st.blocks + [BulletList(st.pending)]
  {
    if |st.pending| > 0 then st.blocks + [BulletList(st.pending)] else st.blocks
  }

  /** What a line of the given kind does to the state. */
  function Apply(st: State, kind: LineKind): State {
    match kind
    case Blank => st
    case Bullet(item) => State(st.blocks, st.pending + [item])
    case Emit(block) => State(Flush(st) + [block], [])
  }

  /** One iteration of the line loop: a blank line changes nothing (the pending
      list stays open), a heading first flushes the pending list, a list line
      only appends to it. */
  function Step(st: State, line: string): (r: State)
    ensures Trim(line) == [] ==> r == st
    ensures StartsWith(Trim(line), "## ") ==>
      r == State(Flush(st) + [Heading(2, Trim(line)[3..])], [])
    ensures StartsWith(Trim(line), "- ") ==>
      r.blocks == st.blocks && |r.pending| == |st.pending| + 1 && r.pending[..|st.pending|] == st.pending
  {
    var t := Trim(line);
    KindOfPrefixes(t);
    Apply(st, KindOf(t))
  }

  /** Does the trimmed line open with one of the markers the branches test? */
  predicate Marked(t: string) {
    || StartsWith(t, "## ") || StartsWith(t, "### ") || StartsWith(t, "> ")
    || StartsWith(t, "- ") || IsNumberedLine(t)
  }

  /** Every marker gets its kind, in the order the branches are tried: "## " and
      "### " headings carry the rest of the line, a "> " quote carries the rest
      without its double quotes, and "- **" and "- " items carry the rest after
      the dash. */
  lemma KindOfPrefixes(t: string)
    ensures StartsWith(t, "## ") ==> KindOf(t) == Emit(Heading(2, t[3..]))
    ensures StartsWith(t, "### ") ==> KindOf(t) == Emit(Heading(3, t[4..]))
    ensures StartsWith(t, "> ") ==> KindOf(t) == Emit(Quote(RemoveChar(t[2..], '"')))
    ensures StartsWith(t, "- **") ==> KindOf(t) == Bullet(RichItem(BoldSpans(t[2..])))
    ensures StartsWith(t, "- ") && !StartsWith(t, "- **") ==> KindOf(t) == Bullet(PlainItem(t[2..]))
  {
    if StartsWith(t, "### ") {
      KindOfHeading3(t);
    }
    if StartsWith(t, "> ") {
      KindOfQuote(t);
    }
    if StartsWith(t, "- **") {
      KindOfRich(t);
    }
    if StartsWith(t, "- ") && !StartsWith(t, "- **") {
      KindOfPlain(t);
    }
  }

  lemma KindOfHeading3(t: string)
    requires StartsWith(t, "### ")
    ensures KindOf(t) == Emit(Heading(3, t[4..]))
  {
    assert t[2] == '#';
  }

  lemma KindOfQuote(t: string)
    requires StartsWith(t, "> ")
    ensures KindOf(t) == Emit(Quote(RemoveChar(t[2..], '"')))
  {
    assert t[0] == '>';
  }

  lemma KindOfRich(t: string)
    requires StartsWith(t, "- **")
    ensures KindOf(t) == Bullet(RichItem(BoldSpans(t[2..])))
  {
    assert t[0] == '-';
    NotOpenedBy(t, "## ");
    NotOpenedBy(t, "### ");
    NotOpenedBy(t, "> ");
  }

  lemma KindOfPlain(t: string)
    requires StartsWith(t, "- ") && !StartsWith(t, "- **")
    ensures KindOf(t) == Bullet(PlainItem(t[2..]))
  {
    assert t[0] == '-';
    NotOpenedBy(t, "## ");
    NotOpenedBy(t, "### ");
    NotOpenedBy(t, "> ");
  }

  /** A numbered point splits at its digit run, and any other non-empty line
      without a marker is a paragraph of the whole line. */
  lemma KindOfUnmarked(t: string)
    ensures IsNumberedLine(t) ==>
      KindOf(t) == Emit(Numbered(t[..DigitRun(t)], t[DigitRun(t) + 2..]))
    ensures t != [] && !Marked(t) ==> KindOf(t) == Emit(Paragraph(Spans(t)))
  {
    if IsNumberedLine(t) {
      KindOfNumbered(t);
    }
  }

  lemma KindOfNumbered(t: string)
    requires IsNumberedLine(t)
    ensures KindOf(t) == Emit(Numbered(t[..DigitRun(t)], t[DigitRun(t) + 2..]))
  {
    assert IsDigit(t[0]);
    NotOpenedBy(t, "## ");
    NotOpenedBy(t, "### ");
    NotOpenedBy(t, "> ");
    NotOpenedBy(t, "- ");
  }

  /** Two openings that differ in their first character exclude each other. */
  lemma NotOpenedBy(t: string, p: string)
    requires t != [] && p != [] && t[0] != p[0]
    ensures !StartsWith(t, p)
  {
    if |p| <= |t| {
      assert t[..|p|][0] == t[0];
    }
  }

  /** The kind of every line. */
  function Kinds(lines: seq<string>): (kinds: seq<LineKind>)
    ensures |kinds| == |lines|
    ensures forall i :: 0 <= i < |lines| ==> kinds[i] == Classify(lines[i])
  {
    seq(|lines|, i requires 0 <= i < |lines| => Classify(lines[i]))
  }

  /** The line loop from state `st`. */
  function Run(st: State, kinds: seq<LineKind>): State
    decreases |kinds|
  {
    if kinds == [] then st else Run(Apply(st, kinds[0]), kinds[1..])
  }

  /** `renderContent` over already split lines: the loop, then the final flush. */
  function RenderLines(lines: seq<string>): seq<Block> {
    Flush(Run(State([], []), Kinds(lines)))
  }

  /** `renderContent(content)`. */
  function RenderContent(content: string): seq<Block> {
    RenderLines(Split(Trim(content), '\n'))
  }

  // ---------------------------------------------------------------------------
  // A reference definition without carried state: a maximal run of list and
  // blank lines becomes one list (if it holds any item), every other line its
  // own block.

  predicate InList(kind: LineKind) {
    kind.Blank? || kind.Bullet?
  }

  /** Length of the longest prefix of list and blank lines. */
  function ListRun(kinds: seq<LineKind>): (n: nat)
    ensures n <= |kinds|
    ensures forall i :: 0 <= i < n ==> InList(kinds[i])
    ensures n < |kinds| ==> !InList(kinds[n])
  {
    if kinds == [] || !InList(kinds[0]) then 0 else 1 + ListRun(kinds[1..])
  }

  /** The list items among the given lines, in order. */
  function ItemsOf(kinds: seq<LineKind>): seq<ListItem> {
    if kinds == [] then []
    else (if kinds[0].Bullet? then [kinds[0].item] else []) + ItemsOf(kinds[1..])
  }

  /** The block of every heading, quote, numbered or paragraph line, in order. */
  function EmittedOf(kinds: seq<LineKind>): seq<Block> {
    if kinds == [] then []
    else (if kinds[0].Emit? then [kinds[0].block] else []) + EmittedOf(kinds[1..])
  }

  /** The blocks for `kinds` when the items `pending` are already waiting. */
  function Grouped(pending: seq<ListItem>, kinds: seq<LineKind>): seq<Block>
    decreases |kinds|
  {
    var n := ListRun(kinds);
    var items := pending + ItemsOf(kinds[..n]);
    (if items == [] then [] else [BulletList(items)]) +
    (if n == |kinds| then [] else [kinds[n].block] + Grouped([], kinds[n + 1..]))
  }

  lemma ListRunCons(kinds: seq<LineKind>)
    requires kinds != [] && InList(kinds[0])
    ensures ListRun(kinds) == 1 + ListRun(kinds[1..])
    ensures ItemsOf(kinds[..ListRun(kinds)]) ==
      (if kinds[0].Bullet? then [kinds[0].item] else []) + ItemsOf(kinds[1..][..ListRun(kinds[1..])])
  {
    var n := ListRun(kinds);
    assert kinds[..n][0] == kinds[0];
    assert kinds[..n][1..] == kinds[1..][..n - 1];
  }

  /** A list or blank line at the front only feeds the pending items. */
  lemma GroupedShift(pending: seq<ListItem>, kinds: seq<LineKind>)
    requires kinds != [] && InList(kinds[0])
    ensures Grouped(pending, kinds) ==
      Grouped(pending + (if kinds[0].Bullet? then [kinds[0].item] else []), kinds[1..])
  {
    ListRunCons(kinds);
    ShiftRest(kinds, ListRun(kinds));
    assert pending + (if kinds[0].Bullet? then [kinds[0].item] else []) + ItemsOf(kinds[1..][..ListRun(kinds[1..])])
        == pending + ItemsOf(kinds[..ListRun(kinds)]);
  }

  lemma ShiftRest(kinds: seq<LineKind>, n: nat)
    requires 0 < n <= |kinds|
    ensures n < |kinds| ==> kinds[n] == kinds[1..][n - 1] && kinds[n + 1..] == kinds[1..][n..]
  {
  }

  /** A heading, quote, numbered or paragraph line at the front closes the pending
      items into a list and then stands for itself. */
  lemma GroupedAtEmit(pending: seq<ListItem>, kinds: seq<LineKind>)
    requires kinds != [] && kinds[0].Emit?
    ensures Grouped(pending, kinds) ==
      (if pending == [] then [] else [BulletList(pending)]) + [kinds[0].block] + Grouped([], kinds[1..])
  {
    assert ListRun(kinds) == 0;
    assert kinds[..0] == [];
    assert pending + [] == pending;
  }

  /** The line loop computes the reference grouping, from any state. */
  lemma {:induction false} RunIsGrouped(st: State, kinds: seq<LineKind>)
    ensures Flush(Run(st, kinds)) == st.blocks + Grouped(st.pending, kinds)
    decreases |kinds|
  {
    if kinds == [] {
      assert kinds[..0] == [];
      assert st.pending + [] == st.pending;
    } else {
      RunIsGrouped(Apply(st, kinds[0]), kinds[1..]);
      if kinds[0].Emit? {
        RunStepEmit(st, kinds);
      } else {
        RunStepList(st, kinds);
      }
    }
  }

  /** The inductive step of `RunIsGrouped` for a line that emits a block. */
  lemma RunStepEmit(st: State, kinds: seq<LineKind>)
    requires kinds != [] && kinds[0].Emit?
    requires var next := Apply(st, kinds[0]);
      Flush(Run(next, kinds[1..])) == next.blocks + Grouped(next.pending, kinds[1..])
    ensures Flush(Run(st, kinds)) == st.blocks + Grouped(st.pending, kinds)
  {
    var rest := kinds[1..];
    var list := if st.pending == [] then [] else [BulletList(st.pending)];
    var next := Apply(st, kinds[0]);
    assert Run(st, kinds) == Run(next, rest);
    assert next == State(st.blocks + list + [kinds[0].block], []);
    GroupedAtEmit(st.pending, kinds);
    assert st.blocks + (list + [kinds[0].block] + Grouped([], rest))
        == st.blocks + list + [kinds[0].block] + Grouped([], rest);
  }

  /** The inductive step of `RunIsGrouped` for a list or blank line. */
  lemma RunStepList(st: State, kinds: seq<LineKind>)
    requires kinds != [] && !kinds[0].Emit?
    requires var next := Apply(st, kinds[0]);
      Flush(Run(next, kinds[1..])) == next.blocks + Grouped(next.pending, kinds[1..])
    ensures Flush(Run(st, kinds)) == st.blocks + Grouped(st.pending, kinds)
  {
    var front := if kinds[0].Bullet? then [kinds[0].item] else [];
    var next := Apply(st, kinds[0]);
    assert Run(st, kinds) == Run(next, kinds[1..]);
    assert next == State(st.blocks, st.pending + front);
    GroupedShift(st.pending, kinds);
  }

  /** `RenderLines` agrees with the reference grouping. */
  lemma RenderIsGrouped(lines: seq<string>)
    ensures RenderLines(lines) == Grouped([], Kinds(lines))
  {
    RunIsGrouped(State([], []), Kinds(lines));
  }

  // ---------------------------------------------------------------------------
  // Properties of the rendered blocks.

  /** No list block is empty and no two list blocks are adjacent: a list ends only
      where some other block begins. */
  predicate WellFormed(blocks: seq<Block>) {
    forall i :: 0 <= i < |blocks| && blocks[i].BulletList? ==>
      blocks[i].items != [] && (i + 1 < |blocks| ==> !blocks[i + 1].BulletList?)
  }

  /** The list items of all list blocks, in order. */
  function ListItems(blocks: seq<Block>): seq<ListItem> {
    if blocks == [] then []
    else (if blocks[0].BulletList? then blocks[0].items else []) + ListItems(blocks[1..])
  }

  /** The blocks other than lists, in order. */
  function OtherBlocks(blocks: seq<Block>): seq<Block> {
    if blocks == [] then []
    else (if blocks[0].BulletList? then [] else [blocks[0]]) + OtherBlocks(blocks[1..])
  }

  lemma {:induction false} ListItemsConcat(a: seq<Block>, b: seq<Block>)
    ensures ListItems(a + b) == ListItems(a) + ListItems(b)
    decreases |a|
  {
    if a == [] {
      assert a + b == b;
    } else {
      assert (a + b)[0] == a[0];
      assert (a + b)[1..] == a[1..] + b;
      ListItemsConcat(a[1..], b);
    }
  }

  lemma {:induction false} OtherBlocksConcat(a: seq<Block>, b: seq<Block>)
    ensures OtherBlocks(a + b) == OtherBlocks(a) + OtherBlocks(b)
    decreases |a|
  {
    if a == [] {
      assert a + b == b;
    } else {
      assert (a + b)[0] == a[0];
      assert (a + b)[1..] == a[1..] + b;
      OtherBlocksConcat(a[1..], b);
    }
  }

  lemma {:induction false} ItemsOfConcat(a: seq<LineKind>, b: seq<LineKind>)
    ensures ItemsOf(a + b) == ItemsOf(a) + ItemsOf(b)
    decreases |a|
  {
    if a == [] {
      assert a + b == b;
    } else {
      assert (a + b)[0] == a[0];
      assert (a + b)[1..] == a[1..] + b;
      ItemsOfConcat(a[1..], b);
    }
  }

  lemma {:induction false} EmittedOfConcat(a: seq<LineKind>, b: seq<LineKind>)
    ensures EmittedOf(a + b) == EmittedOf(a) + EmittedOf(b)
    decreases |a|
  {
    if a == [] {
      assert a + b == b;
    } else {
      assert (a + b)[0] == a[0];
      assert (a + b)[1..] == a[1..] + b;
      EmittedOfConcat(a[1..], b);
    }
  }

  lemma {:induction false} NoEmitInListRun(kinds: seq<LineKind>)
    requires forall i :: 0 <= i < |kinds| ==> InList(kinds[i])
    ensures EmittedOf(kinds) == []
    decreases |kinds|
  {
    if kinds != [] {
      NoEmitInListRun(kinds[1..]);
    }
  }

  /** No line of these kinds emits a list block by itself. */
  predicate EmitsNoList(kinds: seq<LineKind>) {
    forall i :: 0 <= i < |kinds| ==> kinds[i].Emit? ==> !kinds[i].block.BulletList?
  }

  lemma FlushContents(st: State)
    ensures ListItems(Flush(st)) == ListItems(st.blocks) + st.pending
    ensures OtherBlocks(Flush(st)) == OtherBlocks(st.blocks)
  {
    if |st.pending| > 0 {
      ListItemsConcat(st.blocks, [BulletList(st.pending)]);
      OtherBlocksConcat(st.blocks, [BulletList(st.pending)]);
      assert [BulletList(st.pending)][1..] == [];
    } else {
      assert st.pending == [];
    }
  }

  /** The items a state holds: those in its list blocks, then the pending ones. */
  function HeldItems(st: State): seq<ListItem> {
    ListItems(st.blocks) + st.pending
  }

  lemma ApplyItems(st: State, kind: LineKind)
    requires kind.Emit? ==> !kind.block.BulletList?
    ensures HeldItems(Apply(st, kind)) == HeldItems(st) + (if kind.Bullet? then [kind.item] else [])
  {
    match kind
    case Blank =>
    case Bullet(item) =>
    case Emit(block) =>
      FlushContents(st);
      ListItemsConcat(Flush(st), [block]);
      assert [block][1..] == [];
  }

  lemma ApplyOthers(st: State, kind: LineKind)
    requires kind.Emit? ==> !kind.block.BulletList?
    ensures OtherBlocks(Apply(st, kind).blocks) == OtherBlocks(st.blocks) + (if kind.Emit? then [kind.block] else [])
  {
    match kind
    case Blank =>
    case Bullet(item) =>
    case Emit(block) =>
      FlushContents(st);
      OtherBlocksConcat(Flush(st), [block]);
      assert [block][1..] == [];
  }

  /** The loop loses no list item: the items of the final list blocks are those
      the state already holds, then those of the remaining lines. */
  lemma {:induction false} RunItems(st: State, kinds: seq<LineKind>)
    requires EmitsNoList(kinds)
    ensures ListItems(Flush(Run(st, kinds))) == HeldItems(st) + ItemsOf(kinds)
    decreases |kinds|
  {
    if kinds == [] {
      FlushContents(st);
    } else {
      var next := Apply(st, kinds[0]);
      var front := if kinds[0].Bullet? then [kinds[0].item] else [];
      ApplyItems(st, kinds[0]);
      assert EmitsNoList(kinds[1..]) by {
        forall i | 0 <= i < |kinds[1..]| ensures kinds[1..][i] == kinds[i + 1] { }
      }
      RunItems(next, kinds[1..]);
      assert Run(st, kinds) == Run(next, kinds[1..]);
      assert ItemsOf(kinds) == front + ItemsOf(kinds[1..]);
      assert HeldItems(st) + front + ItemsOf(kinds[1..]) == HeldItems(st) + (front + ItemsOf(kinds[1..]));
    }
  }

  /** The loop loses no other line either: the non-list blocks are those already
      emitted followed by those of the heading, quote, numbered and paragraph
      lines, in input order. */
  lemma {:induction false} RunOthers(st: State, kinds: seq<LineKind>)
    requires EmitsNoList(kinds)
    ensures OtherBlocks(Flush(Run(st, kinds))) == OtherBlocks(st.blocks) + EmittedOf(kinds)
    decreases |kinds|
  {
    if kinds == [] {
      FlushContents(st);
    } else {
      var next := Apply(st, kinds[0]);
      var front := if kinds[0].Emit? then [kinds[0].block] else [];
      ApplyOthers(st, kinds[0]);
      assert EmitsNoList(kinds[1..]) by {
        forall i | 0 <= i < |kinds[1..]| ensures kinds[1..][i] == kinds[i + 1] { }
      }
      RunOthers(next, kinds[1..]);
      assert Run(st, kinds) == Run(next, kinds[1..]);
      assert EmittedOf(kinds) == front + EmittedOf(kinds[1..]);
      assert OtherBlocks(st.blocks) + front + EmittedOf(kinds[1..]) == OtherBlocks(st.blocks) + (front + EmittedOf(kinds[1..]));
    }
  }

  lemma KindsEmitNoList(lines: seq<string>)
    ensures EmitsNoList(Kinds(lines))
  {
  }

  /** The reference grouping never emits an empty list nor two adjacent lists. */
  lemma {:induction false} GroupedWellFormed(pending: seq<ListItem>, kinds: seq<LineKind>)
    requires EmitsNoList(kinds)
    ensures WellFormed(Grouped(pending, kinds))
    decreases |kinds|
  {
    var n := ListRun(kinds);
    var items := pending + ItemsOf(kinds[..n]);
    var head := if items == [] then [] else [BulletList(items)];
    if n < |kinds| {
      var block := kinds[n].block;
      var tail := Grouped([], kinds[n + 1..]);
      GroupedWellFormed([], kinds[n + 1..]);
      var all := head + [block] + tail;
      assert Grouped(pending, kinds) == all;
      forall i | 0 <= i < |all| && all[i].BulletList?
        ensures all[i].items != [] && (i + 1 < |all| ==> !all[i + 1].BulletList?)
      {
        if i >= |head| + 1 {
          assert all[i] == tail[i - |head| - 1];
          if i + 1 < |all| {
            assert all[i + 1] == tail[i - |head|];
          }
        }
      }
    }
  }

  /** What `renderContent` promises about its output, whatever the input: no list
      block is empty, no two lists are adjacent, the list items are exactly the
      `- ` lines in input order and the other blocks exactly the remaining
      non-blank lines in input order. */
  lemma RenderContents(lines: seq<string>)
    ensures WellFormed(RenderLines(lines))
    ensures ListItems(RenderLines(lines)) == ItemsOf(Kinds(lines))
    ensures OtherBlocks(RenderLines(lines)) == EmittedOf(Kinds(lines))
  {
    RenderIsGrouped(lines);
    KindsEmitNoList(lines);
    GroupedWellFormed([], Kinds(lines));
    RunItems(State([], []), Kinds(lines));
    RunOthers(State([], []), Kinds(lines));
  }

  /** Consecutive list lines, blank lines between them included, make one list. */
  lemma ListLinesMakeOneList(lines: seq<string>)
    requires forall i :: 0 <= i < |lines| ==> InList(Classify(lines[i]))
    requires ItemsOf(Kinds(lines)) != []
    ensures RenderLines(lines) == [BulletList(ItemsOf(Kinds(lines)))]
  {
    RenderIsGrouped(lines);
    var kinds := Kinds(lines);
    assert ListRun(kinds) == |kinds|;
    assert kinds[..|kinds|] == kinds;
    assert [] + ItemsOf(kinds) == ItemsOf(kinds);
  }

  // ---------------------------------------------------------------------------
  // The whole body.

  /** When the body has no white space at its ends, `renderContent` renders its
      '\n'-separated lines, each of them once and in order. */
  lemma RenderContentLines(lines: seq<string>)
    requires |lines| >= 1 && forall i :: 0 <= i < |lines| ==> '\n' !in lines[i]
    requires var s := Join(lines, '\n'); s != [] && !IsSpace(s[0]) && !IsSpace(s[|s| - 1])
    ensures RenderContent(Join(lines, '\n')) == RenderLines(lines)
  {
    TrimUnspaced(Join(lines, '\n'));
    SplitJoin(lines, '\n');
  }

  /** One line, then the rest. */
  lemma RunCons(st: State, k: LineKind, ks: seq<LineKind>)
    ensures Run(st, [k] + ks) == Run(Apply(st, k), ks)
  {
    assert ([k] + ks)[1..] == ks;
  }

  /** A heading, two list lines, a blank line and a paragraph: the heading, one
      list of both items, and the paragraph. */
  lemma RunMixed(h: Block, a: ListItem, b: ListItem, p: Block)
    requires !h.BulletList? && !p.BulletList?
    ensures Flush(Run(State([], []), [Emit(h), Bullet(a), Bullet(b), Blank, Emit(p)])) ==
      [h, BulletList([a, b]), p]
  {
    assert [Emit(h), Bullet(a), Bullet(b), Blank, Emit(p)] == [Emit(h)] + [Bullet(a), Bullet(b), Blank, Emit(p)];
    RunCons(State([], []), Emit(h), [Bullet(a), Bullet(b), Blank, Emit(p)]);
    assert Apply(State([], []), Emit(h)) == State([h], []);
    RunItemsThenBlock(h, a, b, p);
  }

  lemma RunItemsThenBlock(h: Block, a: ListItem, b: ListItem, p: Block)
    requires !p.BulletList?
    ensures Flush(Run(State([h], []), [Bullet(a), Bullet(b), Blank, Emit(p)])) == [h, BulletList([a, b]), p]
  {
    assert [Bullet(a), Bullet(b), Blank, Emit(p)] == [Bullet(a)] + [Bullet(b), Blank, Emit(p)];
    assert [Bullet(b), Blank, Emit(p)] == [Bullet(b)] + [Blank, Emit(p)];
    RunCons(State([h], []), Bullet(a), [Bullet(b), Blank, Emit(p)]);
    assert Apply(State([h], []), Bullet(a)) == State([h], [a]);
    RunCons(State([h], [a]), Bullet(b), [Blank, Emit(p)]);
    assert Apply(State([h], [a]), Bullet(b)) == State([h], [a, b]);
    RunBlankThenBlock(State([h], [a, b]), p);
    assert [h] + [BulletList([a, b]), p] == [h, BulletList([a, b]), p];
  }

  lemma RunBlankThenBlock(st: State, p: Block)
    requires st.pending != []
    ensures Flush(Run(st, [Blank, Emit(p)])) == st.blocks + [BulletList(st.pending), p]
  {
    assert [Blank, Emit(p)] == [Blank] + [Emit(p)];
    RunCons(st, Blank, [Emit(p)]);
    assert [Emit(p)] == [Emit(p)] + [];
    RunCons(st, Emit(p), []);
    assert Run(State(Flush(st) + [p], []), []) == State(Flush(st) + [p], []);
  }

  /** A line without white space at its end, whose first character is not white
      space either. */
  predicate Unspaced(t: string) {
    t != [] && !IsSpace(t[0]) && !IsSpace(t[|t| - 1])
  }

  lemma ClassifyHeading(title: string)
    requires title != [] && !IsSpace(title[|title| - 1])
    ensures Classify("## " + title) == Emit(Heading(2, title))
  {
    var t := "## " + title;
    assert t[|t| - 1] == title[|title| - 1];
    TrimUnspaced(t);
    KindOfPrefixes(t);
    assert t[3..] == title;
  }

  lemma ClassifyRich(rest: string)
    requires StartsWith(rest, "**") && !IsSpace(rest[|rest| - 1])
    ensures Classify("- " + rest) == Bullet(RichItem(BoldSpans(rest)))
  {
    var t := "- " + rest;
    assert t[|t| - 1] == rest[|rest| - 1];
    TrimUnspaced(t);
    assert t[..4] == "- " + rest[..2];
    KindOfRich(t);
    assert t[2..] == rest;
  }

  lemma ClassifyPlain(rest: string)
    requires rest != [] && !StartsWith(rest, "**") && !IsSpace(rest[|rest| - 1])
    ensures Classify("- " + rest) == Bullet(PlainItem(rest))
  {
    var t := "- " + rest;
    assert t[|t| - 1] == rest[|rest| - 1];
    TrimUnspaced(t);
    DashPrefix(rest);
    KindOfPlain(t);
    assert t[2..] == rest;
  }

  /** Behind the dash, "- **" is "**". */
  lemma DashPrefix(rest: string)
    ensures StartsWith("- " + rest, "- **") <==> StartsWith(rest, "**")
  {
    var t := "- " + rest;
    if |rest| >= 2 {
      assert t[..4] == "- " + rest[..2];
      assert t[..4][2..] == rest[..2];
      if rest[..2] == "**" {
        assert t[..4] == "- **";
      }
    }
  }

  lemma ClassifyParagraph(t: string)
    requires Unspaced(t) && !Marked(t)
    ensures Classify(t) == Emit(Paragraph(Spans(t)))
  {
    TrimUnspaced(t);
    KindOfUnmarked(t);
  }

  lemma JoinCons(p: string, rest: seq<string>, sep: char)
    requires |rest| >= 1
    ensures Join([p] + rest, sep) == p + [sep] + Join(rest, sep)
  {
    assert ([p] + rest)[1..] == rest;
  }

  /** The five lines glued with '\n'. */
  lemma JoinFive(a: string, b: string, c: string, d: string, e: string)
    ensures Join([a, b, c, d, e], '\n') == a + "\n" + b + "\n" + c + "\n" + d + "\n" + e
  {
    assert [a, b, c, d, e] == [a] + [b, c, d, e];
    assert [b, c, d, e] == [b] + [c, d, e];
    assert [c, d, e] == [c] + [d, e];
    assert [d, e] == [d] + [e];
    JoinCons(a, [b, c, d, e], '\n');
    JoinCons(b, [c, d, e], '\n');
    JoinCons(c, [d, e], '\n');
    JoinCons(d, [e], '\n');
  }

  /** The lines of the mixed post below. */
  function MixedLines(title: string, rich: string, plain: string, paragraph: string): seq<string> {
    ["## " + title, "- " + rich, "- " + plain, "", paragraph]
  }

  /** A post of a heading, a bold-led list line, a plain list line, a blank
      line and a paragraph renders as the heading, ONE list of both items (the
      blank line does not end it) and the paragraph, with the bold spans of the
      first item and the bold and code spans of the paragraph marked up. */
  lemma MixedPost(title: string, rich: string, plain: string, paragraph: string)
    requires '\n' !in title && '\n' !in rich && '\n' !in plain && '\n' !in paragraph
    requires title != [] && !IsSpace(title[|title| - 1])
    requires StartsWith(rich, "**") && !IsSpace(rich[|rich| - 1])
    requires plain != [] && !StartsWith(plain, "**") && !IsSpace(plain[|plain| - 1])
    requires Unspaced(paragraph) && !Marked(paragraph)
    ensures RenderContent("## " + title + "\n- " + rich + "\n- " + plain + "\n\n" + paragraph) ==
      [Heading(2, title), BulletList([RichItem(BoldSpans(rich)), PlainItem(plain)]), Paragraph(Spans(paragraph))]
  {
    var lines := MixedLines(title, rich, plain, paragraph);
    MixedLinesFree(title, rich, plain, paragraph);
    RenderContentLines(lines);
    MixedKinds(title, rich, plain, paragraph);
    RunMixed(Heading(2, title), RichItem(BoldSpans(rich)), PlainItem(plain), Paragraph(Spans(paragraph)));
  }

  lemma MixedKinds(title: string, rich: string, plain: string, paragraph: string)
    requires title != [] && !IsSpace(title[|title| - 1])
    requires StartsWith(rich, "**") && !IsSpace(rich[|rich| - 1])
    requires plain != [] && !StartsWith(plain, "**") && !IsSpace(plain[|plain| - 1])
    requires Unspaced(paragraph) && !Marked(paragraph)
    ensures Kinds(MixedLines(title, rich, plain, paragraph)) ==
      [Emit(Heading(2, title)), Bullet(RichItem(BoldSpans(rich))), Bullet(PlainItem(plain)),
       Blank, Emit(Paragraph(Spans(paragraph)))]
  {
    KindsFive("## " + title, "- " + rich, "- " + plain, "", paragraph);
    ClassifyHeading(title);
    ClassifyRich(rich);
    ClassifyPlain(plain);
    ClassifyParagraph(paragraph);
    ClassifyBlank();
  }

  lemma ClassifyBlank()
    ensures Classify("") == Blank
  {
    assert AllSpace("");
  }

  lemma KindsFive(a: string, b: string, c: string, d: string, e: string)
    ensures Kinds([a, b, c, d, e]) == [Classify(a), Classify(b), Classify(c), Classify(d), Classify(e)]
  {
    var ls := [a, b, c, d, e];
    var ks := Kinds(ls);
    assert |ks| == 5;
    assert ks[0] == Classify(ls[0]) && ks[1] == Classify(ls[1]) && ks[2] == Classify(ls[2]);
    assert ks[3] == Classify(ls[3]) && ks[4] == Classify(ls[4]);
    FiveElements(ks, Classify(a), Classify(b), Classify(c), Classify(d), Classify(e));
  }

  lemma FiveElements<T>(s: seq<T>, a: T, b: T, c: T, d: T, e: T)
    requires |s| == 5 && s[0] == a && s[1] == b && s[2] == c && s[3] == d && s[4] == e
    ensures s == [a, b, c, d, e]
  {
  }

  lemma MixedLinesFree(title: string, rich: string, plain: string, paragraph: string)
    requires '\n' !in title && '\n' !in rich && '\n' !in plain && '\n' !in paragraph
    requires Unspaced(paragraph)
    ensures var lines := MixedLines(title, rich, plain, paragraph);
      && (forall i :: 0 <= i < |lines| ==> '\n' !in lines[i])
      && Join(lines, '\n') == "## " + title + "\n- " + rich + "\n- " + plain + "\n\n" + paragraph
      && Unspaced(Join(lines, '\n'))
  {
    var lines := MixedLines(title, rich, plain, paragraph);
    JoinFive(lines[0], lines[1], lines[2], lines[3], lines[4]);
    var s := Join(lines, '\n');
    assert s[0] == '#';
    assert s == (lines[0] + "\n" + lines[1] + "\n" + lines[2] + "\n" + lines[3] + "\n") + paragraph;
    assert s[|s| - 1] == paragraph[|paragraph| - 1];
  }
}
