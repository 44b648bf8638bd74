# Blog, language and scrolling core of a React portfolio, in Dafny

This project models the parts of a personal portfolio site (React, JavaScript) that do real work on data. The rest of the site is presentation.

- **The blog post page** (`src/pages/BlogPostPage.js`):
  - the lite-markdown renderer `renderContent`, with its pending-list `flushList`;
  - the bold/code inline replacements;
  - `getPlainText`, which prepares a post for the speech engine;
  - the read-aloud control, an idle/playing/paused machine driving `window.speechSynthesis`;
  - the redirect to `/blog` for an unknown slug;
  - the cancel on unmount.
- **The post table** (`src/data/blogPosts.js`):
  - `getPostBySlug`, a first-match search by id;
  - `getAllPosts`, which sorts the table itself, in place and newest first, with the stable `Array.prototype.sort`;
  - the one shipped post.
- **The language context** (`src/LanguageContext.js`):
  - the stored preference (`saved || 'es'`);
  - the effect that persists it;
  - the es/en toggle;
  - the dotted-key lookup `t`, which falls back to the key;
  - the guard of `useLanguage`;
  - the `nav` part of the translation table.
- **Smooth scrolling** (`src/hooks/useSmoothScroll.js`):
  - the plan from the current offset to 80 pixels above a section;
  - the duration of half a millisecond per pixel, capped at 1500 ms;
  - the ease-out-quart easing;
  - the position of every animation frame.

Files, one module each:

| file | module | what it holds |
|---|---|---|
| `wrappers.dfy` | `Wrappers` | `Option` and `Result` |
| `js_text.dfy` | `JsText` | JavaScript `trim` (the JavaScript white-space set), `split`, `startsWith`, and removal of one character |
| `inline_markup.dfy` | `InlineMarkup` | the lazy `**…**` and `` `…` `` global replacements, over a stream of characters and atomic tags |
| `lite_markdown.dfy` | `LiteMarkdown` | the line classifier, the renderer loop, and a stateless reference grouping |
| `plain_text.dfy` | `PlainText` | `getPlainText`, as six global replacements and a trim |
| `posts.dfy` | `Posts` | posts, dates as day counts, the lookup, the in-place stable sort, and the shipped post |
| `language.dfy` | `Language` | translation trees, `t`, the provider state, `useLanguage`, and the `nav` table |
| `post_page.dfy` | `PostPage` | the not-found guard, the speech state machine, and an idealised engine |
| `smooth_scroll.dfy` | `SmoothScroll` | the scroll plan, the easing and the frames, in exact reals |

Browser services are parameters of the model:

- the element's bounding box and `pageYOffset`;
- the frame timestamps;
- `localStorage`;
- the React context value;
- the speech engine, which is modelled as the commands the page issues.

## Model

| member | source | states |
|---|---|---|
| JsText.Trim | src/pages/BlogPostPage.js:117 | The trimmed line is a slice of the line with only JavaScript white space cut from either end. No white space is left at either end. It is empty exactly when the line is all white space. |
| JsText.Split | src/pages/BlogPostPage.js:97 | Splitting on '\n' gives at least one part. No part holds the separator. Joining the parts with the separator gives back the text. |
| JsText.SplitJoin | src/LanguageContext.js:28 | `key.split('.')` inverts joining separator-free segments with dots, so a dotted key is read as exactly its segments. |
| JsText.RemoveChar | src/pages/BlogPostPage.js:143 | `.replace(/"/g, '')` removes every double quote and keeps every other character, as a multiset. Text without a quote is unchanged. |
| JsText.RemoveCharOne | src/pages/BlogPostPage.js:143 | A single character is deleted if it is the quote and kept otherwise. |
| JsText.RemoveCharConcat | src/pages/BlogPostPage.js:143 | The deletion works piece by piece: removing from a concatenation concatenates the removals. With `RemoveCharOne` this fixes the result for every text, so the kept characters stay in their order. |
| InlineMarkup.SubstituteRoundTrip | src/pages/BlogPostPage.js:152 | Turning delimited spans into tags loses nothing: writing each tag back as its delimiter gives the original text. |
| InlineMarkup.SubstituteLazy | src/pages/BlogPostPage.js:152 | Lazy and global: when a pair opens at the front, the span ends at the FIRST closing delimiter after it, its inside is copied between an open and a close tag, and the replacement goes on after that delimiter. |
| InlineMarkup.SubstituteCopies | src/pages/BlogPostPage.js:152 | Leftmost: when no pair opens at the front, the first character is copied unchanged and the replacement goes on from the next one. With `SubstituteLazy` and the empty text this fixes the result of every input. |
| InlineMarkup.PairHasLazy | src/pages/BlogPostPage.js:175 | Whenever some pair opens at the front, a lazy one does too, ending no later, so `SubstituteLazy` applies. |
| InlineMarkup.ScanLazy | src/pages/BlogPostPage.js:175 | One step at a lazy pair consumes the two delimiters and the text between them, and emits that text inside an open and a close tag. |
| InlineMarkup.TwoBoldSpans | src/pages/BlogPostPage.js:152 | "**x** m **y**", with no '*' in x, m or y and no line break in x or y, gives two bold spans with m copied between them, not one span from the first delimiter to the last. |
| InlineMarkup.MatchRoundTrip | src/pages/BlogPostPage.js:175 | One replaced span, open tag plus inner text plus close tag, unparses to exactly the matched source text. |
| InlineMarkup.SubstituteChangesIffPair | src/pages/BlogPostPage.js:175-176 | A replacement changes the text if and only if two delimiters occur on it with no line terminator between them. |
| InlineMarkup.SubstituteAlternates | src/pages/BlogPostPage.js:175-176 | The tags a replacement inserts come as open/close pairs, never nested or unbalanced. |
| InlineMarkup.SubstituteKeepsOtherTags | src/pages/BlogPostPage.js:176 | The code pass, which runs over text that already holds the bold tags, leaves those tags as they were. |
| InlineMarkup.SpansAlternate | src/pages/BlogPostPage.js:174-176 | After both passes, the bold tags alternate open/close and so do the code tags. |
| InlineMarkup.SpansPlainIff | src/pages/BlogPostPage.js:174-176 | A paragraph comes out as plain text if and only if it has neither a bold pair nor a code pair. |
| InlineMarkup.BoldSurvivesCode | src/pages/BlogPostPage.js:174-176 | A paragraph with a bold pair always comes out marked up, whatever the code pass then does. |
| InlineMarkup.BoldThenCode | src/pages/BlogPostPage.js:174-176 | A paragraph `` a**x**m`y`z ``, where none of a, x, m, y and z holds a '*' or a backtick and neither x nor y holds a line break, gives one bold span around x and one code span around y, with a, m and z copied as they are. |
| InlineMarkup.ParagraphExample | src/pages/BlogPostPage.js:174-176 | `` Paragraph with **bold** and `code`. `` gives "Paragraph with ", a bold span of "bold", " and ", a code span of "code", and ".". |
| LiteMarkdown.KindOf | src/pages/BlogPostPage.js:117-185 | What each kind says of its line. Only an empty line gives no block. A heading line is "## " or "### " followed by the heading text. A quote's text has no '"'. A numbered line is a digit run, a dot, one white-space character and its text. A plain item is "- " followed by its text. A rich item starts "- **" and its body unparses to the line after "- ". A paragraph's body unparses to the line. No single line makes a list block. |
| LiteMarkdown.KindOfPrefixes | src/pages/BlogPostPage.js:120-158 | Every marker gets its kind, in the order the branches are tried. "## " and "### " give a level-2 and a level-3 heading of the rest of the line. "> " gives a quote of the rest without its double quotes. "- **" gives a rich item of the bold-marked rest after "- ". Any other "- " gives a plain item of the rest. |
| LiteMarkdown.KindOfUnmarked | src/pages/BlogPostPage.js:159-185 | A numbered line gives the numbered block of its digit run and the text after the dot and white space. Any other non-empty line without a marker gives a paragraph of the bold- and code-marked line. |
| LiteMarkdown.HeadingHasText | src/pages/BlogPostPage.js:117-134 | Because lines are trimmed first, a heading always has non-empty text. |
| LiteMarkdown.Step | src/pages/BlogPostPage.js:116-158 | One iteration of the line loop. A blank line leaves the state as it was, so the pending list stays open. A "## " line flushes the pending list before its heading. A "- " line extends the pending list and emits nothing. |
| LiteMarkdown.FlushContents | src/pages/BlogPostPage.js:102-114 | `flushList` moves every pending item, in order, into the emitted lists and leaves the other blocks alone. |
| LiteMarkdown.RunIsGrouped | src/pages/BlogPostPage.js:116-188 | The stateful loop, with its final flush, equals the stateless reference grouping: each maximal run of list and blank lines becomes one list block, if it holds an item, and every other line becomes its own block. |
| LiteMarkdown.RenderIsGrouped | src/pages/BlogPostPage.js:96-190 | `renderContent` over the split lines equals the reference grouping of the lines' kinds. |
| LiteMarkdown.GroupedWellFormed | src/pages/BlogPostPage.js:102-114 | The reference grouping never emits an empty list and never two lists in a row. |
| LiteMarkdown.RenderContents | src/pages/BlogPostPage.js:96-190 | Rendered output is well formed. Its list items are exactly the lines' items, in order. Its other blocks are exactly the blocks of the heading, quote, numbered and paragraph lines, in order. |
| LiteMarkdown.RenderContentLines | src/pages/BlogPostPage.js:96-97 | For a body with no white space at its ends, `content.trim().split('\n')` gives back its lines, so `renderContent` renders each of them once and in order. |
| LiteMarkdown.MixedPost | src/pages/BlogPostPage.js:96-190 | A post of a heading, a "- **" line, a "- " line, a blank line and a paragraph renders as exactly three blocks: the heading, ONE list of both items (the blank line does not end it) and the marked-up paragraph. |
| LiteMarkdown.ListLinesMakeOneList | src/pages/BlogPostPage.js:147-158 | Lines that are all list items or blank, with at least one item, render as one single list, including across blank lines. |
| PlainText.RemoveMatchesIff | src/pages/BlogPostPage.js:27 | A deleting replacement (`/#{1,3}\s/g`, `/>\s/g`, `/-\s/g`) changes the text if and only if the pattern matches somewhere. |
| PlainText.RemoveMatchesKeeps | src/pages/BlogPostPage.js:27-31 | A deleting replacement keeps every occurrence of a character the pattern cannot match. |
| PlainText.HeaderMarkerDropped | src/pages/BlogPostPage.js:27 | One to three '#' followed by a white-space character are deleted, and the replacement goes on right after them, so "## Title" reads "Title". |
| PlainText.MarkerDropped | src/pages/BlogPostPage.js:30-31 | A quote or bullet character followed by a white-space character is deleted, and the replacement goes on right after it, so "- item" reads "item". |
| PlainText.UnwrapIff | src/pages/BlogPostPage.js:28-29 | Unwrapping bold or code changes the text if and only if it holds a delimiter pair on one line. |
| PlainText.UnwrapKeeps | src/pages/BlogPostPage.js:28-29 | Unwrapping keeps every occurrence of a character that is not part of a delimiter. |
| PlainText.CollapseNewlines | src/pages/BlogPostPage.js:32 | After `/\n+/g` → '. ' no line feed is left. |
| PlainText.CollapseRun | src/pages/BlogPostPage.js:32 | A whole run of line feeds, of any length, becomes a single ". ". |
| PlainText.GetPlainText | src/pages/BlogPostPage.js:25-34 | The speech text has no line feed and no white space at either end. |
| PlainText.PlainTextKeeps | src/pages/BlogPostPage.js:25-34 | Every character that is not markup (white space, '#', '*', '`', '>', '-', '.') occurs in the speech text exactly as often as in the post body. |
| Posts.FindById | src/data/blogPosts.js:162-164 | `getPostBySlug` finds nothing if and only if no post has the id. Otherwise it returns the first post that has the id. |
| Posts.FindByIdIsFirst | src/data/blogPosts.js:162-164 | Whenever post i is the first with the id, the lookup returns post i. |
| Posts.SortIsSorted | src/data/blogPosts.js:166-168 | The sort leaves posts newest first by the time value of their date. |
| Posts.SortedByComparator | src/data/blogPosts.js:167 | Newest first is exactly the order the comparator `new Date(b.date) - new Date(a.date)` asks for: no two posts are out of order by its sign. |
| Posts.SortIsStable | src/data/blogPosts.js:166-168 | The sort keeps posts of equal date in their table order. |
| Posts.StableSortUnique | src/data/blogPosts.js:166-168 | Two orderings that are both newest-first and both keep table order within each date are equal. So the insertion sort of the model gives the very order any stable engine sort gives. |
| Posts.InsertPermutes | src/data/blogPosts.js:166-168 | Placing one post into a list adds that post and loses or duplicates none. |
| Posts.SortPermutes | src/data/blogPosts.js:166-168 | The sort returns exactly the posts of the table, each as often as it occurs. |
| Posts.SortIdempotent | src/data/blogPosts.js:166-168 | Sorting a table that is already newest-first changes nothing. |
| Posts.GetAllPosts | src/data/blogPosts.js:166-168 | `getAllPosts` returns a permutation of the table, sorted newest first. The table itself now holds that same order. |
| Posts.GetAllPostsTwice | src/data/blogPosts.js:166-168 | Calling `getAllPosts` again on the table it reordered returns the same list. |
| Posts.LookupAfterSort | src/data/blogPosts.js:162-168 | With unique ids, the in-place reordering by `getAllPosts` does not change what `getPostBySlug` finds. |
| Posts.FixtureLookup | src/data/blogPosts.js:1-10 | The shipped slug finds the shipped post. |
| Posts.FixtureUnknownSlug | src/data/blogPosts.js:1-3 | Every other slug finds nothing. |
| Posts.DayCounts | src/data/blogPosts.js:167 | `new Date('YYYY-MM-DD')` is UTC midnight: the epoch is day 0, 2025-01-27 is day 20115 and 2024-06-01 is day 19875. |
| Posts.NewerFirst | src/data/blogPosts.js:166-168 | A 2025 post comes before a 2024 post whichever order the table has. |
| Posts.NewerFirstByTime | src/data/blogPosts.js:166-168 | Of two posts with different dates, the one with the later date is listed first, whichever of the two the table holds first. |
| Language.Translate | src/LanguageContext.js:27-34 | `t(key)` returns the value found by walking the key's segments from the language's table whenever that value is truthy. In every other case it returns the key itself. |
| Language.TranslateLoop | src/LanguageContext.js:27-34 | The loop `for (const k of keys) value = value?.[k]` computes the same as the segment walk. |
| Language.WalkConcat | src/LanguageContext.js:30-32 | Walking a path is walking its parts one after the other. |
| Language.UnknownLanguage | src/LanguageContext.js:29-33 | For a language missing from the table, every key translates to itself. |
| Language.MissingSegment | src/LanguageContext.js:30-33 | A key whose path leaves the table at any segment translates to itself. |
| Language.InitialLanguage | src/LanguageContext.js:14-17 | The first language is the stored one when it is present and non-empty. Otherwise it is 'es'. It is never empty. |
| Language.ToggleLanguage | src/LanguageContext.js:23-25 | The toggle gives 'en' exactly from 'es'. Every other language, including an unknown stored one, goes to 'es'. |
| Language.ToggleTwice | src/LanguageContext.js:23-25 | Two toggles restore the language if and only if it is 'es' or 'en'. |
| Language.Mount | src/LanguageContext.js:14-21 | After mounting, the chosen language is non-empty and has been written back to storage. |
| Language.Toggle | src/LanguageContext.js:19-25 | After a toggle the storage holds the new language. |
| Language.Session | src/LanguageContext.js:14-25 | Through any number of toggles the storage matches the language. After one toggle or more, the language is 'es' or 'en'. |
| Language.ReloadRestores | src/LanguageContext.js:14-21 | A reload comes back in the language the page was left in. |
| Language.UseLanguage | src/LanguageContext.js:5-11 | `useLanguage` fails, with the provider error message, if and only if there is no enclosing provider. Otherwise it returns that provider's context. |
| Language.NavHomeSpanish | src/LanguageContext.js:44-46 | `t('nav.home')` is "Inicio" in Spanish. |
| Language.NavHomeEnglish | src/LanguageContext.js:125-127 | `t('nav.home')` is "Home" in English. |
| Language.NavMissingKey | src/LanguageContext.js:33 | A key the table lacks reads as itself. |
| Language.FrenchFallsBack | src/LanguageContext.js:29-33 | Under a stored 'fr' every key reads as itself. |
| Language.SectionIsReturned | src/LanguageContext.js:33 | `t('nav')` returns the whole `nav` object, which is truthy, rather than the key. |
| PostPage.ShowPost | src/pages/BlogPostPage.js:75-77 | The page redirects to "/blog" if and only if no post has the slug. Otherwise it shows the first post of the table with that id, which is what the lookup returns. |
| PostPage.ShippedSlugs | src/pages/BlogPostPage.js:75-77 | With the shipped table, the shipped slug shows its post and every other slug redirects. |
| PostPage.SpeechText | src/pages/BlogPostPage.js:41 | The spoken text begins with the title and ". ". It has no line feed when the title has none. |
| PostPage.Handle | src/pages/BlogPostPage.js:36-73 | Stop cancels and goes idle. The engine's end and error callbacks go idle without a command. The main button always changes the state, never to idle, with exactly one command, and that command is to speak if and only if the control was idle. |
| PostPage.ListenPauseContinueStop | src/pages/BlogPostPage.js:36-73 | Listen, pause, continue, stop goes playing, paused, playing, idle, with speak, pause, resume and cancel. |
| PostPage.PauseResumeRoundTrip | src/pages/BlogPostPage.js:59-67 | Once reading has started, two presses of the main button come back to the same state with one pause and one resume. |
| PostPage.HandleKeepsConsistent | src/pages/BlogPostPage.js:36-73 | Every possible event keeps the control and an idealised engine in agreement: idle/silent, playing/speaking, paused/holding. Starting from idle makes the engine speak the utterance given to the control. |
| PostPage.StartReading | src/pages/BlogPostPage.js:39-58 | Starting to read the post asks the engine to speak, in 'es-ES' at rate 0.9, the post's title, ". " and the plain text of its body, and the control goes to playing. A silent engine then speaks exactly that utterance. |
| PostPage.UnmountSilences | src/pages/BlogPostPage.js:18-22 | Leaving the page silences the engine whatever it was doing. |
| SmoothScroll.PlanScroll | src/hooks/useSmoothScroll.js:5-11 | There is no scroll if and only if no element has the id. Otherwise the scroll starts at the current offset, ends 80 pixels above the element's top, and takes the time `Duration` gives for its distance, within 0 to 1500 ms. |
| SmoothScroll.Duration | src/hooks/useSmoothScroll.js:10 | The duration lies between 0 and 1500 ms. It is 0 exactly for a distance of 0. It is never more than half a millisecond per pixel, and exactly that below the cap. |
| SmoothScroll.DurationExamples | src/hooks/useSmoothScroll.js:10 | 400 pixels either way take 200 ms and 2000 pixels take 1000 ms. From 3000 pixels on, a scroll takes 1500 ms. |
| SmoothScroll.DurationMonotonic | src/hooks/useSmoothScroll.js:10 | A longer way, in either direction, never takes less time. |
| SmoothScroll.DistanceIgnoresOffset | src/hooks/useSmoothScroll.js:7-9 | The distance depends only on where the element sits in the viewport, not on how far the page is scrolled. |
| SmoothScroll.EaseRange | src/hooks/useSmoothScroll.js:13-15 | The easing maps 0 to 0 and 1 to 1, and stays within [0, 1]. |
| SmoothScroll.EaseMonotonic | src/hooks/useSmoothScroll.js:13-15 | The easing never decreases. |
| SmoothScroll.Progress | src/hooks/useSmoothScroll.js:20 | Progress lies in [0, 1]. Before the end of a positive duration it is the elapsed fraction of the duration. It is 1 exactly once the duration has elapsed. A zero duration counts as already elapsed. |
| SmoothScroll.FrameAt | src/hooks/useSmoothScroll.js:17-28 | A frame asks for another if and only if less than the duration has elapsed. The last frame writes exactly the target. |
| SmoothScroll.NoOvershoot | src/hooks/useSmoothScroll.js:17-23 | Every frame writes a position between the start and the target. |
| SmoothScroll.ApproachesTarget | src/hooks/useSmoothScroll.js:17-23 | A later frame is never farther from the target than an earlier one. |
| SmoothScroll.Positions | src/hooks/useSmoothScroll.js:17-30 | The animation draws at most one position per frame timestamp, with times counted from a given clock start. |
| SmoothScroll.Animate | src/hooks/useSmoothScroll.js:17-30 | The first frame sets the clock to its own timestamp. So a scroll with any frame draws at least one position, and the first one is the start, or the target at once when the duration is 0. |
| SmoothScroll.AnimateLands | src/hooks/useSmoothScroll.js:17-28 | Once a frame comes at least the duration after the first, the animation has stopped by that frame, exactly on the target. |
| SmoothScroll.PositionsAreFrames | src/hooks/useSmoothScroll.js:17-28 | Each drawn position is `FrameAt` of its timestamp. Every frame but the last asked for another. With at least one timestamp at least one frame is drawn, and when timestamps are left over, the last frame drawn asked for none. |
| SmoothScroll.LandsOnTarget | src/hooks/useSmoothScroll.js:17-30 | Given a frame at or after the duration, the animation stops by that frame, and its last position is exactly the target. |
| SmoothScroll.AsWrittenAgrees | src/hooks/useSmoothScroll.js:19-23 | Except on the first frame of a zero-length scroll, the position the source computes equals `FrameAt`'s. |
| SmoothScroll.ZeroDistanceWritesNaN | src/hooks/useSmoothScroll.js:9-23 | When the section is already in place, the source's only frame writes NaN, whereas `FrameAt` stays at the current offset and stops. |

## Left out

- Rendering. Not modelled:
  - JSX, CSS classes, React keys and the dark/light theme (`useTheme`);
  - the share links, the SEO component and the animation wrappers.

  The renderer's output is a sequence of `Block` values, not elements.
- HTML. The replacements produce `<strong>`/`<code class=…>` strings, which the page injects as HTML. The model produces a token stream with atomic tags, so:
  - attribute text and HTML parsing are not modelled;
  - markup characters in the post text (`<`, `&`) reach the page unescaped in the source, while the model keeps them as characters.
- Regular expressions. Each pattern is modelled by a hand-written matcher of what it matches, not by a regex engine. `.` excludes the four JavaScript line terminators.
- The speech engine. Voice selection (`getVoices`, the first voice whose language starts with "es") is left to the engine. `Perform` is an idealised engine used only to state what the page assumes of it.
- PostPage.HandleKeepsConsistent: the `onend`/`onerror` callbacks are assumed to come from the utterance currently spoken. Stopping and restarting quickly can let the cancelled utterance's error callback arrive after the new `speak`, which resets the control to idle while the engine speaks. This race is not modelled.
- PostPage.UtteranceFor: the language is always 'es-ES' and the rate 0.9, whatever the site language, as the code has it.
- Language.InitialLanguage: a stored value is not checked against the table's languages, as the code has it. A stored 'fr' is kept, and every key then reads as itself (`Language.FrenchFallsBack`).
- LiteMarkdown.Step: a blank line does not end the pending list, as the code has it. Items separated by blank lines form one list.
- Language.Translate: property lookup on strings and inherited object properties is not modelled. For example, `t('nav.home.length')` in JavaScript reads a string's `length`, and `t('constructor')` reaches `Object.prototype`. A tree has only its own keys.
- Language.Translations: only the `nav` section of the table is written out. The other sections are string trees of the same shape, and none of the properties depends on them.
- Posts.FixtureContent: only the opening heading of the shipped article body is written out. The rest is prose that no property depends on.
- Posts.Compare: dates are already-parsed calendar triples. Parsing 'YYYY-MM-DD', invalid dates (whose comparator yields NaN) and time zones other than the UTC reading of date-only strings are left out.
- SmoothScroll: positions and times are exact reals, not IEEE doubles, so rounding in the easing is not modelled. The NaN of the zero-length scroll is modelled explicitly by `Written`.
- SmoothScroll.Positions: overlapping animations are not modelled; when a second scroll starts before the first ends, both write positions in the same frames. The browser's own clamping of `scrollTo` to the document bounds is not modelled either.
- `src/ThemeContext.js` and the section, component and page files other than the ones above are not part of this model.

## Findings

| source | as written | input that shows it | evidently intended | confidence | as-written member | corrected member |
|---|---|---|---|---|---|---|
| src/hooks/useSmoothScroll.js:20 | `Math.min(timeElapsed / duration, 1)` with `duration` = 0: the first frame has `timeElapsed` = 0, so progress is 0/0 = NaN, and the frame calls `scrollTo(0, NaN)` | a section whose top is exactly 80 px below the viewport top (distance 0), e.g. choosing the section already in place | nothing to animate, so the page stays where it is (progress counts as 1 for a zero duration) | not executed; medium (the CSSOM View specification turns a non-finite coordinate into 0, which would jump to the top of the page) | SmoothScroll.ZeroDistanceWritesNaN | SmoothScroll.FrameAt |
