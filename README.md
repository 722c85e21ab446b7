# University catalogue front end: a verified model of its logic

This project models in Dafny the logic of the React front end of a
university catalogue for Kazakh applicants. Rendering is left to the
components; the logic is:

- **the backend-to-frontend adapter** (`adaptUniversity`). It turns a loosely
  typed database row into the strict `IUniversity` record. Languages are read
  as a JSON array, falling back to a comma list. Programs are filtered by
  university id. A program's score and employment rate become `null` unless
  strictly positive; its description, duration, language and fee are dropped
  only when falsy (missing, empty or 0), so a negative fee is kept; its
  `=== 1` flags become `true` or nothing. The IELTS minimum is likewise kept
  unless missing or 0, while the university's own minimum score is copied as
  it is, 0 included. JSON list columns are parsed and the admissions block is
  assembled. `JSON.parse` is a
  parameter: a function that says whether a string decodes to an array, to
  another value, or fails.
- **the comparison and favourites stores**. Each is a class holding an
  insertion-ordered list of universities. Adding an id that is already there
  does nothing, and removing keeps the order of the others. The class
  invariant is that ids are unique.
- **the comparison dialog**:
  - `renderTextWithBold` splits a text at `/\*\*(.*?)\*\*/g` into plain and
    bold segments. The `while` loop is proved equal to a recursive
    specification. That specification is proved to re-join to the input,
    and to keep an unmatched `**` in plain text.
  - `renderMarkdown` reads the AI's answer line by line into headings,
    bullet lists and paragraphs. The `forEach` state machine is proved equal
    to a recursive grouping of classified lines, and properties of that
    grouping are proved.
  - The goal guard of `handleCompare`.
- **the translation lookup `t`** of the locale provider: lookup with fallback
  to the key, then a first-occurrence `replace` of `{name}` per parameter.
  Also `setLocale`.
- **the AI chat sidebar**: the context derived from the route, the context
  line, the welcome message, and the conversation, which only grows.
- **the advisor questionnaire, the add-university dialog and the catalogue
  card**: form state, guards, resets and the derived badge and button.

Asynchronous handlers are split in two. A `Begin…` method runs up to the
request and returns it, or returns `None` when the guard stops it. A
`Finish…` method takes the reply, or `None` for a failure, and runs the
rest. JavaScript strings are `seq<char>`. `trim` strips the ECMAScript
white space and line terminators. `toLowerCase` is modelled on ASCII
letters, which is exact for the comparison with `"private"`: no other
character lower-cases to a single letter of that word.

## Model

| member | source | states |
|---|---|---|
| UniversityService.ParseLanguages | frontend/src/api/universityService.ts:18-28 | a missing or empty field gives `[]`; a JSON array is kept exactly; a non-array JSON value gives the raw string alone; unparsable text gives the comma fallback's list |
| UniversityService.Languages | frontend/src/api/universityService.ts:18-28 | the list the record's languages come from: `[]` for a missing or empty field, the parsed array, the raw string alone for other JSON, and the comma fallback's list when the text is not JSON |
| UniversityService.CommaList | frontend/src/api/universityService.ts:27 | every language from the comma fallback is non-empty, trimmed and holds no comma |
| UniversityService.CommaListPieces | frontend/src/api/universityService.ts:27 | exactly the pieces of `split(',')` that are non-empty once trimmed are kept, trimmed |
| UniversityService.CommaListAppend | frontend/src/api/universityService.ts:27 | the pieces are read in order: for `a,rest` the list is `a` trimmed, unless it is empty, followed by the list for `rest` |
| UniversityService.SpacedCommaList | frontend/src/api/universityService.ts:27 | clean names written as `a, b, c` are read back as the same names in the same order, the spaces trimmed away |
| UniversityService.DoubleCommaDropped | frontend/src/api/universityService.ts:27 | the empty piece of `a,,b` is dropped: the list is `[a, b]` |
| Text.TrimSpaceFront | frontend/src/api/universityService.ts:27 | white space in front of a string does not change what `trim` gives |
| UniversityService.CommaListRoundTrip | frontend/src/api/universityService.ts:27 | clean names written as `a,b,c` are read back by the fallback as the same names in the same order |
| UniversityService.JsonLanguagesKept | frontend/src/api/universityService.ts:22-23 | a non-empty JSON array of languages reaches the record unchanged: no trimming, no change of case |
| UniversityService.CommaLanguagesKept | frontend/src/api/universityService.ts:25-28 | clean names stored as `a,b,c` rather than JSON reach the record's languages as the same names in the same order |
| UniversityService.SpacedLanguagesKept | frontend/src/api/universityService.ts:25-28 | clean names stored as `a, b, c` reach the record's languages as the same names in the same order |
| UniversityService.NonEmptyText | frontend/src/api/universityService.ts:36-38 | `v \|\| undefined` on text: present exactly when given and non-empty, and then unchanged |
| UniversityService.NonZero | frontend/src/api/universityService.ts:37-39 | `v \|\| undefined` on numbers: present exactly when given and non-zero, and then unchanged |
| UniversityService.PositiveOrNull | frontend/src/api/universityService.ts:41-47 | a score or employment rate is kept exactly when given and strictly positive, so 0 and negatives become `null` |
| UniversityService.FlagIsOne | frontend/src/api/universityService.ts:45-46 | a program flag is `true` exactly when the raw value is the number 1, and is never `false` |
| UniversityService.AdaptProgram | frontend/src/api/universityService.ts:33-48 | name and degree are copied; score and employment rate are the raw values when strictly positive and `null` otherwise; description, duration, language and fee are the raw values unless falsy; both flags are `true` exactly on raw 1 and never `false` |
| UniversityService.OwnPrograms | frontend/src/api/universityService.ts:31-32 | a program is kept exactly when it was in the list and its `university_id` is the record's id |
| UniversityService.OwnProgramsAppend | frontend/src/api/universityService.ts:32 | the id filter works piecewise on concatenated lists, so it keeps the original order |
| UniversityService.AdaptPrograms | frontend/src/api/universityService.ts:33-48 | one adapted program per row, in the same positions |
| UniversityService.SourcePrograms | frontend/src/api/universityService.ts:16 | programs embedded in the record are used whenever present, even an empty list; otherwise the list passed alongside |
| UniversityService.AdaptedAroundOwn | frontend/src/api/universityService.ts:31-48 | filtering then adapting a list splits around a row the filter keeps |
| UniversityService.AdaptedProgramsInOrder | frontend/src/api/universityService.ts:16-32 | programs embedded in the record win over the list passed alongside; the record's programs are the matching rows adapted, in their original order |
| UniversityService.ParseJsonField | frontend/src/api/universityService.ts:51-59 | `[]` for a missing or empty field, malformed JSON, or a non-array; otherwise the parsed array |
| UniversityService.AdaptInternational | frontend/src/api/universityService.ts:61-71 | the three JSON list columns and the double-degree programs are parsed with `parseJsonField`; the flags are copied; the IELTS minimum is kept exactly when present and not 0 |
| UniversityService.IsPrivate | frontend/src/api/universityService.ts:86 | private exactly when the format is given, has 7 characters, and lower-cases letter by letter to `private` |
| UniversityService.AdaptUniversity | frontend/src/api/universityService.ts:73-99 | decimal id; name, description, city, price, rating, dormitory flag and the university's minimum score (0 included) are copied; `languages` is the computed list, absent exactly when that list is empty; `academicPrograms` is the filtered, adapted list, absent exactly when empty; `hasMilitaryDept` defaults to false; tour and image URLs are dropped only when empty; admissions are the assembled block; the international block is the adapted one |
| UniversityService.AdaptAdmissions | frontend/src/api/universityService.ts:90-95 | absent without `admission_info`; otherwise each list defaults to `[]` and the procedure to `''` |
| Text.IntToStringInjective | frontend/src/api/universityService.ts:74 | distinct numeric ids give distinct string ids |
| Text.ParseNatToString | frontend/src/api/universityService.ts:74 | the decimal digits of a natural number read back as that number |
| Text.Trim | frontend/src/components/CompareArbitrationModal.tsx:124 | `trim` leaves a string that starts and ends with no white space; that string is a middle slice of the input with only white space around it; it is empty exactly when the input is all white space |
| Text.TrimIdempotent | frontend/src/components/AiChatSidebar.tsx:83-85 | trimming twice is trimming once |
| Text.Split | frontend/src/components/CompareArbitrationModal.tsx:70 | `split` on one character gives at least one piece, and no piece holds the separator |
| Text.JoinSplit | frontend/src/components/CompareArbitrationModal.tsx:70 | the lines, joined back with the separator, are the text |
| Text.SplitJoin | frontend/src/api/universityService.ts:27 | pieces without the separator, joined and split again, come back unchanged |
| Text.IndexOf | frontend/src/components/LocaleProvider.tsx:459 | the position found holds the pattern and no earlier position does; `None` exactly when the pattern occurs nowhere |
| Text.ReplaceFirst | frontend/src/components/LocaleProvider.tsx:459 | `replace` with a string pattern: no occurrence leaves the text as it is; otherwise, at the first occurrence, the text before is kept, the value is put in, and the text after the pattern follows |
| Text.ReplaceFirstSplits | frontend/src/components/LocaleProvider.tsx:459 | `replace` changes only the first occurrence; what follows it is kept verbatim |
| UniversityList.HasId | frontend/src/store/useCompareStore.ts:18 | `some(u => u.id === id)` holds exactly when some entry has that id |
| UniversityList.WithoutId | frontend/src/store/useCompareStore.ts:27 | the filter keeps exactly the entries with another id, and none with that id |
| UniversityList.WithoutIdAppend | frontend/src/store/useCompareStore.ts:27 | the filter works piecewise, so the order of the remaining entries is kept |
| UniversityList.WithoutIdAt | frontend/src/store/useCompareStore.ts:25-28 | in a list of unique ids, removing an entry's id removes that entry alone, with the rest in order |
| UniversityList.WithoutAbsentId | frontend/src/store/useFavoritesStore.ts:22-24 | removing an id no entry has leaves the list as it was |
| UniversityList.WithoutPresentIdLength | frontend/src/store/useCompareStore.ts:25-28 | removing a present id from a list of unique ids shortens it by one |
| UniversityList.WithoutIdKeepsDistinct | frontend/src/store/useCompareStore.ts:25-28 | removal keeps ids unique |
| UniversityList.AppendNewKeepsDistinct | frontend/src/store/useCompareStore.ts:21-23 | appending a university with a new id keeps ids unique |
| Compare.CompareStore.constructor | frontend/src/store/useCompareStore.ts:13-14 | the store starts with an empty list and no score |
| Compare.CompareStore.AddToCompare | frontend/src/store/useCompareStore.ts:15-24 | a known id changes nothing; a new one is appended at the end; ids stay unique; the score is untouched |
| Compare.CompareStore.RemoveFromCompare | frontend/src/store/useCompareStore.ts:25-28 | the entry with that id goes and the rest keep their order; an absent id is a no-op; ids stay unique |
| Compare.CompareStore.SetEntScore | frontend/src/store/useCompareStore.ts:29-32 | the score is set and the list is untouched |
| Favorites.FavoritesStore.constructor | frontend/src/store/useFavoritesStore.ts:15 | nothing is bookmarked at first |
| Favorites.FavoritesStore.AddToFavorites | frontend/src/store/useFavoritesStore.ts:16-21 | a known id changes nothing, a new one is appended; afterwards `isFavorite` holds for it; ids stay unique |
| Favorites.FavoritesStore.RemoveFromFavorites | frontend/src/store/useFavoritesStore.ts:22-24 | the entry goes and the others keep their order; afterwards `isFavorite` is false; an absent id is a no-op |
| Favorites.FavoritesStore.IsFavorite | frontend/src/store/useFavoritesStore.ts:25-27 | `isFavorite` holds exactly when some bookmarked university has the id |
| BoldText.CloseFrom | frontend/src/components/CompareArbitrationModal.tsx:92 | the lazy `(.*?)\*\*` stops at a `**` at or after the opening |
| BoldText.CloseFromLazy | frontend/src/components/CompareArbitrationModal.tsx:92 | before the closing `**` there is no line terminator (`.` does not match one) and no earlier `**` |
| BoldText.CloseFromComplete | frontend/src/components/CompareArbitrationModal.tsx:92 | the search misses no `**`: one reached without crossing a line terminator stops it there or earlier, so `None` means no `**` follows on the line |
| BoldText.MatchAtIffPair | frontend/src/components/CompareArbitrationModal.tsx:92 | a match starts at `p` exactly when the text has `**` at `p` and a later `**` on the same line |
| BoldText.MatchAt | frontend/src/components/CompareArbitrationModal.tsx:92 | a match opens and closes with `**` |
| BoldText.FindMatch | frontend/src/components/CompareArbitrationModal.tsx:96 | `exec` from `lastIndex` finds a position where a match starts |
| BoldText.FindMatchLeftmost | frontend/src/components/CompareArbitrationModal.tsx:96 | no match starts between `lastIndex` and the one found, and none at all when `exec` gives `null` |
| BoldText.PlainIfAny | frontend/src/components/CompareArbitrationModal.tsx:97-98 | a plain segment is pushed exactly when the text before the match is non-empty |
| BoldText.NextFrom | frontend/src/components/CompareArbitrationModal.tsx:101 | `lastIndex` strictly advances and stays within the text, so the loop ends |
| BoldText.SegmentsRejoin | frontend/src/components/CompareArbitrationModal.tsx:96-106 | the segments from any position, with `**` put back around each bold one, are the rest of the text |
| BoldText.TextWithBoldRejoin | frontend/src/components/CompareArbitrationModal.tsx:90-108 | the segments re-joined with `**` are the input; the loop collects nothing exactly for the empty text; the result is never empty |
| BoldText.PlainIffUnmatched | frontend/src/components/CompareArbitrationModal.tsx:92-108 | the text comes back as one plain segment exactly when no `**…**` pair occurs within one line, so an unmatched `**` stays in the plain text |
| BoldText.PlainIffNoPair | frontend/src/components/CompareArbitrationModal.tsx:90-108 | stated on the text alone: it comes back as one plain segment exactly when no two `**` on one line enclose a run |
| BoldText.SegmentsShape | frontend/src/components/CompareArbitrationModal.tsx:96-106 | plain segments are never empty; bold ones hold no line terminator and no `**` |
| BoldText.SegmentsAfterStep | frontend/src/components/CompareArbitrationModal.tsx:97-101 | one loop step appends the plain text before the match and the bold text, and moves `lastIndex` past the closing `**` |
| BoldText.CollectSegments | frontend/src/components/CompareArbitrationModal.tsx:93-106 | the `while` loop collects exactly the specified segments |
| BoldText.RenderTextWithBold | frontend/src/components/CompareArbitrationModal.tsx:90-108 | `renderTextWithBold` returns the specified segments, which re-join to the input and are never empty |
| Markdown.Classify | frontend/src/components/CompareArbitrationModal.tsx:124-152 | on the trimmed line: `## ` makes a heading whose text follows the marker; otherwise `- ` or `* ` makes a list item whose text follows the marker; otherwise non-blank text is paragraph text, the trimmed line; blank exactly when all white space; no heading, item or text is empty |
| Markdown.ClassifyAll | frontend/src/components/CompareArbitrationModal.tsx:123-124 | one classification per line, in order |
| Markdown.RunEnd | frontend/src/components/CompareArbitrationModal.tsx:139-151 | a run of item or text lines extends to the first line of another kind |
| Markdown.TextsOf | frontend/src/components/CompareArbitrationModal.tsx:144 | the texts of a run's lines, one per line, in order |
| Markdown.ParagraphRun | frontend/src/components/CompareArbitrationModal.tsx:111-121 | a run of text lines that ends at the end or at another kind of line is exactly one paragraph, its lines joined with one space |
| Markdown.ListRun | frontend/src/components/CompareArbitrationModal.tsx:76-88 | a run of item lines that ends at the end or at another kind of line is exactly one list |
| Markdown.ParagraphClosed | frontend/src/components/CompareArbitrationModal.tsx:111-121 | closing the open paragraph emits what the remaining lines owe for it |
| Markdown.ListClosed | frontend/src/components/CompareArbitrationModal.tsx:76-88 | closing the open list emits what the remaining lines owe for it |
| Markdown.HeadingEmitted | frontend/src/components/CompareArbitrationModal.tsx:127-135 | a heading line contributes its heading and nothing else |
| Markdown.BlankSkipped | frontend/src/components/CompareArbitrationModal.tsx:152-156 | a blank line contributes nothing itself |
| Markdown.RenderItems | frontend/src/components/CompareArbitrationModal.tsx:80-82 | each list item is split into bold segments, in order |
| Markdown.CloseParagraph | frontend/src/components/CompareArbitrationModal.tsx:111-121 | `closeParagraph` emits the open paragraph if any, and empties it |
| Markdown.CloseList | frontend/src/components/CompareArbitrationModal.tsx:76-88 | `closeList` emits the open list if it has items, and closes it |
| Markdown.HeadingVisited | frontend/src/components/CompareArbitrationModal.tsx:127-135 | after a heading line the loop state again accounts for all blocks |
| Markdown.ItemVisited | frontend/src/components/CompareArbitrationModal.tsx:139-146 | after an item line the loop state again accounts for all blocks |
| Markdown.TextVisited | frontend/src/components/CompareArbitrationModal.tsx:149-151 | after a text line the loop state again accounts for all blocks |
| Markdown.BlankVisited | frontend/src/components/CompareArbitrationModal.tsx:152-156 | after a blank line the loop state again accounts for all blocks |
| Markdown.AllVisited | frontend/src/components/CompareArbitrationModal.tsx:159-161 | after the last line, the final `closeParagraph` and `closeList` complete the blocks |
| Markdown.ParagraphRunExtends | frontend/src/components/CompareArbitrationModal.tsx:151 | pushing the next text line extends the open paragraph's run |
| Markdown.ListRunExtends | frontend/src/components/CompareArbitrationModal.tsx:144 | pushing the next item line extends the open list's run |
| Markdown.VisitHeading | frontend/src/components/CompareArbitrationModal.tsx:127-135 | the heading branch keeps the loop invariant |
| Markdown.VisitItem | frontend/src/components/CompareArbitrationModal.tsx:139-146 | the item branch keeps the loop invariant |
| Markdown.VisitText | frontend/src/components/CompareArbitrationModal.tsx:149-151 | the text branch keeps the loop invariant |
| Markdown.VisitBlank | frontend/src/components/CompareArbitrationModal.tsx:152-156 | the blank-line branch keeps the loop invariant |
| Markdown.VisitLine | frontend/src/components/CompareArbitrationModal.tsx:123-157 | the `forEach` callback keeps the loop invariant for every kind of line |
| Markdown.RenderMarkdown | frontend/src/components/CompareArbitrationModal.tsx:69-164 | `renderMarkdown` returns exactly the blocks the grouping of classified lines specifies |
| Markdown.BlocksEmptyIffBlank | frontend/src/components/CompareArbitrationModal.tsx:123-163 | no block is produced exactly when every remaining line is blank |
| Markdown.MarkdownEmptyIffBlank | frontend/src/components/CompareArbitrationModal.tsx:69-164 | the answer renders to nothing exactly when every line is white space, the empty text included |
| Markdown.HeadingsOfAppend | frontend/src/components/CompareArbitrationModal.tsx:130 | headings are collected piecewise over emitted blocks |
| Markdown.HeadingLinesSkip | frontend/src/components/CompareArbitrationModal.tsx:139-151 | a run of item or text lines holds no heading |
| Markdown.HeadingsInOrder | frontend/src/components/CompareArbitrationModal.tsx:127-135 | the headings emitted are exactly the `## ` lines' texts, in line order |
| Markdown.BoldItemsRejoin | frontend/src/components/CompareArbitrationModal.tsx:80-82 | each rendered list item, bold markers put back, is the item's own text |
| Markdown.BlocksNonEmpty | frontend/src/components/CompareArbitrationModal.tsx:77-112 | from classified lines, no heading is empty, no list is emitted without items, and no item or paragraph has empty text |
| Markdown.MarkdownBlocksNonEmpty | frontend/src/components/CompareArbitrationModal.tsx:69-164 | nothing `renderMarkdown` emits is empty: every heading, item and paragraph has text, every list has items |
| CompareArbitration.CompareDialog.constructor | frontend/src/components/CompareArbitrationModal.tsx:29-32 | the dialog starts with no goal, nothing running, no result and no error |
| CompareArbitration.CompareDialog.CompareDisabled | frontend/src/components/CompareArbitrationModal.tsx:249 | the compare button is disabled exactly while loading or while the goal is all white space |
| CompareArbitration.CompareDialog.EditGoal | frontend/src/components/CompareArbitrationModal.tsx:189-192 | typing stores the goal and clears the error |
| CompareArbitration.CompareDialog.BeginCompare | frontend/src/components/CompareArbitrationModal.tsx:34-48 | an all-white-space goal sets the "state your priorities" error, sends nothing and leaves `loading` and `result` alone; otherwise the trimmed, non-empty goal is sent, `loading` is set and the error and previous result are cleared |
| CompareArbitration.CompareDialog.FinishCompare | frontend/src/components/CompareArbitrationModal.tsx:49-55 | the reply becomes the result, or a failure sets the fixed error; `loading` ends either way |
| Locale.Lookup | frontend/src/components/LocaleProvider.tsx:456 | a present, non-empty translation is returned; a missing key or an empty translation gives the key itself |
| Locale.LocaleProvider.constructor | frontend/src/components/LocaleProvider.tsx:451-453 | the language starts as the default one |
| Locale.LocaleProvider.T | frontend/src/components/LocaleProvider.tsx:455-463 | `t` returns the lookup with one first-occurrence replacement per parameter, in order; with no parameters, the stored translation (or the key) exactly |
| Locale.LocaleProvider.SetLocale | frontend/src/components/LocaleProvider.tsx:467-470 | after `setLocale(l)`, `t` reads the table of `l` |
| Locale.Substitute | frontend/src/components/LocaleProvider.tsx:458-460 | one first-occurrence `replace` per parameter, in order; when none of the parameters' placeholders occurs, the text comes back unchanged |
| Locale.PlaceholdersApart | frontend/src/components/LocaleProvider.tsx:459 | placeholders with different brace-free names never overlap in a text |
| Locale.ReplaceKeepsOther | frontend/src/components/LocaleProvider.tsx:459 | after filling in one name, a placeholder with another name that was in the text is still in it |
| Locale.UnknownPlaceholderKept | frontend/src/components/LocaleProvider.tsx:458-460 | a placeholder no parameter names is still in the text after all the `replace` calls, whatever else was filled in |
| Locale.FirstOccurrenceOnly | frontend/src/components/LocaleProvider.tsx:458-460 | only the first `{p}` is filled in; later occurrences remain |
| Locale.AddedToCompareTemplate | frontend/src/components/LocaleProvider.tsx:390 | the English "added to comparison" template, cut at its `{name}` placeholder |
| Locale.AddedToCompareToast | frontend/src/components/LocaleProvider.tsx:390 | that entry with `{name: X}` in English reads `University "X" has been added to comparison` |
| ChatSidebar.FirstWithId | frontend/src/components/AiChatSidebar.tsx:33 | `find` stops at the first entry with the id, and finds nothing exactly when no entry has it |
| ChatSidebar.FindUniversity | frontend/src/components/AiChatSidebar.tsx:33 | `find` gives the first entry with the id, and nothing exactly when no entry has it |
| ChatSidebar.GetContext | frontend/src/components/AiChatSidebar.tsx:31-43 | a non-empty `id` route parameter gives the university context, carrying the entry with that id or nothing if none has it; otherwise `/compare` gives the comparison context and any other path the home context |
| ChatSidebar.ContextText | frontend/src/components/AiChatSidebar.tsx:46-55 | the home text exactly for the home page and a university page without an entry; the comparison text exactly for the comparison page; otherwise the university's name after `Просмотр: ` |
| ChatSidebar.WelcomeText | frontend/src/components/AiChatSidebar.tsx:67-79 | the generic greeting, the comparison greeting and the greeting naming the university, in exactly the cases of the context line |
| ChatSidebar.UnknownUniversityAsHome | frontend/src/components/AiChatSidebar.tsx:46-55 | a university context without an entry shows the home text and gets the generic welcome |
| ChatSidebar.WelcomeMatchesContextText | frontend/src/components/AiChatSidebar.tsx:67-79 | the welcome and the context line pick the same case: generic welcome exactly with the home text, comparison welcome exactly with the comparison text |
| ChatSidebar.Sidebar.constructor | frontend/src/components/AiChatSidebar.tsx:22-25 | the sidebar starts closed, with no messages, empty input and nothing loading |
| ChatSidebar.Sidebar.SetOpen | frontend/src/components/AiChatSidebar.tsx:132 | opening or closing touches nothing else |
| ChatSidebar.Sidebar.EditInput | frontend/src/components/AiChatSidebar.tsx:185 | typing stores the input and touches nothing else |
| ChatSidebar.Sidebar.Welcome | frontend/src/components/AiChatSidebar.tsx:67-79 | only in an open sidebar with no messages, exactly one assistant message for the context is set; otherwise nothing changes |
| ChatSidebar.Sidebar.BeginSend | frontend/src/components/AiChatSidebar.tsx:82-92 | all-white-space input, or a reply still awaited, changes nothing and sends nothing; otherwise one user message with the trimmed input is appended, the trimmed input is sent together with the page's context, the input is cleared and loading set |
| ChatSidebar.Sidebar.FinishSend | frontend/src/components/AiChatSidebar.tsx:94-109 | exactly one assistant message is appended, the reply or the fixed apology, and loading ends; messages are only appended |
| AdvisorModal.IncompleteIffSomeFalsy | frontend/src/components/AdvisorModal.tsx:42 | the submit guard holds exactly when some input is falsy, a score of 0 included |
| AdvisorModal.ChangedOnlyField | frontend/src/components/AdvisorModal.tsx:33-39 | a change sets only the named input: the score as a number, the others as typed |
| AdvisorModal.InitialIncomplete | frontend/src/components/AdvisorModal.tsx:23-29 | the initial form, score 0 and empty text, cannot be sent |
| AdvisorModal.Advisor.constructor | frontend/src/components/AdvisorModal.tsx:23-31 | the form starts as the initial one with nothing loading |
| AdvisorModal.Advisor.SubmitDisabled | frontend/src/components/AdvisorModal.tsx:147 | the submit button is disabled exactly while loading or while some input is falsy |
| AdvisorModal.Advisor.HandleChange | frontend/src/components/AdvisorModal.tsx:33-39 | `handleChange` applies the change to the form and nothing else |
| AdvisorModal.Advisor.BeginSubmit | frontend/src/components/AdvisorModal.tsx:41-48 | an incomplete form sends nothing and changes nothing; otherwise the form is sent as it is and loading is set |
| AdvisorModal.Advisor.FinishSubmit | frontend/src/components/AdvisorModal.tsx:49-55 | success or failure, loading ends and the form is not reset |
| AdvisorModal.Advisor.HandleClose | frontend/src/components/AdvisorModal.tsx:57-68 | while loading, nothing changes and the dialog stays; otherwise the form is reset and the dialog closes |
| UniversityCard.Card | frontend/src/components/UniversityCard.tsx:16-84 | the badge shows exactly when a score is given, and reads "grant chance" exactly when the score reaches the minimum; the button is disabled and reads "already compared" exactly when an entry has the card's id |
| UniversityCard.HasChance | frontend/src/components/UniversityCard.tsx:16 | a score is given and reaches the university's minimum; never without the indicator |
| UniversityCard.ShowIndicator | frontend/src/components/UniversityCard.tsx:17 | the indicator shows exactly when a score is given |
| UniversityCard.IsInCompare | frontend/src/components/UniversityCard.tsx:18 | some compared university has the card's id |
| UniversityCard.ChanceShowsIndicator | frontend/src/components/UniversityCard.tsx:16-17 | `hasChance` implies `showIndicator`, and holds exactly when the grant badge is shown |
| UniversityCard.ChanceMonotone | frontend/src/components/UniversityCard.tsx:16 | a higher score keeps a chance, and a score equal to the minimum has one |
| UniversityCard.ButtonFollowsCompareList | frontend/src/components/UniversityCard.tsx:77-84 | after the university is added to the comparison its button is disabled; after its removal it is enabled |
| AddUniversityModal.IncompleteIffSomeEmpty | frontend/src/components/AddUniversityModal.tsx:33 | validation fails exactly when some input is the empty string; nothing is trimmed |
| AddUniversityModal.ChangedOnlyField | frontend/src/components/AddUniversityModal.tsx:58-63 | `handleChange(field, v)` sets only `field` to `v` |
| AddUniversityModal.Dialog.constructor | frontend/src/components/AddUniversityModal.tsx:20-26 | the dialog starts closed with all four inputs empty |
| AddUniversityModal.Dialog.SetOpen | frontend/src/components/AddUniversityModal.tsx:66 | opening or dismissing keeps the form |
| AddUniversityModal.Dialog.HandleChange | frontend/src/components/AddUniversityModal.tsx:58-63 | the change is applied and the dialog stays as it was |
| AddUniversityModal.Dialog.HandleSubmit | frontend/src/components/AddUniversityModal.tsx:29-56 | an incomplete form gets the destructive toast and keeps the form and the dialog; a complete one, white space included, gets the thank-you toast, is cleared to four empty inputs and closes (the handler alone; the browser's checks that run before it are not modelled) |

## Left out

- Network and asynchronous calls (`compareWithAi`, `sendChatMessage`, `onRecommend`, `getUniversities`, `getUniversityById`, `getAiRecommendation` and their mock fallbacks) are not modelled: the handlers return the request and take the reply or failure as a parameter.
- `JSON.parse` is a parameter, and parsed arrays are taken to hold strings.
- `Number()` on floats is not modelled, and fractional numbers are not either: ratings, the IELTS minimum and a program's `price`, `duration` and `employment` (typed `number | null`, so possibly fractional) are integers here, and the advisor's `Number(value)` is a parameter that gives 0 for `NaN` (both are falsy, and the guard only tests falsiness).
- Persistence is not modelled: the favourites store's `persist` middleware, and the locale's `localStorage` read and write. The provider starts from the default language.
- The comparison dialog's `handleClose` (the `onOpenChange(false)` call and the deferred `setTimeout` reset) is not modelled. It only resets rendering state after the dialog is gone.
- Rendering is not modelled: JSX, element keys, class names, scrolling, `handleKeyDown` (Enter calls the same `handleSend`), and the image URL and links of the card.
- Locale.Translations: holds a few entries of each language's table, not the whole table.
- Locale.Substitute: `$` replacement patterns in parameter values are not interpreted; values are inserted verbatim. Parameters are a sequence, in the order `Object.keys` gives.
- AddUniversityModal.Dialog.HandleSubmit: the browser's native form validation is not modelled. Every input carries `required` and the website input is `type="url"` (AddUniversityModal.tsx:84, 94, 101, 105, 115), and the browser applies these before `onSubmit` runs `handleSubmit`. The model is `handleSubmit` alone. On the page, the destructive toast is reached only when those checks are bypassed, and a blank website is refused as an invalid URL before the handler sees it.
- Strings are sequences of Unicode characters rather than UTF-16 code units. This only matters for characters outside the Basic Multilingual Plane, which none of the rules inspect.
