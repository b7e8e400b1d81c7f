# CodeCraft front end: a verified model of its logic

CodeCraft is a React single-page site for learning to program. Most of its
pages are static. This project models the logic they do hold, in Dafny, and
proves what that logic promises.

- **Coding playground** (`src/pages/Playground.tsx`). This is the largest part.
  - Tab workspace:
    - files are open in tabs, and one tab is active;
    - a header picker shows the active file's language;
    - an editor surface shows its text.
  - Language tables: the `languages` table, the `defaultCode` starter programs and the total syntax-profile switch `getLanguageExtension`.
  - Console: an append-only list of lines. A run appends a header, then a success block or a failure block. The console can be cleared and copied, a badge counts its lines, and each line gets a colour from its first character.
- **Course catalogue** (`src/pages/Courses.tsx`): the search, language and level filter, and its "Clear Filters" reset.
- **Practice page** (`src/pages/Practice.tsx`): the topic picker's de-duplicated options, the problem filter and the solved-count stats.
- **Sign-up form** (`src/pages/Signup.tsx`): the three-item password checklist.

Files:

| file | module | contents |
|---|---|---|
| `option.dfy` | `Optional` | `Option` |
| `text.dfy` | `Text` | ASCII lowering, `String.prototype.includes` and `startsWith`, decimal rendering of a count, joining and splitting lines |
| `seqs.dfy` | `Seqs` | `Array.prototype.filter`, subsequences, `filter(...).length` |
| `languages.dfy` | `Languages` | `languages`, `defaultCode`, `getLanguageExtension` |
| `workspace.dfy` | `Workspace` | tabs, active tab, picker and editor; the handlers that change them |
| `console.dfy` | `Console` | the console as a class; run reports and line colours |
| `courses.dfy` | `Courses` | the course filter |
| `practice.dfy` | `Practice` | topics, problem filter, stats |
| `signup.dfy` | `Signup` | the password checklist |

How the model treats the playground:

- **Handler results.** The workspace handlers are functions from one state to the next. The playground syncs the picker and editor when `currentTab` becomes a different object (Playground.tsx:307-322). Each handler's result already includes that sync wherever it fires; this is `Workspace.Settle`.
  - Closing a tab that is not active leaves `currentTab` the same object, so that sync does not fire. The model then leaves the picker and editor alone.
  - Replacing the whole editor document, in the sync (:314-321) and in `handleLanguageChange` (:343-350), re-enters the edit listener (:265-273) with the text the active tab already holds. The echo writes a new tab object, which fires the sync again, whose replace echoes again: the page may repeat sync and echo several times. The model folds that whole cycle into one step; `Settle` is reached after one round, and `Workspace.EditIdempotent` shows a repeated echo cannot change the state.
- **The console.** It is a class. Its methods reassign the `lines` field, as `setOutput` reassigns `output`.
- **Running code.** Transpiling and evaluating are not modelled. A run takes them as two oracles:
  - the transpiler maps TypeScript text to JavaScript text or an error message;
  - the evaluator maps JavaScript text to the lines it logged, and says whether it returned or threw.

  The elapsed time is a parameter, already rounded to whole milliseconds.
- **What a run reads.** It runs the editor text in the language of the header picker, `selectedLanguage`, not in the tab's stored language. `Console.RunReadsActiveTab` proves the two agree in every synced workspace. `Workspace.ReachableSynced` proves every reachable workspace is synced.
- **Only table languages.** The header picker offers only the table's ids (Playground.tsx:489-493). A new tab takes the picker's language, and the sync copies a tab's language back into the picker. So every reachable workspace holds only table languages, and the fallbacks `"txt"` (:334, :359) and `""` (:335) are defensive only. `Workspace.ReachableSynced` proves this.
- **A failed run keeps none of its output.** This holds for a runtime fault and for a transpile error. The lines the program logged before it failed are not appended, because `logs` is local to the `try` (Playground.tsx:399, 441-450).

## Model

| member | source | states |
|---|---|---|
| Languages.FindById | src/pages/Playground.tsx:326 | `languages.find(l => l.id === lang)`: `None` exactly when no entry has the id; otherwise the first entry that has it |
| Languages.KnownIdsListed | src/pages/Playground.tsx:40-50 | the table lists exactly the nine language ids the header picker offers |
| Languages.FindLanguage | src/pages/Playground.tsx:326 | `languages.find(l => l.id === lang)` succeeds exactly for the nine known ids, and returns a table entry with that id |
| Languages.ExtensionOf | src/pages/Playground.tsx:334 | `langInfo?.extension \|\| "txt"`: never empty; `"txt"` for an id outside the table, the table's extension otherwise |
| Languages.DefaultCode | src/pages/Playground.tsx:52-177 | there is a starter program exactly for the nine table languages, and each is non-empty |
| Languages.TemplateOf | src/pages/Playground.tsx:335 | `defaultCode[lang] \|\| ""`: the starter program of a known language, `""` for any other id |
| Languages.GetLanguageExtension | src/pages/Playground.tsx:205-222 | total: JavaScript-with-TypeScript exactly for `typescript`, and plain JavaScript for `javascript` and for every id the switch does not name (`go`, `ruby`, unknown ids); Python, C++ (shared by `c` and `cpp`), Java and Rust exactly for their ids |
| Languages.CatalogueWellFormed | src/pages/Playground.tsx:40-50 | the table's ids are distinct, and every entry is a known language with a starter program |
| Workspace.Current | src/pages/Playground.tsx:224-226 | `tabs.find(tab => tab.id === activeTab)` finds a tab in any valid workspace, and that tab carries the active id |
| Workspace.CurrentUnique | src/pages/Playground.tsx:224-226 | with distinct ids, the current tab is the only tab with the active id |
| Workspace.Settle | src/pages/Playground.tsx:307-322 | the sync effect makes picker and editor show the active tab; tabs and active id are unchanged |
| Workspace.Initial | src/pages/Playground.tsx:193-197 | the opening workspace is synced: one tab `1` named `main.js`, in JavaScript, holding the JavaScript starter program |
| Workspace.AddNewTab | src/pages/Playground.tsx:354-365 | exactly one tab is appended and earlier tabs are unchanged. The new tab has the fresh id, the name `file{n+1}.{ext}` (`txt` for an unknown language), the header's language and empty content. It becomes active, and the workspace ends synced with an empty editor |
| Workspace.AppendFresh | src/pages/Playground.tsx:363 | appending a tab whose id is not in use keeps the ids distinct and adds exactly that id at the end |
| Workspace.SubseqDistinct | src/pages/Playground.tsx:378 | keeping some tabs of a list with distinct ids keeps the ids distinct |
| Workspace.SubseqMember | src/pages/Playground.tsx:378 | every tab that survives the filter was in the list |
| Workspace.RemoveIdLength | src/pages/Playground.tsx:378 | filtering out one id removes exactly one tab when the id is present and none otherwise |
| Workspace.RemainingTabs | src/pages/Playground.tsx:369-383 | with more than one tab, the filtered list is non-empty, has distinct ids, lacks the closed id and keeps the active tab unless that tab was closed |
| Workspace.KeepActive | src/pages/Playground.tsx:379-383 | closing a tab other than the active one keeps the same current tab |
| Workspace.CloseTab | src/pages/Playground.tsx:367-384 | refused on the last tab (the state is unchanged). Otherwise exactly that tab is removed and the others keep their order. A closed active tab hands over to the first remaining tab; any other close changes nothing else. The invariant is kept, and so is being synced |
| Workspace.SelectTab | src/pages/Playground.tsx:522 | the clicked tab becomes active; clicking another tab syncs picker and editor with it, and clicking the active one changes nothing |
| Workspace.MapTab | src/pages/Playground.tsx:269-271 | `tabs.map(tab => tab.id === id ? f(tab) : tab)` on a distinct-id list is the list with the one tab carrying the id replaced by `f` of it, and the list itself when no tab carries the id |
| Workspace.MapTabValid | src/pages/Playground.tsx:329-339 | an id-preserving rewrite of the active tab keeps the invariant and the ids, and the rewritten tab becomes the current tab |
| Workspace.HandleLanguageChange | src/pages/Playground.tsx:324-352 | the picker takes the language. The active tab gets that language, the name `main.{ext}` and the starter program (`""` if none). Every other tab and the tab count are unchanged, and the workspace ends synced |
| Workspace.Edit | src/pages/Playground.tsx:265-273 | the active tab's content becomes the full editor text, and no other tab changes. The invariant is kept, and so is being synced |
| Workspace.EditIdempotent | src/pages/Playground.tsx:265-273 | the same text reported twice gives the state of one report |
| Workspace.EditLastWins | src/pages/Playground.tsx:265-273 | of two consecutive edits only the later text survives |
| Workspace.Step | src/pages/Playground.tsx:324-384 | every allowed user action (a fresh id for a new tab, a listed tab for a click, a table language from the picker at :489-493) keeps the workspace invariant and keeps it synced |
| Workspace.AddKeepsKnownLanguages | src/pages/Playground.tsx:354-365 | a new tab takes the picker's language, so a workspace with only table languages keeps them |
| Workspace.CloseKeepsKnownLanguages | src/pages/Playground.tsx:367-384 | closing keeps a subset of the tabs, and the picker keeps its language or takes a remaining tab's; table languages stay table languages |
| Workspace.RewriteKeepsKnown | src/pages/Playground.tsx:265-273 | a rewrite of only the active tab, which leaves it and the picker in a table language, keeps every language a table language |
| Workspace.StepKeepsKnownLanguages | src/pages/Playground.tsx:324-384 | every allowed action keeps the picker and every tab in a table language |
| Workspace.ReplayKnownLanguages | src/pages/Playground.tsx:489-493 | from a workspace with only table languages, any sequence of allowed actions ends with only table languages |
| Workspace.KnownLanguagesAvoidFallbacks | src/pages/Playground.tsx:334-335 | with only table languages, neither the `"txt"` extension nor the empty starter program is used for the picker or any tab |
| Languages.KnownIdAvoidsFallbacks | src/pages/Playground.tsx:334-335 | a table language's extension is not `"txt"` and its starter program is not empty |
| Workspace.ReplaySynced | src/pages/Playground.tsx:307-322 | from a synced workspace, any sequence of allowed actions ends synced: at least one tab, the active id names one, and the picker and editor show it |
| Workspace.ReachableSynced | src/pages/Playground.tsx:193-197 | every workspace reachable from the opening one is synced and holds only table languages, so the `"txt"` and `""` fallbacks are never used in it |
| Console.TimingLineInjective | src/pages/Playground.tsx:439 | the timing line determines the elapsed time it reports |
| Console.RunReportShape | src/pages/Playground.tsx:386-450 | every report starts with the blank line and the running line and ends with the timing line; it either has the success line before the timing, or is five lines with a single `✗` failure line after the header |
| Console.UnsupportedRun | src/pages/Playground.tsx:395-397 | outside JavaScript and TypeScript the report is the header, the not-implemented failure, a blank line and the timing. It depends neither on the code nor on either oracle |
| Console.SuccessfulRun | src/pages/Playground.tsx:433-440 | a normal completion appends the header, every logged line in order (or `(no output)`), a blank line, the success line and the timing |
| Console.FaultedRun | src/pages/Playground.tsx:441-450 | a runtime fault appends the header, `✗ {message}`, a blank line and the timing, and none of the logged lines |
| Console.TranspileFailedRun | src/pages/Playground.tsx:413-421 | a TypeScript transpile error is reported like a fault, and the evaluator is never consulted |
| Console.JavaScriptSkipsTranspiler | src/pages/Playground.tsx:413-422 | JavaScript is evaluated as written; the transpiler plays no part |
| Console.Classify | src/pages/Playground.tsx:595-597 | prompt colour exactly for lines starting `>`, success exactly for `✓`, failure exactly for `✗`, plain for everything else |
| Console.AnnotationStyles | src/pages/Playground.tsx:388 | the running line is drawn as a prompt, the success line as success and the failure line as failure; the timing line, the placeholder and blank lines are plain |
| Console.OutputConsole.constructor | src/pages/Playground.tsx:198-201 | a new console holds the banner and the ready line |
| Console.OutputConsole.LineCount | src/pages/Playground.tsx:562 | the badge is the line count minus two, never negative |
| Console.OutputConsole.Copy | src/pages/Playground.tsx:470-472 | the copied text is the lines joined by newlines, and when no line holds a newline it splits back into exactly those lines |
| Console.OutputConsole.Clear | src/pages/Playground.tsx:466-468 | whatever was shown, the console holds `Console cleared` and a blank line; the badge shows 0 and the copy is `Console cleared\n` |
| Console.OutputConsole.Run | src/pages/Playground.tsx:386-453 | earlier lines are kept unchanged, and exactly the run report for the picker's language and the editor text is appended. The console hooks are restored on every path |
| Console.RunReadsActiveTab | src/pages/Playground.tsx:391-392 | in a synced workspace, running the picker's language on the editor text runs the active tab's language on its content |
| Courses.FilteredCourses | src/pages/Courses.tsx:151-157 | an order-preserving subsequence of the courses, holding exactly the courses that pass the search, language and level tests |
| Courses.FilteredCoursesMultiplicity | src/pages/Courses.tsx:151 | every shown course appears as often as in the catalogue; every hidden one does not appear |
| Courses.EmptyQueryMatches | src/pages/Courses.tsx:152-153 | the empty query matches every course |
| Courses.SearchIgnoresCase | src/pages/Courses.tsx:152-153 | two queries that differ only in ASCII letter case match the same courses |
| Courses.SearchFindsOwnText | src/pages/Courses.tsx:152-153 | any piece of a course's title or description, with its ASCII letter case changed, finds that course |
| Courses.ClearFiltersShowsAll | src/pages/Courses.tsx:323-327 | after "Clear Filters" every course is shown, in catalogue order |
| Practice.TopicsOf | src/pages/Practice.tsx:129 | `flatMap`: a topic is listed exactly when some problem has it |
| Practice.Dedup | src/pages/Practice.tsx:129 | `[...new Set(xs)]` has no duplicates and holds exactly the values of `xs` |
| Practice.FirstIndexPrefix | src/pages/Practice.tsx:129 | a first occurrence in a prefix is the first occurrence in the whole list |
| Practice.DedupFirstOccurrenceOrder | src/pages/Practice.tsx:129 | the de-duplicated values come in the order of their first occurrences |
| Practice.AllTopics | src/pages/Practice.tsx:129 | the topic options have no duplicates and are exactly the topics of some problem |
| Practice.FilteredProblems | src/pages/Practice.tsx:131-136 | an order-preserving subsequence of the problems, holding exactly those that pass the title search, difficulty and topic tests |
| Practice.SearchReadsTitleOnly | src/pages/Practice.tsx:132 | the search reads only the title: problems that agree on title, difficulty and topics are listed alike |
| Practice.ClearFiltersListsAll | src/pages/Practice.tsx:327-331 | after "Clear Filters" every problem is listed, in order |
| Practice.EveryTopicListsSomething | src/pages/Practice.tsx:129-136 | with the other filters cleared, every topic option lists at least one problem |
| Practice.ComputeStats | src/pages/Practice.tsx:138-144 | `total` is the number of problems, no count exceeds it, and `solved` is 0 exactly when no problem is solved |
| Practice.StatsConsistent | src/pages/Practice.tsx:138-144 | solved never exceeds total, and the per-difficulty counts never exceed solved. They add up to solved when every difficulty is Easy, Medium or Hard |
| Signup.Utf16Length | src/pages/Signup.tsx:34 | `password.length` counts UTF-16 units: between one and two per character, one each when none is above U+FFFF |
| Signup.Utf16LengthAppend | src/pages/Signup.tsx:34 | the length of a concatenation is the sum of the lengths |
| Signup.HasCharIn | src/pages/Signup.tsx:35-36 | `/[lo-hi]/.test(s)` holds exactly when some character lies in the range |
| Signup.PasswordRequirements | src/pages/Signup.tsx:33-37 | always three requirements, in the fixed order length, uppercase, digit. Each is met exactly when its own test holds: at least 8 units, an ASCII `A`-`Z`, an ASCII `0`-`9` |
| Signup.ShowsChecklist | src/pages/Signup.tsx:170 | `password && ...` shows the checklist exactly when the password's `length` is not zero |
| Signup.EmptyPasswordMeetsNone | src/pages/Signup.tsx:170 | the checklist is hidden for the empty password, which meets none of the three |
| Signup.LengthCountsCharacters | src/pages/Signup.tsx:34 | without characters above U+FFFF, the length requirement is "at least 8 characters" exactly |
| Signup.AstralCharactersCountTwice | src/pages/Signup.tsx:34 | four emoji are 8 units, so they satisfy the length requirement |
| Signup.AccentedCapitalDoesNotCount | src/pages/Signup.tsx:35 | capitals outside `A`-`Z` do not satisfy the uppercase requirement |
| Signup.RequirementsMonotone | src/pages/Signup.tsx:33-37 | typing more never un-meets a requirement |
| Text.Lower | src/pages/Courses.tsx:152 | `toLowerCase` keeps the length and lowers each character |
| Text.LowerIdempotent | src/pages/Courses.tsx:152 | lowering twice is lowering once |
| Text.StartsWith | src/pages/Playground.tsx:595-597 | `startsWith` holds exactly when the string is the prefix followed by something |
| Text.Includes | src/pages/Courses.tsx:152 | `includes`, scanning start positions from the left, holds exactly when the needle occurs at some offset |
| Text.IncludesEmpty | src/pages/Courses.tsx:152 | every string includes the empty string |
| Text.IncludesLower | src/pages/Courses.tsx:152-153 | a piece of a text still occurs once both are lowered |
| Text.NatToString | src/pages/Playground.tsx:359 | the decimal rendering of a count: non-empty, all digits, no leading zero |
| Text.ParseNatToString | src/pages/Playground.tsx:439 | the decimal rendering reads back as the number it renders |
| Text.NatToStringInjective | src/pages/Playground.tsx:359 | different counts render differently |
| Text.Join | src/pages/Playground.tsx:471 | `join` starts with the first line, and every character of the result comes from a line or the separator |
| Text.SplitJoin | src/pages/Playground.tsx:471 | newline-free lines joined with newlines split back into the same lines |
| Seqs.Filter | src/pages/Courses.tsx:151 | `filter` returns an order-preserving subsequence, no longer than its input, holding exactly the accepted elements |
| Seqs.FilterMultiplicity | src/pages/Practice.tsx:131 | `filter` keeps every accepted element as often as it occurs, and no rejected one |
| Seqs.FilterAll | src/pages/Courses.tsx:151 | a test that accepts everything keeps the whole list |
| Seqs.Count | src/pages/Practice.tsx:140-143 | `filter(p).length` never exceeds the length, equals it when every element passes, and is positive exactly when some element passes |
| Seqs.CountCons | src/pages/Practice.tsx:140-143 | a count peels off one element at a time |

## Left out

- **The editor library.** The CodeMirror editor is not modelled: its construction, extensions, `Compartment.reconfigure` and `dispatch` (Playground.tsx:233-322). The editor surface is just a text value, and the syntax profile is a datatype.
- **Running code.** `ts.transpileModule` and `new Function(runnable)()` are oracles that are parameters of the run. Their compiler options are not modelled.
- **The console hook.** The redirection of `console.log` / `console.error` is reduced to the `capturing` flag. Not modelled: forwarding to the original functions, and the `JSON.stringify` formatting of arguments. The evaluator oracle returns lines that are already formatted.
- **Time.** `performance.now()` and `Math.round` are not modelled; the elapsed time is a natural-number parameter.
- **Tab ids.** Ids from `Date.now()` are not modelled. A new tab's id is a parameter that must not be in use.
- **I/O and UI state.** Not modelled: the `localStorage` save, the clipboard write, toasts, the `isRunning` flag and its disabled Run button, and the output panel's expand toggle. `Copy` models only the text handed to the clipboard.
- **Render timing.** The `activeTabRef`/`tabsRef` mirrors and React's batching of state updates are not modelled. Each handler is one atomic step; `closeTab` reads the `tabs` of the render it was created in, which is the current state under that assumption.
- **Prototype keys.** `defaultCode[lang]` for an id such as `constructor` returns an inherited property. The model treats it as having no starter program, and the header picker never offers such an id.
- Text.Lower: lowers ASCII `A`-`Z` only. Unicode case mapping in `toLowerCase` is not modelled, so `SearchIgnoresCase` and `SearchFindsOwnText` speak about ASCII case. With full Unicode lowering `SearchFindsOwnText` would be false, not just narrower: the title `ΟΔΟΣ` lowers to `οδος` with a final `ς`, while its piece `Σ` lowers to `σ`, which does not occur. The property holds for the page because the course catalogue's titles and descriptions (Courses.tsx:25-138) are ASCII.
- **Catalogue data.** The `courses` and `problems` arrays and the rendering of the pages are not reproduced. The filters and stats are modelled over any list of records carrying the fields they read.
- **Other pages.** Home, Dashboard, About, Leaderboard, Pricing, Login and the navigation components are not part of this model. They hold static data and presentation only.
