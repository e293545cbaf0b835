# Skill filter of the portfolio page, modelled in Dafny

The portfolio page (`app.js`) renders a profile from a JSON document and lets the
visitor filter the project list by skill. A skill is identified by its *token*, the
output of `slug` on its label. The current selection of tokens lives in the `skill`
query parameter of the page URL as a comma-separated list. Clicking a skill chip
toggles its token. The clear link empties the selection. Browser navigation
(`popstate`) reads the selection again from the URL. After each of these, the skills
panel (chips marked selected or not) and the project list (projects having every
selected token, plus a status line) are rendered again. Experience and education
entries are shown latest first, by an end year read from their free-text `dates`.

The model has one module per concern:

- `Tokens` — `slug` as trim, ASCII lower-casing, collapsing runs of whitespace or `_`
  into `-`, and dropping everything outside `[a-z0-9-]`.
- `Query` — the value of the `skill` parameter: `getSelectedSkillsFromURL` as
  `ParseSkillParam`, `setSkillsToURL` as `SerializeSkillParam`. The value is an
  `Option<string>`, where `None` is a URL without the parameter.
- `Selection` — `toggleSkill`.
- `Dates` — `parseEndYear` (substring `present`, the anchored `(\d{4})\s*$` match,
  the global non-overlapping `(\d{4})` scan) and the stable latest-first sort.
- `Projects` — the project filter and the status line of `renderProjects`.
- `SkillsPanel` — the chips of `renderSkillsGrouped`: label, token and selected flag.
- `Controller` — the `main` state machine as the class `FilterController`. Its fields
  are the URL value, `selected` and what was last rendered. Its methods are the
  three handlers, each followed by the re-render.
- `Seqs`, `Wrappers` — a subsequence predicate and an `Option` type.

The model follows app.js as written; three behaviours a reader may not expect:

- Reading the URL does not remove duplicates: `go,rust,go` reads back as three tokens
  (`Query.ParseKeepsDuplicates`), and a selection like `["go","rust","go"]` is written
  as `go,rust,go`.
- Two toggles give back the selection for a token that is not selected
  (`Selection.ToggleTwiceAbsent`). For a selected token they remove every copy and
  put one back at the end (`Selection.ToggleTwicePresent`), which restores the list
  only when the token occurs once, as its last element (`Selection.ToggleTwiceRestores`,
  `Selection.ToggleTwiceKeepsLast`); `["a","b"]` becomes `["b","a"]`
  (`Selection.ToggleTwiceReorders`).
- A chip whose slug is empty (for example the label `++`) has the empty token, and
  the URL cannot carry it. With nothing else selected, the click selects `[""]`,
  which is written as an empty value that reads back as no selection
  (`Controller.EmptyTokenLostOnReload`). With other tokens selected, `["go"]` becomes
  `["go",""]`, written as `go,` and read back as `["go"]`
  (`Controller.EmptyTokenAlwaysLost`). So `OnToggle` keeps the URL restorable only
  for non-empty tokens. A label such as `_` or `-` is not such a chip: its slug is `-`.

## Model

| member | source | states |
|---|---|---|
| Tokens.Slug | app.js:9-14 | the token contains only characters of `[a-z0-9-]` |
| Tokens.SlugOf | app.js:9-10 | an absent value (`s || ""`) gives the empty token |
| Tokens.TrimStart | app.js:11 | drops exactly the leading whitespace: the result is a suffix, every dropped character is whitespace, and the result does not start with whitespace |
| Tokens.TrimEnd | app.js:11 | drops exactly the trailing whitespace, in the same three parts |
| Tokens.Trim | app.js:11 | the result neither starts nor ends with whitespace |
| Tokens.TrimIsMiddle | app.js:11 | the result is the slice of the input between its leading and its trailing whitespace, unchanged |
| Tokens.LowerChar | app.js:12 | the result is never in `A..Z`; a character outside `A..Z` is kept; `'A'+k` becomes `'a'+k` |
| Tokens.Lower | app.js:12 | same length, and each character is lower-cased on its own by `LowerChar` |
| Tokens.LowerOnlyLetters | app.js:12 | no upper-case letter is left, and every other character is unchanged |
| Tokens.LowerIdempotent | app.js:12 | lower-casing twice is lower-casing once |
| Tokens.CollapseSeparators | app.js:13 | no whitespace or `_` is left, and the string does not grow |
| Tokens.CollapseRun | app.js:13 | a string that is one non-empty run of whitespace or `_` becomes exactly one `-` |
| Tokens.CollapseRunThen | app.js:13 | a run of any length of whitespace or `_`, followed by text that does not start with one, becomes one `-` in front of the collapsed text (the `+` is greedy) |
| Tokens.CollapseDoubleRun | app.js:13 | `a__b` becomes `a-b` |
| Tokens.CollapseAppend | app.js:13 | when the first part does not end in a separator, the two parts collapse independently and are concatenated |
| Tokens.CollapseKeepsSeparatorFree | app.js:13 | a string without whitespace or `_` is unchanged |
| Tokens.CollapseKeepsOthers | app.js:13 | every character other than a separator or `-` keeps its count |
| Tokens.KeepTokenChars | app.js:14 | only `[a-z0-9-]` is left, and the string does not grow |
| Tokens.KeepTokenCharsKeepsOrder | app.js:14 | the result is a subsequence of the input and keeps every `[a-z0-9-]` character as often as it occurs |
| Tokens.SlugAll | app.js:22 | `map(slug)`: same length, and element i is the slug of element i |
| Tokens.SlugFixpoint | app.js:9-14 | `slug(s) == s` exactly when `s` is already in slug form (both directions) |
| Tokens.SlugIdempotent | app.js:9-14 | `slug(slug(s)) == slug(s)` |
| Tokens.SlugOfEmpty | app.js:9-10 | absent and empty labels both give `""` |
| Tokens.CollapseOneSeparator | app.js:13 | one separator between two separator-free parts becomes one hyphen |
| Tokens.TrimSpacesAround | app.js:11 | trim removes the whitespace around an unpadded core and keeps the core |
| Tokens.SlugExamples | app.js:9-14 | "Machine Learning", "machine_learning" and "  Machine-Learning " all give "machine-learning" |
| Query.Split | app.js:21 | `split(",")` gives at least one piece, and no piece contains a comma |
| Query.JoinSplit | app.js:21 | joining the pieces of a split with commas gives back the string |
| Query.Join | app.js:28 | `join(",")`: the empty list gives `""`, the first piece comes first, and a comma follows it when there are more |
| Query.SplitJoin | app.js:28 | splitting the join of comma-free pieces gives back the pieces |
| Query.DropEmpty | app.js:23 | `filter(Boolean)`: a subsequence of the input without empty strings, keeping every non-empty string as often as it occurs |
| Query.DropEmptyOfTokens | app.js:23 | a list without empty strings is left unchanged |
| Query.ParseSkillParam | app.js:16-24 | an absent or empty value gives no tokens; otherwise the non-empty slugs of the comma-separated pieces, in order, each as often as it occurs; every token is non-empty and in slug form |
| Query.ParseGoRust | app.js:16-24 | `Go, Rust` reads as `["go","rust"]` |
| Query.SerializeSkillParam | app.js:26-31 | the parameter is removed exactly when the selection is empty |
| Query.SkillParamRoundTrip | app.js:16-31 | writing a list of tokens and reading it back gives the same list, in order and with duplicates |
| Query.TrailingEmptyLost | app.js:16-31 | a selection of tokens followed by `""` is written and read back without the `""` |
| Query.DropTrailingEmpty | app.js:23 | `filter(Boolean)` drops an empty string at the end of a list of non-empty strings, and nothing else |
| Query.ParseSerializeParse | app.js:16-31 | writing what was read and reading again changes nothing |
| Query.EmptySelectionRoundTrip | app.js:16-31 | the empty selection removes the parameter and reads back as empty |
| Query.ParseKeepsDuplicates | app.js:19-23 | `go,rust,go` reads as `["go","rust","go"]` |
| Selection.RemoveAll | app.js:54 | `filter(x => x !== s)`: `s` is gone, every other token keeps its count, and the order is kept (a subsequence) |
| Selection.Toggle | app.js:52-55 | an unselected token is appended at the end; a selected one is removed everywhere (`RemoveAll`); so the token is in the result exactly when it was not before, and every other token is present exactly as before |
| Selection.RemoveAbsent | app.js:54 | removing a token that is not there changes nothing |
| Selection.TogglePresent | app.js:52-55 | toggling a selected token removes it and shortens the list |
| Selection.ToggleTwiceAbsent | app.js:52-55 | two toggles of a token that is not selected give back the selection |
| Selection.ToggleTwicePresent | app.js:52-55 | two toggles of a selected token remove every copy and append one |
| Selection.ToggleTwiceRestores | app.js:52-55 | two toggles give back the selection exactly when the token is absent, or occurs once as the last element |
| Selection.ToggleTwiceKeepsLast | app.js:52-55 | two toggles of "a" leave `["b","a"]` as it is |
| Selection.ToggleTwiceReorders | app.js:52-55 | two toggles of "a" turn `["a","b"]` into `["b","a"]` |
| Selection.ToggleKeepsNoDuplicates | app.js:52-55 | a selection without duplicates keeps none after a toggle |
| Selection.ToggleKeepsTokens | app.js:52-55 | toggling a token keeps every element a non-empty slug-form token |
| Dates.Includes | app.js:61 | `d.includes(pat)` holds exactly when `pat` occurs at some position |
| Dates.YearAt | app.js:63 | the number of four digits lies in 0..9999 |
| Dates.EndMatchUnique | app.js:62 | at most one position matches `(\d{4})\s*$` |
| Dates.EndMatch | app.js:62 | finds the anchored match when there is one, and reports none only when no position matches |
| Dates.LastMatchFrom | app.js:64-66 | the non-overlapping scan returns a group that lies a multiple of 4 digits into its run of digits (or past the scan start), with no further group after it, and returns nothing exactly when there is no group |
| Dates.LastMatchUnique | app.js:64-66 | at most one position meets that description, so it fixes the last match |
| Dates.ParseEndYear | app.js:59-67 | on the lower-cased input: `present` anywhere gives 9999; else the anchored group; else the last group; -1 exactly when there is no 4-digit group; always in -1..9999 |
| Dates.EndYearOfClosedRange | app.js:59-67 | "Jun 2017 - Aug 2019" gives 2019 |
| Dates.EndYearOfOngoingRange | app.js:59-67 | "2021 - Present" gives 9999 |
| Dates.EndYearOfUndated | app.js:59-67 | "unknown" gives -1 |
| Dates.EndYearPrefersAnchoredGroup | app.js:62-66 | on "12345" the anchored rule finds 2345 and the last-group rule 1234; the result is 2345 |
| Dates.EndYearFallsBackToLastGroup | app.js:64-66 | "2016-2018 remote" has no trailing group and gives 2018 |
| Dates.InsertByKey | app.js:71 | inserting adds exactly one element (multiset) and keeps a non-increasing list non-increasing |
| Dates.SortByKey | app.js:71 | the result is a permutation of the input and is non-increasing in the key |
| Dates.InsertStable | app.js:71 | the inserted element goes before every element with its own key |
| Dates.SortStable | app.js:71 | for every key, the elements with that key keep their input order |
| Dates.SortLatestFirst | app.js:69-72 | a non-array gives `[]`; otherwise a permutation of the input, non-increasing in the end year, and stable |
| Projects.ProjectTokens | app.js:112 | `(p.skills || []).map(slug)`: no skills give no tokens, and token i is the slug of skill i |
| Projects.Covers | app.js:113 | the empty selection is covered by any token list |
| Projects.CoversAsSets | app.js:113 | `every`/`includes` is inclusion of the set of selected tokens in the set of the project's tokens |
| Projects.Matches | app.js:112-113 | with nothing selected every project matches |
| Projects.MatchesByRawSkills | app.js:112-113 | a project matches exactly when each selected token is the slug of one of its raw skills |
| Projects.FilterMatching | app.js:111-114 | keeps a subsequence of the projects, and a project is kept exactly when it has every selected token |
| Projects.FilterKeepsCopies | app.js:111-114 | each matching project is kept as often as it occurs, and a non-matching one never |
| Projects.FilterProjects | app.js:110-115 | the empty selection lists all projects; otherwise the order-preserving subsequence of projects having every selected token; never longer than the project list |
| Projects.ListedCopies | app.js:110-115 | the listed projects are the matching ones with their multiplicities |
| Projects.FilterEmptySelection | app.js:110-115 | the filter with no tokens keeps everything, so the shortcut agrees with the filter |
| Projects.FilterNarrows | app.js:113 | selecting one more token gives a subsequence of the previous list (AND) |
| Projects.FilterUsesSetOfTokens | app.js:113 | two selections with the same tokens give the same list |
| Projects.Decimal | app.js:119-120 | the numeral of a count is digits only, never empty, and starts with `0` only for zero, which is exactly `0` |
| Projects.DecimalRoundTrip | app.js:119-120 | the numeral reads back as the count |
| Projects.StatusLine | app.js:117-120 | the line starts with `filter: skill=` exactly when something is selected, then holds the comma-join of the selection and ` :: `; with nothing selected it reads `filter: none :: `; it ends with `X/Y` |
| Projects.FilterExample | app.js:110-120 | two projects with tokens {a,b} and {a}: selecting a,b lists the first and reads `filter: skill=a,b :: 1/2`; selecting nothing lists both |
| SkillsPanel.Chips | app.js:82-92 | one chip per raw skill, in order, showing the raw text, carrying `slug(raw)`, flagged exactly when `slug(raw)` is selected |
| SkillsPanel.RenderGroups | app.js:78-92 | one view per group with its topic, and for chip j of group i the same three facts |
| SkillsPanel.ChipTokensAreNormal | app.js:83 | every chip token is in slug form |
| SkillsPanel.SameTokenSameFlag | app.js:83-89 | chips with the same token share their flag, across groups and labels |
| SkillsPanel.ToggleFlipsOnlyItsChips | app.js:83-89 | after toggling `t`, exactly the chips with token `t` change their flag |
| SkillsPanel.ClickFlipsChip | app.js:93-96 | a click on a chip toggles its own token, so that chip's flag flips |
| SkillsPanel.PanelUsesSetOfTokens | app.js:89 | the panel depends only on which tokens are selected |
| SkillsPanel.NothingSelectedNoFlag | app.js:89 | with nothing selected no chip is flagged |
| Controller.Ordered | app.js:286-287 | `data.experience || []` and `data.education || []` are shown as a permutation, latest first, and stable: entries with the same end year keep their order |
| Controller.FilterController.constructor | app.js:269-291 | loading reads the selection from the URL, orders the lists and renders; the URL reads back as the selection |
| Controller.FilterController.Render | app.js:290-291 | the panel, the project list and the status line show the current selection; URL and selection untouched |
| Controller.FilterController.WriteUrl | app.js:26-31 | the URL value becomes the serialised selection; nothing else changes |
| Controller.FilterController.OnToggle | app.js:271-276 | the selection is toggled, the URL holds its serialisation, the page shows it; a non-empty token keeps the URL restorable |
| Controller.FilterController.Clear | app.js:278-284 | the selection is empty, the parameter is removed, the page shows it |
| Controller.FilterController.PopState | app.js:293-297 | the selection is the reading of the new URL whatever it was before; the URL is not rewritten; the page shows it |
| Controller.ToggleStaysRestorable | app.js:271-276 | a selection read from the URL and toggled by a non-empty token reads back intact after the rewrite |
| Controller.EmptyTokenLostOnReload | app.js:16-31 | selecting the empty token writes an empty value that reads back as no selection |
| Controller.EmptyTokenAlwaysLost | app.js:16-31 | for any selection of tokens, clicking the empty token appends it, and writing and reading back gives the selection without it |
| Controller.DoubleClick | app.js:271-276 | after two `OnToggle` calls with an unselected token the selection is as before, the URL is rewritten to its serialisation, and the page shows it |

## Left out

- DOM construction (`el`, `text`, `innerHTML`, `appendChild`, event listeners) and
  all markup of the renderers: the model keeps only what they show (chip label, token
  and flag; the filtered list; the status text; the order of the lists).
- `renderPubs` and the link and bullet fields of every renderer: presentation only.
- `pickAccent`: it draws a random colour and sets a CSS property.
- `fetch`, `res.json()` and the profile and link fields set in `main`: I/O and plain
  `|| ""` defaults. The loaded document is the constructor's `Document` parameter.
- `window.location`, `URL`/`URLSearchParams` percent-encoding (WHATWG URL Standard)
  and `history.replaceState`: the URL is the single optional `skill` value, and the
  navigation target of `popstate` is the `PopState` parameter. A URL with several
  `skill` parameters is not modelled (`get` returns the first).
- The chip's `href` (`?skill=` and `encodeURIComponent` of its token): the click
  handler cancels the navigation, so only the token matters.
- Tokens.Lower: models `toLowerCase` over the ASCII letters only; other characters
  are kept, as are non-ASCII letters that JavaScript would lower-case.
- Tokens.TrimStart: the whitespace class is the ECMAScript WhiteSpace and
  LineTerminator code points as a fixed list; no other Unicode property is modelled.
- Tokens.SlugOf: `String(s || "")` on a value that is neither a string nor absent
  (a number, an object) is not modelled.
- Dates.ParseEndYear: `String(dates || "")` on a non-string `dates` is not modelled.
- Dates.SortLatestFirst: `slice()` leaves the input unmodified; with immutable
  sequences that holds for every function, so it is not stated separately.
- The skill groups' `skills` default: `g.skills` has no `|| []` in the source, so a
  group without skills is not handled there and not modelled here.
