# Roadmapper, modelled in Dafny

Roadmapper is a single-page project and roadmap tracker. A user keeps projects, and each project holds roadmap items. An item is an idea, typed Add, Edit or Remove, with a priority, a pin flag, a done flag, an archive flag and an optional due date. This project models the part of the app that has rules:

- **The store** (`App.tsx`). The four pieces of state are the projects, the roadmap items, the selected project and the active sidebar view. The handlers replace the arrays wholesale. Module `App`, class `App.Store`: one method per handler, each stating its whole new state. The ghost invariant `Valid()` says that project ids and item ids are unique, and every handler preserves it.
- **The derived lists.**
  - From the store (module `App`): the selected project, the project's items, the recent-ideas feed (ten newest items that are not archived) and each project's latest idea.
  - The per-project view's filter and its three-level comparator (module `ProjectView`).
  - The dashboard search (module `Dashboard`).
- **The sort.** JavaScript's `Array.prototype.sort` is stable, so sorting is modelled by a stable insertion sort over the source's integer-valued comparators (module `Sorting`). It is proved to be:
  - sorted;
  - a permutation of its input;
  - stable: items that compare equal keep their input order.
  - It is also proved to be the only sequence with these three properties.
- **The inline-markup scanner.** The source has three copies of `renderMarkdown` that share the regular expression and the `matchAll` loop and differ in how they prepare the text. Here they are one model:
  - The regular expression is modelled at one position by `Pattern.MatchAt`. It tries bold, then italic, then link.
  - The `matchAll` loop is the imperative `Markup.ScanParts`. It is proved equal to a functional specification (`Markup.Parts`), whose pieces join back to the input.
  - Three wrappers give the copies' preprocessing:
    - the dashboard cuts and flattens the text (`Dashboard.SummaryParts`);
    - the card cuts it and splits it into lines (`ItemCard.CardMarkup`);
    - the feed splits it into lines (`RecentIdeas.FeedMarkup`).
- **The two forms.** `ItemForm.RoadmapItemForm` and `ProjectForm.ProjectFormState` are classes with their fields, setters and a guarded submit. A submit sends a payload exactly when the title has a character that is not white space.
- **The records and enums** of `types.ts` (module `Types`).

Services of the browser that the code calls are passed in as a `Types.Host` value, as are the clock and ids:
- `toLowerCase`, `localeCompare`, and `new Date(s).getTime()` on due dates are held by `Host`.
- Today's date, new ids and creation times are method parameters.

Creation times are integers: milliseconds since the epoch, which is what `getTime()` yields from the stored ISO strings. Due dates stay strings, because the overdue test compares them as strings. Of the logic modelled, only the due-date sort parses them, through `Host.dateValue`; the badges also parse them to display them.

Behaviour of the code worth noting:
- `handleUpdateProject` edits the *selected* project; no id is passed in.
- The feed is ordered newest first with ties in store order, so it is not strictly descending.
- The item card cuts its description and splits it into lines; it does not turn line feeds into spaces. Only the dashboard does that.
- The store's handlers do not check that titles are non-empty; only the forms do.
- A link `[t](url)` is rendered with its whole markup as its text and t as its target. The loop destructures the match as `[fullMatch, , bold, , italic, linkText, linkUrl]`, so `linkText` is group 5 (the whole link) and `linkUrl` is group 6 (the bracket text), and the URL group is never read. All three copies do this, and `Markup.Emit` models it as written.
- On the seed data the due-date order is decided by the done flag first: item-2 is done, so it comes after item-1. The due-date order is proved only among items with the same done and pinned flags.

## Model

| member | source | states |
|---|---|---|
| Types.HasDueDate | types.ts:33 | the truthiness of `dueDate`: absent, null and "" all count as no due date (definition; used by ItemCard.DueBadge and ProjectView.DueDateOrder) |
| Types.Rank | components/ProjectView.tsx:64-69 | every priority ranks between 1 and 4 |
| Types.RankFollowsDeclarationOrder | types.ts:7-12 | Low < Medium < High < Urgent in rank, and distinct priorities have distinct ranks |
| Strings.TrimStart | components/RoadmapItemForm.tsx:24 | the result is a suffix of s; what was dropped is all white space; the result does not start with white space |
| Strings.TrimEnd | components/RoadmapItemForm.tsx:24 | the result is a prefix of s; what was dropped is all white space; the result does not end with white space |
| Strings.Trim | components/RoadmapItemForm.tsx:24 | `trim()`: TrimEnd of TrimStart (definition; its contract is Strings.TrimEmptyIffBlank) |
| Strings.TrimEmptyIffBlank | components/RoadmapItemForm.tsx:24 | `trim()` gives "" if and only if every character is white space or a line terminator |
| Strings.Contains | components/ProjectView.tsx:73-74 | `includes` holds if and only if the needle occurs at some position |
| Strings.ContainsEmpty | components/ProjectView.tsx:73-74 | every string includes the empty string |
| Strings.MatchesTerm | components/ProjectDashboard.tsx:67-70 | lower-cased title or description includes the lower-cased term (definition; its contract is Dashboard.FilteredProjectsSpec and ProjectView.ListedItems) |
| Strings.EmptyTermMatches | components/ProjectDashboard.tsx:67-70 | when lower-casing keeps "" empty, the empty search term matches any title and description |
| Strings.Less | components/RoadmapItemCard.tsx:65 | string `<`, as lexicographic order of code points (definition; a strict total order by Strings.LessIrreflexive, LessTransitive and LessTotal) |
| Strings.LessIrreflexive | components/RoadmapItemCard.tsx:65 | string `<` is irreflexive |
| Strings.LessTransitive | components/RoadmapItemCard.tsx:65 | string `<` is transitive |
| Strings.LessTotal | components/RoadmapItemCard.tsx:65 | of two different strings, one is `<` the other |
| Strings.Split | components/RoadmapItemCard.tsx:29 | `split('\n')` gives at least one piece, and no piece contains the separator |
| Strings.Join | components/RoadmapItemCard.tsx:29 | joining with the separator, the inverse of `split` (definition; proved so by Strings.JoinSplit and Strings.SplitJoin) |
| Strings.JoinSplit | components/RoadmapItemCard.tsx:29 | joining the pieces of a split with the separator gives the text back |
| Strings.SplitJoin | components/RecentIdeasView.tsx:27 | splitting the join of separator-free pieces gives back those pieces |
| Strings.SplitNoSeparator | components/RecentIdeasView.tsx:27 | a text without the separator splits into itself alone |
| Strings.SplitPrefix | components/RecentIdeasView.tsx:27 | a separator-free first line is split off as the first piece |
| Strings.ReplaceAll | components/ProjectDashboard.tsx:28 | `replace(/\n/g, ' ')` keeps the length and changes exactly the line feeds, into spaces |
| Lists.Filter | App.tsx:107 | a filter is never longer than its input |
| Lists.FilterMembers | App.tsx:62-63 | a filter's output holds exactly the input elements that pass the test |
| Lists.FilterCount | App.tsx:107 | each passing element occurs as often as in the input; failing elements do not occur |
| Lists.FilterAppend | App.tsx:62-63 | the filter of a concatenation is the concatenation of the filters, so relative order is kept |
| Lists.FilterAll | components/ProjectDashboard.tsx:67-70 | when every element passes, the filter keeps the whole input |
| Lists.FilterNone | App.tsx:102 | when no element passes, the filter is empty |
| Lists.UniqueAppend | App.tsx:52 | appending an element whose key is new keeps keys unique |
| Lists.UniqueCons | App.tsx:62-63 | putting an element with a new key in front of a list with unique keys keeps them unique: the step by which a filter keeps ids unique (`Lists.UniqueFilter`) |
| Lists.UniqueFilter | App.tsx:62-63 | a filter keeps keys unique |
| Lists.Find | App.tsx:97 | `find` gives nothing if and only if no element passes; otherwise it gives the first element that passes |
| Lists.Take | App.tsx:109 | `slice(0, n)` is the first min(n, length) elements: a prefix of the input |
| Sorting.Insert | App.tsx:108 | inserting adds one element |
| Sorting.InsertionSort | components/ProjectView.tsx:87 | the sort keeps the length |
| Sorting.InsertPermutes | App.tsx:108 | inserting adds exactly that element to the multiset |
| Sorting.SortPermutes | components/ProjectView.tsx:87-111 | the sort's output is a permutation of its input |
| Sorting.SortedFilter | App.tsx:106-108 | sorting a filter holds exactly the passing elements, with their input multiplicities |
| Sorting.InsertSorted | App.tsx:116 | for a consistent comparator, inserting into a sorted list keeps it sorted |
| Sorting.SortSorted | components/ProjectView.tsx:87-111 | for a consistent comparator (antisymmetric sign, transitive), the output is sorted |
| Sorting.InsertEquivalents | App.tsx:108 | inserting into a sorted list puts the element behind every element that compares equal to it |
| Sorting.SortStable | components/ProjectView.tsx:87-111 | for every key, the elements comparing equal to it are in the same order in output and input |
| Sorting.SortedStableUnique | components/ProjectView.tsx:87-111 | two sorted permutations of each other with equal classes of equivalent elements are equal |
| Sorting.SortIsUnique | components/ProjectView.tsx:87-111 | any sorted, stable permutation of the input is the insertion sort's output, so the model fixes what a stable sort returns |
| Sorting.SortHead | App.tsx:114-119 | the head of the sorted list precedes every input element and is the first of its equivalence class in input order |
| Sorting.HeadFirst | App.tsx:119 | the head of any sorted permutation precedes every element |
| Pattern.Source | components/ProjectDashboard.tsx:30 | a match's full text is at least two characters long |
| Pattern.WidthIsLength | components/ProjectDashboard.tsx:52 | `fullMatch.length` is the length of the capture's source text |
| Pattern.LineEnd | components/ProjectDashboard.tsx:30 | the stretch that `.` can cover stops at the first line terminator |
| Pattern.FirstFrom | components/ProjectDashboard.tsx:30 | the first position in a range where a test holds, or none |
| Pattern.LazyClose | components/ProjectDashboard.tsx:30 | the lazy `(.*?)` closes at the earliest delimiter before the line ends, or there is none |
| Pattern.UrlRun | components/RoadmapItemCard.tsx:27 | `[^\s)]+` runs over exactly the characters that are neither white space nor ')' |
| Pattern.UrlAt | components/RoadmapItemCard.tsx:27 | a URL found is `http://` or `https://` and a non-empty run, followed by ')' |
| Pattern.UrlAtComplete | components/RoadmapItemCard.tsx:27 | every such URL followed by ')' is found |
| Pattern.LinkTail | components/RoadmapItemCard.tsx:27 | a link tail found is `](url)` with a valid URL |
| Pattern.LinkTailComplete | components/RoadmapItemCard.tsx:27 | every `](url)` with a valid URL is found |
| Pattern.LinkFrom | components/RecentIdeasView.tsx:25 | the link text ends at the first valid link tail within the line, or there is none |
| Pattern.BoldAt | components/ProjectDashboard.tsx:30 | bold matches `**x**` with x the shortest line-bound text; without a match, there is no `**` or no close on the line |
| Pattern.BoldAtComplete | components/ProjectDashboard.tsx:30 | every shortest `**x**` on one line is matched, with exactly that x |
| Pattern.ItalicAt | components/RecentIdeasView.tsx:25 | italic matches `*x*` with x free of '*' and line breaks; otherwise there is no opener or no close |
| Pattern.ItalicAtComplete | components/RecentIdeasView.tsx:25 | every such `*x*` is matched, with exactly that x |
| Pattern.LinkAt | components/RecentIdeasView.tsx:25 | link matches `[t](url)` with the shortest t on the line and a valid URL; otherwise there is no '[' or no tail on the line |
| Pattern.MatchAt | components/ProjectDashboard.tsx:30 | the alternation at one position (bold, else italic, else link) matches text that occurs there |
| Pattern.NoMarkAt | components/ProjectDashboard.tsx:30 | nothing matches at a character other than '*' and '[' |
| Markup.MatcherSound | components/ProjectDashboard.tsx:30 | every match found occurs in the text at its position and fits inside it |
| Markup.NextMatch | components/ProjectDashboard.tsx:35 | the next match is at or after the scan position |
| Markup.NextMatchLeftmost | components/ProjectDashboard.tsx:35 | no match starts between the scan position and the next match; there is no next match if and only if nothing matches from there on |
| Markup.NextMatchIs | components/ProjectDashboard.tsx:35 | the first matching position from the scan position is the next match |
| Markup.NextMatchNone | components/ProjectDashboard.tsx:35 | when nothing matches from the scan position on, there is no next match |
| Markup.ScanStep | components/ProjectDashboard.tsx:35-53 | one step: the gap before the next match, then the match, then the scan from past the match |
| Markup.PiecesRoundTrip | components/ProjectDashboard.tsx:35-57 | the gaps and matches the scan cuts the text into join back to the text from the scan position |
| Markup.UnparseStep | components/ProjectDashboard.tsx:52 | one scan step covers the gap, the match's full text and the rest, in order |
| Markup.Emit | components/ProjectDashboard.tsx:37-51 | at most one part, never plain text: bold and italic show their capture and vanish when it is empty; a link shows its whole `[t](url)` markup, points at t (the URL is not its target), and vanishes exactly when t is empty |
| Markup.Parts | components/ProjectDashboard.tsx:35-57 | the parts the loop builds for one string (definition; its contract is Markup.ScanParts, Markup.RenderParts and the lemmas below) |
| Markup.VisibleAppend | components/RoadmapItemCard.tsx:32 | the parts of two piece lists are the two lists of parts, concatenated |
| Markup.VisibleBefore | components/ProjectDashboard.tsx:39-41 | the gap before a match is one plain part when it is not empty, and nothing otherwise |
| Markup.VisibleStep | components/ProjectDashboard.tsx:39-52 | the parts are the non-empty gap, the match's part, then the parts after the match |
| Markup.Advance | components/RoadmapItemCard.tsx:39-52 | one loop round keeps "parts so far plus parts still to come" equal to all parts |
| Markup.EndOfScan | components/ProjectDashboard.tsx:55-57 | with no further match, pushing the rest as one plain part when it is not empty completes all parts |
| Markup.ScanParts | components/RoadmapItemCard.tsx:32-57 | the `matchAll` loop pushes exactly the specification's parts: gaps verbatim and in order, the matches' parts, the tail |
| Markup.RenderParts | components/RecentIdeasView.tsx:30-57 | the loop with the source's pattern gives `Parts(line)` |
| Markup.MatcherFindsNothing | components/ProjectDashboard.tsx:30 | text without '*' and '[' has no match |
| Markup.SingleMatch | components/ProjectDashboard.tsx:39-57 | a text with one match renders as the gap, the match's part, and the tail |
| Markup.LeadingMatch | components/ProjectDashboard.tsx:39-52 | a text whose first match is at p renders the gap before p, then the match, then the rest |
| Markup.QuietTail | components/ProjectDashboard.tsx:55-57 | a stretch with no match renders as one plain part |
| Markup.ScanRest | components/ProjectDashboard.tsx:55-57 | with no further match, the scan leaves the rest as one gap |
| Markup.PlainRest | components/RoadmapItemCard.tsx:55-57 | a stretch without '*' and '[' is left as one gap |
| Markup.PlainTextPassesThrough | components/RecentIdeasView.tsx:53-55 | text without '*' and '[' renders as itself, as one plain part, or as nothing when empty |
| Markup.EmptyItalicVanishes | components/ProjectDashboard.tsx:43-52 | "**" is an empty italic match and renders as nothing |
| Markup.EmptyBoldVanishes | components/ProjectDashboard.tsx:43-52 | "****" is an empty bold match and renders as nothing |
| Markup.OpensLink | components/ProjectDashboard.tsx:30 | at '[' neither bold nor italic can start, but a link can |
| Markup.EmptyLinkVanishes | components/ProjectDashboard.tsx:45-51 | "[](http://x)" is a link match with empty text and renders as nothing |
| Markup.WholeMatch | components/ProjectDashboard.tsx:43-52 | a text that is one match renders as that match's part alone |
| Markup.EmptyLinkMatch | components/ProjectDashboard.tsx:30 | the pattern matches "[](http://x)" at 0 as a link with empty text and URL http://x |
| Markup.LinkShowsMarkup | components/ProjectDashboard.tsx:37-51 | "[a](http://x)" renders as one link showing "[a](http://x)" and pointing at "a" |
| Markup.LinkAMatch | components/ProjectDashboard.tsx:30 | the pattern matches "[a](http://x)" at 0 as a link with text "a" and URL http://x |
| Markup.BoldInText | components/ProjectDashboard.tsx:39-57 | "a **b** c" renders as "a ", bold "b", " c" |
| Markup.BoldBetween | components/ProjectDashboard.tsx:39-57 | a nine-character text whose only match is bold "b" at 2 renders as gap, bold, gap |
| Markup.BoldB | components/ProjectDashboard.tsx:30 | the pattern matches "**b**" at position 2 of "a **b** c" |
| Markup.Truncate | components/RoadmapItemCard.tsx:110 | text of at most 150 characters is kept; longer text becomes its first 150 characters and "..." (153 in all) |
| Markup.RenderLines | components/RoadmapItemCard.tsx:29-60 | one block per line of `split('\n')`; a line is a spacer if and only if it is blank, and every other line is scanned |
| Markup.RenderedLinesCoverText | components/RecentIdeasView.tsx:27-58 | the rendered lines join back to the text, and none contains a line feed |
| ProjectView.Shown | components/ProjectView.tsx:72-85 | the filter callback: the search, then Archived keeps only archived items, any other selector drops them and a type selector keeps its type (definition; its contract is ProjectView.ListedItems, ArchivedSelector and OtherSelectors) |
| ProjectView.DueCompare | components/ProjectView.tsx:100-106 | the due-date comparator: dated items first, then by parsed date (definition; its contract is ProjectView.DueDateOrder) |
| ProjectView.KeyCompare | components/ProjectView.tsx:95-110 | the comparator the sort menu chooses (definition; its contract is ProjectView.KeyFlips, KeyTransitive and the four order lemmas) |
| ProjectView.Compare | components/ProjectView.tsx:87-111 | not done before done, then pinned before unpinned, then the chosen key (definition; its contract is ProjectView.OrderConsistent and DoneLastPinnedFirst) |
| ProjectView.FilteredAndSortedItems | components/ProjectView.tsx:63-112 | the filtered list sorted by the comparator (definition; its contract is ProjectView.ListedItems, ListSorted and TiesKeepOrder) |
| ProjectView.KeyFlips | components/ProjectView.tsx:95-110 | for each sort key, swapping the items flips the comparator's sign |
| ProjectView.KeyTransitive | components/ProjectView.tsx:95-110 | each sort key's comparison is transitive |
| ProjectView.CompareTransitive | components/ProjectView.tsx:87-111 | the three-level comparator (done, pinned, key) is transitive |
| ProjectView.OrderConsistent | components/ProjectView.tsx:87-111 | the three-level comparator is a consistent order, so the sort's theorems apply |
| ProjectView.ListedItems | components/ProjectView.tsx:71-86 | an item is listed if and only if it matches the search and passes the selector, as often as it occurs |
| ProjectView.ArchivedSelector | components/ProjectView.tsx:77-79 | the Archived selector lists only archived items, whatever their type |
| ProjectView.OtherSelectors | components/ProjectView.tsx:81-85 | any other selector lists no archived item, and a type selector only items of that type |
| ProjectView.EmptySearchListsAll | components/ProjectView.tsx:72-85 | with an empty search and the All selector, exactly the items that are not archived are listed |
| ProjectView.ListSorted | components/ProjectView.tsx:87-111 | the list is sorted by the three-level comparator |
| ProjectView.DoneLastPinnedFirst | components/ProjectView.tsx:88-93 | every item not done precedes every done item; with equal done flags, pinned items precede unpinned ones |
| ProjectView.KeyOrdersGroups | components/ProjectView.tsx:95-110 | with equal done and pinned flags, the chosen key orders the list |
| ProjectView.PriorityOrder | components/ProjectView.tsx:96-97 | by priority: rank never rises along the list, within each done-and-pinned group |
| ProjectView.NameOrder | components/ProjectView.tsx:98-99 | by name: titles ascend by `localeCompare`, within each group |
| ProjectView.DateOrder | components/ProjectView.tsx:107-109 | by date (the default): createdAt never rises (newest first), within each group |
| ProjectView.DueDateOrder | components/ProjectView.tsx:100-106 | by due date: dated items precede undated ones, and dates ascend, within each group |
| ProjectView.TiesKeepOrder | components/ProjectView.tsx:87-111 | items that compare equal keep their order in the input |
| ProjectView.PinBeatsPriority | components/ProjectView.tsx:88-97 | by priority, a pinned Medium item precedes an unpinned High one, whatever their input order |
| ProjectView.MergeEdit | components/ProjectView.tsx:45 | an edit keeps id, createdAt, projectId, done and archived, and takes every form field |
| ProjectView.NewDraft | components/ProjectView.tsx:47 | a new item gets the current project's id and every form field |
| ProjectView.ProjectViewState.constructor | components/ProjectView.tsx:26-31 | the view starts on All, an empty search, by date, with both dialogs closed and nothing being edited |
| ProjectView.ProjectViewState.OpenItemModal | components/ProjectView.tsx:33-36 | opening the item dialog records the item edited (or none) and leaves the rest |
| ProjectView.ProjectViewState.CloseItemModal | components/ProjectView.tsx:38-41 | closing clears the edited item and leaves the rest |
| ProjectView.ProjectViewState.SetFilter | components/ProjectView.tsx:189 | a selector button sets the filter only |
| ProjectView.ProjectViewState.SetSearchTerm | components/ProjectView.tsx:165 | typing sets the search term only |
| ProjectView.ProjectViewState.SetSortBy | components/ProjectView.tsx:176 | the sort menu sets the order only |
| ProjectView.ProjectViewState.OpenProjectModal | components/ProjectView.tsx:140 | the edit-project button opens the project dialog and changes nothing else |
| ProjectView.ProjectViewState.CloseProjectModal | components/ProjectView.tsx:235-238 | closing or cancelling the project dialog closes it and changes nothing else |
| ProjectView.ProjectViewState.SubmitItemForm | components/ProjectView.tsx:43-50 | an edit becomes an update of the merged item, otherwise an add of a draft for this project; the dialog closes |
| ProjectView.ProjectViewState.SubmitProjectForm | components/ProjectView.tsx:52-55 | the form data goes to the update handler and the project dialog closes |
| ProjectView.ProjectViewState.ConfirmDelete | components/ProjectView.tsx:57-61 | the project's id is sent for deletion if and only if the user confirmed |
| App.NewProject | App.tsx:46-51 | a new project has the given id and time and the form's title, description and logo |
| App.NewItem | App.tsx:69-76 | a new item has the given id and time, is neither done nor archived, and copies the draft's fields |
| App.UpdateSelected | App.tsx:57-59 | the update handler's map over the projects (definition; its contract is App.UpdateSelectedSpec) |
| App.ReplaceItem | App.tsx:80-82 | the item update's map (definition; its contract is App.ReplaceItemSpec) |
| App.SetArchived | App.tsx:84-90 | the archive and unarchive maps (definition; its contract is App.SetArchivedSpec) |
| App.ToggleDone | App.tsx:92-94 | the done toggle's map (definition; its contract is App.ToggleDoneSpec) |
| App.UpdateSelectedSpec | App.tsx:57-59 | only the selected project takes the new title, description and logo; ids, times and every other project are kept; no selection means no change |
| App.ReplaceItemSpec | App.tsx:80-82 | the item with that id is replaced whole, every other item is kept, and an absent id changes nothing |
| App.SetArchivedSpec | App.tsx:84-90 | only the archive flag of the item with that id is set, every other item and field is kept, and an absent id changes nothing; setting twice is setting once; when every item with that id had the opposite flag, the opposite call restores the list |
| App.ToggleDoneSpec | App.tsx:92-94 | only the done flag of the item with that id flips; an absent id changes nothing; toggling twice restores the list |
| App.DeleteSpec | App.tsx:61-63 | exactly the projects with another id, and the items of other projects, survive |
| App.SelectedProject | App.tsx:96-98 | the selected project is the first project with the selected id, or none when there is none or nothing is selected |
| App.ProjectRoadmapItems | App.tsx:100-103 | the selected project's items (definition; its contract is App.ProjectRoadmapItemsSpec) |
| App.ProjectRoadmapItemsSpec | App.tsx:100-103 | the project's items are exactly the items with the selected project id, archived ones included; no selection gives none |
| App.NewestFirst | App.tsx:108 | the comparator `b.createdAt - a.createdAt` (definition; its contract is App.NewestFirstConsistent) |
| App.NewestFirstConsistent | App.tsx:108 | `b.createdAt - a.createdAt` is a consistent comparator |
| App.RecentIdeas | App.tsx:105-110 | filter, sort newest first, take ten (definition; its contract is App.RecentIdeasSpec and RecentIdeasStable) |
| App.RecentIdeasSpec | App.tsx:105-110 | the feed has at most ten items, none archived, all from the store, newest first, and is a prefix of all items not archived, newest first |
| App.RecentIdeasStable | App.tsx:106-108 | items created at the same time keep their store order |
| App.SeedFeed | App.tsx:15-20 | on the seed data the feed is item-3, item-2, item-1 |
| App.SeedActive | App.tsx:15-20 | on the seed data, items 1 to 3 are not archived (item-4 is) |
| App.SeedOrder | App.tsx:15-20 | newest first, the seed items 1 to 3 come in the order 3, 2, 1 |
| App.LatestIdea | App.tsx:114-119 | the head of the project's items that are not archived, newest first, or none (definition; its contract is App.LatestIdeaSpec, LatestIsNewest and LatestIsFirstOfNewest) |
| App.LatestIdeaSpec | App.tsx:112-122 | the latest idea is none if and only if the project has no item that is not archived; otherwise it is such an item and none is newer |
| App.LatestIsNewest | App.tsx:114-119 | no item of the project that is not archived is newer than its latest idea |
| App.LatestIsFirstOfNewest | App.tsx:114-119 | among equally new items, the latest idea is the first in store order |
| App.NewestHead | App.tsx:116-119 | the head of a list sorted newest first is the newest, and the first of the newest in input order |
| App.ProjectsWithLatestIdea | App.tsx:112-122 | every project is kept, in order and unchanged, and is paired with its latest idea |
| App.Content | App.tsx:124-157 | a selected project that exists is shown with its items; otherwise the active view decides between the dashboard and the feed |
| App.Store.Render | App.tsx:124-157 | what the main area shows for the current state (definition; its contract is App.Content) |
| App.Store.constructor | App.tsx:25-28 | the store starts with the seed data, nothing selected, on the project dashboard, with unique ids |
| App.Store.SelectView | App.tsx:37-40 | choosing a view clears the selection and changes nothing else |
| App.Store.SelectProject | App.tsx:42-44 | selecting sets only the selection |
| App.Store.AddProject | App.tsx:46-55 | appends exactly the new project, selects it, shows the dashboard view, and keeps ids unique when the id is fresh |
| App.Store.UpdateProject | App.tsx:57-59 | the projects become the edit of the selected project; nothing else changes; ids stay unique |
| App.Store.DeleteProject | App.tsx:61-67 | removes the project and its items in one step, clears the selection exactly when it named the project, keeps ids unique |
| App.Store.AddRoadmapItem | App.tsx:69-78 | appends exactly the new item; nothing else changes; ids stay unique when the id is fresh |
| App.Store.UpdateRoadmapItem | App.tsx:80-82 | the items become the replace-by-id; nothing else changes |
| App.Store.ArchiveRoadmapItem | App.tsx:84-86 | the items become the archive-by-id; nothing else changes |
| App.Store.UnarchiveRoadmapItem | App.tsx:88-90 | the items become the unarchive-by-id; nothing else changes |
| App.Store.ToggleItemDone | App.tsx:92-94 | the items become the done-toggle-by-id; nothing else changes |
| Dashboard.CardMatches | components/ProjectDashboard.tsx:67-70 | the search callback on a card (definition; its contract is Dashboard.FilteredProjectsSpec) |
| Dashboard.FilteredProjects | components/ProjectDashboard.tsx:67-70 | the cards that match (definition; its contract is Dashboard.FilteredProjectsSpec, FilteredProjectsKeepOrder and EmptySearchShowsAll) |
| Dashboard.FilteredProjectsSpec | components/ProjectDashboard.tsx:67-70 | a card is shown if and only if its lower-cased title or description contains the lower-cased term, as often as it occurs |
| Dashboard.FilteredProjectsKeepOrder | components/ProjectDashboard.tsx:67-70 | the search keeps the cards' order |
| Dashboard.EmptySearchShowsAll | components/ProjectDashboard.tsx:64-70 | the empty search term shows every card |
| Dashboard.Flatten | components/ProjectDashboard.tsx:28 | the scanned text has no line feed; it is 153 characters for an input over 150 (ending "...") and the input's length otherwise; line feeds among the first 150 become spaces |
| Dashboard.FlattenKeepsShortLines | components/ProjectDashboard.tsx:28 | a short text without line feeds is scanned as it is |
| Dashboard.SummaryParts | components/ProjectDashboard.tsx:26-60 | the parts of the flattened text (definition; its contract is Dashboard.RenderSummary, SummaryCoversText and PlainSummary) |
| Dashboard.RenderSummary | components/ProjectDashboard.tsx:26-60 | the dashboard's `renderMarkdown` gives the parts of the flattened text |
| Dashboard.SummaryCoversText | components/ProjectDashboard.tsx:35-57 | the summary's pieces join back to the whole flattened text |
| Dashboard.PlainSummary | components/ProjectDashboard.tsx:26-60 | a short one-line text without markup is shown as one plain part |
| Dashboard.CardFooter | components/ProjectDashboard.tsx:128-151 | with no latest idea the card says "No ideas yet"; otherwise it shows the idea's pin, type, priority and title, and a summary if and only if the description is not empty |
| Dashboard.DashboardState.constructor | components/ProjectDashboard.tsx:64-65 | the search starts empty and the dialog closed |
| Dashboard.DashboardState.SetSearchTerm | components/ProjectDashboard.tsx:92 | typing sets the term only |
| Dashboard.DashboardState.OpenModal | components/ProjectDashboard.tsx:97 | the add button opens the dialog |
| Dashboard.DashboardState.CloseModal | components/ProjectDashboard.tsx:165-166 | closing or cancelling the dialog closes it and keeps the search term |
| Dashboard.DashboardState.SubmitProject | components/ProjectDashboard.tsx:72-75 | the form data goes to the add handler and the dialog closes |
| ItemCard.IsOverdue | components/RoadmapItemCard.tsx:64-65 | dated, not done, and the date string below today's (definition; its contract is ItemCard.OverdueNeedsDate, OverdueStays and EarlierDueFirst) |
| ItemCard.OverdueNeedsDate | components/RoadmapItemCard.tsx:65 | an overdue item has a due date other than today and is not done; a done or undated item is never overdue |
| ItemCard.OverdueStays | components/RoadmapItemCard.tsx:64-65 | an item overdue today is overdue on every later day |
| ItemCard.EarlierDueFirst | components/RoadmapItemCard.tsx:65 | an undone item due before an overdue item is overdue too |
| ItemCard.Actions | components/RoadmapItemCard.tsx:82-104 | an archived card offers only unarchive; any other card offers toggle-done, edit and archive, in that order |
| ItemCard.DueBadge | components/RoadmapItemCard.tsx:115-120 | the date badge is shown if and only if there is a due date, and is red if and only if the item is overdue |
| ItemCard.CardMarkup | components/RoadmapItemCard.tsx:110 | the card's renderer on the cut description (definition; its contract is ItemCard.CardMarkupCovers) |
| ItemCard.CardDescription | components/RoadmapItemCard.tsx:108-111 | the description block is shown if and only if the description is not empty, rendered from its summary cut |
| ItemCard.CardMarkupCovers | components/RoadmapItemCard.tsx:110 | the card's lines join back to the cut text, which keeps the first 150 characters; a short description is rendered whole |
| RecentIdeas.ProjectTitle | components/RecentIdeasView.tsx:63 | never empty; when a project has the id, the result is the first such project's title if that title is not empty, and "Unknown Project" otherwise; with no such project it is "Unknown Project" |
| RecentIdeas.FirstMatch | components/RecentIdeasView.tsx:63 | `find` on the id gives the first project that has the id |
| RecentIdeas.OwnTitle | components/RecentIdeasView.tsx:63 | with unique ids, an idea's project with a title is named by it |
| RecentIdeas.FeedMarkup | components/RecentIdeasView.tsx:24-59 | the feed's renderer, line by line on the whole description (definition; its contract is RecentIdeas.FeedShowsWholeDescription) |
| RecentIdeas.Card | components/RecentIdeasView.tsx:74-112 | a card shows the whole description if and only if it is not empty, its project's title, selects its project, and has a badge if and only if dated, red if and only if overdue |
| RecentIdeas.Feed | components/RecentIdeasView.tsx:73-74 | one card per idea, in the order given |
| RecentIdeas.FeedShowsWholeDescription | components/RecentIdeasView.tsx:93-97 | the feed does not cut descriptions: a card's lines join back to the whole description |
| ItemForm.DueText | components/RoadmapItemForm.tsx:20 | a stored due date shows as itself, and none or null as "" |
| ItemForm.DueValue | components/RoadmapItemForm.tsx:25 | an empty date field is sent as null, any other text as itself |
| ItemForm.DueRoundTrip | components/RoadmapItemForm.tsx:20-25 | showing a due date and sending it back gives it unchanged, except that "" comes back as null |
| ItemForm.Payload | components/RoadmapItemForm.tsx:22-27 | something is sent if and only if the title is not blank, and then exactly the six fields, untrimmed, with the date as above |
| ItemForm.UntouchedEditKeepsItem | components/ProjectView.tsx:43-50 | an item whose title is not blank and whose due date is not the empty text stays the same item when edited without changes and saved (a blank title sends nothing; a due date of "" comes back as null) |
| ItemForm.RoadmapItemForm.constructor | components/RoadmapItemForm.tsx:15-20 | the fields start from the edited item, or from "", "", Add, Medium, not pinned, no date |
| ItemForm.RoadmapItemForm.SetTitle | components/RoadmapItemForm.tsx:15 | the title input sets the title only |
| ItemForm.RoadmapItemForm.SetDescription | components/RoadmapItemForm.tsx:16 | sets the description only |
| ItemForm.RoadmapItemForm.SetItemType | components/RoadmapItemForm.tsx:17 | sets the type only |
| ItemForm.RoadmapItemForm.SetPriority | components/RoadmapItemForm.tsx:18 | sets the priority only |
| ItemForm.RoadmapItemForm.SetPinned | components/RoadmapItemForm.tsx:19 | sets the pin only |
| ItemForm.RoadmapItemForm.SetDueDate | components/RoadmapItemForm.tsx:20 | sets the date text only |
| ItemForm.RoadmapItemForm.Submit | components/RoadmapItemForm.tsx:22-27 | sends the payload if and only if the title is not blank |
| ProjectForm.DataOf | components/ProjectForm.tsx:12-14 | the form opened on the project (`initialData={project}`, components/ProjectView.tsx:239) starts from its title, description and logo |
| ProjectForm.LogoOf | components/ProjectForm.tsx:14 | an empty or absent logo is held as none, any other as itself |
| ProjectForm.Payload | components/ProjectForm.tsx:36-41 | something is sent if and only if the title is not blank, and then exactly title, description and logo, untrimmed |
| ProjectForm.SubmitLabel | components/ProjectForm.tsx:124 | the button says "Save Changes" if and only if the initial data has a non-empty title, "Save Project" otherwise |
| ProjectForm.UntouchedEditKeepsProjects | App.tsx:57-59 | with unique ids, a selected project whose title is not blank and whose logo is not the empty text is left unchanged, with every other project, when its form is saved untouched (a blank title sends nothing; a logo of "" comes back as none) |
| ProjectForm.ProjectFormState.constructor | components/ProjectForm.tsx:12-14 | the fields start from the initial data (an empty logo as none), or "", "" and none |
| ProjectForm.ProjectFormState.SetTitle | components/ProjectForm.tsx:12 | sets the title only |
| ProjectForm.ProjectFormState.SetDescription | components/ProjectForm.tsx:13 | sets the description only |
| ProjectForm.ProjectFormState.SetLogo | components/ProjectForm.tsx:21-23 | a file that was read becomes the logo |
| ProjectForm.ProjectFormState.RemoveLogo | components/ProjectForm.tsx:28-34 | removing the logo sets it to none and keeps the rest |
| ProjectForm.ProjectFormState.Submit | components/ProjectForm.tsx:36-41 | sends the payload if and only if the title is not blank |

## Left out

- Persistence: `useLocalStorage` is browser storage whose code is not part of this model. The store starts from the seed data, and no load/save round trip is claimed.
- The theme effect and toggle, `Modal`, `ArchiveView` and `Sidebar` are presentation with no rules. So are the JSX, the CSS classes and the badge colour tables.
- The clock and id generation (`Date.now()`, `new Date()`): ids, creation times and today's date are parameters. Hence `addProject` and `addRoadmapItem` take a fresh id as a precondition, and nothing is said about creation times growing.
- The `FileReader` logo upload is asynchronous browser I/O. Its result is the `dataUrl` parameter of `ProjectForm.ProjectFormState.SetLogo`. `window.confirm` is the `confirmed` parameter of `ProjectView.ProjectViewState.ConfirmDelete`.
- Date parsing and formatting:
  - `new Date(...)` parsing of due dates is `Host.dateValue`. A due date that does not parse (NaN in the comparator) is not modelled.
  - Creation times are the integers `getTime()` yields.
  - `toLocaleDateString` output is not modelled.
- Locale and Unicode:
  - `toLowerCase` and `localeCompare` are functions held by `Host`. The name ordering assumes `localeCompare` is a consistent order (`ProjectView.HostOrders`).
  - Strings are sequences of code points, whereas JavaScript counts and compares UTF-16 code units. So the 150-character cut can differ for text outside the Basic Multilingual Plane.
- Strings.Less (and so ItemCard.IsOverdue and ItemCard.DueBadge): orders code points, where JavaScript's string `<` orders UTF-16 code units. The two differ only when a character above U+FFFF meets one in U+E000..U+FFFF, which never happens for `YYYY-MM-DD` dates.
- The `default: return null` branch of `renderContent` is unreachable, because the active view has only two values.
- App.RecentIdeasStable: stated of the whole newest-first list of items that are not archived. The feed is a prefix of that list (`App.RecentIdeasSpec`), so ties within the first ten keep their order.
- App.Store.AddProject: requires the new id to be fresh, because `proj-${Date.now()}` need not be unique.
- ProjectView.NameOrder: requires `localeCompare` to be a consistent order, which the browser does not promise for every locale.
