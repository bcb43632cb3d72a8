# PromptsValut in Dafny

PromptsValut is a Blazor WebAssembly catalog of AI prompts. The user browses
prompts by category and searches them. They can mark favourites, rate
prompts, keep a history of viewed prompts, and create and edit their own
prompts. They can also fill in a prompt's `[placeholders]` to get a
customised text, or write a new template in a generator page. The catalog
comes from remote JSON files: a category index plus one prompt file per
category. A background service re-fetches the catalog once the cache
metadata says it is stale.

This project models the in-memory logic behind all of that:

- **The catalog state.** `Models.AppState` is an immutable value.
  `PromptService`'s operations are pure transitions on it: add, update,
  delete, clear, favourite toggle, rating, history, theme, category counts,
  category normalisation, per-category prompt loading and the refresh.
  Things the service gets from outside become parameters: the current
  time (`Instant`, .NET ticks, with `DateTime.MinValue` as 0), fresh GUIDs
  and the results of HTTP fetches.
- **The derived views.** The filtered and sorted prompt list, the
  favourites, the history and the cache status.
- **The background refresh scheduler.** A record
  `(running, enabled, interval, lastRefresh)` plus the application state.
  Starting, stopping, the setters, the refresh step and the settings load
  are each one transition.
- **The components' logic.** The generator page (placeholder extraction,
  tag parsing, insert helpers, the multi-option token, sample values), the
  detail modal (customise form, validation, edit mode, save), the create
  modal, the category sidebar, the prompt card and the header's cache
  status and refresh toggle.

Modules follow the program's structure:

- `Models`: the entities and their defaults.
- `CatalogView` and `Catalog`: the `PromptService` operations.
- `CategoryNormalize` and `CatalogSync`: loading remote data.
- `CacheStatus`: staleness and the interval.
- `Scheduler`: `BackgroundRefreshService`.
- `Header`, `Generator`, `Samples`, `CommaList`, `DetailModal`,
  `CreateForm`, `CategoryFilter` and `PromptCard`: the components.
- `Optional`, `Seqs`, `Strings` and `StableSort`: general helpers. These
  cover `Option`, duplicate-free sequences, `Filter`, .NET-style `Trim` and
  `Split`, and a stable insertion sort over a strict weak order.

Where the code and the documentation disagree, this model follows the code:

- **A category's slug keeps punctuation.** The id of a category is its
  trimmed, lower-cased name with runs of spaces turned into single hyphens.
  So "Creative Writing!!" becomes "creative-writing!!", not
  "creative-writing".
- **Toggling a favourite twice can reorder the list.** Toggling an
  *absent* favourite twice restores the list exactly. Toggling a *present*
  one twice restores the membership, but the id moves to the end of the
  list (`Catalog.ToggleFavoriteTwicePresent`).
- **The scheduler can run while disabled.** `StartAsync` reloads the
  enabled flag from the cache metadata after its guard has checked it. So
  the service can end up running while disabled
  (`Scheduler.RunningWhileDisabled`).

## Model

| member | source | states |
|---|---|---|
| Models.NewPrompt | PromptsValut/Models/Prompt.cs:3-21 | a new prompt has empty texts, tags and placeholders, zero usage and rating, is public, is for beginners, and carries the given id and creation time |
| Models.NewAppState | PromptsValut/Models/AppState.cs:3-17 | a new state has no prompts, categories, favourites, ratings or history; "all" is selected, the theme is light, the sort is "newest", and it has default cache metadata |
| Models.NewCacheMetadata | PromptsValut/Models/AppState.cs:19-27 | default metadata has never been refreshed, a 60-minute interval, background refresh on, an empty data version and is not marked stale |
| CatalogView.FilteredPrompts | PromptsValut/Services/PromptService.cs:22-63 | the view is a permutation of the prompts that pass every enabled filter; it is sorted by the chosen key, and tied prompts keep their catalog order (a stable sort) |
| CatalogView.StagesAreVisible | PromptsValut/Services/PromptService.cs:26-50 | applying the category, search and favourites filters one after another keeps exactly the prompts the combined visibility test keeps |
| CatalogView.PromptOrderIsStrictWeak | PromptsValut/Services/PromptService.cs:52-59 | every sort key (title ascending, rating descending, creation date descending) is a strict weak order, so the stable sort is well defined |
| StableSort.Sort | PromptsValut/Services/PromptService.cs:52-59 | the sorted list is ordered, is a permutation of its input, and each group of tied items keeps its input order |
| CatalogView.FilteredPromptsMembers | PromptsValut/Services/PromptService.cs:26-50 | a prompt is in the view if and only if it is in the catalog and passes the enabled filters |
| CatalogView.FilteredPromptsUnfiltered | PromptsValut/Services/PromptService.cs:26-61 | with category "all", an empty query and favourites-only off, the view holds every prompt |
| CatalogView.GetFavorites | PromptsValut/Services/PromptService.cs:254-257 | a prompt is returned if and only if it is in the catalog and its id is a favourite; each such prompt is returned as often as the catalog holds it, and in catalog order (an order-preserving subsequence of the catalog) |
| CatalogView.GetHistory | PromptsValut/Services/PromptService.cs:259-266 | the ids returned are the history's ids in history order, with ids of unknown prompts dropped; each returned prompt is the one the catalog lookup finds for its id |
| CatalogView.FindPrompt | PromptsValut/Services/PromptService.cs:122-125 | no result if and only if no prompt has the id; otherwise the first prompt with that id |
| Catalog.UpdateCategoryCounts | PromptsValut/Services/PromptService.cs:531-544 | afterwards "all" counts every prompt and each other category counts its prompts; nothing but the counts changes |
| Catalog.CategoryCountAppend | PromptsValut/Services/PromptService.cs:531-544 | appending a prompt adds one to the count of "all" and of its own category, and nothing to the others |
| Catalog.AddPrompt | PromptsValut/Services/PromptService.cs:127-137 | the prompt is appended with the fresh id and equal creation and update times; counts are consistent; favourites, ratings and history are untouched |
| Catalog.AddPromptCounts | PromptsValut/Services/PromptService.cs:127-137 | from consistent counts, an add raises "all" and the prompt's category by one and leaves the other counts alone |
| Catalog.FindIndex | PromptsValut/Services/PromptService.cs:141-144 | the index of the first prompt with the id |
| Catalog.FindPromptAtIndex | PromptsValut/Services/PromptService.cs:122-125 | the lookup and the index search find the same prompt |
| Catalog.UpdatePrompt | PromptsValut/Services/PromptService.cs:139-151 | an unknown id changes nothing; otherwise only the first prompt with the id is replaced, stamped with the update time, and counts stay consistent |
| Catalog.UpdatePromptKeepsIds | PromptsValut/Services/PromptService.cs:139-151 | an update never changes the sequence of prompt ids |
| Catalog.DeletePrompt | PromptsValut/Services/PromptService.cs:153-165 | an unknown id changes nothing; otherwise that prompt is removed, along with its favourite mark and its rating, and counts stay consistent |
| Catalog.DeletePromptLeavesNoTrace | PromptsValut/Services/PromptService.cs:153-165 | with unique ids, after a delete no prompt, favourite or rating refers to the id, and the catalog is one shorter |
| Catalog.DeleteUndoesAdd | PromptsValut/Services/PromptService.cs:127-165 | deleting a prompt just added under a fresh id restores the original prompt list |
| Catalog.ToggleFavorite | PromptsValut/Services/PromptService.cs:167-180 | the id is removed if present, otherwise appended; every other id keeps its membership; a duplicate-free list stays duplicate-free |
| Catalog.ToggleFavoriteTwiceAbsent | PromptsValut/Services/PromptService.cs:167-180 | toggling an absent id twice restores the state exactly |
| Catalog.ToggleFavoriteTwicePresent | PromptsValut/Services/PromptService.cs:167-180 | toggling a present id twice restores the same multiset of favourites, with the id moved to the end |
| Catalog.SetRating | PromptsValut/Services/PromptService.cs:182-196 | the rating is stored under the id; if the prompt exists, only its average changes, to the mean of the positive ratings for it; otherwise no prompt changes |
| Catalog.ComputeMeanRating | PromptsValut/Services/PromptService.cs:190-191 | the loop over the ratings computes the mean of the positive ratings for the prompt, or 0 when there are none |
| Catalog.MeanOfKeyedRatings | PromptsValut/Services/PromptService.cs:190-191 | when ratings are keyed by their prompt id, the mean is the prompt's own positive rating, or 0 |
| Catalog.SetRatingOwnAverage | PromptsValut/Services/PromptService.cs:182-196 | after rating a prompt with ratings keyed by prompt, its average is the new rating when positive, else 0 |
| Catalog.AddToHistory | PromptsValut/Services/PromptService.cs:239-252 | the id goes to the head; the rest keeps its relative order with the id removed; at most 50 entries; a duplicate-free history stays duplicate-free |
| Catalog.AddToHistoryIdempotent | PromptsValut/Services/PromptService.cs:239-252 | recording the same prompt twice in a row is the same as recording it once |
| Catalog.ClearData | PromptsValut/Services/PromptService.cs:228-237 | prompts, favourites, ratings and history are emptied; categories and their counts are kept |
| Catalog.ClearDataEmptiesViews | PromptsValut/Services/PromptService.cs:228-237 | after a clear, the filtered view, the favourites and the history are all empty |
| Catalog.ToggleTheme | PromptsValut/Services/PromptService.cs:220-226 | light becomes dark and anything else becomes light, so the theme always changes |
| Catalog.ToggleThemeTwice | PromptsValut/Services/PromptService.cs:220-226 | toggling twice restores the state if and only if the theme was light or dark |
| CategoryNormalize.SlugWellFormed | PromptsValut/Services/PromptService.cs:640-645 | a slug has no spaces and no upper-case letters, and for a non-blank name it is non-empty with no white space at either end |
| CategoryNormalize.SlugIdempotent | PromptsValut/Services/PromptService.cs:640-645 | slugging a slug changes nothing |
| CategoryNormalize.Slug | PromptsValut/Services/PromptService.cs:640-645 | a slug never contains a space; the slug of a non-blank name is non-empty and neither starts nor ends with white space |
| CategoryNormalize.NormalizePath | PromptsValut/Services/PromptService.cs:647-655 | a non-blank path becomes a non-blank absolute URL; a blank path or one that is already absolute is kept as it is |
| CategoryNormalize.NormalizeCategory | PromptsValut/Services/PromptService.cs:638-656 | a blank name keeps the id; a named category gets a non-empty id without spaces; a non-blank file path becomes an absolute URL and a blank one is kept |
| CategoryNormalize.NormalizePathFacts | PromptsValut/Services/PromptService.cs:647-655 | a non-blank path becomes an absolute URL; blank and absolute paths are kept; normalising twice is normalising once |
| CategoryNormalize.NormalizeCategoryIdempotent | PromptsValut/Services/PromptService.cs:638-656 | normalising a category twice is normalising once, and a named category's id is its slug |
| CategoryNormalize.InjectAll | PromptsValut/Services/PromptService.cs:658-671 | the result has an "all" category; one is put in front only when none matches case-insensitively |
| CategoryNormalize.InjectAllIdempotent | PromptsValut/Services/PromptService.cs:658-671 | injecting "all" twice is injecting it once |
| CategoryNormalize.NormalizeCategories | PromptsValut/Services/PromptService.cs:638-674 | the result has "all", is sorted by sort order, is a permutation of the normalised categories, and tied categories keep their order |
| CategoryNormalize.NormalizeCategoriesMembers | PromptsValut/Services/PromptService.cs:638-674 | every fetched category appears, normalised, in the result |
| CategoryNormalize.BySortOrderIsStrictWeak | PromptsValut/Services/PromptService.cs:673-674 | ordering by sort order is a strict weak order |
| CatalogSync.LoadExternalCategories | PromptsValut/Services/PromptService.cs:619-692 | a failed fetch changes nothing; otherwise the categories become the normalised ones with consistent counts, and the selection is kept only if it still exists, else reset to "all" |
| CatalogSync.LoadedSelectionValid | PromptsValut/Services/PromptService.cs:676-680 | after a load, the selected category exists or is "all", and an "all" category is present |
| CatalogSync.Stamp | PromptsValut/Services/PromptService.cs:579-591 | a loaded prompt gets its source category; an empty id becomes the fresh GUID and an empty author "External Source", while present ones are kept; each timestamp equal to `DateTime.MinValue` becomes the load time and any other is kept; no other field changes |
| CatalogSync.StampAll | PromptsValut/Services/PromptService.cs:578-591 | one completed prompt per delivered prompt, in order: the `k`-th is Stamp of the `k`-th delivered prompt with the id drawn at position start + k; all carry the category, an id and an author |
| CatalogSync.FreshIdsDistinct | PromptsValut/Services/PromptService.cs:578-591 | when distinct draws give distinct GUIDs, two different delivered prompts without an id receive different ids, even when their categories share an id |
| CatalogSync.LoadFrom | PromptsValut/Services/PromptService.cs:557-600 | exactly the categories other than "all" with a non-blank path are requested, in order; every loaded prompt comes from one of them and has an id and an author |
| CatalogSync.LoadFromLayout | PromptsValut/Services/PromptService.cs:557-600 | the loaded list is exactly the delivered files end to end in category order: its length is the total delivered, and the `k`-th prompt of category `i` sits at position Offset(i) + k, right after the files of the categories before `i`; it is completed by Stamp for category `i` with the id drawn at that same load position |
| CatalogSync.LoadFromOnlyFiles | PromptsValut/Services/PromptService.cs:557-600 | conversely, every position `j` of the loaded list holds the `k`-th prompt of some fetched category `i` with Offset(i) + k == j, completed with the id drawn at position `j` |
| CatalogSync.OffsetPositive | PromptsValut/Services/PromptService.cs:557-603 | something is loaded if and only if some category other than "all" with a path has a file that parses to a non-empty list |
| CatalogSync.LoadFromSameButCounts | PromptsValut/Services/PromptService.cs:557-600 | what is loaded depends on the categories' ids and paths, not on their counts |
| CatalogSync.LoadPromptsFromCategoryFiles | PromptsValut/Services/PromptService.cs:546-617 | it reports success if and only if some fetched file delivered a prompt; the new prompt list is the old one followed by exactly the loaded list; with nothing loaded the state is unchanged, otherwise counts become consistent and nothing else changes |
| CatalogSync.RefreshExternalData | PromptsValut/Services/PromptService.cs:703-738 | favourites, ratings, history and settings are preserved and loading ends; without an index the catalog is emptied and the selection kept; every prompt comes from a loaded category and counts are consistent |
| CatalogSync.RefreshExternalDataLoads | PromptsValut/Services/PromptService.cs:703-738 | with a usable index the prompts are exactly what the normalised categories' files deliver, and the selection is kept if its category still exists, else reset to "all" |
| CacheStatus.IsCacheStale | PromptsValut/Services/PromptService.cs:741-771 | stale if and only if there is no metadata, no refresh ever happened, or the interval has elapsed; missing metadata is created; the stale flag is recorded |
| CacheStatus.IsCacheStaleStable | PromptsValut/Services/PromptService.cs:741-771 | asking again at the same time gives the same verdict and state |
| CacheStatus.IsDataFresh | PromptsValut/Services/PromptService.cs:773-776 | fresh if and only if the cache is not stale |
| CacheStatus.TimeUntilNextRefresh | PromptsValut/Services/PromptService.cs:778-795 | never negative; 0 without metadata or before any refresh; otherwise the time left in the interval, or 0 once it has elapsed |
| CacheStatus.TimeLeftWithinInterval | PromptsValut/Services/PromptService.cs:778-795 | given metadata and an instant no earlier than its last background refresh, the time left never exceeds the refresh interval, and is 0 when the interval is not positive |
| CacheStatus.FreshIffTimeLeft | PromptsValut/Services/PromptService.cs:773-795 | at one instant, the data is fresh if and only if some time is left before the next refresh |
| CacheStatus.NewStateIsStale | PromptsValut/Models/AppState.cs:19-27 | a freshly created state is stale, with no time left |
| CacheStatus.SetRefreshInterval | PromptsValut/Services/PromptService.cs:797-805 | the stored interval is the requested one, or 1 when that is below 1; nothing else changes |
| CacheStatus.SetRefreshIntervalIdempotent | PromptsValut/Services/PromptService.cs:797-805 | setting the same interval twice is setting it once |
| CacheStatus.EnableBackgroundRefresh | PromptsValut/Services/PromptService.cs:807-815 | only the metadata's enabled flag changes, and missing metadata is created first |
| Scheduler.SetRefreshIntervalMinutes | PromptsValut/Services/BackgroundRefreshService.cs:21-32 | the interval is the value, or 1 when the value is below 1; nothing else changes |
| Scheduler.SetIsEnabled | PromptsValut/Services/BackgroundRefreshService.cs:34-49 | disabling stops the service; enabling a running service only sets the flag; enabling a stopped one starts it with the persisted settings |
| Scheduler.Start | PromptsValut/Services/BackgroundRefreshService.cs:58-76 | a running or disabled service is left alone; otherwise the settings are loaded and the service runs if its timer starts |
| Scheduler.RunningWhileDisabled | PromptsValut/Services/BackgroundRefreshService.cs:58-76 | starting with refresh disabled in the stored metadata leaves the service running but disabled |
| Scheduler.Stop | PromptsValut/Services/BackgroundRefreshService.cs:78-95 | the service ends stopped and nothing else changes |
| Scheduler.StopIdempotent | PromptsValut/Services/BackgroundRefreshService.cs:78-95 | stopping twice is stopping once |
| Scheduler.RefreshData | PromptsValut/Services/BackgroundRefreshService.cs:97-131 | a disabled service or a fresh cache changes nothing; a due refresh keeps user data; a throw before the reload leaves the state loading, and one after it leaves the catalog reloaded, with no rollback, and neither touches the metadata or the service; a completed refresh reloads the catalog from the index, ends loading and records the time in both the service and the metadata, which gets a version from the GUID |
| Scheduler.FailedRefreshStillDue | PromptsValut/Services/BackgroundRefreshService.cs:97-131 | after a failed refresh the service is unchanged and a refresh is still due at the same instant |
| Scheduler.RefreshedNotDue | PromptsValut/Services/BackgroundRefreshService.cs:97-131 | right after a successful refresh with an interval of at least a minute, no refresh is due |
| Scheduler.ShouldRefresh | PromptsValut/Services/BackgroundRefreshService.cs:145-169 | the service refreshes exactly when the catalog service would call the cache stale, and exactly when the time left until the next refresh is zero |
| Scheduler.UpdateCacheMetadata | PromptsValut/Services/BackgroundRefreshService.cs:171-191 | existing metadata gets the refresh and update times, is marked not stale and gets an 8-character version from the GUID; the interval and flag are kept |
| Scheduler.LoadSettings | PromptsValut/Services/BackgroundRefreshService.cs:193-209 | without metadata nothing changes; otherwise interval, flag and last refresh are copied from it and the running state is kept |
| Scheduler.EnabledFlagPersists | PromptsValut/Services/PromptService.cs:807-815 | a flag stored through the catalog service is what the scheduler loads, and storing it does not change staleness |
| Scheduler.IntervalPersists | PromptsValut/Services/PromptService.cs:797-805 | an interval stored through the catalog service loads as the value the scheduler's own setter would store |
| Header.CacheStatusTextMeaning | PromptsValut/Components/UI/Header.razor.cs:76-94 | the text starts with "Fresh " if and only if the data is fresh; otherwise it is "Refreshing..." when refresh is enabled and "Manual" when not; a fresh text reads "Fresh (Nm)", where N is the time left in whole minutes, rounded down, and no more than the interval |
| Header.CacheStatusText | PromptsValut/Components/UI/Header.razor.cs:76-94 | "Refreshing..." exactly when the data is stale and refresh is enabled, "Manual" exactly when it is stale and refresh is disabled, and otherwise a short "Fresh" text |
| Header.CacheStatusColor | PromptsValut/Components/UI/Header.razor.cs:96-100 | green if and only if the data is fresh, otherwise yellow |
| Header.StatusTextMatchesColor | PromptsValut/Components/UI/Header.razor.cs:76-100 | the text says fresh exactly when the colour is green |
| Header.ToggleBackgroundRefreshAsWritten | PromptsValut/Components/UI/Header.razor.cs:61-74 | the negated service flag is persisted; an enabled service is stopped but its flag is never changed |
| Header.ToggleAsWrittenCannotReenable | PromptsValut/Components/UI/Header.razor.cs:61-74 | from an enabled service, two clicks leave refresh persisted as disabled, with the service stopped yet still flagged enabled |
| Header.ToggleBackgroundRefresh | PromptsValut/Components/UI/Header.razor.cs:61-74 | the service flag flips, the persisted flag agrees with it, and a disabled service is not running |
| Header.ToggleTwiceRestoresFlag | PromptsValut/Components/UI/Header.razor.cs:61-74 | two clicks restore both the service flag and the persisted one |
| Generator.MatchesBracketed | PromptsValut/Pages/PromptGenerator.razor.cs:87-88 | extracting placeholders from a text of bracketed names gives back the names |
| Generator.MatchesExamples | PromptsValut/Pages/PromptGenerator.razor.cs:87-88 | "[a[b]" yields the one placeholder "a[b", and "[]" yields none |
| Generator.MatchesAppend | PromptsValut/Pages/PromptGenerator.razor.cs:87-88 | when every open bracket of a text is closed within it, the placeholders of that text followed by more text are those of each part in turn |
| Generator.MatchesWellFormed | PromptsValut/Pages/PromptGenerator.razor.cs:87-88 | every extracted placeholder is non-empty, holds no closing bracket, and occurs in the text enclosed in brackets |
| Generator.GeneratePrompt | PromptsValut/Pages/PromptGenerator.razor.cs:78-107 | empty content only reports an error; otherwise the placeholders are the distinct matches, tags are parsed when typed, the output is the serialised template, and success is reported |
| Generator.GeneratedPlaceholderOrder | PromptsValut/Pages/PromptGenerator.razor.cs:87-94 | placeholders are listed in the order of their first occurrence |
| Generator.GeneratedTagsRoundTrip | PromptsValut/Pages/PromptGenerator.razor.cs:96-101 | typed comma-joined tags are stored as typed |
| Generator.AppendLine | PromptsValut/Pages/PromptGenerator.razor.cs:255-309 | the new content starts with the old and ends with the snippet, with one separating newline only when the old was non-empty |
| Generator.InsertText | PromptsValut/Pages/PromptGenerator.razor.cs:255-262 | the content grows by the before and after texts joined, after a line break when it was non-empty; the old content is kept as a prefix and nothing but the content changes |
| Generator.InsertPlaceholder | PromptsValut/Pages/PromptGenerator.razor.cs:264-271 | the content grows by the bracketed name, after a line break when it was non-empty; the old content is kept as a prefix and nothing but the content changes |
| Generator.InsertBulletList | PromptsValut/Pages/PromptGenerator.razor.cs:273-281 | the content grows by the three-item bullet list, after a line break when it was non-empty; the old content is kept and nothing but the content changes |
| Generator.InsertNumberedList | PromptsValut/Pages/PromptGenerator.razor.cs:283-291 | the content grows by the three-item numbered list, after a line break when it was non-empty; the old content is kept and nothing but the content changes |
| Generator.InsertHeading | PromptsValut/Pages/PromptGenerator.razor.cs:293-300 | the content grows by the heading line, after a line break when it was non-empty; the old content is kept and nothing but the content changes |
| Generator.InsertQuote | PromptsValut/Pages/PromptGenerator.razor.cs:302-309 | the content grows by the quote line, after a line break when it was non-empty; the old content is kept and nothing but the content changes |
| Generator.InsertTextKeepsPlaceholders | PromptsValut/Pages/PromptGenerator.razor.cs:255-262 | inserting text keeps the old placeholders and adds those of the inserted text |
| Generator.InsertedPlaceholderGenerated | PromptsValut/Pages/PromptGenerator.razor.cs:264-271 | an inserted placeholder is added last to the matches and appears among the generated placeholders |
| Generator.InsertsLeaveContentClosed | PromptsValut/Pages/PromptGenerator.razor.cs:264-309 | after any snippet insert the content ends with a closing bracket, so later appends cannot merge with it |
| Generator.InsertedListsMatch | PromptsValut/Pages/PromptGenerator.razor.cs:273-291 | the bullet and numbered lists add the placeholders item 1, item 2 and item 3 |
| Generator.InsertedHeadingQuoteMatch | PromptsValut/Pages/PromptGenerator.razor.cs:293-309 | the heading and quote add their one placeholder each |
| Generator.ShowMultiOptionDialog | PromptsValut/Pages/PromptGenerator.razor.cs:320-326 | the dialog opens with empty name and values, and nothing else changes |
| Generator.CloseMultiOptionDialog | PromptsValut/Pages/PromptGenerator.razor.cs:328-334 | the dialog closes with empty name and values, and nothing else changes |
| Generator.InsertMultiOption | PromptsValut/Pages/PromptGenerator.razor.cs:336-358 | an empty name or values only reports an error; otherwise the token is appended, the dialog is cleared and closed, and success is reported |
| Generator.MultiOptionMatch | PromptsValut/Pages/PromptGenerator.razor.cs:336-358 | the token is extracted as one placeholder: the name and the options joined by slashes |
| Generator.MultiOptionBody | PromptsValut/Pages/PromptGenerator.razor.cs:343-347 | typeable options typed with commas become the token of the name and options joined by slashes |
| Generator.MultiOptionParts | PromptsValut/Pages/PromptGenerator.razor.cs:347 | splitting the token's body on slashes gives back the name and the options |
| Samples.SampleValueIgnoresCase | PromptsValut/Pages/PromptGenerator.razor.cs:149-169 | the sample does not depend on the case of the placeholder or the field type, and unknown field types get the text sample |
| Samples.SampleValue | PromptsValut/Pages/PromptGenerator.razor.cs:149-169 | by lower-cased field type: email, url, number and textarea get their fixed samples, select gets the select sample of the placeholder, and any other type the text sample |
| Samples.TextSample | PromptsValut/Pages/PromptGenerator.razor.cs:171-197 | a listed placeholder gets its table value; any other gets "sample_" and the placeholder with spaces as underscores |
| Samples.SelectSample | PromptsValut/Pages/PromptGenerator.razor.cs:199-217 | the value of the first rule whose keyword the placeholder contains, or "Option 1" when no rule fires |
| Samples.SelectSampleDefault | PromptsValut/Pages/PromptGenerator.razor.cs:199-217 | "Option 1" is given if and only if no rule fires |
| Samples.SelectSampleFirstWins | PromptsValut/Pages/PromptGenerator.razor.cs:199-217 | whenever a rule fires, the sample comes from the first rule that fires, which comes no later than it; so a placeholder mentioning a genre gets "Fiction" whatever else it mentions |
| CommaList.ParseCommaList | PromptsValut/Pages/PromptGenerator.razor.cs:97-101 | no entry holds a comma or starts or ends with white space, and there are never more entries than characters |
| CommaList.ParseJoined | PromptsValut/Components/Modals/CreateModal.razor.cs:50-59 | parsing comma-joined typeable items gives back the items |
| CommaList.ParsePieces | PromptsValut/Components/Modals/CreateModal.razor.cs:50-59 | the entries are the trimmed non-empty comma pieces, one for one |
| CommaList.BlankPieceKept | PromptsValut/Pages/PromptGenerator.razor.cs:97-101 | a piece of only white space is kept as an empty entry in its place |
| CreateForm.ResetForm | PromptsValut/Components/Modals/CreateModal.razor.cs:26-35 | the draft is authored by "You", public and for beginners; it has the fresh id and the current time, every text and list field empty, no uses and no rating; no tags are typed |
| CreateForm.SubmittedTags | PromptsValut/Components/Modals/CreateModal.razor.cs:50-59 | blank text gives no tags; other text gives its comma list |
| CreateForm.BlankTagsGiveNone | PromptsValut/Components/Modals/CreateModal.razor.cs:50-59 | blank text gives no tags, although its comma list holds one empty entry |
| CreateForm.SubmittedTagsRoundTrip | PromptsValut/Components/Modals/CreateModal.razor.cs:50-59 | typeable tags typed with commas are stored as typed |
| CreateForm.CreatePrompt | PromptsValut/Components/Modals/CreateModal.razor.cs:42-63 | an incomplete draft changes nothing and keeps the modal open; a complete one is added with its parsed tags and the modal closes |
| CreateForm.CreateAddsOne | PromptsValut/Components/Modals/CreateModal.razor.cs:42-63 | a successful create appends exactly one prompt, the draft with its tags, id and times, and touches nothing else |
| CreateForm.ResetFormIncomplete | PromptsValut/Components/Modals/CreateModal.razor.cs:26-47 | a freshly reset form cannot be submitted |
| DetailModal.ShowPrompt | PromptsValut/Components/Modals/PromptDetailModal.razor.cs:29-45 | showing a prompt opens the first tab, parses it, gives each field an empty value, and clears the output, errors and edit mode |
| DetailModal.ShowPromptForgets | PromptsValut/Components/Modals/PromptDetailModal.razor.cs:29-45 | the modal after showing a prompt does not depend on what it held before |
| DetailModal.EmptyValues | PromptsValut/Components/Modals/PromptDetailModal.razor.cs:55-65 | exactly one entry per field id, each empty |
| DetailModal.InitializeValues | PromptsValut/Components/Modals/PromptDetailModal.razor.cs:55-65 | a parsed form gets exactly one value per field id, each empty, and an unparsed one none; nothing else changes |
| DetailModal.CustomizeTabResets | PromptsValut/Components/Modals/PromptDetailModal.razor.cs:67-81 | opening the customise tab re-parses the prompt and empties the values, keeps the output and errors, and doing it twice is doing it once |
| DetailModal.SetActiveTab | PromptsValut/Components/Modals/PromptDetailModal.razor.cs:47-81 | the tab is set; the customise tab parses the selected prompt's content and gives each of its fields an empty value; selection, output, errors and edit state never change |
| DetailModal.ResetCustomizeForm | PromptsValut/Components/Modals/PromptDetailModal.razor.cs:106-113 | every value is emptied for the parsed fields, the output and errors are cleared, and the selection, parse and tab are kept |
| DetailModal.CloseModal | PromptsValut/Components/Modals/PromptDetailModal.razor.cs:83-88 | the modal is hidden and holds no prompt; the tab, values, errors, output and edit state are kept as they were (DetailModal.ClosedModalIsInert shows that the favourite toggle, starting an edit, generating and saving are then inert) |
| DetailModal.ClosedModalIsInert | PromptsValut/Components/Modals/PromptDetailModal.razor.cs:83-88 | after closing, favourite toggle, edit, generate and save do nothing |
| DetailModal.ToggleSelectedFavorite | PromptsValut/Components/Modals/PromptDetailModal.razor.cs:98-104 | without a selection nothing changes; otherwise the selected prompt's favourite mark flips |
| DetailModal.GenerateAfterReset | PromptsValut/Components/Modals/PromptDetailModal.razor.cs:106-133 | after a reset, generating succeeds if and only if no field is required |
| DetailModal.GenerateCustomPrompt | PromptsValut/Components/Modals/PromptDetailModal.razor.cs:115-133 | the output changes only for a selected, parsed and valid form; an invalid form only records errors; a valid one gets the filled-in text |
| DetailModal.Errors | PromptsValut/Components/Modals/PromptDetailModal.razor.cs:135-157 | the error keys are exactly the ids of required fields left blank, each with a "Name is required" message |
| DetailModal.ErrorsKeepLast | PromptsValut/Components/Modals/PromptDetailModal.razor.cs:142-153 | when two fields share an id, the message is that of the last failing one |
| DetailModal.ValidateForm | PromptsValut/Components/Modals/PromptDetailModal.razor.cs:135-157 | valid if and only if no errors are recorded, which for a parsed form means every required field has a value; an unparsed form is valid |
| DetailModal.FreshFormValidity | PromptsValut/Components/Modals/PromptDetailModal.razor.cs:135-157 | an untouched form is valid if and only if no field is required |
| DetailModal.IsFormValid | PromptsValut/Components/Modals/PromptDetailModal.razor.cs:159-176 | valid if and only if the form is parsed and every required field has a value |
| DetailModal.ValidityTestsAgree | PromptsValut/Components/Modals/PromptDetailModal.razor.cs:135-176 | the two validity tests agree on parsed forms and disagree on unparsed ones |
| DetailModal.InputType | PromptsValut/Components/Modals/PromptDetailModal.razor.cs:194-203 | email, url and number keep their type; everything else is text |
| DetailModal.ToggleEditModeAlternates | PromptsValut/Components/Modals/PromptDetailModal.razor.cs:238-269 | toggling flips edit mode, loading the content into the buffer or clearing it; two toggles from view mode return to it |
| DetailModal.ToggleEditMode | PromptsValut/Components/Modals/PromptDetailModal.razor.cs:238-250 | with a prompt selected, edit mode flips; entering it loads the prompt's content into the buffer, leaving it empties the buffer; without a prompt view mode is kept; nothing else changes |
| DetailModal.StartEdit | PromptsValut/Components/Modals/PromptDetailModal.razor.cs:252-262 | with a prompt selected, edit mode starts with its content in the buffer; without one nothing changes |
| DetailModal.CancelEdit | PromptsValut/Components/Modals/PromptDetailModal.razor.cs:264-269 | edit mode ends with an empty buffer and nothing else changes |
| DetailModal.CancelUndoesStart | PromptsValut/Components/Modals/PromptDetailModal.razor.cs:252-269 | from view mode with an empty buffer, starting and cancelling an edit restores the modal exactly |
| DetailModal.SavePrompt | PromptsValut/Components/Modals/PromptDetailModal.razor.cs:271-290 | without a selection or with a blank buffer nothing happens; otherwise the trimmed buffer is saved as the content, the form is re-parsed and edit mode ends |
| DetailModal.SavedContentStored | PromptsValut/Components/Modals/PromptDetailModal.razor.cs:271-290 | after a save, the catalog holds the prompt with the trimmed, non-empty buffer as its content |
| CategoryFilter.FindCategory | PromptsValut/Components/UI/CategoryFilter.razor.cs:26 | no result if and only if no category has the id; otherwise the first that does |
| CategoryFilter.SelectCategory | PromptsValut/Components/UI/CategoryFilter.razor.cs:21-42 | the id is always forwarded; a page view is recorded only for a known category other than "all" |
| CategoryFilter.SelectionTracksStoredCount | PromptsValut/Components/UI/CategoryFilter.razor.cs:21-42 | with consistent counts, the count recorded for a selection is the one its category stores |
| CategoryFilter.CategoryClasses | PromptsValut/Components/UI/CategoryFilter.razor.cs:44-55 | the base classes come first; the active classes are added if and only if the category is selected |
| CategoryFilter.GetCategoryCount | PromptsValut/Components/UI/CategoryFilter.razor.cs:57-66 | "all" counts every prompt; any other id counts the prompts whose non-empty category is that id |
| CategoryFilter.SidebarCountIsStored | PromptsValut/Components/UI/CategoryFilter.razor.cs:57-66 | with consistent counts, the sidebar count equals the count the category stores |
| PromptCard.ToggleFlipsMarker | PromptsValut/Components/UI/PromptCard.razor.cs:19 | with unique favourites, a card's toggle flips its own marker and no other card's |
| PromptCard.DisplayedRating | PromptsValut/Components/UI/PromptCard.razor.cs:20 | the stored rating for the prompt, or 0 when there is none |
| PromptCard.MakeRating | PromptsValut/Components/UI/PromptCard.razor.cs:52-62 | the rating carries the card's prompt id and the stars, and is liked if and only if it has four stars or more |
| PromptCard.RateFromCard | PromptsValut/Components/UI/PromptCard.razor.cs:52-62 | the card then shows the stars it sent and other cards are unchanged; when ratings are keyed by their prompt and the prompt is known, a positive rating becomes the prompt's average |
| PromptCard.DownloadFileName | PromptsValut/Components/UI/PromptCard.razor.cs:67 | the title with every space replaced by an underscore, followed by "_prompt.txt" |
| PromptCard.DownloadNamesDistinct | PromptsValut/Components/UI/PromptCard.razor.cs:67 | titles that differ in a character other than space or underscore download under different names |
| PromptCard.CategoryName | PromptsValut/Components/UI/PromptCard.razor.cs:118-121 | the name of the first category with the id, or the id itself when there is none |

## Left out

- `ParseExternalDataAsync` (PromptsValut/Services/PromptService.cs:447-529) and all JSON (de)serialisation: the fetched category index and per-category prompt lists are parameters, `None` when a fetch fails; the generator's JSON output is a `serialize` parameter.
- HTTP fetching, local-storage persistence (`SaveStateToStorageAsync`, `LoadStateFromStorageAsync`), and state validation and repair (`IsValidAppState`, `ValidateAndRepairState`, `ResetToDefaultState`): these are I/O, and their repair work only patches null collections, which cannot occur in this model.
- `InitializeAsync`, `LoadDataAsync`, `LoadDefaultData` and `LoadExternalDataAsync`: they sequence storage and fetching around the modelled loading operations.
- `StateChanged` notifications and every `StateHasChanged` re-render.
- Timers, the semaphore, `RestartTimer`, `OnTimerElapsed`, `Dispose` and blocking `.Wait()`/`.Result`: the scheduler is a sequential state machine. Whether its timer starts is a parameter, as is whether a refresh step throws and whether that happens before or after the reload. The timer's immediate first tick is not modelled.
- The clock and GUIDs: every `DateTime.UtcNow` is an `Instant` parameter. A single `Guid.NewGuid()` (a new prompt's id, a data version) is a fresh-id parameter. The loader draws one GUID per loaded prompt, so it takes a function `newId` from load position to GUID: the prompt at position `j` of the loaded list may use `newId(j)` only. Where the code reads the clock more than once in one operation, the model uses a single reading, as the lines below list.
- Header.CacheStatusText: the header reads the clock twice per render (PromptsValut/Components/UI/Header.razor.cs:78-79, through the stale check and the time left); the model uses one reading.
- Catalog.AddPrompt: the creation and update times are two clock readings (PromptsValut/Services/PromptService.cs:130-131) and may differ by a tick; the model gives both the same instant.
- CatalogSync.Stamp: an unset creation time and an unset update time are filled from two clock readings (PromptsValut/Services/PromptService.cs:586 and 588); the model uses one instant for both.
- Scheduler.UpdateCacheMetadata: the last refresh and last update times are two clock readings (PromptsValut/Services/BackgroundRefreshService.cs:178-179); the model gives both the same instant.
- Scheduler.RefreshData: the staleness check (PromptsValut/Services/BackgroundRefreshService.cs:160), the metadata update (line 178) and `_lastRefresh` (line 118) each read the clock; the model uses one instant for the whole step, so the service's and the metadata's refresh times are equal.
- Header.CacheStatusText: the stale check it runs while rendering (PromptsValut/Services/PromptService.cs:741-761) can create missing metadata and writes its stale flag; the badge model computes the text only and drops that change to the state.
- JS interop, the DOM, SEO and analytics, clipboard and copy actions, snackbar timing, theme application and resize handling. `SeoService.cs`, `app.js`, `ResponsiveLayout.razor.cs`, `Home.razor.cs` and `FavoritesModal.razor.cs` are wiring over the service. `SelectCategory`'s SEO calls are reduced to the name and count it tracks.
- Download file contents (date formatting), `SvgIcons.cs` and the CSS lookup tables of cards and modals.
- The placeholder parser service: `ParsePlaceholders` and `ReplacePlaceholders` are function parameters over the parsed-template datatypes. No parse/replace round trip is claimed, and its implementation is not part of this model.
- Culture: `ToLower` is ASCII lower-casing, titles are compared ordinally, and ratings are averaged as exact reals rather than doubles.
- `Program.cs` and `IPromptService.cs`: dependency injection and the interface surface only.
- Trivial setters and pass-throughs: `SetSearchQuery`, `SetSelectedCategory`, `SetTheme`, `SetShowFavoritesOnly`, showing and hiding modals, `PreviewPrompt`, `ClearPreview`, `CopyToClipboard`, `OnPlaceholderSelected`, `InitializeTemplate` and `ShowSnackbar`.
- Null strings: string fields read from JSON are never null in this model. So PromptCard.CategoryName's fallback to the category id covers only a missing category, not one whose name is null (PromptsValut/Components/UI/PromptCard.razor.cs:118-121).
- `Category` and `UserRating` are declared in files outside this model; their fields are inferred from how the service uses them.
- Object aliasing: `SavePrompt` and `CreatePrompt` hand the service the same object the component keeps. The model passes values, so later edits through the shared object are not modelled.
- The `OnParametersSet` reset of the detail modal, which re-runs `ShowPrompt` when the parameter changes.
- `TimeSpan` overflow: an interval or clock difference too large for `TimeSpan` throws in .NET; integers here are unbounded.
- DetailModal.Errors: its own contract says only that each message belongs to some failing field with that id. That the message comes from the last such field is stated separately, by DetailModal.ErrorsKeepLast.
- Header.CacheStatusText: its own contract states the two stale texts; the exact "Fresh (Nm)" text is stated by Header.CacheStatusTextMeaning.
- CatalogSync.LoadFrom: the ids it generates are pairwise distinct only when `newId` gives distinct GUIDs for distinct positions (CatalogSync.FreshIdsDistinct); nothing says they differ from ids already in the catalog, which for random GUIDs the code does not check either.

## Findings

| source | as written | input that shows it | evidently intended | confidence | as-written member | corrected member |
|---|---|---|---|---|---|---|
| PromptsValut/Components/UI/Header.razor.cs:61-74 | The toggle persists the negation of the service's `IsEnabled` and stops or starts the service, but never assigns `IsEnabled`. | Background refresh enabled: click once, then click again. The first click persists "disabled" and stops the timer. The service still reports enabled, so the second click persists "disabled" again and stops again. Refresh can never be switched back on from the header. | Each click flips the enabled flag, and the persisted flag follows it. | not executed | Header.ToggleBackgroundRefreshAsWritten (exhibited by Header.ToggleAsWrittenCannotReenable) | Header.ToggleBackgroundRefresh (proved by Header.ToggleTwiceRestoresFlag) |
