# animo-App screen logic in Dafny

A Dafny model of the client-side logic of four screens of the animo React
Native app, with proofs about it:

- **Anime detail screen.** An episode tap marks the episode as watched
  (server first when logged in, then the per-anime watched map) and resolves
  the episode manifest into a playback hand-off or a subtitle choice. The
  screen also merges the server's watched-episodes snapshot into the local
  map, loads that map from storage, and shows the "My List" label and colour.
- **Character chat screen.** Sending a message appends the user's message
  and an empty placeholder. The reply is then typed into the placeholder one
  character per tick, or an apology replaces it when the request fails. The
  reply text is split into normal, thought `( )` and action `[ ]` parts.
- **Comments screen.** Comments are normalised and ordered newest or oldest
  first. Posting, deleting and liking a comment update the local list. Each
  comment's relative age reads as "3 days ago".
- **Top Characters list.** A paginated list with load, load-more and
  pull-to-refresh. The first three entries are rank cards with gold, silver
  and bronze badges; the list body shows the rest.

Modules:

- `Wrappers`: `Option`.
- `Seqs`: associativity of concatenation and splitting a slice.
- `JsText`: ECMAScript `String.prototype.trim` (section 22.1.3.32 of
  ECMA-262), with its WhiteSpace and LineTerminator classes (sections 12.2
  and 12.3), the decimal rendering of a number in a template literal, and the truthiness
  test `if (v)` on an optional string.
- `WatchedStore`: the watched map. This covers JS `Set` de-duplication,
  marking, loading and the server merge.
- `AnimeScreen`: manifest resolution, the hand-off guard, the list status,
  and the screen's state and handlers.
- `ChatText`: `parseText`, which models the global regex
  `/\((.*?)\)|\[([^\]]+)\]/g` with ECMAScript `exec` semantics.
- `ChatScreen`: the message list and its updaters, typing and sending.
- `TimeFormat`: `formatTimeDifference`.
- `Comments`: normalisation, the stable sort (an in-place insertion sort on
  an array), post/delete/like and the sort toggle.
- `TopCharacters`: the list's state machine, badges and the header/body
  split.

How the model treats the JavaScript boundary:

- Replies from the network and values read from storage are inputs, and
  alerts and navigation are results.
- A missing or falsy JS string is `""`.
- An array field whose absence would make the code throw is an `Option`.
- JS integers are unbounded `int`s, and timestamps and ages are integer
  seconds.

## Model

| member | source | states |
|---|---|---|
| JsText.Trim | screens/AIChatScreen.js:40-43 | the trimmed text is a middle slice of the input, with only whitespace or line terminators cut from either end, and it neither starts nor ends with one |
| JsText.TrimEmptyIff | screens/AIChatScreen.js:40 | `input.trim()` is empty exactly when every character is whitespace or a line terminator |
| JsText.TrimIdempotent | screens/CommentsScreen.js:125-137 | trimming is idempotent: trimming an already trimmed text changes nothing |
| JsText.NatToString | screens/AnimeScreen.js:333-338 | the rendering of a number is a non-empty digit string without a leading zero |
| JsText.NatToStringRoundTrip | screens/AnimeScreen.js:333-338 | reading the rendered digits back gives the number, so distinct indices get distinct ids |
| WatchedStore.Dedup | screens/AnimeScreen.js:258-261 | `Array.from(new Set(s))` has no repeats, holds exactly the elements of s, and starts with s's first element |
| WatchedStore.DedupAfter | screens/AnimeScreen.js:258-261 | rebuilding a list through a `Set` keeps first occurrences: no repeats, and exactly the elements not seen before |
| WatchedStore.DedupAfterAppend | screens/AnimeScreen.js:260 | de-duplicating a concatenation de-duplicates the first part, then the second part without what the first part already had |
| WatchedStore.DedupOfDedups | screens/AnimeScreen.js:258-260 | building `new Set([...new Set(a), ...new Set(b)])` is the same as de-duplicating `a ++ b` |
| WatchedStore.DedupAbsorbs | screens/AnimeScreen.js:258-260 | merging a list into a merge that already holds it changes nothing |
| WatchedStore.MarkWatched | screens/AnimeScreen.js:292-299 | the key's list becomes its de-duplicated old list plus the episode when absent; it has no repeats and holds exactly the old episodes and the new one; every other key is unchanged |
| WatchedStore.MarkWatchedIdempotent | screens/AnimeScreen.js:292-299 | marking an episode already in a repeat-free list leaves the map unchanged |
| WatchedStore.MarkWatchedTwice | screens/AnimeScreen.js:292-299 | marking the same episode twice is marking it once |
| WatchedStore.Load | screens/AnimeScreen.js:207-216 | a stored map replaces the in-memory map; a read error, nothing stored or an unparsable value leaves it unchanged |
| WatchedStore.ServerMapOfKeys | screens/AnimeScreen.js:249-252 | `ServerMapOf`, the reference definition of the `forEach` (later entries overwrite earlier ones), has a key exactly for each entry's animeId |
| WatchedStore.ServerMapOfValues | screens/AnimeScreen.js:249-252 | each key holds the episodes of the last entry with that id, `EpisodesOf` it (`entry.episodes \|\| []`) |
| WatchedStore.BuildServerMap | screens/AnimeScreen.js:249-252 | the loop builds `ServerMapOf` of the entries: a key exactly for each animeId, holding the episodes of the last entry with that id |
| WatchedStore.MergeSnapshot | screens/AnimeScreen.js:255-265 | the per-key loop produces `Merged`, the reference map: each snapshot key gets the de-duplicated `server ++ local`, every other key is kept |
| WatchedStore.MergedUnion | screens/AnimeScreen.js:257-262 | for each snapshot key the merged list has no repeats and holds exactly the server and local episodes |
| WatchedStore.MergedFrame | screens/AnimeScreen.js:256-262 | keys absent from the snapshot are left exactly as they were |
| WatchedStore.MergedIdempotent | screens/AnimeScreen.js:255-265 | applying the same snapshot twice gives the map that applying it once gives |
| WatchedStore.ApplyAllIsUnion | screens/AnimeScreen.js:234-299 | in whatever order marks and merges run, an anime ends with its starting episodes plus every episode any of them submitted |
| WatchedStore.LocalWatchedSet | screens/AnimeScreen.js:227-229 | the local watched set, read through `Lookup` (`watchedMap[key] \|\| []`), is empty for an unknown anime and otherwise holds exactly its listed episodes |
| WatchedStore.MarkShowsWatched | screens/AnimeScreen.js:227-229 | after a mark the episode shows as watched and no earlier mark is lost |
| AnimeScreen.Captions | screens/AnimeScreen.js:322-324 | the caption filter keeps exactly the tracks of kind `captions` |
| AnimeScreen.CaptionsAppend | screens/AnimeScreen.js:322-324 | the filter keeps track order |
| AnimeScreen.SubtitlesFrom | screens/AnimeScreen.js:333-338 | the subtitle at position i has id `String(i)` and the label and file of the i-th caption track |
| AnimeScreen.Resolve | screens/AnimeScreen.js:306-348 | a false `success` gives the servers alert; any hand-off or choice comes from a successful reply, uses `sources[0].url` (non-empty) and carries the subtitles of the caption tracks in order; one caption hands off directly, two or more open the choice |
| AnimeScreen.NoHlsSource | screens/AnimeScreen.js:314-318 | a missing first source URL ends in "No HLS source found" |
| AnimeScreen.NoCaptionsMeansNoSubtitles | screens/AnimeScreen.js:322-330 | no caption track ends in the "No Subtitles" alert |
| AnimeScreen.OneCaptionHandsOff | screens/AnimeScreen.js:340-343 | exactly one caption track hands off with the first source's URL and that track's file |
| AnimeScreen.ManyCaptionsOpenChoice | screens/AnimeScreen.js:333-348 | two or more caption tracks open the choice with every caption track, numbered in track order |
| AnimeScreen.SubtitleIdsDistinct | screens/AnimeScreen.js:333-338 | the subtitle ids are pairwise different |
| AnimeScreen.OpenVideo | screens/AnimeScreen.js:360-374 | navigation happens exactly when both URLs are non-empty, with those URLs; otherwise the missing-URL alert |
| AnimeScreen.FindOption | screens/AnimeScreen.js:435-437 | a found option is one whose value equals the status; nothing found means no option has it |
| AnimeScreen.MyListLabel | screens/AnimeScreen.js:434-439 | when some option's value equals the status, the label is that option's label; when none does, "Add to My List" |
| AnimeScreen.MyListLabelCases | screens/AnimeScreen.js:52-58 | each of the five statuses shows its own label; null or any other value shows "Add to My List" |
| AnimeScreen.StatusColor | screens/AnimeScreen.js:441-456 | the colour is white exactly when the status is none of the five |
| AnimeScreen.LabelAndColourAgree | screens/AnimeScreen.js:434-456 | the default label and the default colour go together |
| AnimeScreen.Screen.constructor | screens/AnimeScreen.js:76-106 | the initial state: empty watched map, nothing loading, no subtitles or source, both modals closed, no status |
| AnimeScreen.Screen.LoadWatchedEpisodesMap | screens/AnimeScreen.js:207-216 | the map becomes `Load` of the old map and the stored value |
| AnimeScreen.Screen.FetchUserWatchedEpisodes | screens/AnimeScreen.js:234-270 | a request is made exactly when the user id is truthy (`JsText.Truthy`: present and non-empty); a snapshot becomes the map `Merged` of the old map and `ServerMapOf` of its entries, and that map is stored; logged out, a failed request or no snapshot changes nothing |
| AnimeScreen.Screen.MarkLocally | screens/AnimeScreen.js:292-299 | the map is marked and the marked map is stored |
| AnimeScreen.Screen.HandleEpisodePress | screens/AnimeScreen.js:275-355 | a failed logged-in POST makes no mark and requests no manifest; once made, the mark stays whatever the manifest does; the POST is made exactly for a truthy user id (`JsText.Truthy`); the outcome follows `Resolve` and the hand-off guard; subtitle state changes only for a playable manifest |
| AnimeScreen.Screen.ChooseSubtitle | screens/AnimeScreen.js:793-800 | with a stream source the choice is recorded, the modal closes and the hand-off follows; without one only the "not available" alert shows |
| AnimeScreen.Screen.FetchMyListStatus | screens/AnimeScreen.js:379-397 | only a truthy status in the reply is stored |
| AnimeScreen.Screen.HandleStatusSelection | screens/AnimeScreen.js:399-432 | the modal closes; without a token the login alert shows; the status changes only when the POST succeeded. |
| ChatText.ParenStop | screens/AIChatScreen.js:133 | the lazy `(.*?)` stops at the first `)`, and no line terminator comes before it |
| ChatText.BracketStop | screens/AIChatScreen.js:133 | `[^\]]+` runs up to the first `]` |
| ChatText.MatchAt | screens/AIChatScreen.js:133 | a reported match at a position is a thought or an action as the regex defines them, and every such match is the one reported, so none is missed |
| ChatText.MatchUnique | screens/AIChatScreen.js:133 | at most one match starts at a position |
| ChatText.Exec | screens/AIChatScreen.js:138 | `exec` finds the leftmost match at or after `lastIndex`, or reports that there is none |
| ChatText.ParseText | screens/AIChatScreen.js:131-162 | the `while` loop over `exec` produces exactly `Parts`, the recursive reference definition: the gap before each match, `MatchPart` of the match, then the rest |
| ChatText.PartsConcat | screens/AIChatScreen.js:138-160 | for every text, joining the parts' texts gives the input with exactly the empty thoughts `()` that `exec` matched cut out, so it is shorter by two characters per cut |
| ChatText.EmptyThoughtsAreParens | screens/AIChatScreen.js:145-151 | every cut position lies at or after the search start, inside the text, and holds a `(` followed by `)` |
| ChatText.CutLength | screens/AIChatScreen.js:145-151 | cutting removes exactly two characters per cut |
| ChatText.PartsRoundTrip | screens/AIChatScreen.js:138-160 | when `exec` matches no empty thought, joining the parts' texts gives back the input exactly |
| ChatText.NoEmptyParensNoCuts | screens/AIChatScreen.js:133-151 | a text with no `()` anywhere has no empty thought matched, so the round trip holds for it |
| ChatText.ParensInsideAction | screens/AIChatScreen.js:133-151 | a `()` inside an action is not an empty thought: `"[f()]"` is one action part and joins back to itself |
| ChatText.EmptyParensDropped | screens/AIChatScreen.js:145-151 | `MatchPart`, the part a match yields, is empty for a matched `()`: `"a()b"` gives the normal parts `"a"` and `"b"` |
| ChatText.PartsWellFormed | screens/AIChatScreen.js:140-151 | every normal part is non-empty; a thought is `(c)` with non-empty c free of `)` and line terminators; an action is `[c]` with non-empty c free of `]` |
| ChatText.PartsOfEmpty | screens/AIChatScreen.js:157-161 | empty text has no parts |
| ChatText.PlainTextIsOnePart | screens/AIChatScreen.js:157-159 | text without brackets is one normal part |
| ChatText.WholeThought | screens/AIChatScreen.js:145-147 | a text that is one thought is one thought part |
| ChatText.WholeAction | screens/AIChatScreen.js:148-150 | a text that is one action is one action part |
| ChatText.ThoughtStopsAtLineBreak | screens/AIChatScreen.js:133 | `(` and `)` on different lines do not make a thought |
| ChatScreen.Greeting | screens/AIChatScreen.js:29-35 | the greeting is "Hello, I am " + name + ". How can I help you today?", with "Unknown" for an empty name |
| ChatScreen.Append | screens/AIChatScreen.js:44-47 | the new message goes last, after an unchanged list, with the given text and sender, and ids stay positions |
| ChatScreen.DropPlaceholder | screens/AIChatScreen.js:78-85 | an empty last message is removed and nothing else; otherwise the list is unchanged; ids stay positions |
| ChatScreen.CharAt | screens/AIChatScreen.js:110 | `fullText[index] \|\| ''` is the one character at the index, or empty past the end |
| ChatScreen.TypeStep | screens/AIChatScreen.js:107-117 | one tick appends the piece to the last message's text, keeping its id and sender; earlier messages unchanged |
| ChatScreen.ApologyReplacesPlaceholder | screens/AIChatScreen.js:78-95 | after the error path's two updaters the apology stands where the empty placeholder was, with its id |
| ChatScreen.ApplyAllUpdaters | screens/AIChatScreen.js:44-117 | any sequence of the list's updaters keeps the list non-empty with a non-empty first message, so the placeholder drop never removes the greeting |
| ChatScreen.UpdatersKeepIds | screens/AIChatScreen.js:29-35 | every sequence of the list's updaters keeps each id equal to the message's 1-based position |
| ChatScreen.Screen.constructor | screens/AIChatScreen.js:29-37 | the list starts with the greeting as message 1 |
| ChatScreen.Screen.SetInput | screens/AIChatScreen.js:36 | the `input` state's setter, wired as `onChangeText` at line 237: the input field holds exactly the typed text, and nothing else changes |
| ChatScreen.Screen.SimulateTyping | screens/AIChatScreen.js:102-125 | after max(\|text\|, 1) ticks the last message's text is its old text followed by the reply; id, sender and earlier messages unchanged; typing ends |
| ChatScreen.Screen.SendMessage | screens/AIChatScreen.js:39-97 | whitespace-only input changes nothing; otherwise the trimmed message and the reply (typed in) or the apology are appended with the next two ids, and the input is cleared |
| TimeFormat.FormatTimeDifference | screens/CommentsScreen.js:27-48 | the `for` loop's result is `TimeAgo` of the age, the reference definition: "Just now", or `Phrase` of the first interval that fits and its floored count |
| TimeFormat.JustNowIff | screens/CommentsScreen.js:41-47 | "Just now" appears exactly when the age is below one second, negative ages included |
| TimeFormat.LargestUnit | screens/CommentsScreen.js:32-45 | from one second on, the unit is the largest one that fits at least once; its count c has c >= 1 and c * seconds <= age < (c + 1) * seconds |
| TimeFormat.PluralIff | screens/CommentsScreen.js:44 | in `Phrase` (`${count} ${label}${s} ago`) the unit gets an `s` exactly when the count is not 1 |
| TimeFormat.FloorAtLeastOne | screens/CommentsScreen.js:42-43 | `Math.floor(d / s) >= 1` exactly when s <= d |
| Comments.Normalise | screens/CommentsScreen.js:99-105 | a non-array like list becomes `[]`; `likedByUser` holds exactly when a user id is given and is in the list; the other fields are kept |
| Comments.NormaliseAll | screens/CommentsScreen.js:96-105 | normalisation keeps the length and the order |
| Comments.SortSpecSorted | screens/CommentsScreen.js:108-112 | `SortSpec`, the stable insertion sort that specifies the sort, orders the list by `Key`, the comparator's key (newest: descending creation time; oldest: ascending) |
| Comments.SortSpecPerm | screens/CommentsScreen.js:108-112 | the sorted list is a permutation of the input: every comment is kept, as often as it occurs |
| Comments.SortSpecStable | screens/CommentsScreen.js:108-112 | comments with equal timestamps keep their relative order |
| Comments.SortedByCreation | screens/CommentsScreen.js:108-112 | under newest the creation times do not increase; under oldest they do not decrease |
| Comments.SortComments | screens/CommentsScreen.js:108-112 | the in-place sort leaves the array holding the stable sort of its old contents |
| Comments.InsertAt | screens/CommentsScreen.js:108-112 | one pass inserts the next element into the sorted prefix and leaves the rest of the array alone |
| Comments.Inserted | screens/CommentsScreen.js:158-162 | an accepted comment goes first under newest and last otherwise, with the old list unchanged beside it |
| Comments.Delete | screens/CommentsScreen.js:222 | the comments kept are exactly those whose id differs |
| Comments.DeleteAppend | screens/CommentsScreen.js:222 | deleting keeps the others in order |
| Comments.DeleteIdempotent | screens/CommentsScreen.js:222 | deleting twice is deleting once |
| Comments.PostThenDelete | screens/CommentsScreen.js:158-162 | deleting a just-posted comment with a fresh id restores the list |
| Comments.Like | screens/CommentsScreen.js:264-270 | mapping `Liked` over the list keeps the same length and order; matching comments take the new count and flag with all else kept; the rest are unchanged |
| Comments.LikeTwice | screens/CommentsScreen.js:264-270 | the latest like reply is the one shown |
| Comments.LikeThenDelete | screens/CommentsScreen.js:222-270 | liking then deleting a comment equals deleting it |
| Comments.Toggle | screens/CommentsScreen.js:344-346 | toggling always changes the order |
| Comments.ToggleTwice | screens/CommentsScreen.js:344-346 | toggling twice is the identity |
| Comments.Screen.constructor | screens/CommentsScreen.js:57-63 | the initial state: no comments, loading, empty comment field, not posting, newest first |
| Comments.Screen.FetchComments | screens/CommentsScreen.js:76-121 | a reply body is normalised and sorted in the current order; a failed request keeps the list; loading ends either way |
| Comments.Screen.PostComment | screens/CommentsScreen.js:124-180 | empty-after-trim text is rejected before any request; the trimmed text is sent; a returned comment with id and text is normalised and inserted and the field cleared; any other reply changes neither |
| Comments.Screen.DeleteComment | screens/CommentsScreen.js:183-234 | only a successful delete filters the list |
| Comments.Screen.HandleLikePress | screens/CommentsScreen.js:237-275 | a request is made exactly for a truthy user id (`JsText.Truthy`); a successful reply updates the matching comments |
| Comments.Screen.ToggleSortOrder | screens/CommentsScreen.js:344-346 | the order flips |
| TopCharacters.Begin | screens/TopCharacters.js:35-40 | page 1 sets `loading`, any later page sets `isLoadingMore`; nothing else changes |
| TopCharacters.Finish | screens/TopCharacters.js:42-56 | a non-empty page is appended, order kept, `hasMore` unchanged; an empty or missing page keeps the list and clears `hasMore`; an error changes neither; all three spinners stop |
| TopCharacters.LoadMore | screens/TopCharacters.js:66-70 | the page goes up by one only when no later page is loading and more may exist; otherwise nothing changes |
| TopCharacters.LoadMoreAdvancesByOne | screens/TopCharacters.js:66-70 | load-more never skips a page and never touches the list |
| TopCharacters.EndOfListIsSticky | screens/TopCharacters.js:47-48 | once the list has ended, load-more does nothing until a refresh |
| TopCharacters.LoadsAppend | screens/TopCharacters.js:44-45 | loads only append: the earlier characters stay a prefix |
| TopCharacters.Refresh | screens/TopCharacters.js:59-64 | refresh sets `refreshing`, empties the list, goes to page 1 and re-enables `hasMore` |
| TopCharacters.RefreshAsWritten | screens/TopCharacters.js:59-64 | the reset followed by `AfterEffect`, the `[page]` effect that loads only when the page changed: away from page 1 the reset is followed by a load of page 1; on page 1 only the reset happens, since the `[page]` effect at lines 31-33 does not re-run |
| TopCharacters.RefreshOnFirstPageStalls | screens/TopCharacters.js:31-33 | refresh as written on page 1 does not reload page 1: right after it the list is empty and `refreshing` stays on until another load |
| TopCharacters.RefreshThenLoadMoreSkipsPageOne | screens/TopCharacters.js:59-70 | after a refresh on page 1, a load-more (from `onEndReached` at line 194) passes its guard because `hasMore` was re-enabled, and fetches page 2 into the emptied list: the spinner stops, the list is exactly page 2, and page 1 is skipped |
| TopCharacters.RefreshAfterFirstPageExample | screens/TopCharacters.js:59-64 | the stall for a first page of one character |
| TopCharacters.RefreshFixedReloads | screens/TopCharacters.js:59-64 | `RefreshFixed`, the corrected refresh (reset, then load page 1), ends its spinner at page 1 with exactly what a first load gives |
| TopCharacters.List.constructor | screens/TopCharacters.js:24-29 | the initial state: empty list, page 1, `hasMore`, `loading`, neither other spinner |
| TopCharacters.List.BeginLoad | screens/TopCharacters.js:35-40 | the state becomes `Begin` of the old state, and the current page is requested |
| TopCharacters.List.FinishLoad | screens/TopCharacters.js:42-56 | the state becomes `Finish` of the old state and the result |
| TopCharacters.List.LoadCharacters | screens/TopCharacters.js:35-57 | one load for the current page |
| TopCharacters.List.HandleLoadMore | screens/TopCharacters.js:66-70 | the state becomes `LoadMore` of the old state; `advanced` says whether the page moved |
| TopCharacters.List.HandleRefresh | screens/TopCharacters.js:59-64 | the corrected refresh: reset, then load page 1 |
| TopCharacters.GetBadge | screens/TopCharacters.js:81-92 | ranks 1, 2 and 3 get gold `#FFD700` star, silver `#C0C0C0` star-outline and bronze `#CD7F32` star-half; every other rank gets none |
| TopCharacters.TopThree | screens/TopCharacters.js:94-95 | the header shows the first min(3, n) characters of the list |
| TopCharacters.RenderItem | screens/TopCharacters.js:133-136 | the body renders an item exactly when its index is 3 or more, and renders that item |
| TopCharacters.ShownOnce | screens/TopCharacters.js:94-136 | the header followed by the body is the whole list, so each character appears exactly once, in order, and every header card has a badge |

## Left out

- Rendering, styles, animations, modals and drawers are left out. Navigation is modelled only as a returned outcome.
- Network calls and AsyncStorage are left out. Their replies, their failures and stored values are inputs.
- A failed write to storage is not modelled. `persisted` records the last map handed to the save.
- `JSON.parse` and `JSON.stringify` are foreign calls. A stored value is already a map or unparsable.
- Timers are not modelled. This covers the 10-second retry fallback of the anime screen and the 5 ms typing interval, which is modelled as discrete ticks.
- React's effect scheduling and uncoordinated async interleaving are not modelled. A load that replaces the map after a merge of the anime screen is one such race. Another is on the comments screen, where `postComment` and `deleteComment` build the new list from the render's `comments` rather than an updater, so a like that finishes while a POST or DELETE is in flight is overwritten. Effects are explicit calls, and `ApplyAllIsUnion` states what any order of marks and merges gives.
- Dates and the clock are not modelled. `formatTimeDifference` takes the age in whole seconds, and comments carry integer timestamps. An unparsable date (NaN) is not modelled.
- Strings are sequences of Unicode scalar values. JavaScript strings are UTF-16 code units, so `fullText[index]` on astral characters and the regex's `.` on surrogate pairs differ from the model.
- Comment fields other than id, text, creation time, likes and like list are left out. This includes the author object used to show the delete button.
- ChatScreen.Screen.SendMessage: does not model a reply whose `response` field is missing. There `fullText.length` throws inside the interval.
- ChatScreen.Screen.SendMessage: models replies that return before typing starts. Overlapping sends are not modelled.
- Comments.SortComments: models the engine's stable `Array.prototype.sort` by an insertion sort. Sortedness (`SortSpecSorted`), permutation (`SortSpecPerm`) and stability (`SortSpecStable`) together fix the result for any stable sort, but uniqueness itself is not proved.
- Calls into other screens and the other files of the repository are not part of this model. These are the editor, settings, the home screens, quality selection, navigation and the user context.

## Findings

| source | as written | input that shows it | evidently intended | confidence | as-written member | corrected member |
|---|---|---|---|---|---|---|
| screens/TopCharacters.js:59-64 | `handleRefresh` relies on `setPage(1)` to re-run the `[page]` effect, which does not happen when the page already is 1 | pull to refresh while on page 1: the list is emptied and page 1 is not reloaded; `refreshing` stays on until another load, and a later load-more fetches page 2 into the emptied list | refresh reloads page 1 and its spinner stops | likely; not executed | TopCharacters.RefreshAsWritten, with TopCharacters.RefreshOnFirstPageStalls and TopCharacters.RefreshThenLoadMoreSkipsPageOne | TopCharacters.RefreshFixed, with TopCharacters.RefreshFixedReloads and TopCharacters.List.HandleRefresh |
