# Anime smash-or-pass: a verified model of the game logic

This project models the game logic of the anime "smash or pass" web app in
Dafny. A visitor picks anime and genders in a setup form and starts a game.
The server deals a shuffled, optionally limited deck of characters. The
visitor swipes each card left (smash), right (pass) or up (kill). Votes are
stored and aggregated into rankings and statistics. A seeding script fills
the database from an external anime catalog, and a helper draws one random
character from that catalog.

The model follows the program's files, one module each:

- `Actions` (`actions.dfy`) covers the server actions:
  - the game configuration cookie and its decoding;
  - the character filters and the count preview;
  - the Fisher-Yates shuffle, kept as an in-place loop over an array;
  - the limit;
  - the vote tally, kept as a loop over a map;
  - the smash-rate rankings, the vote statistics and the gender list.
- `Setup` (`setup_form.dfy`) models the setup form. `SetupForm` is a class whose fields are the form's state and whose methods are its handlers and effects.
- `GameCard` (`game_card.dfy`) covers the swipe decision and the image carousel. `Card` is a class over the card's state.
- `CardStack` (`card_stack.dfy`) models the deck of one session. `Stack` holds the cards, the running summary and the votes sent.
- `AnimeData` (`anime_data.dfy`) covers drawing a random character from the catalog.
- `Seeder` (`seeder.dfy`) models the pagination loop and the lookup-then-insert seeding loops. They run over a `Store` class.
- `PlayPage` (`play_page.dfy`) covers the play page: how a configuration becomes query arguments, the redirect, and the empty state.
- Shared modules:
  - `Types` holds the vote types, the swipe directions and the per-type counters.
  - `Js` holds the JavaScript runtime behaviours the code relies on: truthiness of `||`, `Math.floor(Math.random() * n)`, ASCII lower-casing, `includes`, the default string sort order and `String(n)`.
  - `Seqs` holds sequence helpers: no duplicates, subsequences and order-preserving filters.
  - `Catalog` holds the decoded records of the catalog.
  - `Db` holds the tables, as a `Snapshot` of rows for reads and as a `Store` class for writes. The store's inserts enforce the unique external ids and the foreign keys.

External inputs are passed in as parameters:

- Randomness is a sequence of draws in [0, 1), one per `Math.random()` call.
- The database is read as a snapshot of rows.
- Every HTTP answer is either a failed response or its decoded body.
- The cookie value and `JSON.parse` are both parameters.

## Model

| member | source | states |
|---|---|---|
| Actions.DecodeConfig | src/app/actions.ts:14-18 | a configuration is read only from an object whose `animes` and `genders` are arrays of strings and whose `limit` is a number, `null` or missing; each field read equals the field in the value |
| Actions.ConfigJson | src/app/actions.ts:23-35 | the saved object has exactly the properties `animes`, `genders` and `limit`, holding the two lists as string arrays and the limit as a number or `null` |
| Actions.ConfigRoundTrip | src/app/actions.ts:23-51 | the value `saveGameConfig` writes for any configuration decodes back to exactly that configuration |
| Actions.GetGameConfigAsWritten | src/app/actions.ts:38-51 | as written: no cookie or an empty one gives `null`, and otherwise whatever `JSON.parse` produced is returned unchecked |
| Actions.GetGameConfig | src/app/actions.ts:38-51 | no cookie, an empty cookie, unparsable text or a parsed value that is not an object all give `null`; it never fails |
| Actions.SavedConfigIsRead | src/app/actions.ts:23-51 | a cookie holding a saved configuration is read back as that configuration |
| Actions.AsFilter | src/app/actions.ts:76-80 | an empty selection becomes "no filter" and a non-empty one is passed unchanged |
| Actions.SelectCharacters | src/app/actions.ts:70-99 | a row is returned iff it is in the table and (no gender filter or its gender is listed) and (no anime filter or its anime's title is listed); result rows keep table order |
| Actions.QueryCharacters | src/app/actions.ts:92-98 | one result per selected row, in order, with its images and its anime loaded |
| Actions.CharacterCount | src/app/actions.ts:170-204 | the count never exceeds the number of characters in the table |
| Actions.CountMatchesQuery | src/app/actions.ts:170-204 | `getCharacterCount` counts exactly the rows `queryCharacters` returns for the same filters |
| Actions.NoFiltersSelectAll | src/app/actions.ts:92-93 | with both filters absent or empty every character is returned, in table order |
| Actions.Swap | src/app/actions.ts:64 | the destructuring swap exchanges the two positions and keeps the same elements |
| Actions.ShuffleFrom | src/app/actions.ts:62-65 | the remaining iterations of the loop keep the length and the multiset of elements |
| Actions.Shuffled | src/app/actions.ts:60-67 | the shuffle result is a permutation of its input |
| Actions.Shuffle | src/app/actions.ts:60-67 | the loop over a new copy of the array ends with exactly the specified permutation, and the input array is not modified |
| Actions.CopyOf | src/app/actions.ts:61 | the copy is a new array with the same elements |
| Actions.ShuffleIteration | src/app/actions.ts:63-64 | one iteration of the loop, with its swap index `j` in `0..i`, advances the array to the next state of the specified shuffle |
| Actions.SwapElements | src/app/actions.ts:64 | the in-place swap leaves the array equal to the swapped sequence |
| Actions.ApplyLimit | src/app/actions.ts:118-122 | the result is a prefix of the list: `limit` elements when 0 < limit < length, otherwise the whole list |
| Actions.GetCharacters | src/app/actions.ts:102-123 | the selected characters, shuffled and then cut to the limit; never more copies of a character than the query returned |
| Actions.VotedIds | src/app/actions.ts:236-262 | the map's keys in insertion order are each voted character exactly once |
| Actions.TallyMapSnocSeen | src/app/actions.ts:249-259 | a vote for a character already in the map bumps the counter of its type and the total of that entry only |
| Actions.TallyMapSnocNew | src/app/actions.ts:249-259 | a character's first vote adds a new entry (its character loaded, all counters 0) bumped once |
| Actions.RecordVote | src/app/actions.ts:247-260 | one loop iteration turns the map and key order for the votes seen into those for one more vote |
| Actions.QueryCharacterRankings | src/app/actions.ts:223-263 | the loop returns the specified tally: one entry per voted character, in order of first vote |
| Actions.TallyConsistent | src/app/actions.ts:247-260 | in every entry smash + pass + kill = total, total is the number of votes for that character, and total is at least 1 |
| Actions.TallyOnePerCharacter | src/app/actions.ts:236-262 | no two entries share a character, and a character has an entry iff it has a vote |
| Actions.TalliesSumToVoteCount | src/app/actions.ts:247-262 | the totals over all entries add up to the number of votes |
| Actions.SmashRate | src/app/actions.ts:275 | the rate is 0 without votes, and otherwise rate × total = smash, so it lies in [0, 1] when smash ≤ total |
| Actions.InsertByRate | src/app/actions.ts:277 | inserting into a non-increasing list keeps it non-increasing and adds exactly the element |
| Actions.SortByRate | src/app/actions.ts:277 | the sort returns a permutation in non-increasing order of smash rate |
| Actions.InsertByRateKeepsTies | src/app/actions.ts:277 | an inserted ranking goes behind every ranking of the same rate |
| Actions.SortByRateStable | src/app/actions.ts:277 | the sort is stable: for every rate, the rankings with that rate keep their tally order |
| Actions.WithRates | src/app/actions.ts:272-276 | one ranking per tally, in tally order, each carrying that tally's smash rate |
| Actions.GetCharacterRankings | src/app/actions.ts:265-278 | the rankings are the tallies with their rates, sorted |
| Actions.RankingsSortedPermutation | src/app/actions.ts:265-278 | the rankings are a permutation of the tallies with rates, non-increasing by rate, and every rate is the entry's smash/total in [0, 1] |
| Actions.RateInRange | src/app/actions.ts:275 | the smash rate of every tally entry lies in [0, 1] |
| Actions.CountOfType | src/app/actions.ts:288-290 | a type's count never exceeds the number of votes |
| Actions.GetVoteStats | src/app/actions.ts:280-294 | total is the number of votes, and each type's count is the number of votes of that type |
| Actions.VoteStatsAddUp | src/app/actions.ts:286-291 | smash + pass + kill = total |
| Actions.NewVoteCounted | src/app/actions.ts:206-220 | a submitted vote raises the total and its own type's count by one and leaves the other counts unchanged |
| Actions.GenderColumn | src/app/actions.ts:148-160 | the gender column of exactly the characters of the named anime (of all when none are named) |
| Actions.Present | src/app/actions.ts:165 | dropping nulls keeps exactly the present genders and adds no repeats |
| Actions.SortStrings | src/app/actions.ts:166 | `.sort()` returns a permutation in ascending UTF-16 code-unit order, where a character above U+FFFF is compared by its surrogate pair |
| Js.Utf16Injective | src/app/actions.ts:166 | two strings with the same UTF-16 code units are equal, so comparing code units loses nothing |
| Js.LeTotal | src/app/actions.ts:166 | any two strings are ordered one way or the other |
| Js.LeTransitive | src/app/actions.ts:166 | the code-unit order is transitive |
| Js.LeAntisymmetric | src/app/actions.ts:166 | strings ordered both ways are equal |
| Js.SurrogatesSortBelowHighBmp | src/app/actions.ts:166 | U+10000 sorts before U+FFFF, as in JavaScript and unlike code-point order |
| Actions.GetAvailableGenders | src/app/actions.ts:142-167 | sorted ascending, without repeats and without null; a gender is listed iff some character of the named anime (or any character) has it |
| Db.AnimeById | src/app/actions.ts:94-97 | the loaded anime has the requested id, and is absent only when no row has it |
| Db.LoadCharacter | src/app/actions.ts:224-233 | a vote's character is loaded iff a row with that id exists, and it carries that id |
| Db.FindAnime | src/db/seeder.ts:141-143 | a row is found iff one has that external id, and it is that row |
| Db.FindCharacter | src/db/seeder.ts:171-173 | a row is found iff one has that external id, and it is that row |
| Db.Store.InsertAnime | src/db/seeder.ts:149-158 | the insert is refused iff the external id is taken; otherwise exactly the new row is appended and the store's constraints still hold |
| Db.Store.InsertCharacter | src/db/seeder.ts:177-186 | the insert is refused iff the external id is taken or the anime id names no row; otherwise the new row gets a fresh primary key and is appended |
| Db.Store.InsertImages | src/db/seeder.ts:201-203 | all rows are appended iff each names an existing character; otherwise nothing changes |
| Db.Store.SubmitVote | src/app/actions.ts:206-220 | one vote row is appended, its session defaulting to "anonymous", iff the character exists; no other table changes |
| Setup.GetAvailablePresets | src/components/setup/setup-form.tsx:23-37 | exactly the presets with at least one available title, in table order; each preset's matching titles are its titles that are available, in preset order |
| Setup.FindPreset | src/components/setup/setup-form.tsx:85 | the preset found has the key, and none is found only when no preset has it |
| Setup.Toggle | src/components/setup/setup-form.tsx:99-103 | the toggled value's membership flips, every other value's stays, and a selection without repeats stays without repeats |
| Setup.ToggleKeepsOthers | src/components/setup/setup-form.tsx:97-104 | the other values keep their order, and a new value is appended at the end |
| Setup.ToggleTwice | src/components/setup/setup-form.tsx:111-117 | toggling a value in and then out restores the selection |
| Setup.EffectiveCount | src/components/setup/setup-form.tsx:129 | min(limit, count) for a non-zero limit (it is at most both and equals one of them), otherwise the count |
| Setup.EffectiveCountIsDealt | src/components/setup/setup-form.tsx:129 | the count on the Start button equals the number of cards the game deals for the same selections and limit |
| Setup.LimitOptionDisabledIffShort | src/components/setup/setup-form.tsx:303-307 | a limit option is disabled exactly when a game with that limit would be dealt fewer cards than the option names |
| Setup.StartEnabledIffCardsDealt | src/components/setup/setup-form.tsx:326 | with no save pending and the count arrived, Start is enabled exactly when the game it starts has at least one card |
| Setup.FilteredAnimes | src/components/setup/setup-form.tsx:56-58 | an anime is listed iff its lower-cased title contains the lower-cased search, in list order |
| Setup.EmptySearchShowsAll | src/components/setup/setup-form.tsx:56-58 | an empty search lists every anime |
| Setup.GenderButtons | src/components/setup/setup-form.tsx:279 | exactly the offered genders "Female" and "Male", in order |
| Setup.SetupForm.constructor | src/components/setup/setup-form.tsx:44-54 | the initial state: no anime or gender selected, limit 25, empty search, the initial genders and count, no preset active |
| Setup.SetupForm.SelectPreset | src/components/setup/setup-form.tsx:84-95 | an unknown key changes nothing; the active preset is deselected back to all anime; any other preset becomes active with its matching titles selected |
| Setup.SetupForm.ToggleAnime | src/components/setup/setup-form.tsx:97-104 | clears the active preset and toggles the title in the selection |
| Setup.SetupForm.SelectAll | src/components/setup/setup-form.tsx:106-109 | no preset active and no anime filter |
| Setup.SetupForm.ToggleGender | src/components/setup/setup-form.tsx:111-117 | toggles the gender; nothing else changes |
| Setup.SetupForm.ClearGenders | src/components/setup/setup-form.tsx:268 | the "All" button empties the gender selection |
| Setup.SetupForm.ChooseLimit | src/components/setup/setup-form.tsx:303-307 | a limit button sets the limit unless its value exceeds the count, in which case it is disabled and nothing changes |
| Setup.SetupForm.SetSearch | src/components/setup/setup-form.tsx:227 | the search text is replaced; nothing else changes |
| Setup.SetupForm.RefreshGendersForSelection | src/components/setup/setup-form.tsx:61-67 | the offered genders are the initial list when no anime is selected, else the genders of the selected anime |
| Setup.SetupForm.ResetGenders | src/components/setup/setup-form.tsx:78-82 | the selected genders that are no longer offered are dropped |
| Setup.SetupForm.RefreshCount | src/components/setup/setup-form.tsx:70-75 | the preview count is the count for the selections, each empty one passed as no filter |
| Setup.SetupForm.HandleStart | src/components/setup/setup-form.tsx:119-127 | nothing is saved iff Start is disabled (a save pending or a count of 0); otherwise the saved configuration is the current selections and limit, and the transition is pending; nothing else changes |
| Setup.SetupForm.FinishSave | src/components/setup/setup-form.tsx:120-126 | when the save settles the transition is no longer pending; nothing else changes |
| Setup.StartTwice | src/components/setup/setup-form.tsx:119-127 | a second click on Start while the first save is pending saves nothing |
| Setup.ResetGendersKeepsOffered | src/components/setup/setup-form.tsx:78-82 | the reset keeps exactly the selected genders that are still offered, in order, and a second reset changes nothing |
| GameCard.ClassifySwipe | src/components/game/game-card.tsx:56-68 | left iff past the left threshold; right iff not left and past the right one; up iff neither and past the upper one; no swipe iff none |
| GameCard.SmallDragIsNoSwipe | src/components/game/game-card.tsx:59-68 | a drag within all thresholds is no swipe |
| GameCard.HorizontalWinsOverUp | src/components/game/game-card.tsx:59-68 | a drag past a horizontal threshold is always a swipe and never "up" |
| GameCard.NextImageIndex | src/components/game/game-card.tsx:46-50 | an index in range stays in range; the left 30% steps back unless at the first image, the right 30% steps forward unless at the last, the middle changes nothing |
| GameCard.TapsReachLast | src/components/game/game-card.tsx:48-49 | enough taps on the right edge reach the last image, and further taps stay there |
| GameCard.Card.CurrentImage | src/components/game/game-card.tsx:36-37 | the current image URL exists iff the card has images |
| GameCard.Card.Animate | src/components/game/game-card.tsx:88-94 | off screen horizontally once `exitX` is set, else vertically once `exitY` is set, else at rest |
| GameCard.Card.HandleTap | src/components/game/game-card.tsx:40-51 | an inactive card or one with at most one image keeps its index; otherwise the index moves as `NextImageIndex` says and stays valid |
| GameCard.Card.HandleDragEnd | src/components/game/game-card.tsx:53-69 | an inactive card ignores the drag; an active one reports at most the classified swipe and sets the exit for that direction |
| GameCard.SwipeFreshCard | src/components/game/game-card.tsx:53-94 | one drag reports at most one swipe, and the card leaves the screen in exactly the reported direction |
| CardStack.TypeMap | src/components/game/card-stack.tsx:34-40 | left is smash, right is pass, up is kill |
| CardStack.TypeMapBijective | src/components/game/card-stack.tsx:34-38 | different directions cast different votes, and every vote type has a direction |
| CardStack.RemoveCard | src/components/game/card-stack.tsx:52 | every card with the id is removed, the rest keep their order, the deck gets shorter iff the id was present |
| CardStack.RemoveCardIdempotent | src/components/game/card-stack.tsx:52 | removing the same id twice is removing it once |
| CardStack.Window | src/components/game/card-stack.tsx:81-82 | at most three cards are shown, the first ones of the deck, and only the first is active |
| CardStack.OneActiveCard | src/components/game/card-stack.tsx:81-99 | while cards remain, exactly the top card is active |
| CardStack.Stack.constructor | src/components/game/card-stack.tsx:25-26 | the deck starts as the dealt cards with all counters at 0 |
| CardStack.Stack.Remaining | src/components/game/card-stack.tsx:57 | remaining never exceeds the total |
| CardStack.Stack.Rated | src/components/game/card-stack.tsx:74 | rated + remaining = total |
| CardStack.Stack.Progress | src/components/game/card-stack.tsx:58 | 0 for an empty game, within [0, 100], and 100 once every card is rated |
| CardStack.Stack.HandleSwipe | src/components/game/card-stack.tsx:33-54 | exactly the mapped type's counter goes up by one, the vote is sent from the anonymous session, and the character's cards leave the deck; the summary keeps counting exactly the votes sent |
| CardStack.SummaryMatchesVoteStats | src/components/game/card-stack.tsx:123-137 | the end-of-game summary equals the vote statistics of the votes the session sent |
| CardStack.SwipeTop | src/components/game/card-stack.tsx:97-100 | swiping the top card always makes the deck shorter and the rated count larger |
| AnimeData.RandomPage | src/lib/anime-data.ts:101-104 | the random page lies in [1, 50] |
| AnimeData.FetchersOnFailure | src/lib/anime-data.ts:103-149 | a failed call gives an empty list from the random and search fetchers and null from the per-anime fetcher; an answered call gives its body |
| AnimeData.FilterByGender | src/lib/anime-data.ts:189-196 | a character is kept iff its gender, lower-cased with missing read as "", equals the lower-cased target; order kept |
| AnimeData.GenderFilterIgnoresCase | src/lib/anime-data.ts:190-194 | asking in any letter case keeps the same characters |
| AnimeData.Pool | src/lib/anime-data.ts:174-198 | the draw's pool is empty when the fetch failed; otherwise it is the candidates, or with a gender requested exactly the candidates of that gender in order |
| Catalog.AnimeTitle | src/lib/anime-data.ts:208 | the English title when present and non-empty, else the romaji one; the seeder names new anime rows the same way (src/db/seeder.ts:153) |
| AnimeData.ReleaseDate | src/lib/anime-data.ts:209 | the year as text when it is present and non-zero, else "Unknown Date" |
| AnimeData.ReleaseDateReadsBack | src/lib/anime-data.ts:209 | a positive year is written as a decimal string that reads back as the same year |
| AnimeData.ToCard | src/lib/anime-data.ts:205-220 | the id is kept; name and image fall back as `||` does; a missing or empty age or gender becomes "Unknown"; with media the anime is its title and the date its year as text (or "Unknown Date"); without media they are "Unknown Anime" and "Unknown Date" |
| AnimeData.GetRandomCharacter | src/lib/anime-data.ts:169-221 | null iff the pool is empty; otherwise the card of a member of the pool |
| AnimeData.FailedFetchGivesNull | src/lib/anime-data.ts:186 | a failed fetch of the candidate list gives null |
| AnimeData.MatchingCandidateIsDrawn | src/lib/anime-data.ts:174-201 | when some candidate has the requested gender (or any candidate, with no gender requested), a character is returned rather than null |
| AnimeData.DrawnCharacterHasGender | src/lib/anime-data.ts:189-201 | with a gender requested, the drawn card is that of a candidate with that gender, up to case |
| Seeder.FetchedAnime | src/db/seeder.ts:52-81 | the media node iff the request succeeded and the answer holds one |
| Seeder.FetchCharactersForAnime | src/db/seeder.ts:83-125 | the pagination loop returns exactly the specified gathered characters |
| Seeder.GatheredStopsAt | src/db/seeder.ts:89-123 | the result is the pages read in order up to the first page that fails, is invalid or is last, and never past page four; a failing page keeps what came before |
| Seeder.GatheredReadsFourPages | src/db/seeder.ts:89 | pages after the fourth never affect the result |
| Seeder.AnimeReleaseDate | src/db/seeder.ts:154-156 | the positive year as a decimal string, or "Unknown" without a year |
| Seeder.CharacterName | src/db/seeder.ts:181 | the full name when present and non-empty, else the native one |
| Seeder.ImageRows | src/db/seeder.ts:189-199 | large then medium, each only when present: 0 to 2 rows, all for the new character |
| Seeder.SeedCharacter | src/db/seeder.ts:170-206 | a character is stored iff its external id is new, with the defaulted fields and its image rows; afterwards its external id is always stored |
| Seeder.InsertImagesOf | src/db/seeder.ts:201-203 | exactly the image rows of the new character are added |
| Seeder.StoreAnime | src/db/seeder.ts:141-162 | the anime row is found by external id, or created with its title and release date only when none exists |
| Seeder.NewCastFromList | src/db/seeder.ts:169-177 | every character the inner loop stores comes from the gathered list and had no row before |
| Seeder.NewCastDistinct | src/db/seeder.ts:169-177 | the characters the inner loop stores have pairwise distinct external ids |
| Seeder.NewCastCovers | src/db/seeder.ts:169-177 | every gathered character either had a row before or shares its external id with a character the loop stores |
| Seeder.NewCastNothingNew | src/db/seeder.ts:169-177 | when every gathered character already has a row, the loop stores none |
| Seeder.NewCastKeepsFirst | src/db/seeder.ts:169-177 | the first gathered character with a new external id is the one stored; a later duplicate of that id never replaces it |
| Seeder.CastImagesBelong | src/db/seeder.ts:189-203 | every image row written for a cast carries the primary key of one of the cast's new character rows |
| Seeder.HasCharacterAfterCast | src/db/seeder.ts:171-187 | after the cast's rows are appended, an external id has a row iff it had one before or belongs to a character of the cast |
| Seeder.NewCastOnTables | src/db/seeder.ts:168-207 | the rows of the new cast appended to the tables: each new character row is the defaulted row of a gathered character under the anime, every gathered character then has a row, nothing is added when all had one, and every new image row belongs to a new character row |
| Seeder.SeedCast | src/db/seeder.ts:168-207 | the character table gains exactly the rows of the new cast (in list order, the first character of each new external id, each with its defaulted name, age, gender and the anime's id) and the image table exactly their image rows, large then medium; `savedCount` is the number of rows added; every gathered character is stored afterwards; a cast already stored causes no writes; every new image row belongs to a new character row |
| Seeder.SeedAnime | src/db/seeder.ts:134-207 | the anime row returned has the media's external id; when none existed it is the one row appended, with the media's title and release date; the character and image tables gain exactly the rows of the new cast of the gathered characters under that anime's id; afterwards all gathered characters are stored, and nothing is written when they already were |
| Seeder.SeedDatabase | src/db/seeder.ts:127-212 | rows are only added; afterwards every target the catalog found is stored with its characters; every added anime row was created from the media found for some target, every added character row is the defaulted row of a character gathered for such an anime and points at its row, and every added image row belongs to an added character; a second run over a seeded store writes nothing |
| Seeder.OnlyFoundTargetsStep | src/db/seeder.ts:130-207 | one pass of the outer loop for a found target keeps every added row attributed to a found target |
| Seeder.CreatedForStep | src/db/seeder.ts:145-162 | an anime row created for a found target keeps all added anime rows created for found targets |
| Seeder.WrittenForStep | src/db/seeder.ts:176-187 | character rows written for the gathered cast of a found target keep all added character rows attributed to found targets, also once more anime rows exist |
| Seeder.ImagesBelongStep | src/db/seeder.ts:189-203 | image rows that belong to the character rows of one pass, added to image rows that belong to earlier added characters, all belong to added characters |
| Seeder.UnfoundTargetsWriteNothing | src/db/seeder.ts:134-138 | when the catalog resolves none of the targets, a run attributed to found targets wrote nothing to any table |
| PlayPage.Dealt | src/app/play/page.tsx:28-40 | the dealt cards come from the query's results, none more often than the query returns it |
| PlayPage.PlayContent | src/app/play/page.tsx:19-65 | redirect to "/" iff there is no configuration; otherwise the empty state iff no character matches the selections, else the stack of the dealt cards, never empty |
| PlayPage.DealtEmptyIffNoMatch | src/app/play/page.tsx:36-45 | the deal is empty iff no character matches; a positive limit never empties a non-empty list |
| PlayPage.DealtAreChosen | src/app/play/page.tsx:28-40 | every dealt card is a character the selections choose, with its relations loaded, and there are never more cards than characters |
| PlayPage.NoSelectionDealsEveryone | src/app/play/page.tsx:28-40 | with nothing selected and no limit, every character is dealt exactly once |
| PlayPage.NoLimitDealsAllMatches | src/app/play/page.tsx:34-40 | a null limit deals every matching character exactly once |
| PlayPage.LimitCapsTheDeal | src/app/play/page.tsx:34-40 | a positive limit deals min(limit, matches) cards |
| PlayPage.StartAsWritten | src/app/play/page.tsx:20-31 | as written: a falsy value redirects, and a truthy value without `animes` or `genders` throws when their length is read |
| PlayPage.EmptyObjectCookie | src/app/play/page.tsx:20-31 | the cookie `{}` makes the page as written throw, while the checked read redirects |
| PlayPage.CheckedReadNeverThrows | src/app/play/page.tsx:20-31 | every configuration the checked read returns has both lists, so the page never throws there |

## Left out

- Cookie storage and its options, `clearGameConfig`, and the redirect after `saveGameConfig` are I/O. The cookie value is a parameter, and `JSON.stringify`/`JSON.parse` are represented by a `Json` value and a `parse` parameter.
- `getAvailableAnimes` is a single sorted `select` with no logic of its own. The form takes its result as input.
- Caching is left out. The source uses `"use cache"` with `cacheLife`: hours on `getCharacters` and `getCharacterCount`, days on the anime and gender lists, minutes on the rankings and vote statistics, and hours on the catalog fetchers. React `cache` memoises `queryCharacters` and `queryCharacterRankings` within a request. The model describes a cache miss. The source replays the earlier result for the same arguments: the same shuffled deck for hours, and stale rankings and statistics for minutes.
- SQL is modelled as filters over sequences of rows, not as SQL.
- Primary keys are numbers from a counter in place of random uuids.
- The schema file disagrees with the code: it has no `animes`/`characterImages` tables, no gender or anime id on characters, and only smash/pass votes. The model follows the code and the shared types.
- All HTTP requests, GraphQL query texts, status logging and the `setTimeout` delays are left out. An answer is a failed response or its decoded body.
- `console` output and error messages are left out.
- Numbers are unbounded integers or exact reals. Floating-point rounding of rates and percentages is not modelled.
- `Math.random()` is a sequence of given draws in [0, 1). Whether the shuffle is uniform is a probabilistic property and is not stated.
- Actions.Shuffle: the shuffled result is tied to the given draws; no property of its distribution is stated.
- `submitVote` is fire-and-forget. The model sends the vote, updates the summary and removes the card in one step. The 200 ms delay before removal, and the order in which a concurrent insert completes, are not modelled.
- A failing vote insert, which the card stack only logs, is not modelled on the card stack's side.
- `preloadImages` only warms the browser cache.
- Setup.SetupForm.RefreshGendersForSelection: the effect is one atomic step that reads the current selection. In the source, the `getAvailableGenders(...).then(...)` answers arrive asynchronously and can land out of order, so a stale gender list can replace a newer one. Response ordering is not modelled.
- Setup.SetupForm.RefreshCount: the effect is one atomic step that reads the current selections. In the source, the `getCharacterCount(...).then(setCharacterCount)` answers can land out of order. A stale count can then enable Start or a limit option for a selection that no longer holds. Response ordering is not modelled.
- Rendering, animation, motion values and styling are left out.
- CardStack.Stack.Progress: the percentage is an exact real, not a JavaScript float.
- `if (!char) return null` in `getRandomCharacter` cannot trigger: the index is always below the list's length, as `Js.RandomIndex` states.
- The catalog is assumed to always give a romaji title.
- Characters from the per-anime query carry no media nodes, so their cards use the "Unknown Anime" fallback. The model lets the caller supply the fetched list as it is.
- In the seeder, the inserts never fail. Lookup-then-insert means a taken external id is never reinserted, so the throw the code would raise on a failed insert cannot happen.
- The seeder is sequential. Concurrent seeding runs are not modelled.
- The target anime list and the preset table are parameters: the constants file that defines them is not part of this model.
- `ANIME_PRESETS` key types and the `AnimeName`/`Gender` string types are plain strings.
- Lower-casing is ASCII only.
- The JSON model has integer numbers only. A fractional `limit` is outside it.
- PlayPage.StartAsWritten: the as-written path is followed only until the selections are read. A truthy value whose `animes` is, say, a string is read no further.

## Findings

| source | as written | input that shows it | evidently intended | confidence | as-written member | corrected member |
|---|---|---|---|---|---|---|
| src/app/actions.ts:47 | `getGameConfig` returns `JSON.parse(value) as GameConfig` without checking the shape; the play page then reads `config.animes.length` (src/app/play/page.tsx:28) | a `game-config` cookie whose value is `{}` (or any object without `animes`): the page throws a TypeError instead of redirecting | a value that is not a configuration is treated as no configuration, so the page redirects to the setup form | not executed; needs a cookie not written by `saveGameConfig` | Actions.GetGameConfigAsWritten, PlayPage.StartAsWritten, PlayPage.EmptyObjectCookie | Actions.GetGameConfig, PlayPage.CheckedReadNeverThrows |
