# Twin Match level progress, modelled in Dafny

Twin Match is a matching-pairs game with 200 levels. This project models two parts of it:

- **The level-progress store** (`utils/levelStorage.ts`). It keeps three keys in a key-value store: the completed levels, the unlocked levels and the time the last interstitial ad was shown. Each operation reads a key, checks it, extends the list and writes it back. The unlocked list repairs itself so that level 1 is always in it. Completing a level below 30 unlocks the next level. Interstitial ads are at least five minutes apart.
- **The level grid on the home screen** (`app/index.tsx`). It builds the list of 200 entries `{id, unlocked, completed}` from the two stored lists. Pressing a locked entry does nothing.

Files:

- `numeric_sort.dfy`, module `NumericSort`: the ascending sort the store applies after repairing the unlocked list (the array sort with comparator `(a, b) => a - b`).
- `level_storage.dfy`, module `LevelStorage`. The class `ProgressStore` has one field per storage key and one method per exported function. Its methods change the fields in place, as the source's read-modify-write sequences do. Pure functions (`ReadCompleted`, `ReadUnlocked`, `HealUnlocked`, `CompletedAfter`, `UnlockedAfter`, `UnlockedAfterCompletion`, `ShouldShowAd`) state what each read returns and what each operation leaves in the store. The methods are proved against these functions, and the lemmas prove the promised properties about them.
- `level_select.dfy`, module `LevelSelect`: the grid as pure functions, and lemmas linking the grid to the store.

How stored values are represented. Each key is a `Slot`:

- `Absent` covers a missing key and a read the storage wrapper swallowed, for both of which it returns null. It also covers an empty string: the wrapper returns that unchanged, but every caller's truthiness test (`data ?`, `if (data)`) treats it like null.
- `Malformed` is text that does not parse. For the two level lists this is a `JSON.parse` failure. When the completed list is malformed, `getCompletedLevels` catches the error and returns `[]`. When the unlocked list is malformed, `getUnlockedLevels` catches it and returns `[1]` without writing anything. For the timestamp, `Malformed` is text from which `parseInt` gets `NaN`.
- `Stored(v)` is a value that parses.

Values are typed (`seq<int>`, `int`); the JSON and decimal encodings are not modelled. The clock is the parameter `now`.

Two behaviours the model follows from the code:

- `completeLevel(n)` with `n >= 30` never calls `unlockLevel`. So the unlocked key is not read at all, and the level-1 repair does not happen either: the key is left exactly as it was.
- The level limit of 30 sits inside a grid of 200 levels. Completing level 30 unlocks nothing, so the highest level a completion unlocks is 30. `LevelsPastCeilingStayLocked` proves the consequence: levels 31 to 200 are never unlocked on the grid by playing. (The game screen still moves on to the next level after a win without checking the unlocked list, so those levels can be played; they only stay locked on the grid.) This behaviour is modelled as it is, not corrected.

A saved timestamp of `0` is falsy, so it never holds an ad back. That is why `CooldownAfterSave` treats `t == 0` separately.

## Model

| member | source | states |
|---|---|---|
| `NumericSort.InsertAscending` | utils/levelStorage.ts:91 | inserting into an ascending list gives an ascending list whose multiset is the old one plus the new element |
| `NumericSort.Sort` | utils/levelStorage.ts:91 | the result is ascending and a permutation of the input |
| `NumericSort.SortKeepsMembers` | utils/levelStorage.ts:90-91 | sorting neither adds nor drops a member |
| `LevelStorage.ReadUnlocked` | utils/levelStorage.ts:83-110 | the list `getUnlockedLevels` returns always holds 1, including on the absent and unparseable fallbacks; otherwise it holds exactly the stored members plus 1 |
| `LevelStorage.ReadCompleted` | utils/levelStorage.ts:51-59 | the list `getCompletedLevels` returns: the stored list, or `[]` for a missing or unparseable value |
| `LevelStorage.HealUnlocked` | utils/levelStorage.ts:86-105 | a missing key, or a stored list lacking 1, is written back as exactly the list returned; an unparseable value is never rewritten; a list that already holds 1 is left as stored |
| `LevelStorage.CompletedAfter` | utils/levelStorage.ts:64-71 | after `completeLevel(n)` the completed list holds `n`; the key is rewritten only when `n` was missing |
| `LevelStorage.UnlockedAfter` | utils/levelStorage.ts:113-123 | after `unlockLevel(n)` the unlocked list holds `n`; the key is never left missing, and a persisted list holds 1 and reads back unchanged |
| `LevelStorage.UnlockedAfterCompletion` | utils/levelStorage.ts:73-76 | completing `n < 30` unlocks `n + 1`; for `n >= 30` the unlocked key is unchanged |
| `LevelStorage.ShouldShowAd` | utils/levelStorage.ts:171-178 | a missing or non-numeric timestamp shows the ad; a nonzero timestamp less than 300000 ms before `now` holds it back |
| `LevelStorage.ProgressStore.GetCompletedLevels` | utils/levelStorage.ts:51-59 | returns the stored list, or `[]` when the key is missing or unparseable |
| `LevelStorage.ProgressStore.CompleteLevel` | utils/levelStorage.ts:62-80 | appends the level to the completed list only if it is absent; unlocks the next level only below 30; leaves the ad timestamp alone |
| `LevelStorage.ProgressStore.GetUnlockedLevels` | utils/levelStorage.ts:83-110 | returns the repaired list and persists the repair: `[1]` for a missing key; 1 added and the list sorted when 1 is missing; no write when the value is unparseable or already holds 1 |
| `LevelStorage.ProgressStore.UnlockLevel` | utils/levelStorage.ts:113-123 | after the repair, appends the level only if it is absent |
| `LevelStorage.ProgressStore.IsLevelCompleted` | utils/levelStorage.ts:126-129 | true exactly when the level is in the completed list as read |
| `LevelStorage.ProgressStore.IsLevelUnlocked` | utils/levelStorage.ts:132-135 | true exactly when the level is in the repaired unlocked list; performs the same repair write as `GetUnlockedLevels` |
| `LevelStorage.ProgressStore.ResetProgress` | utils/levelStorage.ts:138-145 | removes the completed and unlocked keys and leaves the ad timestamp untouched |
| `LevelStorage.ProgressStore.GetLastInterstitialAdTime` | utils/levelStorage.ts:150-158 | returns the timestamp key as read: none, non-numeric, or a number |
| `LevelStorage.ProgressStore.SaveLastInterstitialAdTime` | utils/levelStorage.ts:161-168 | stores the given clock reading and changes neither level key |
| `LevelStorage.ProgressStore.ShouldShowInterstitialAd` | utils/levelStorage.ts:171-183 | true when no timestamp is stored or it is falsy (0 or non-numeric); otherwise true exactly when at least 300000 ms have passed |
| `LevelStorage.HealIsStable` | utils/levelStorage.ts:86-105 | a second read of the unlocked list rewrites nothing and returns the same list |
| `LevelStorage.RepairSortsAndKeeps` | utils/levelStorage.ts:86-97 | a list missing 1 is returned ascending, holding its old members plus one 1; a list holding 1 is returned and kept unchanged |
| `LevelStorage.UnlockAppendsOnce` | utils/levelStorage.ts:115-119 | the unlocked list read after `unlockLevel(n)` is the one read before, with `n` appended at the end when it was missing |
| `LevelStorage.UnlockIsIdempotent` | utils/levelStorage.ts:113-123 | unlocking a level twice leaves the store as unlocking it once |
| `LevelStorage.CompletionRecordsOnce` | utils/levelStorage.ts:64-71 | after `completeLevel(n)` the completed list holds `n`; if `n` was absent it is appended once at the end; if present the key is not rewritten |
| `LevelStorage.CompleteLevelIsIdempotent` | utils/levelStorage.ts:62-80 | completing a level twice leaves both level keys as completing it once |
| `LevelStorage.CompletionUnlocksNext` | utils/levelStorage.ts:73-76 | after `completeLevel(n)` the unlocked levels are those before plus `n + 1` exactly when `n < 30`, in both directions; for `n >= 30` the unlocked key is unchanged |
| `LevelStorage.ProgressionCeiling` | utils/levelStorage.ts:73-76 | if every unlocked level is at most 30, it still is after any completion |
| `LevelStorage.NoDuplicatesKept` | utils/levelStorage.ts:62-123 | neither completing nor unlocking introduces a duplicate into a list without duplicates |
| `LevelStorage.RepairKeepsNoDuplicates` | utils/levelStorage.ts:89-91 | the level-1 repair does not introduce a duplicate |
| `LevelStorage.ResetRestartsProgress` | utils/levelStorage.ts:99-105 | after a reset the unlocked list reads and persists as exactly `[1]`, and the completed list reads as empty |
| `LevelStorage.CooldownAfterSave` | utils/levelStorage.ts:171-178 | after saving a nonzero time `t`, the ad is held back exactly while `now < t + 300000`; a saved 0 never holds it back |
| `LevelSelect.InitialLevels` | app/index.tsx:73-78 | 200 entries, entry `i` has id `i + 1`, only id 1 unlocked, none completed |
| `LevelSelect.LoadedLevels` | app/index.tsx:81-92 | 200 entries, entry `i` has id `i + 1`; an entry is unlocked iff its id is in the unlocked list, and independently completed iff its id is in the completed list |
| `LevelSelect.GridFromStore` | app/index.tsx:81-92 | the grid loaded from the store has 200 entries, each unlocked iff its id is in the unlocked list as read, and completed iff its id is in the completed list as read |
| `LevelSelect.HandleLevelPress` | app/index.tsx:111-118 | a locked entry is ignored; an unlocked one opens the game of its own id |
| `LevelSelect.EntriesAreLevelsInOrder` | app/index.tsx:86-90 | the ids are exactly 1 to 200, all distinct |
| `LevelSelect.FirstLevelAlwaysOpens` | app/index.tsx:88 | for any stored values, level 1 is unlocked after a load and pressing it opens game 1 |
| `LevelSelect.PressOpensOnlyUnlocked` | app/index.tsx:111-118 | pressing entry `i` of a loaded grid opens level `i + 1` iff the unlocked list as read holds it, otherwise does nothing |
| `LevelSelect.InitialGridOpensOnlyFirst` | app/index.tsx:73-77 | before the first load only the first entry can be opened |
| `LevelSelect.LevelsPastCeilingStayLocked` | app/index.tsx:32 | while the unlocked levels are at most 30, entries 31 to 200 ignore presses, before and after any completion |

## Left out

- The storage wrapper's platform branching between web `localStorage` and native `AsyncStorage`, and its logging. The store is three typed fields; a failed read is `Absent`, as the wrapper reports it.
- Failed writes. The wrapper swallows `setItem` and `removeItem` errors; the model's writes always take effect.
- JSON that parses but is not an array (a number or an object, say) under the completed key. `getCompletedLevels` then returns the non-array itself (utils/levelStorage.ts:54), and the next `includes` throws. `completeLevel` swallows the error in its `catch` and skips the unlock. `isLevelCompleted` has no `catch` and rejects to its caller, and the home screen's `loadLevels` (app/index.tsx:89) rejects and leaves the grid as it was. None of these paths is modelled. Under the unlocked key the same `includes` error (utils/levelStorage.ts:89) is caught at :106-108 and gives `[1]` with no write, which is exactly the model's `Malformed` case.
- `parseInt` reading a number prefix out of text such as `"12abc"`.
- JavaScript number semantics. Levels and times are unbounded integers, so fractional, `NaN` or out-of-range numbers are not modelled.
- `Date.now()`. The clock reading is the parameter `now` of `SaveLastInterstitialAdTime` and `ShouldShowInterstitialAd`.
- The async interleaving of the store's operations. Each exported function is one atomic method; overlapping calls are a concurrency concern outside the model.
- The outer `catch` of `shouldShowInterstitialAd`, which returns false. Nothing it calls can throw (`getLastInterstitialAdTime` catches its own errors), so that branch is not modelled.
- `LevelSelect.HandleLevelPress`: it returns the level id to open, not the route string `/game/<id>`, and does not model the router.
- `LevelSelect.Level`: the `completed` flag is false in the initial grid, where the source leaves it undefined. Its only reader, `level.completed || false`, treats undefined as false.
- The rendering, colours, styles, banner ad, the floating-point card-size layout, and the focus and mount triggers that call `loadLevels`. These are presentation only.
- `utils/analytics.ts` and `app/_layout.tsx`. They are a fire-and-forget analytics wrapper and ad-SDK plus navigator setup, with no state to verify.
- The deck generator (`getGridSize`, `createCards` with its Fisher–Yates shuffle) and the round engine (`handleCardPress`, `handleHint`). They live in the game screen `app/game/[level].tsx` and are deliberately outside this model.
- The hint and reward counters (`addGlobalHints`, `getGlobalHints`, `useGlobalHint`, `getRewardRemaining`, `useReward`). The game screen imports them from the store module, but the store file that is modelled here does not define them, so they cannot be modelled. The game screen's only calls into the modelled store are `completeLevel` (app/game/[level].tsx:397) and `shouldShowInterstitialAd` with `saveLastInterstitialAdTime` (:653-655).
