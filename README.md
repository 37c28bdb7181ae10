# SyncScript dashboard logic, modelled in Dafny

SyncScript is a client-side "research vault" dashboard. Its state lives in
React components over mock arrays. This project models the parts of it that
have behaviour to state:

- **Loading screen** (module `Loading`). Three state fields
  (`animationComplete`, `progress`, `loadingComplete`) are driven by three
  timers: the intro timeout, a progress interval that adds 2 per tick and is
  pinned at 100, and a settle timeout. `Step` is the transition function over
  a `Status` that also records which timers are armed and whether the screen
  is mounted. `Run` replays a sequence of events. The class `LoadingScreen`
  has the same fields, and each event is a method proved equal to `Step`.
  The lemmas prove what holds over every run: bounds and evenness,
  monotonicity, ordering, the 50-tick fill, no change after unmount, and the
  display rules.
- **Vault lists** (modules `VaultList`, `MyVaults`, `Favorites`). The two
  pages hold independent copies of the same list and handlers. `VaultList`
  defines that shared logic once: the case-insensitive title search, the
  favourites filter, toggle-favourite by id, delete by id, the three-dots
  menu toggle and the avatar/overflow rule. `MyVaultsPage` and
  `FavoritesPage` are the two pages' state, and their methods replace their
  fields the way the `useState` setters do.
- **Settings** (module `Settings`). The preference toggle, the photo guards
  (size first, then MIME type, with early returns), the initials shown when
  there is no photo, and the page class.
- **Team modal** (module `ManageAccess`). The three roles, the colour map,
  and the role change, which copies the list into an array, replaces one row
  and stores the copy. The Invite button has no click handler, so it has no
  operation here. Typing in the invite box changes only the box
  (`SetInviteEmail`).
- **Shared with me** (module `SharedResearch`). The owner initials, the
  row-divider rule and the total role-badge lookup over the fixed list.
- `Text` holds the string operations these use: ASCII case mapping,
  `includes`, `startsWith`, `slice(0, n)`, `split` on one character and
  "first character of each word". `Wrappers` holds `Option`.

Two behaviours of the loading screen are easy to misread:

- The tick that takes progress from 98 to 100 does not stop the interval.
  The next tick sees 100, clears the interval and returns 100 unchanged.
  React skips a re-render for an unchanged value, so the settle timer armed
  at 100 is not cancelled (`Ticks`, `NominalRun`).
- "Done" is `loadingComplete`. The component then renders nothing, but it
  stays mounted; only the host's unmount runs the cleanups.

## Model

| member | source | states |
|---|---|---|
| `Loading.NextProgress` | SyncScript/src/components/LoadingScreen.tsx:27-33 | the tick updater: 100 is its only fixed point; from an even value in 0..100 it moves to an even value no smaller, still in 0..100 |
| `Loading.Step` | SyncScript/src/components/LoadingScreen.tsx:13-47 | one timer firing or the unmount; on a reachable state no event lowers progress or clears `animationComplete` or `loadingComplete`; `animationComplete` turns true only by the armed intro timer, `loadingComplete` only by the settle timer armed at 100 |
| `Loading.ViewOf` | SyncScript/src/components/LoadingScreen.tsx:49-93 | nothing exactly when `loadingComplete`; otherwise the title letters, the bar at the current progress exactly once the intro is over, and the "Initializing Workspace..." footer exactly while it is not |
| `Loading.LoadingScreen.constructor` | SyncScript/src/components/LoadingScreen.tsx:6-19 | mount: all three flags at their initial values, only the intro timer armed, and the invariant holds |
| `Loading.LoadingScreen.OnIntroTimer` | SyncScript/src/components/LoadingScreen.tsx:13-26 | the intro callback sets `animationComplete`; the effect keyed on it starts the interval; equals `Step(_, IntroTimer)` and keeps the invariant |
| `Loading.LoadingScreen.OnIntervalTick` | SyncScript/src/components/LoadingScreen.tsx:26-47 | a tick adds 2, or pins at 100 and clears the interval; a changed value re-arms the settle timer exactly when it is 100; equals `Step(_, IntervalTick)` |
| `Loading.LoadingScreen.OnSettleTimer` | SyncScript/src/components/LoadingScreen.tsx:42-44 | the settle callback sets `loadingComplete`; equals `Step(_, SettleTimer)` |
| `Loading.LoadingScreen.Unmount` | SyncScript/src/components/LoadingScreen.tsx:18 | every cleanup cancels its pending timer; equals `Step(_, Unmount)` |
| `Loading.LoadingScreen.Render` | SyncScript/src/components/LoadingScreen.tsx:49-93 | the output is `ViewOf` of the current state, so nothing exactly when `loadingComplete` |
| `Loading.MountedInv` | SyncScript/src/components/LoadingScreen.tsx:6-8 | the mounted state satisfies the invariant (progress 0, only the intro armed) |
| `Loading.StepInv` | SyncScript/src/components/LoadingScreen.tsx:13-47 | every event keeps the invariant: progress even and in 0..100, each timer armed exactly while the source keeps it armed, completion only at 100 |
| `Loading.RunInv` | SyncScript/src/components/LoadingScreen.tsx:27-33 | every sequence of events keeps the invariant, so progress is always in 0..100 and even |
| `Loading.RunMonotone` | SyncScript/src/components/LoadingScreen.tsx:27-33 | over any run progress never decreases and both completion flags stay set once set |
| `Loading.ProgressNeverDecreases` | SyncScript/src/components/LoadingScreen.tsx:27-33 | progress after any prefix of a run is at most progress after the whole run |
| `Loading.NothingBeforeIntro` | SyncScript/src/components/LoadingScreen.tsx:21-23 | until the intro timer fires no tick runs: progress stays 0 and neither completion flag is set |
| `Loading.Ticks` | SyncScript/src/components/LoadingScreen.tsx:26-34 | after the intro, n ticks give progress min(p + 2n, 100); a running interval still runs iff p + 2n ≤ 100 |
| `Loading.FiftyTicksFill` | SyncScript/src/components/LoadingScreen.tsx:28-32 | from the end of the intro, 49 ticks give 98, 50 give exactly 100 with the settle timer armed, and any further ticks leave 100 |
| `Loading.NominalRun` | SyncScript/src/components/LoadingScreen.tsx:13-52 | intro, 51 ticks, settle: loading complete at 100, no timer left pending, nothing rendered |
| `Loading.IdleIsFrozen` | SyncScript/src/components/LoadingScreen.tsx:36 | an unmounted screen with no timer armed is unchanged by any run |
| `Loading.NoChangeAfterUnmount` | SyncScript/src/components/LoadingScreen.tsx:45 | after unmount no further event changes any field |
| `Loading.UnmountBeforeDoneNeverDone` | SyncScript/src/components/LoadingScreen.tsx:42-45 | unmounting before `loadingComplete` means it never becomes true |
| `Loading.DoneIsFinal` | SyncScript/src/components/LoadingScreen.tsx:49-52 | once `loadingComplete` holds the output stays empty and progress stays 100 under any run |
| `Loading.DisplayRules` | SyncScript/src/components/LoadingScreen.tsx:72-92 | on a reachable state, while shown, exactly one of bar and footer is present, the bar value is even and in 0..100, and progress is 0 while the footer shows |
| `Text.LowerChar` | SyncScript/src/pages/MyVaults.tsx:63 | an upper-case ASCII letter becomes the lower-case letter at the same alphabet position; every other character is kept |
| `Text.UpperChar` | SyncScript/src/pages/SettingsPage.tsx:87 | a lower-case ASCII letter becomes the upper-case letter at the same alphabet position; every other character is kept |
| `Text.CaseRoundTrip` | SyncScript/src/pages/SettingsPage.tsx:87 | upper-casing undoes lower-casing on upper-case letters and vice versa; both keep every non-letter |
| `Text.Lower` | SyncScript/src/pages/MyVaults.tsx:63 | `toLowerCase` keeps the length and lower-cases every character in place by `LowerChar`, so no upper-case letter is left and every other character is kept |
| `Text.Upper` | SyncScript/src/pages/SettingsPage.tsx:87 | `toUpperCase` keeps the length and upper-cases every character in place by `UpperChar`, so no lower-case letter is left and every other character is kept |
| `Text.LowerProperties` | SyncScript/src/pages/MyVaults.tsx:62-64 | lower-casing is idempotent, and a string with no upper-case letter is unchanged by it |
| `Text.UpperProperties` | SyncScript/src/pages/SettingsPage.tsx:86-88 | upper-casing is idempotent, and a string with no lower-case letter is unchanged by it |
| `Text.UpperTake` | SyncScript/src/pages/SettingsPage.tsx:87 | upper-casing then slicing equals slicing then upper-casing |
| `Text.Take` | SyncScript/src/pages/SettingsPage.tsx:87 | `slice(0, n)` is a prefix of length n, or the whole string when shorter |
| `Text.StartsWith` | SyncScript/src/pages/SettingsPage.tsx:40 | `startsWith` holds iff the prefix is no longer than the string and agrees with it character by character from the front |
| `Text.Contains` | SyncScript/src/pages/MyVaults.tsx:63 | `includes`: the empty pattern is found in every string, and a pattern is never found in a shorter string |
| `Text.ContainsIff` | SyncScript/src/pages/MyVaults.tsx:63 | `includes` holds iff the pattern occurs at some offset |
| `Text.Split` | SyncScript/src/pages/SettingsPage.tsx:87 | `split` on one character always yields at least one piece |
| `Text.JoinSplit` | SyncScript/src/pages/SharedResearch.tsx:52 | joining the pieces of `split` with the separator gives back the string |
| `Text.SplitPiecesHaveNoSeparator` | SyncScript/src/pages/SharedResearch.tsx:52 | no piece of `split` contains the separator |
| `Text.FirstLetters` | SyncScript/src/pages/SharedResearch.tsx:52 | `map(w => w[0]).join("")` yields at most one character per word |
| `Text.FirstLettersOfSplit` | SyncScript/src/pages/SharedResearch.tsx:52 | the first letters of the split words are exactly the characters that start a word (non-space, at the front or after a space), in order |
| `Text.WordStartsOfTwoWords` | SyncScript/src/pages/SharedResearch.tsx:52 | two space-free words joined by one space start exactly two words, at their first characters |
| `Text.FirstLettersOfTwoWords` | SyncScript/src/pages/SharedResearch.tsx:52 | a two-word name gives the first character of each word |
| `VaultList.Filter` | SyncScript/src/pages/MyVaults.tsx:62-64 | `filter` keeps only elements satisfying the test and never lengthens the list |
| `VaultList.FilterAppend` | SyncScript/src/pages/Favorites.tsx:61 | filtering distributes over concatenation, so it preserves relative order |
| `VaultList.FilterMembership` | SyncScript/src/pages/Favorites.tsx:61 | an element is kept iff it is in the list and satisfies the test |
| `VaultList.FilterAllOrNone` | SyncScript/src/pages/MyVaults.tsx:76 | filtering keeps the whole list when every element passes and nothing when none does |
| `VaultList.SearchResults` | SyncScript/src/pages/MyVaults.tsx:62-64 | every listed vault's lower-cased title contains the lower-cased search, and the listing is never longer than the list |
| `VaultList.SearchResultsSpec` | SyncScript/src/pages/MyVaults.tsx:62-64 | a vault is listed iff its lower-cased title contains the lower-cased search, and the listing keeps the order |
| `VaultList.EmptySearchKeepsAll` | SyncScript/src/pages/MyVaults.tsx:62-64 | an empty search lists every vault, in order |
| `VaultList.FavoriteVaults` | SyncScript/src/pages/Favorites.tsx:61 | every listed vault has its flag set to true, and the listing is never longer than the list |
| `VaultList.FavoriteVaultsSpec` | SyncScript/src/pages/Favorites.tsx:61 | a vault is listed on Favorites iff its flag is true, in order |
| `VaultList.InitialFavoritesEmpty` | SyncScript/src/pages/Favorites.tsx:17-61 | no mock vault is a favourite, so the Favorites list starts empty |
| `VaultList.Flipped` | SyncScript/src/pages/MyVaults.tsx:69 | the copy keeps every field but the flag, which becomes a boolean whose truth value is the opposite of the old one, so an absent flag becomes true |
| `VaultList.ToggleFavoriteById` | SyncScript/src/pages/MyVaults.tsx:66-72 | toggle keeps length and order and every vault with another id; a vault with the id keeps every other field and gets its flag's truth value negated |
| `VaultList.ToggleFavoriteTwice` | SyncScript/src/pages/MyVaults.tsx:68-70 | toggling twice restores the list when the flags were booleans; an absent flag comes back as `false` |
| `VaultList.UnfavoriteRemovesFromFavorites` | SyncScript/src/pages/Favorites.tsx:61-69 | if every vault with the id is a favourite, toggling has the same effect on the favourites list as deleting that id |
| `VaultList.RemoveById` | SyncScript/src/pages/MyVaults.tsx:74-78 | no vault with that id is left, and the list never grows |
| `VaultList.RemoveByIdSpec` | SyncScript/src/pages/MyVaults.tsx:74-78 | delete keeps exactly the vaults with another id, in order; deleting an absent id changes nothing |
| `VaultList.ToggleMenu` | SyncScript/src/pages/MyVaults.tsx:80-83 | the menu ends closed exactly when it was open on this card, and otherwise opens on it |
| `VaultList.ToggleMenuSpec` | SyncScript/src/pages/MyVaults.tsx:80-83 | two clicks on one card end with the menu closed, starting from closed or from a menu open on another card |
| `VaultList.ShownAvatars` | SyncScript/src/pages/MyVaults.tsx:179 | exactly min(length, 3) avatars are drawn: the first collaborators, in order, and all of them when there are at most three |
| `VaultList.OverflowBadge` | SyncScript/src/pages/MyVaults.tsx:187-191 | the `+n` badge is present exactly when there are more than three collaborators, and then n = length − 3 |
| `VaultList.AvatarRule` | SyncScript/src/pages/MyVaults.tsx:179-191 | the shown avatars plus the badge's n equal the number of collaborators, so each is counted once (same rule in Favorites.tsx:167-179) |
| `VaultList.InitialIdsUnique` | SyncScript/src/pages/MyVaults.tsx:17-54 | the mock vaults have distinct ids |
| `VaultList.ToggleKeepsUniqueIds` | SyncScript/src/pages/MyVaults.tsx:68-70 | toggling a flag keeps distinct ids distinct |
| `VaultList.FilterKeepsUniqueIds` | SyncScript/src/pages/Favorites.tsx:61 | a filtered list of vaults with distinct ids has distinct ids |
| `VaultList.RemoveKeepsUniqueIds` | SyncScript/src/pages/MyVaults.tsx:76 | deleting by id keeps distinct ids distinct |
| `MyVaults.MyVaultsPage.constructor` | SyncScript/src/pages/MyVaults.tsx:58-60 | empty search, the mock vaults, no menu open |
| `MyVaults.MyVaultsPage.Filtered` | SyncScript/src/pages/MyVaults.tsx:62-64 | the grid shows exactly the page's vaults whose lower-cased title contains the lower-cased search |
| `MyVaults.MyVaultsPage.SetSearch` | SyncScript/src/pages/MyVaults.tsx:103-109 | typing replaces `search` and nothing else |
| `MyVaults.MyVaultsPage.ToggleFavorite` | SyncScript/src/pages/MyVaults.tsx:66-72 | the list becomes the toggled list, the menu closes, the search is kept |
| `MyVaults.MyVaultsPage.DeleteVault` | SyncScript/src/pages/MyVaults.tsx:74-78 | the list loses the vaults with that id, the menu closes, the search is kept |
| `MyVaults.MyVaultsPage.ToggleMenu` | SyncScript/src/pages/MyVaults.tsx:80-83 | only `openMenuId` changes, by the menu toggle |
| `MyVaults.TwoMenuClicksClose` | SyncScript/src/pages/MyVaults.tsx:127-135 | two clicks on one card's menu button from closed leave the page as it was |
| `Favorites.FavoritesPage.constructor` | SyncScript/src/pages/Favorites.tsx:58-59 | the mock vaults, no menu open, the empty state shown, and every card has its own id |
| `Favorites.FavoritesPage.Listed` | SyncScript/src/pages/Favorites.tsx:61 | the grid shows exactly the page's vaults whose flag is true |
| `Favorites.FavoritesPage.ShowsEmptyState` | SyncScript/src/pages/Favorites.tsx:94 | the "No favorites yet" panel shows exactly when no vault of the page is a favourite |
| `Favorites.FavoritesPage.ToggleFavorite` | SyncScript/src/pages/Favorites.tsx:63-69 | the list becomes the toggled list, the menu closes, and ids stay distinct |
| `Favorites.FavoritesPage.DeleteVault` | SyncScript/src/pages/Favorites.tsx:71-75 | the list loses the vaults with that id, the menu closes, and ids stay distinct |
| `Favorites.FavoritesPage.ToggleMenu` | SyncScript/src/pages/Favorites.tsx:77-80 | only `openMenuId` changes, by the menu toggle |
| `Favorites.UnfavoriteListed` | SyncScript/src/pages/Favorites.tsx:94-128 | on any page the constructor and handlers produce (distinct ids), unfavoriting a listed card removes exactly that card from the grid and keeps the full list's length |
| `Settings.TogglePrefs` | SyncScript/src/pages/SettingsPage.tsx:20-24 | toggle keeps length, order, ids and labels and flips `checked` exactly on the preferences with that id |
| `Settings.TogglePrefsTwice` | SyncScript/src/pages/SettingsPage.tsx:21-23 | toggling one preference twice is the identity |
| `Settings.CheckPhoto` | SyncScript/src/pages/SettingsPage.tsx:27-47 | no file iff none chosen; too large iff over 5 MiB, whatever the type; invalid type iff small enough with a type not starting with `image/`; accepted iff both guards pass |
| `Settings.SizeBoundary` | SyncScript/src/pages/SettingsPage.tsx:30-47 | the limit is 5,242,880 bytes: that size passes, one more byte is too large even with a wrong type |
| `Settings.GetInitials` | SyncScript/src/pages/SettingsPage.tsx:86-88 | initials have at most two characters and no lower-case letter |
| `Settings.GetInitialsSpec` | SyncScript/src/pages/SettingsPage.tsx:86-88 | initials are the upper-cased word-start characters (non-space, at the front or after a space), in order, cut after the second |
| `Settings.GetInitialsOfTwoWords` | SyncScript/src/pages/SettingsPage.tsx:87 | a two-word name gives the upper-cased first character of each word |
| `Settings.DefaultInitials` | SyncScript/src/pages/SettingsPage.tsx:15 | the default name "Dr. Researcher" gives "DR" |
| `Settings.AvatarOf` | SyncScript/src/pages/SettingsPage.tsx:107-111 | the photo shows iff the URL is present and non-empty, and it is that URL; otherwise the initials of the name |
| `Settings.SettingsPage.constructor` | SyncScript/src/pages/SettingsPage.tsx:14-17 | the default preferences, name and title, and no photo |
| `Settings.SettingsPage.TogglePref` | SyncScript/src/pages/SettingsPage.tsx:20-24 | the preferences become the toggled list; nothing else changes |
| `Settings.SettingsPage.SetName` | SyncScript/src/pages/SettingsPage.tsx:135-140 | typing replaces the name and nothing else |
| `Settings.SettingsPage.SetTitle` | SyncScript/src/pages/SettingsPage.tsx:146-151 | typing replaces the title and nothing else |
| `Settings.SettingsPage.HandlePhotoChange` | SyncScript/src/pages/SettingsPage.tsx:26-59 | the outcome is the guard result; only an accepted file changes `avatarUrl`, to its data URL; a rejected file leaves it unchanged |
| `Settings.SettingsPage.Avatar` | SyncScript/src/pages/SettingsPage.tsx:107-111 | the circle shows the stored photo, with that URL, iff the URL is present and non-empty, otherwise the initials of the current name |
| `ManageAccess.ParseRole` | SyncScript/src/components/ManageAccessModal.tsx:62 | an option value reads back as role q exactly when it is q's name, and nothing else reads back as a role |
| `ManageAccess.RolesOffered` | SyncScript/src/components/ManageAccessModal.tsx:9 | the selector offers each of Owner, Contributor, Viewer exactly once; reading an option value back gives its role, so the cast is sound |
| `ManageAccess.RoleColorsTotal` | SyncScript/src/components/ManageAccessModal.tsx:21-25 | `roleColors` has an entry for every role, and distinct roles get distinct colours |
| `ManageAccess.WithRole` | SyncScript/src/components/ManageAccessModal.tsx:60-64 | a role change keeps the length and every other member; row i keeps name, email and initials and gets the new role |
| `ManageAccess.ManageAccessModal.constructor` | SyncScript/src/components/ManageAccessModal.tsx:11-19 | the three mock members and an empty invite box |
| `ManageAccess.ManageAccessModal.ChangeRole` | SyncScript/src/components/ManageAccessModal.tsx:60-64 | copy the list, replace row i by a copy with the new role, store it; the invite box is unchanged |
| `ManageAccess.ManageAccessModal.SetInviteEmail` | SyncScript/src/components/ManageAccessModal.tsx:84-93 | typing in the invite box changes only the box; members are unchanged |
| `ManageAccess.ManageAccessModal.RoleColorOf` | SyncScript/src/components/ManageAccessModal.tsx:65 | row i's selector gets the colour of its member's role, and no other role has that colour |
| `SharedResearch.OwnerInitials` | SyncScript/src/pages/SharedResearch.tsx:52 | the owner initials never have more characters than the name has space-separated pieces |
| `SharedResearch.OwnerInitialsSpec` | SyncScript/src/pages/SharedResearch.tsx:52 | owner initials are exactly the word-start characters, in order, neither upper-cased nor truncated |
| `SharedResearch.OwnerInitialsExamples` | SyncScript/src/pages/SharedResearch.tsx:5-8 | "Prof. Adams" gives "PA" and "Dr. Smith" gives "DS" |
| `SharedResearch.HasDivider` | SyncScript/src/pages/SharedResearch.tsx:42-44 | row i of n has the divider iff it is not the last row |
| `SharedResearch.BadgeLookupTotal` | SyncScript/src/pages/SharedResearch.tsx:4-16 | every shared vault's role is a key of `roleBadge` |
| `SharedResearch.Rows` | SyncScript/src/pages/SharedResearch.tsx:39-71 | one row per vault, in order, with its name, owner, role, last activity and its role's badge; only the last row lacks the divider |
| `SharedResearch.RowsSpec` | SyncScript/src/pages/SharedResearch.tsx:52 | each row's initials are the word-start characters of its owner's name |

## Left out

- Markup, CSS class strings, icons and animation styling: presentation only. The letter-drop stagger is kept only as the `AppName` constant.
- Wall-clock time: the durations (2500 ms, 30 ms, 300 ms) are named constants. Each timer firing is a discrete event, and any armed timer may fire next. The browser event loop is not modelled.
- Loading.Step: a state change and the effect it triggers happen in one step. The model does not interleave a timer callback between a render and its effects.
- React development-mode double effects and stale closures: not modelled. Each handler reads the current state.
- `FileReader` and data-URL production: asynchronous browser I/O. `HandlePhotoChange` takes the data URL as a parameter and sets it in the same call. The source sets it later, when the read completes.
- Toasts, `window.confirm`, `console.log`, `e.stopPropagation()` and router `navigate(...)`: side effects with no state of the page.
- `handleSaveChanges` (`localStorage.setItem` of a JSON record) and `handleDeleteAccount`: storage I/O and a confirm dialog.
- Unicode case mapping: `toLowerCase`/`toUpperCase` are modelled on ASCII letters only. `w[0]` is modelled as the first Unicode scalar, not the first UTF-16 code unit.
- Numbers: ids and file sizes are unbounded integers. The source's doubles make no difference at these magnitudes.
- ManageAccess.ManageAccessModal.ChangeRole: takes a `Role`, not the raw `e.target.value` string. The source casts that string without checking it. `RolesOffered` proves the cast is sound for the values the selector offers.
- VaultWorkspace.tsx, LoginPage.tsx and DashboardLayout.tsx are not part of this model: a selected-id field and a modal flag, a submit that only navigates, and pure composition.
- Favourites shared between My Vaults and Favorites: the source has none. Each page keeps its own copy, and so does the model.
