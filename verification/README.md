# Hack-or-Snooze page controller: host names, credential sync, favorite toggle

A Dafny model of the three pieces of sequential logic in the browser controller
`ui.js` of the Hack-or-Snooze story-sharing page:

- **`getHostName`**, which labels each story with the host part of its URL:
  segment 2 of `url.split("/")` when the URL contains `"://"`, segment 0
  otherwise, with one leading `"www."` removed. The JavaScript string methods it
  relies on (`indexOf`, `slice`, `split` on a one-character separator, keeping
  empty segments) are modelled in `JsString`.
- **Credential synchronisation** between the global `currentUser` and
  `localStorage`, modelled as a `map<string, string>`:
  `syncCurrentUserToLocalStorage` writes `token`, `username`, `creationDate`
  and `name` when a user is present and nothing otherwise; the login and signup
  handlers set `currentUser` from the settled remote call and then sync; logout
  is `localStorage.clear()`; on page load `checkIfLoggedIn` reads back `token`
  and `username`.
- **The favorite heart**: a click toggles the classes `far` and `fas` of the
  icon and then picks `addFavorite` or `removeFavorite` from the classes after
  the toggle. The click is modelled as a pure function from the class set, the
  current user and the story id to the new class set and the emitted call.

Modules: `Wrappers` (Option, settled promise), `JsString`, `HostName`,
`Storage`, `Session`, `Favorite`.

Facts about ui.js the model keeps as they are:

- the sync writes `token` first, then `username`, `creationDate` and `name` (ui.js:303-306), so when a `setItem` throws partway through, a token can be stored without the other fields while `currentUser` is already set (ui.js:36-37);
- nothing checks that a stored record is complete before it is used (ui.js:100-106);
- logout clears every key in storage, not only the four the page writes (ui.js:67);
- a favorite call that fails leaves the toggled heart as it is (ui.js:244-251);
- the user resolved on page load is never written back to storage (ui.js:106);
- the favorite dispatch is the inverse of the heart's styles (see Findings).

## Model

| member | source | states |
|---|---|---|
| JsString.IndexOf | ui.js:288 | `indexOf` returns -1 exactly when the pattern occurs nowhere, and otherwise an index where it occurs with no earlier occurrence |
| JsString.Slice | ui.js:293 | `slice(b, e)` with non-negative bounds is the range clamped to the string; an empty or out-of-range range gives the empty string |
| JsString.SliceFrom | ui.js:294 | `slice(b)` is the suffix from `b`, or empty when `b` is past the end |
| JsString.Split | ui.js:289-291 | `split` on one character yields at least one segment, none containing the separator, the first a prefix of the input |
| JsString.SplitLength | ui.js:289-291 | the number of segments is one more than the number of separators |
| JsString.JoinSplit | ui.js:289-291 | joining the segments with the separator gives back the input |
| JsString.SplitUnique | ui.js:289-291 | any separator-free segments that join to a string are exactly its split |
| JsString.SplitWithoutSeparator | ui.js:291 | a string without the separator splits into itself alone |
| JsString.SegmentIsSubstring | ui.js:289-291 | every segment is a substring of the split string |
| HostName.SchemeGivesThreeSegments | ui.js:288-289 | when the URL contains "://" the split has at least three segments, so index 2 always exists |
| HostName.HostSegment | ui.js:288-292 | the chosen segment contains no '/', is a substring of the URL, and is a prefix of it when there is no "://" |
| HostName.SegmentChoice | ui.js:288-292 | the segment is number 2 of the split when "://" occurs and number 0 otherwise |
| HostName.NoSchemeHost | ui.js:288-291 | a URL without '/' cannot hold "://" and is its own host segment, as "localhost:8080" is |
| HostName.StripWww | ui.js:293-295 | a segment starting with "www." loses exactly those four characters; any other segment is unchanged; the result is a substring of the segment |
| HostName.GetHostName | ui.js:286-297 | defined on every string; the host name has no '/', is a substring of the URL and is no longer than its segment |
| HostName.StripIsNotIdempotent | ui.js:293-296 | only one "www." is stripped: for any x without '/', "www.www.x" gives "www.x", which in turn gives "x" |
| HostName.SchemeUrlHost | ui.js:288-289 | in `scheme://host` followed by nothing or by a path starting with '/', the host segment is `host` |
| HostName.PlainUrlHost | ui.js:290-291 | in `host` followed by nothing or by a path starting with '/', with no "://" anywhere, the host segment is `host` |
| HostName.FullUrlExample | ui.js:286-297 | "http://www.ab.io/x" has the host name "ab.io" |
| Storage.GetItem | ui.js:100-101 | `getItem` yields a value exactly when the key is stored, and then the stored value |
| Storage.SetItem | ui.js:303 | after `setItem` the key reads as the new value, every other key reads as before, and the key set grows by that key only |
| Storage.Clear | ui.js:67 | after `clear` no key is stored |
| Storage.SetItems | ui.js:303-306 | a run of `setItem` calls on distinct keys of which the first n succeed: exactly those n keys hold their values and the key set grows by exactly them; every other key reads as before |
| Storage.SameReadsSameStore | ui.js:100-101 | two stores from which `getItem` reads the same value for every key are the same store |
| Session.SyncUpTo | ui.js:301-308 | when only the first n writes of a sync succeed, the keys token, username, creationDate, name are written in that order up to n and the rest read as before; keys the page does not own are never touched |
| Session.Sync | ui.js:301-308 | with a user, the four keys hold its token, username, creation date and name, and the key set gains exactly those four; every other key reads as before; without a user the store is unchanged |
| Session.AdoptAndSync | ui.js:34-37 | a rejected remote call leaves page and store as they were; a resolved value becomes `currentUser` before any write; with all writes succeeding the page is consistent, each of token, username and creationDate holds the new user's value once its write (the first, second, third) succeeds, and every owned key whose write never ran keeps its old value; a resolved null leaves the store unchanged; keys the page does not own are never touched |
| Session.LoginSubmit | ui.js:34-38 | a rejected login changes nothing; a resolved one sets `currentUser`; each of token, username and creationDate holds the new user's value once its write (the first, second, third) succeeds, and every owned key whose write never ran keeps its old value; with every write succeeding the page is consistent; a resolved null leaves the store unchanged; keys the page does not own are never touched |
| Session.SignupSubmit | ui.js:55-58 | a rejected signup changes nothing; a resolved one sets `currentUser`; each of token, username and creationDate holds the new user's value once its write (the first, second, third) succeeds, and every owned key whose write never ran keeps its old value; with every write succeeding the page is consistent; a resolved null leaves the store unchanged; keys the page does not own are never touched |
| Session.Logout | ui.js:67 | after logout no key is stored |
| Session.LogoutIdempotent | ui.js:67 | logout empties the store whatever it held, and logging out twice equals logging out once |
| Session.RestoreRequest | ui.js:100-101 | page load reads a token exactly when one is stored, and then the stored value; likewise for the username |
| Session.Restore | ui.js:98-113 | the user resolved on page load becomes `currentUser`, a rejected lookup leaves it null, and storage is left as it was |
| Session.SyncThenRestoreRequest | ui.js:301-304 | the token and username a sync writes are those the next page load reads |
| Session.LogoutThenRestoreRequest | ui.js:67 | after logout the next page load reads neither token nor username |
| Session.SyncIsCompleteSyncUpTo | ui.js:301-308 | a sync in which none of the four writes throws is the full sync |
| Session.RestoreAfterSync | ui.js:100-106 | a page reloaded after a sync, whose lookup resolves the same user, is consistent |
| Session.RestoreNeedNotBeConsistent | ui.js:106 | restore never writes storage: a resolved user with another token than the stored one leaves the page inconsistent |
| Session.TokenWithoutName | ui.js:36-37 | when only the token write of a login's sync succeeds, the new token is stored and username, creation date and name keep their old values; with no name stored before, the page is not consistent although `currentUser` is set |
| Session.SyncIdempotent | ui.js:301-308 | syncing the same user twice equals syncing once |
| Session.LaterSyncWins | ui.js:301-308 | a later sync of a user erases every trace of an earlier user's sync |
| Session.SecondLoginWins | ui.js:34-37 | two successive logins whose writes all succeed leave the second user in memory and in storage, as if the first never happened |
| Favorite.Toggle | ui.js:244 | toggling one class flips its membership and keeps every other class |
| Favorite.ToggleClass | ui.js:244 | toggling a list of names flips a class exactly when it is named an odd number of times |
| Favorite.ToggleHeartFlips | ui.js:244 | `toggleClass("far fas")` flips `far` and `fas` and keeps every other class, such as `fa-heart` |
| Favorite.ToggleHeartTwice | ui.js:244 | toggling the heart twice restores its classes |
| Favorite.ToggleKeepsOneStyle | ui.js:244 | a heart with exactly one of `far`/`fas` still has exactly one after the toggle, the other one |
| Favorite.HeartClick | ui.js:237-252 | with no user the click throws before changing anything; otherwise it toggles the classes and emits at most one call: `addFavorite` exactly when `far` was absent before (present after), `removeFavorite` exactly when `far` was present and `fas` absent, nothing when both were present |
| Favorite.FirstClickRemoves | ui.js:225-251 | the first click on a rendered `far fa-heart` makes it `fas fa-heart` and emits `removeFavorite` with the user's token and the story id |
| Favorite.HeartClickIntended | ui.js:246-251 | the corrected dispatch: `addFavorite` exactly when `fas` was absent before (present after), `removeFavorite` exactly when `fas` was present and `far` absent |
| Favorite.IntendedCallMatchesView | ui.js:246-251 | with the corrected dispatch, a heart that turns solid emits `addFavorite` and one that turns regular emits `removeFavorite` |
| Favorite.FirstClickIntendedAdds | ui.js:225-251 | with the corrected dispatch, the first click on a rendered heart emits `addFavorite` |
| Favorite.TwoClicksAlternate | ui.js:244-251 | two clicks on a heart with one style restore its classes and emit one add and one remove, for both dispatches |

## Left out

- DOM rendering and visibility (`generateStoryHTML` markup, `show`/`hide`/`slideToggle`/`toggle`, form resets, `hideElements`, the HTML written by `showNavForLoggedInUser`): page layout, not logic.
- The remote calls `User.login`, `User.create`, `User.getLoggedInUser`, `StoryList.getStories`, `StoryList.addStory`, `addFavorite`, `removeFavorite`: they live in files that are not part of this model and do network I/O. Their settled results are inputs (`Remote`, `Option<User>`); the favorite calls are emitted values.
- The story submission handler (ui.js:130-153) and `generateStories`: they only forward form fields and remote results to the page.
- Interleavings between handlers (a login racing a logout) and `await` ordering: concurrency the code does not control.
- `location.reload()` and `console.log`: side effects with no state to model; the next page load is modelled only through what it reads from storage.
- Session.Restore: what `User.getLoggedInUser` does with a missing token is in a file that is not part of this model, so its settled outcome is an input; a rejection is modelled only as `currentUser` staying null, not as the page's handlers never being attached.
- Storage errors other than a throwing `setItem` during a sync (a throwing `getItem` or `clear`): the source has no handling for them.
- JsString.Slice: only non-negative arguments are modelled, because the source only calls `slice(0, 4)` and `slice(4)`.
- JsString.Split: only a one-character string separator is modelled, because the source only splits on "/".
- Favorite.ToggleClass: jQuery's splitting of the argument string on whitespace is not modelled; the argument is taken as the list ["far", "fas"].
- Storage.SetItem: `setItem` converting a non-string value (for instance `undefined`) to a string is not modelled; every user field is a string.
- Favorite.HeartClick: the story id read from the parent element's `id` attribute is an input.

## Findings

| source | as written | input that shows it | evidently intended | confidence | as-written member | corrected member |
|---|---|---|---|---|---|---|
| ui.js:246-251 | after the toggle, `far` (outlined heart) dispatches `addFavorite` and `fas` (solid heart) dispatches `removeFavorite` | a story rendered with `far fa-heart`: the first click shows the solid heart and emits `removeFavorite` | a heart that turns solid adds the favorite, one that turns outlined removes it | medium, not executed | Favorite.FirstClickRemoves | Favorite.IntendedCallMatchesView |
