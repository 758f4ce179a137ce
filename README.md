# google-music.js, modelled in Dafny

`google-music.js` is a thin layer over the Google Play Music web page. It reads the player's
controls through CSS selectors, simulates clicks on them, and turns DOM mutation records into
semantic events (`change:song`, `change:shuffle`, `change:repeat`, `change:playback`,
`change:playback-time`, `change:rating`). This project models the decision logic of
`lib/main.js` with the DOM replaced by plain data:

- The page is a `Dom.Page` object. Its fields hold what the library's queries would find:
  - the thumbs as `(data-rating, icon aria-label)` pairs in document order;
  - the play/pause button's class list and the info container's child count;
  - the slider readings;
  - the title, artist, album and art;
  - the `data-id` of the album and artist links.
- Every `click()`, `increment()` and `decrement()` the library performs is appended to the
  page's `actions` log. Properties are about what the library does, not about how the page
  reacts.
- The repeat button's reaction is modelled: `toggleRepeat(mode)` re-reads the button after
  every click. Each click moves the button's `value` one step along a fixed cycle of modes.
  The cycle's order is the page's own and is taken as data.
- Two further reactions are assumed, and are used only in clearly marked lemmas:
  - a click on a thumb flips it between filled and outlined, and outlines every other
    selected thumb (`Rating.PressThumb`);
  - the volume slider moves by 5 within 0..100 (`Volume.Slide`).
- `GoogleMusicApi.GoogleMusic` holds the page handle and the track-change memo
  (`lastTitle`, `lastArtist`, `lastAlbum`). Its methods are the rating, volume and playback
  commands, the track-change handler and the attribute handlers.
- The rating facet's pure parts are in `Rating`, and so are the pure parts of volume
  (`Volume`), playback (`Playback`) and extras (`Extras`). What an attribute handler
  announces for a batch is specified by the pure `Hooks.Notify`.

Where the code's behaviour differs from the behaviour described for the library, the model
follows the code:

- `setRating('0')` does not clear a rating. No thumb carries `data-rating="0"`, so the call
  clicks nothing (`Rating.SetRatingZeroClicksNothing`).
- `toggleRepeat(mode)` has no attempt bound. The model demands that the mode be reachable.
- `getSongURL` throws when exactly one of the two links is missing. See Findings.

## Model

| member | source | states |
|---|---|---|
| `Rating.IsElSelected` | lib/main.js:268-278 | a thumb is selected exactly when its icon's aria-label does not contain `-outline` |
| `Rating.RatingOf` | lib/main.js:280-291 | the rating is the `data-rating` of the first selected thumb in document order, and "0" when no thumb is selected or there are none |
| `GoogleMusicApi.GoogleMusic.GetRating` | lib/main.js:280-291 | the indexed scan with early return yields exactly `RatingOf` of the page's thumbs |
| `Rating.FindThumb` | lib/main.js:312-314 | the thumb a rating selector finds is the first one with that `data-rating`; there is none exactly when no thumb carries it |
| `Rating.SelectorSubstitution` | lib/main.js:26-29 | replacing `{rating}` in the format yields the thumb selector narrowed to that rating, for any rating; for "5" and "1" it is exactly the thumbs-up and thumbs-down selector |
| `Rating.ToggleClicks` | lib/main.js:294-309 | a toggle makes exactly one click when some thumb has that rating, and it is on the first such thumb (the one `querySelector` returns); no click when none has it |
| `Rating.SetRatingClicks` | lib/main.js:312-319 | `setRating` makes at most one click, on the first thumb with the rating, and clicks exactly when that thumb exists and is not selected |
| `Rating.SetRatingZeroClicksNothing` | lib/main.js:312-319 | on a page whose thumbs are only "5" and "1", `setRating('0')` clicks nothing |
| `GoogleMusicApi.GoogleMusic.ToggleThumbsUp` | lib/main.js:294-300 | appends to the action log exactly the toggle clicks for "5"; the repeat button is untouched |
| `GoogleMusicApi.GoogleMusic.ToggleThumbsDown` | lib/main.js:303-309 | appends exactly the toggle clicks for "1" |
| `GoogleMusicApi.GoogleMusic.SetRating` | lib/main.js:312-319 | appends exactly the `setRating` clicks for the rating |
| `Rating.PressThumbRating` | test/rating.js:65-75 | under the assumed thumb reaction, one click leaves at most one thumb selected; the rating becomes that thumb's value, or "0" if it was already selected |
| `Rating.ToggleThumbRating` | test/rating.js:22-36 | under the assumed reaction, toggling an existing thumb gives its rating, or "0" if it was selected |
| `Rating.ThumbsDownThenUp` | test/rating.js:49-63 | under the assumed reaction, thumbs down followed by thumbs up always ends with the rating "5" |
| `Rating.SetRatingReachesAndIsIdempotent` | test/rating.js:77-98 | under the assumed reaction, `setRating(r)` makes the rating `r`, and a second `setRating(r)` clicks nothing |
| `Volume.Steps` | lib/main.js:146-165 | the counting loop runs ceil(amount/5) times: the fewest steps of 5 covering the amount, and none when the amount is not positive |
| `Volume.SetVolumeActions` | lib/main.js:135-143 | `setVolume` makes no step when the target equals the current volume, only increments when it is above, only decrements when it is below, ceil(distance/5) of them |
| `Volume.SetVolumeLands` | lib/main.js:134-143 | under the assumed slider, `setVolume` ends within one step of the target on its far side, and exactly on it when the distance is a multiple of 5 |
| `GoogleMusicApi.GoogleMusic.IncreaseVolume` | lib/main.js:146-154 | appends `Steps(amount)` increments, with amount 5 when none is given |
| `GoogleMusicApi.GoogleMusic.DecreaseVolume` | lib/main.js:157-165 | appends `Steps(amount)` decrements, with amount 5 when none is given |
| `GoogleMusicApi.GoogleMusic.SetVolume` | lib/main.js:135-143 | appends exactly `SetVolumeActions(volume, target)` |
| `Playback.StatusCode` | lib/main.js:169-174 | STOPPED is reported as 0, PAUSED as 1 and PLAYING as 2, and each number belongs to exactly one status |
| `Playback.StatusOf` | lib/main.js:217-238 | PLAYING exactly when the play/pause button has the `playing` class; otherwise PAUSED exactly when the info container has child nodes, STOPPED exactly when it has none |
| `Playback.ClicksToReach` | lib/main.js:247-257 | the clicks needed to reach a mode number fewer than the cycle's length; they are the fewest that reach it, and none when it is already shown |
| `GoogleMusicApi.GoogleMusic.ToggleRepeat` | lib/main.js:247-257 | with no mode, exactly one click; with a mode, ends showing it after exactly `ClicksToReach` clicks |
| `GoogleMusicApi.GoogleMusic.PlayPause` | lib/main.js:213 | one click on the play/pause button |
| `GoogleMusicApi.GoogleMusic.Forward` | lib/main.js:214 | one click on the forward button |
| `GoogleMusicApi.GoogleMusic.Rewind` | lib/main.js:215 | one click on the rewind button |
| `GoogleMusicApi.GoogleMusic.ToggleShuffle` | lib/main.js:241 | one click on the shuffle button |
| `GoogleMusicApi.GoogleMusic.Create` | lib/main.js:58-62 | on a page where every watched element exists, construction fails with the library's message exactly when no window is given; otherwise the memo starts empty |
| `GoogleMusicApi.GoogleMusic.constructor` | lib/main.js:67-69 | binds the page and starts the memo as three empty strings |
| `Extras.ParseId` | lib/main.js:332-334 | the id part is the text before the first '/', and contains no '/'; without '/' it is empty |
| `Extras.SongUrlAsWritten` | lib/main.js:325-350 | the code as written throws exactly when one of the two links is present and the other absent |
| `Extras.SongUrlAsWrittenThrowsWithOneLink` | lib/main.js:336-341 | an album link without an artist link makes the code throw, where the corrected definition gives the album URL |
| `Extras.SongUrl` | lib/main.js:325-350 | the album's id is preferred and the artist's is the fallback; there is no URL exactly when neither gives an id; a URL is the template followed by a non-empty id without '/' |
| `Extras.SongUrlAgreesWhereDefined` | lib/main.js:336-349 | wherever the code as written returns, the corrected definition returns the same value |
| `Hooks.OrUnknown` | lib/main.js:373-375 | a missing or empty field becomes "Unknown", any other is kept, and the result is never empty |
| `Hooks.NormaliseArt` | lib/main.js:376-381 | art starting with "//" gets an "https:" prefix; any other value, a missing one included, passes unchanged |
| `Hooks.NormaliseArtIdempotent` | lib/main.js:378-381 | normalised art never starts with "//", so normalising twice changes nothing |
| `Hooks.SongOf` | lib/main.js:373-381 | the announced title, artist and album are never empty |
| `Hooks.TrackStep` | lib/main.js:365-400 | one batch announces the song at most once: exactly when it inserts an info wrapper and the normalised triple differs from the memo, which then becomes that triple; otherwise the memo is kept |
| `GoogleMusicApi.GoogleMusic.HandleTrackChange` | lib/main.js:365-401 | the nested loop over records and added nodes produces exactly the events and the new memo of `TrackStep` |
| `Hooks.TrackRunAnnouncesOnce` | lib/main.js:383-397 | over any number of insertion batches for one song, `change:song` fires at most once, and fires exactly when some batch inserts an info wrapper and the song differs from the memo |
| `Hooks.FirstInsertionAnnounces` | lib/main.js:362-397 | starting from the empty memo, the first batch that inserts an info wrapper always announces the song |
| `Hooks.Notify` | lib/main.js:408-483 | an attribute handler emits one event per matching record, matched by `data-id` "shuffle", "repeat" or "play-pause", by `id` of the progress slider, or by a selected rating control; every event comes from such a record and every such record gives its event |
| `GoogleMusicApi.GoogleMusic.HandleAttributeChange` | lib/main.js:408-483 | the per-record loop of an attribute handler, reading the page as it stands, produces exactly `Notify` of the batch; `change:playback` carries the status's number |
| `Hooks.NotifySplit` | lib/main.js:409-416 | handling a batch in two parts gives the same events in the same order, so events follow the records one by one |
| `Hooks.RatingEventsComeFromSelectedThumbs` | lib/main.js:470-479 | every `change:rating` payload is the `data-rating` of a record whose target's icon label has no `-outline` |

## Left out

- Element resolution in the `init` methods (`querySelector`, `getElementById`) is not modelled. Each `Page` field holds what the query would find.
- GoogleMusicApi.GoogleMusic.Create: construction also throws when an element the constructor's `hooks.init` hands to `MutationObserver.observe` is missing (lib/main.js:86-89, 402, 418, 433, 448, 465, 480): the info container, the shuffle, repeat or play/pause button, the progress slider or the rating container. The model's page always has them, so only the missing-window failure is modelled. A missing forward or rewind button makes `forward()` or `rewind()` throw when called; that is not modelled either.
- The info getters (`getTitle`, `getArtist`, `getAlbum`, `getArtUrl`) and the readers `getVolume`, `getPlaybackTime`, `getDuration`, `getShuffle` and `getRepeat` are `Page` fields. `parseInt` of an aria attribute is taken to give an integer; `NaN` is not modelled.
- `setPlaybackTime` is not modelled: it writes the slider and dispatches a `UIEvent`, which is host-page I/O.
- `toggleVisualization` is not modelled: it calls the page's own `SJBpost` function, which is not visible.
- The constructor's prototype merging and `bind` are not modelled; only the missing-window check is.
- `MutationObserver` construction and registration and the `EventEmitter` inheritance are not modelled. Only the handler body run on each batch is modelled, and events are returned as a list.
- A listener that changes the page while a handler is running is not modelled. The page's readings are taken to be constant for one batch.
- The page's reaction to clicks on thumbs, and to `increment()`/`decrement()`, is not part of the library. These reactions appear only as assumed models in the lemmas that cite the tests.
- `GoogleMusicApi.GoogleMusic.ToggleRepeat`: requires the requested mode to be in the button's cycle. The library loops forever otherwise, and that divergence is not modelled.
- `Strings.ReplaceFirst`: the replacement is taken literally. JavaScript's `$&`, `$1`, … replacement patterns are not modelled, and a rating containing `$` would differ.
- `Rating.FindThumb`: stands for the CSS engine matching the substituted selector. It assumes the rating needs no CSS escaping.
- Volume amounts and targets are integers; fractional or non-numeric amounts are not modelled.
- Hooks.TrackStep: every added node is taken to be an element with a class list. The observer watches the subtree of the info container (lib/main.js:402-405), so text and comment nodes can be added too. On such a node `classList.contains` throws (lib/main.js:369-370), and the rest of the batch is lost, including an info wrapper after it. That throw and the lost remainder are not modelled.
- GoogleMusicApi.GoogleMusic.HandleTrackChange: its loop, like `Hooks.TrackStep`, treats every added node as an element; the `TypeError` on a text or comment node, and the nodes and records it skips, are not modelled.
- A thumb icon without an `aria-label` (`getAttribute` returns `null`, and the code throws) is not modelled.
- An album or artist link without `data-id` (the code calls `substring` on `undefined`) is not modelled.
- test/utils/browser.js is the integration-test harness (remote browser, login, file reading) and is not part of this model; test/rating.js only supplies the behaviour cited above.

## Findings

| source | as written | input that shows it | evidently intended | confidence | as-written member | corrected member |
|---|---|---|---|---|---|---|
| lib/main.js:336-341 | only the case where both `.player-album` and `.player-artist` are absent returns `null`; otherwise both `dataset` fields are read, so a page with exactly one of the links throws a `TypeError` | an album link with `data-id` "Babc/def" and no artist link | an absent link contributes no id; the album id is preferred, the artist id is the fallback, and the result is `null` only when neither gives an id | medium, not executed | `Extras.SongUrlAsWrittenThrowsWithOneLink` | `Extras.SongUrl` |
