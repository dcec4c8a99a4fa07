# Offline news reader: controller state and record store

This project models the state core of an offline-capable news reader. The
reader keeps two in-memory lists of article records keyed by `id`: the feed
`articles` and the reading `queue`. It mirrors them into an IndexedDB database
with two independent object stores, `articles` and `queue`, both with keyPath
`id`.

- `Store` models the database (`db.js`). It is a class `Database` with two
  `map<Id, Article>` fields.
  - `put` inserts or replaces the record under its own id.
  - `delete` and `clear` remove records.
  - `getAll` returns every record once, in ascending key order. That is the
    order the Indexed Database API gives for a store read without a key range.
  - `SaveArticles` is the source's `forEach` loop of puts. It is specified by
    `PutAll`, and the lemmas about `PutAll` say that the last record wins when
    ids repeat and that records with other ids are kept.
- `Feed` models the mapping `syncFeed` applies to the API response. JavaScript
  `||` chains over strings that may be missing or empty are modelled on
  `Option<string>`. The list is cut to twenty records.
- `Search` models the `renderArticles` filter: a case-insensitive substring
  match on title or snippet.
- `QueueLogic` models the lookups that `openArticle` and `toggleQueue` share,
  as `find`, `findIndex` and the feed-then-queue `||`. It also holds the
  functions `Toggled` and `ToggledStore`, which describe one toggle.
- `App` is the controller, a class `Reader` with the module-level state.
  - Its invariant `Valid()` says that the queue holds no duplicate ids and
    holds exactly the records of the `queue` store.
  - `ToggleQueue`, `SyncFeed`, `LoadQueue` and `LoadArticles` keep that
    invariant.
  - `SyncFeed` never touches the queue or the `queue` store, so saved
    articles survive a sync.

Some consequences of the source's behaviour, proved below:

- Toggling an unqueued feed article twice restores both the queue and the
  store. Toggling a queued article twice does not restore them:
  - `ToggleTwiceRequeues`: the record leaves its place. If the feed holds its
    id, the feed copy is appended at the end. Otherwise the record is gone.
- After a reload, `loadQueue` lists the queue in ascending URL order, not in
  the order articles were saved (`Database.GetQueue`).
- The feed may return the same URL twice. The in-memory `articles` then holds
  both records, and the store holds the later one (`PutAllLastWins`).
- Once `init()` has run from the empty start state, the key set of the
  `articles` store equals the id set of `articles` (`Reader.FeedInSync`).
  Every later sync and toggle keeps that (`Reader.Init`, `Reader.SyncFeed`,
  `Reader.ToggleQueue`).
- A store has exactly one listing that holds each record once in key order
  (`ListingUnique`), so `loadQueue` always yields the same list for the same
  store.

The browser is turned into parameters:

- `navigator.onLine` (and the cached `isOnline`) becomes `online: bool`.
- The outcome of `fetch` and `response.json()` becomes a `FeedResponse`:
  - `NetworkError` is a rejected fetch, a body that cannot be read, or a JSON
    body without an `articles` array (the `map` call on it throws, and the
    same `catch` takes it).
  - `NotOk` is a response whose `ok` is false.
  - `Fetched(items)` is the parsed `articles` array.
- `Date.now()` becomes `now: int`.
- Each awaited store call is one atomic step.

## Model

| member | source | states |
|---|---|---|
| `KeyOrder.KeyLe` | db.js:35 | the order `getAll` lists keys in: a prefix sorts no later than the longer key, and a non-empty key sorts no later than another only if its first character is no larger |
| `KeyOrder.KeyLeReflexive` | db.js:35 | every key sorts no later than itself |
| `KeyOrder.KeyLeTotal` | db.js:35 | any two string keys are comparable, so a store has one listing order |
| `KeyOrder.KeyLeAntisymmetric` | db.js:35 | two keys that each sort no later than the other are equal |
| `KeyOrder.KeyLeTransitive` | db.js:35 | the key order is transitive |
| `KeyOrder.KeyLeLexicographic` | db.js:35 | the key order is lexicographic on strings: `a` sorts no later than `b` exactly when `a` is a prefix of `b` or the two agree up to the first index where `a` has the smaller character |
| `KeyOrder.MinKey` | db.js:35 | returns a key of the set that sorts no later than every other key of the set |
| `Store.ListStore` | db.js:35-36 | the listing holds each record of the store exactly once, every record under its own id, in ascending key order |
| `Store.ListingHeadIsMin` | db.js:35 | the first record of a key-ordered listing has the store's smallest key |
| `Store.ListingEmpty` | db.js:35 | a listing is empty exactly when its store is |
| `Store.ListingHeadsAgree` | db.js:35 | two key-ordered listings of one store start with the same record |
| `Store.MirrorsTail` | db.js:35 | the listing minus its first record lists the store minus that record's key |
| `Store.ListingUnique` | db.js:35 | two duplicate-free, key-ordered listings of the same store are equal, so `getAll` has one definite result |
| `Store.ListedStep` | db.js:35-36 | appending the smallest unlisted key's record keeps the listing complete so far, duplicate-free and ordered |
| `Store.Database.constructor` | db.js:10-18 | a new database has both stores, both empty, with keyPath `id` |
| `Store.Database.GetAllArticles` | db.js:30-38 | returns every record of the `articles` store once, in key order, and changes neither store |
| `Store.Database.AddToQueue` | db.js:40-44 | the `queue` store maps `a.id` to `a` and keeps every other key, replacing any earlier record with that id; the `articles` store is not in the frame |
| `Store.Database.RemoveFromQueue` | db.js:51-55 | only key `id` is deleted from the `queue` store, and an absent id is a no-op; the `articles` store is not in the frame |
| `Store.Database.GetQueue` | db.js:62-70 | returns every record of the `queue` store once, in key order, and changes neither store |
| `Store.Database.ClearArticles` | db.js:73-77 | the `articles` store becomes empty and the `queue` store is not in the frame |
| `Store.Database.SaveArticles` | db.js:84-88 | the `articles` store becomes the result of one put per record in list order, and the `queue` store is not in the frame |
| `Store.PutAll` | db.js:88 | puts never lose a key, and every saved record's id is a key afterwards |
| `Store.PutAllKeys` | db.js:88 | after the puts the key set is the old key set plus the ids of the records |
| `Store.PutAllLastWins` | db.js:88 | when ids repeat, the store holds the last record with that id |
| `Store.PutAllKeepsOthers` | db.js:88 | a record whose id is not among the saved ids is kept unchanged |
| `Store.PutAllKeyPath` | db.js:13 | puts keep every record filed under its own id |
| `Store.ClearThenSaveKeys` | db.js:73-88 | clearing then saving `xs` leaves exactly the ids of `xs` as keys |
| `Store.ClearThenSaveDistinct` | db.js:73-88 | clearing then saving records with distinct ids stores exactly those records, each under its id |
| `Feed.Truthy` | app.js:114-118 | a possibly missing string is truthy only when present and non-empty; the falsy values are a missing value and the empty string |
| `Feed.Or` | app.js:114-118 | JavaScript's or-operator on `v` and `fallback` yields either the fallback or the present value, and is non-empty exactly when `v` is truthy or the fallback is non-empty |
| `Feed.ToRecord` | app.js:111-120 | the id is the URL; the snippet is description, else content, else the default text, and is never empty; the content is content, else description, else empty, and is empty exactly when both are missing or empty; the image falls back to the placeholder; the category is "General"; the record is fresh; the record is stamped with `now` |
| `Feed.FreshArticles` | app.js:111-121 | at most twenty records: the first `min(n, 20)` API entries mapped in order |
| `Feed.FreshArticlesDistinct` | app.js:112 | distinct URLs in the feed give fresh records with distinct ids |
| `Search.Lower` | app.js:145-146 | upper-case ASCII letters map to lower case and every other character is unchanged |
| `Search.LowerStr` | app.js:145-146 | lower-cases a string character by character, keeping its length |
| `Search.Contains` | app.js:145-146 | true exactly when the text occurs at some position of the string |
| `Search.Matches` | app.js:145-146 | true exactly when the lower-cased text occurs in the lower-cased title or the lower-cased snippet; an empty search text matches every record, and a matching text is no longer than the title or the snippet |
| `Search.Filter` | app.js:144-147 | an order-preserving sublist of the list; every kept record matches the search text, and each record keeps all its occurrences when it matches and none when it does not |
| `Search.ContainsEmpty` | app.js:145-146 | every string contains the empty text |
| `Search.FilterEmptyKeepsAll` | app.js:142-147 | an empty search text keeps every record |
| `QueueLogic.FindIndex` | app.js:229 | returns -1 exactly when no record has the id; otherwise the first index holding it |
| `QueueLogic.Find` | app.js:190 | returns a record exactly when one has the id, and then the first one |
| `QueueLogic.Lookup` | app.js:226 | finds a record exactly when the feed or the queue holds the id; it is the feed's first record with the id when the feed holds it, and otherwise the queue's first |
| `QueueLogic.RemoveAt` | app.js:237 | removing index `i` shortens the list by one; records before `i` stay in place and later records move down one |
| `QueueLogic.Toggled` | app.js:225-238 | one toggle changes the queue length by at most one; a longer queue is the old one with a record for the id appended, and the id was not queued; a shorter queue means the id was queued; every record with another id comes from the old queue |
| `QueueLogic.ToggledStore` | app.js:225-238 | one toggle changes the queue store at key `id` only, and a newly added record is filed under `id` |
| `QueueLogic.LookupPrefersFeed` | app.js:190 | when the feed holds the id, the feed copy is found, whatever the queue holds |
| `QueueLogic.ToggleUnknownIsNoop` | app.js:225-227 | an id in neither list changes neither the queue nor the store |
| `QueueLogic.ToggleAppends` | app.js:229-233 | an unqueued feed id appends the feed record at the end, grows the queue by one and puts that record in the store |
| `QueueLogic.ToggleRemovesFirst` | app.js:235-238 | a queued id is spliced out at its first index, the others keeping their order, and deleted from the store |
| `QueueLogic.RemoveAtIds` | app.js:237 | splicing a record out of a duplicate-free list keeps it duplicate-free and removes exactly that id |
| `QueueLogic.AppendKeepsMirror` | app.js:232-233 | appending a record whose id the store lacks, and putting it, keeps list and store in step |
| `QueueLogic.RemoveKeepsMirror` | app.js:237-238 | splicing a record out and deleting its id keeps list and store in step |
| `QueueLogic.ToggleKeepsMirror` | app.js:225-240 | one toggle keeps the queue duplicate-free, its id set equal to the store's key set, and each record equal to the store's |
| `Store.PutThenDeleteIsNoop` | db.js:44-55 | putting a record under a new id and then deleting that id gives back the store |
| `QueueLogic.ToggleDropsAppended` | app.js:229-238 | toggling the id of the record just appended splices it off the end and deletes it from the queue store again |
| `QueueLogic.ToggleTwiceRestores` | app.js:229-238 | toggling an unqueued feed id twice restores the queue and the queue store |
| `QueueLogic.ToggleTwiceRequeues` | app.js:229-238 | toggling a queued id twice moves the feed copy to the end, or drops the record when the feed lacks the id; the store follows the queue |
| `App.Reader.constructor` | app.js:4-6 | before `init()` both lists are empty and the feed tab is active |
| `App.Reader.Init` | app.js:20-26 | loads the queue, then the articles. The queue then mirrors the queue store in key order, and the queue store is untouched. On a successful sync the feed is the fresh records, and the articles store holds them with the last record winning. Otherwise the articles store is unchanged, and the feed is its key-ordered listing, or left as it was when the store is empty. From the empty start state the articles store's keys then equal the feed's ids |
| `App.Reader.LoadQueue` | app.js:136-139 | the queue becomes the queue store's records, once each, in key order; the feed is unchanged |
| `App.Reader.LoadArticles` | app.js:75-96 | a non-empty articles store replaces the feed list with its records in key order. When online the feed is then synced: on success the feed is the fresh records and the articles store holds them, the last record winning; otherwise the articles store is unchanged. The queue and the queue store are untouched, and a feed in step with the articles store stays in step |
| `App.Reader.SyncFeed` | app.js:98-134 | offline or on a failed fetch, nothing changes; on success, the feed becomes the fresh records and the articles store holds exactly their ids, the last record winning; the queue and the queue store are untouched; a feed in step with the articles store stays in step |
| `App.Reader.ToggleQueue` | app.js:225-244 | the queue and the queue store become `Toggled` and `ToggledStore` of the old state, the invariant is kept, and the feed and the articles store are untouched, so they stay in step |
| `App.Reader.SwitchTab` | app.js:264-265 | the shown tab becomes the requested one |
| `App.Reader.ActiveList` | app.js:143 | the feed tab shows `articles`, the queue tab shows `queue` |
| `App.Reader.Shown` | app.js:142-147 | the shown records are an order-preserving sublist of the active tab's list; each matches the search text; every matching record is shown as often as the list holds it, and no other record is shown; an empty text shows the whole list |
| `App.Reader.OpenArticle` | app.js:189-191 | a record is found exactly when either list holds the id: the feed's first copy when the feed holds it, otherwise the queue's first copy |

## Left out

- sw.js as a whole is not part of this model: the service worker's install and activate lifecycle, the Cache API and its cache-first rules.
- DOM rendering is not modelled. This covers HTML templates, icons, `showToast`, animations, tab styling, the connection banner and `updateQueueCount`. The per-card `inQueue` flag and the offline "no articles" message are display-only as well.
- `generateFullContent` and the modal's text fallback (`content || snippet || ...`) are not modelled: they only build display text.
- The network fetch, JSON parsing and date parsing are not modelled. `publishedAt` is taken as an already parsed `int`. `Date.now()` is the parameter `now`.
- Feed.FreshArticles: every record of one sync gets the same `fetchedAt`, because the model reads the clock once. The source calls `Date.now()` once per record.
- Feed.ToRecord: `url` and `title` are assumed to be present strings. With a missing `url`, IndexedDB's `put` would reject the record. With a missing `title`, the filter would throw. Neither error path is modelled.
- Search.Lower: case folding covers ASCII letters only. It is not Unicode `toLowerCase`.
- KeyOrder.KeyLe: keys are compared by Unicode scalar value. IndexedDB compares UTF-16 code units, so the two orders differ only for characters outside the Basic Multilingual Plane.
- IndexedDB failure paths are not modelled: open and upgrade errors, and transaction errors.
- Async interleaving is not modelled. Concurrent `syncFeed` and `toggleQueue` runs are out of scope: each awaited store call is one atomic step.
- App.Reader.LoadArticles: the same `online` value is used for `isOnline` and for the `navigator.onLine` that `syncFeed` re-reads.
- App.Reader.ToggleQueue: the in-memory queue is a `seq` field that is reassigned. The array's in-place `push` and `splice` are not modelled as such, and no aliasing is modelled.
