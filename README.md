# Firebase sync extension for TypingMind — Dafny model

This project models the sequential logic of `firebase-sync.js`, a browser
extension that is meant to copy TypingMind chats from the browser's
IndexedDB `keyval` store to a Firestore collection `chats`. As written,
line 142 throws before any write (see "## Findings"). The intended push
pass also attaches a listener to the remote `messages` sub-collection of every
`CHAT_` key it visits, whether or not that chat is pushed; as written, the
walk stops at the first chat due for a push, before that chat's listener
is attached. A listener appends every reported document change to the
local chat. It covers four pieces:

- **Configuration** (`SyncConfig`, `JsText`): the four Firebase keys
  (`apiKey`, `authDomain`, `projectId`, `storageBucket`) kept in
  `localStorage` under the prefix `tcs_fb_`. This covers `hasConfig`,
  `getConfigObj`, the store loop of `saveConfig` (fields are trimmed the way
  JavaScript's `trim` does it) and the guard of `initFirebase`.
- **Push decision** (`ChatSync.PushAll`, `Extension.FirebaseSync.PushLocalChats`):
  the cursor walk over the local store. Only string keys starting with
  `CHAT_` are considered. The remote stamp is `updatedAt`, or 0 when the
  document or the field is missing. A push is due iff the local
  `updatedAt` is strictly greater. A chat with no `updatedAt` is never
  pushed. The evidently intended push overwrites the remote document (no
  merge) with the local chat stamped "now". As written, line 142 throws
  before `setDoc` runs, so the first due push ends the walk and writes
  nothing; see "## Findings". `ChatSync.PushAllAsWritten` models the code
  as written. `ChatSync.PushAll` and the class method model the intended
  write.
- **Listener registry** (`ChatSync.Attach`, `Extension.FirebaseSync.AttachListener`):
  the `listeners` array, reduced to the chat ids it holds. It never holds an
  id twice, and attaching is idempotent.
- **Local injection** (`ChatSync.Injected`, `Extension.FirebaseSync.InjectToLocal`):
  incoming messages are appended in order to the stored chat, or to
  `{messages: [], updatedAt: 0}` when the chat is missing. The chat is then
  stamped "now". Messages are not deduplicated or sorted.

The extension's module-level state is one class, `Extension.FirebaseSync`.
Its fields are `localStorage` (a map), whether the Firebase handles are set
(a boolean), the remote `chats` collection (a map), the registered listener
ids (a sequence) and the local IndexedDB store (a map). Its methods update
these fields in place and are proved against the specification functions
of `SyncConfig` and `ChatSync`.

Inputs:
- `Date.now()` is a parameter. `InjectToLocal` takes `now`.
  `PushLocalChats` takes one clock reading per visited record, because the
  source calls `Date.now()` separately for each push.
- The cursor of `pushLocalChats` is a parameter: the sequence of
  key/record pairs it visits. `PushLocalChats` requires that sequence to be
  a complete walk of the class's local store: every record once, with its
  stored value.
- Messages and chat fields the extension does not read are opaque JSON-like
  values.

What this file does not do, and the model does not add:
- It has no message ids, tombstones, per-message merge, dedup/sort after
  injection, suppression of its own writes, or guard against overlapping
  passes. `InjectedChatIsPushedBack` shows one consequence of the intended
  push: an injected chat is stamped with the current time. When that time
  is newer than the remote stamp, the next cursor visit of the chat makes a
  push due again. With the intended write it overwrites the remote document;
  as written, it throws at line 142 (see "## Findings").
- `initFirebase` throws `config missing` only when *no* configuration
  key is stored (firebase-sync.js:106). `hasConfig` demands all four.
  `PartialConfigPassesInitGuard` shows a store with only `apiKey` that
  passes the guard while `hasConfig()` is false.

## Model

| member | source | states |
|---|---|---|
| JsText.TrimStart | firebase-sync.js:88 | the result is a suffix of the input that does not start with JS white space, and everything dropped is white space |
| JsText.TrimEnd | firebase-sync.js:88 | the result is a prefix of the input that does not end with JS white space, and everything dropped is white space |
| JsText.Trim | firebase-sync.js:88 | `trim()` is no longer than its input and neither starts nor ends with white space |
| JsText.TrimIsInfix | firebase-sync.js:88 | `trim()` removes only white space: its result is the infix between a white-space prefix and a white-space suffix |
| JsText.TrimEmptyIff | firebase-sync.js:88-89 | a field trims to the empty string iff it is entirely white space |
| JsText.TrimIdempotent | firebase-sync.js:88 | trimming a trimmed string changes nothing |
| SyncConfig.Every | firebase-sync.js:72-74 | the short-circuit `every` walk succeeds iff every key has a non-empty stored value under the prefix |
| SyncConfig.HasConfig | firebase-sync.js:72-74 | `hasConfig()` holds iff all four configuration keys (`CONFIG_KEYS`, lines 8-11) are stored non-empty under `tcs_fb_` |
| SyncConfig.ConfigObj | firebase-sync.js:76-83 | the configuration object has exactly the keys whose `localStorage` item is present and non-empty, each mapped to that item |
| SyncConfig.HasConfigFullObj | firebase-sync.js:76-83 | when `hasConfig()` holds, the configuration object has exactly the four keys, each mapped to its stored item |
| SyncConfig.AnyConfig | firebase-sync.js:105-106 | the `config missing` guard passes iff some configuration key is stored non-empty |
| SyncConfig.PartialConfigPassesInitGuard | firebase-sync.js:103-106 | a store holding only `apiKey` passes the `initFirebase` guard although `hasConfig()` is false |
| SyncConfig.HasConfigPassesInitGuard | firebase-sync.js:197-199 | when `hasConfig()` holds, the `initFirebase` guard passes |
| SyncConfig.SaveOne | firebase-sync.js:88-89 | one iteration of the store loop: the key's item becomes the trimmed field when that is non-empty and is otherwise unchanged; no other item changes |
| SyncConfig.SaveFields | firebase-sync.js:87-90 | the store loop removes no item and adds none but the prefixed names of the walked keys |
| SyncConfig.Saved | firebase-sync.js:87-90 | `saveConfig`'s store loop removes no item and adds none outside the four prefixed configuration names |
| SyncConfig.SaveFieldsOther | firebase-sync.js:87-90 | the store loop leaves every item name that no walked key maps to as it was |
| SyncConfig.SaveFieldsAt | firebase-sync.js:87-90 | for distinct keys, the i-th key's item becomes the trimmed field when that is non-empty, and keeps its previous value or absence otherwise |
| SyncConfig.SavedConfigKey | firebase-sync.js:87-90 | `saveConfig` stores each non-blank field trimmed under its prefixed key, and a blank field leaves the old item in place |
| SyncConfig.SavedOther | firebase-sync.js:87-90 | `saveConfig` writes no item outside the four prefixed configuration names |
| SyncConfig.SavedAllFieldsHasConfig | firebase-sync.js:87-90 | saving four non-blank fields makes `hasConfig()` true |
| SyncConfig.SaveBlankFieldsUnchanged | firebase-sync.js:88-89 | saving only blank fields leaves `localStorage` unchanged |
| ChatSync.IsChatKey | firebase-sync.js:137 | a key is considered iff it is a string of the form `CHAT_` followed by anything |
| ChatSync.ScanOfSpec | firebase-sync.js:133-135 | a complete cursor walk visits each stored record once, with its stored value, and nothing else |
| ChatSync.RemoteUpdatedAt | firebase-sync.js:138-140 | the remote stamp is the document's `updatedAt`, or 0 when the document or the field is missing |
| ChatSync.ShouldPush | firebase-sync.js:141 | a chat without `updatedAt` is never pushed; one with a stamp is pushed iff the stamp is strictly greater than the remote one |
| ChatSync.Stamped | firebase-sync.js:143-144 | the written document is the local chat with only `updatedAt` replaced by now, and it stays well formed |
| ChatSync.PushEntry | firebase-sync.js:137-146 | one cursor step: a non-`CHAT_` key changes nothing; a `CHAT_` key changes only its own document, which is overwritten with the stamped chat iff the local stamp is newer |
| ChatSync.PushAll | firebase-sync.js:133-151 | a push pass deletes no document and adds none but visited `CHAT_` ids |
| ChatSync.PushOnlyStoredChats | firebase-sync.js:133-146 | a pass over a complete walk of the local store changes only documents of `CHAT_` records the store holds |
| ChatSync.PushAllFrame | firebase-sync.js:137-146 | the push pass leaves every remote document whose id is not a visited `CHAT_` key unchanged |
| ChatSync.NonChatIdUnchanged | firebase-sync.js:137 | no document whose id does not start with `CHAT_` is ever written |
| ChatSync.PushAllAt | firebase-sync.js:140-144 | a visited chat's document is overwritten iff its local `updatedAt` is strictly greater than the remote one (0 if missing), and then equals the local chat with `updatedAt` set to that visit's clock reading |
| ChatSync.NoWrites | firebase-sync.js:140-141 | a pass in which no chat is newer than its remote copy writes nothing |
| ChatSync.PushAllAsWritten | firebase-sync.js:133-149 | the pass as written never changes the remote collection; it settles iff no visited chat is due for a push, and keeps the registry duplicate-free |
| ChatSync.AsWrittenMatchesWhenNoPush | firebase-sync.js:137-149 | when no push is due, the pass as written settles with the same remote collection and registry as the intended pass |
| ChatSync.AsWrittenPushDiscrepancy | firebase-sync.js:142-143 | for a local `CHAT_a` stamped 5 and no remote document, the pass as written writes nothing, registers nothing and never settles, while the intended pass writes the stamped chat and registers `CHAT_a` |
| ChatSync.PushAllIdempotent | firebase-sync.js:140-144 | repeating a pass over unchanged local chats whose stamps are not ahead of the clock writes nothing more |
| ChatSync.Attach | firebase-sync.js:154-164 | attaching keeps the registry duplicate-free, only appends, adds exactly the id, and leaves a registered id's registry unchanged |
| ChatSync.AttachIdempotent | firebase-sync.js:155 | attaching the same id twice is the same as attaching it once |
| ChatSync.AttachAll | firebase-sync.js:137-147 | a push pass keeps the registry duplicate-free, keeps the old registry as a prefix, and registers exactly the visited `CHAT_` ids |
| ChatSync.Injected | firebase-sync.js:172-176 | the injected chat's messages are the old ones (or none) followed by the incoming ones in order; `updatedAt` is now; other fields are untouched; the result is well formed when the stored chat was |
| ChatSync.InjectTwice | firebase-sync.js:174-175 | two injections append the same messages as one injection of both batches, and only the later stamp remains |
| ChatSync.InjectedChatIsPushedBack | firebase-sync.js:141-144 | a cursor step visiting an injected chat whose injection time is newer than the remote stamp overwrites the remote document with it |
| Extension.FirebaseSync.constructor | firebase-sync.js:126 | at page load the `listeners` registry is empty and Firebase is uninitialized (`fbApp` is null, line 5) |
| Extension.FirebaseSync.GetConfigObj | firebase-sync.js:76-83 | the loop returns exactly the configuration keys with a non-empty stored item, each mapped to that item |
| Extension.FirebaseSync.InitFirebase | firebase-sync.js:103-106 | a no-op once initialized; otherwise it fails with `config missing` and stays uninitialized iff no key is stored, and initializes otherwise |
| Extension.FirebaseSync.StoreFields | firebase-sync.js:87-90 | the store loop leaves `localStorage` equal to `Saved` of the old store and the fields |
| Extension.FirebaseSync.SaveConfig | firebase-sync.js:85-99 | `localStorage` becomes the `saveConfig` store of the fields, then the `initFirebase` outcome follows |
| Extension.FirebaseSync.AttachListener | firebase-sync.js:154-164 | the registry becomes `Attach` of the old one and stays duplicate-free |
| Extension.FirebaseSync.PushLocalChats | firebase-sync.js:128-152 | given a complete walk of the local store, the remote collection becomes `PushAll` of the old one and the registry becomes `AttachAll` of the old one |
| Extension.FirebaseSync.VisitRecord | firebase-sync.js:134-150 | one cursor callback with the intended write: the remote collection becomes `PushEntry` of the old one, and a `CHAT_` key is attached to the registry |
| Extension.FirebaseSync.InjectToLocal | firebase-sync.js:166-178 | the store's entry for the chat becomes `Injected` of the old entry, and no other entry changes |
| Extension.FirebaseSync.OnSnapshot | firebase-sync.js:159-162 | an empty batch of changes leaves the local store unchanged; otherwise the changes are injected |

## Left out

- UI: the button, the modal and its HTML, click handlers, status texts and `manualSync` (firebase-sync.js:15-70, 91-98, 180-191).
- Scheduling: the start-up function, `setInterval(pushLocalChats, 15000)` and the `setTimeout` re-enable (firebase-sync.js:190, 194-204).
- Extension.FirebaseSync.InitFirebase: loading the Firebase SDK, building the app, Firestore and Storage handles, and enabling persistence are calls into a library that is not part of this model. The model assumes they succeed, so a network failure after the guard is not modelled.
- Extension.FirebaseSync.PushLocalChats: IndexedDB and Firestore I/O (`getDoc`, `setDoc`) are assumed to succeed. The store is read through the sequence of records the cursor visits; that it is a complete walk is required, but the cursor's ascending key order is not. Every operation is atomic, so interleavings across `await` are not modelled. Examples are the un-awaited cursor callback and the window between the duplicate check and the `push` in `attachListener`. The model also assumes `cur.continue()` (line 149) succeeds after the awaited `getDoc`/`setDoc`. Under IndexedDB's transaction-lifetime rules the readonly transaction is likely inactive by then, so the real walk may throw at the first `CHAT_` record and the promise at line 133 may never settle; that outcome is not modelled.
- ChatSync.PushAllAsWritten: like the class method, it assumes that `getDoc` succeeds and that `cur.continue()` (line 149) succeeds after the awaited `getDoc`. Under IndexedDB's transaction-lifetime rules the readonly transaction is likely inactive by then. The real walk may then throw at the first `CHAT_` record even when no push is due, so "settles iff no push is due" holds only under that assumption.
- Extension.FirebaseSync.AttachListener: the Firestore query (`orderBy('createdAt')`, `limitToLast(30)`) and the unsubscribe handle are not modelled. The registry holds only the chat ids.
- Extension.FirebaseSync.OnSnapshot: the changed documents arrive as opaque values, and the mapping from snapshot changes to messages is not modelled. The source appends every entry of `docChanges()`, whatever its type. The first snapshot of a listener reports up to 30 existing documents as added (`limitToLast(30)`, line 158). The registry is empty at every page load (line 126), so each attachment after a reload appends the last 30 messages again. Modified and removed documents are appended as new messages too. The model appends whatever batch it is given and does not know which changes are new.
- ChatSync.PushEntry: models the intended write. As written, line 142 throws before `setDoc`, so a due push writes nothing, skips `attachListener` and `cur.continue()`, and the walk never settles (see "## Findings").
- ChatSync.PushAll: models the intended pass. As written, the pass stops at the first due push with the remote collection unchanged; `ChatSync.PushAllAsWritten` models that.
- ChatSync.PushAllAt: states the intended overwrite. As written, a due push throws at line 142 and the document is not written (see "## Findings").
- ChatSync.AttachAll: registers every visited `CHAT_` id, as the intended pass does. As written, no id after the first due push is registered, and that chat's own id is not either.
- ChatSync.InjectedChatIsPushedBack: holds for the intended write only. As written, the due push throws at line 142 and the remote document is left as it was.
- Extension.FirebaseSync.PushLocalChats: proved against the intended pass (`PushAll`, `AttachAll`). The pass as written is `ChatSync.PushAllAsWritten`; the class does not model a walk that never settles.
- Document ids: `doc(fbDB, 'chats', k)` (lines 139 and 143) splits `k` on `/`. A key such as `CHAT_a/b` makes `doc()` throw, and `CHAT_a/messages/x` addresses a document in another chat's `messages` sub-collection. The model treats each key as one path segment, a separate entry of a flat map. For such keys, `NonChatIdUnchanged` and the statement below that the `messages` sub-collection is only read by listeners do not describe the source.
- Chat records: nothing in the source keeps `messages` or `updatedAt` out of the other fields. The model keeps them apart by convention, stated as `ChatSync.WellFormed`; `Stamped` and `Injected` preserve it, but no operation requires it.
- `updatedAt` is an optional integer. JavaScript's coercion of non-numeric stamps (strings, Firestore timestamps) in `>` and `|| 0` is not modelled.
- Store values are chat records (a message list, an optional stamp and other fields), so values of other shapes cannot be represented. In `pushLocalChats`, a `null` or `undefined` value under a `CHAT_` key throws at line 141. A string, number or boolean value is never pushed (`undefined > remoteUpd` is false) but still gets a listener. An object without `messages` whose `updatedAt` is newer is pushed as it is. In `injectToLocal`, a falsy stored value (`0`, `""`, `false`) is replaced by a fresh chat (line 173), and a truthy value without a `messages` array throws at line 174. None of these cases is modelled.
- The remote `messages` sub-collection is only read by listeners (for keys without `/`, see "Document ids" above), and its contents are not modelled.

## Findings

| source | as written | input that shows it | evidently intended | confidence | as-written member | corrected member |
|---|---|---|---|---|---|---|
| firebase-sync.js:142-143 | `await (await import(url)).then(m => m.setDoc(...))` awaits the module namespace first and then calls `.then` on it. A module namespace has no `then`, so this throws a TypeError before `setDoc` runs. The callback then skips `attachListener` and `cur.continue()`, and the promise at line 133 never settles | a local record `CHAT_a` with `updatedAt` 5 and no remote document | `(await import(url)).setDoc(...)` or `import(url).then(m => m.setDoc(...))`: overwrite the document with the chat stamped now, attach the listener, continue the walk | high; not executed | ChatSync.AsWrittenPushDiscrepancy | ChatSync.PushAllAt |
