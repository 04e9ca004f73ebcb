/** Chats as stored locally (IndexedDB `keyval` store) and remotely
    (Firestore collection `chats`), and the three pieces of sync logic over
    them: the push decision, the listener registry and message injection. */
module ChatSync {
  import opened Wrappers
  import opened JsText

  /** An opaque JSON-like value: a message, or any chat field the extension
      does not look at. */
  datatype Value =
    | Null
    | Bool(b: bool)
    | Num(n: int)
    | Str(s: string)
    | Arr(items: seq<Value>)
    | Obj(fields: map<string, Value>)

  /** A chat record: its message list, its `updatedAt` stamp (absent when the
      record has none) and every other field, untouched by the extension.
      By convention `rest` holds neither `messages` nor `updatedAt`; see
      `WellFormed`. */
  datatype Chat = Chat(messages: seq<Value>, updatedAt: Option<int>, rest: map<string, Value>)

  /** The other fields do not repeat the two the extension reads. */
  predicate WellFormed(c: Chat)
  {
    "messages" !in c.rest && "updatedAt" !in c.rest
  }

  /** An IndexedDB key: a string, or any other key type (number, date,
      array), which the extension skips. */
  datatype Key = StrKey(s: string) | OtherKey(n: int)

  /** One record visited by the cursor of `pushLocalChats`. */
  datatype Entry = Entry(key: Key, value: Chat)

  const ChatPrefix: string := "CHAT_"

  /** `typeof k === 'string' && k.startsWith('CHAT_')`: the string keys of
      the form `CHAT_` followed by anything. */
  predicate IsChatKey(k: Key)
    ensures IsChatKey(k) <==> exists tail :: k == StrKey(ChatPrefix + tail)
  {
    assert k.StrKey? && StartsWith(k.s, ChatPrefix) ==> k.s == ChatPrefix + k.s[|ChatPrefix|..];

    k.StrKey? && StartsWith(k.s, ChatPrefix)
  }

  /** The chat ids a scan of `entries` considers. */
  function ChatIds(entries: seq<Entry>): set<string>
  {
    set i | 0 <= i < |entries| && IsChatKey(entries[i].key) :: entries[i].key.s
  }

  /** IndexedDB cursors visit each key once. */
  predicate DistinctKeys(entries: seq<Entry>)
  {
    forall a, b :: 0 <= a < b < |entries| ==> entries[a].key != entries[b].key
  }

  /** The store whose records are `entries`. */
  function StoreOf(entries: seq<Entry>): map<Key, Chat>
    decreases |entries|
  {
    if entries == [] then map[] else StoreOf(entries[1..])[entries[0].key := entries[0].value]
  }

  /** `entries` is a complete cursor walk of `store`: every record once, with
      its stored value. */
  predicate ScanOf(entries: seq<Entry>, store: map<Key, Chat>)
  {
    DistinctKeys(entries) && StoreOf(entries) == store
  }

  /** A complete walk visits each stored record, with its stored value, and
      nothing else. */
  lemma {:induction false} ScanOfSpec(entries: seq<Entry>, store: map<Key, Chat>)
    requires ScanOf(entries, store)
    ensures forall i :: 0 <= i < |entries| ==> entries[i].key in store && store[entries[i].key] == entries[i].value
    ensures forall k :: k in store ==> exists i :: 0 <= i < |entries| && entries[i].key == k
    decreases |entries|
  {
    if entries != [] {
      var tail := entries[1..];
      assert DistinctKeys(tail) by {
        forall a, b | 0 <= a < b < |tail| ensures tail[a].key != tail[b].key {
          assert tail[a] == entries[a + 1] && tail[b] == entries[b + 1];
        }
      }
      ScanOfSpec(tail, StoreOf(tail));
      forall i | 0 <= i < |entries|
        ensures entries[i].key in store && store[entries[i].key] == entries[i].value
      {
        if i > 0 {
          assert entries[i] == tail[i - 1];
          assert entries[i].key != entries[0].key;
        }
      }
      forall k | k in store ensures exists i :: 0 <= i < |entries| && entries[i].key == k {
        if k != entries[0].key {
          var j :| 0 <= j < |tail| && tail[j].key == k;
          assert entries[j + 1].key == k;
        }
      }
    }
  }

  // ---------------------------------------------------------------------
  // Push decision

  /** `docSnap.exists() ? docSnap.data().updatedAt || 0 : 0`: the remote
      stamp, or 0 when the document or its `updatedAt` field is missing. */
  function RemoteUpdatedAt(remote: map<string, Chat>, id: string): (t: int)
    ensures id !in remote ==> t == 0
    ensures id in remote && remote[id].updatedAt.None? ==> t == 0
    ensures id in remote && remote[id].updatedAt.Some? ==> t == remote[id].updatedAt.value
  {
    if id in remote then remote[id].updatedAt.GetOr(0) else 0
  }

  /** `cur.value.updatedAt > remoteUpd`; an absent stamp never compares greater. */
  predicate ShouldPush(local: Chat, remoteUpd: int)
    ensures local.updatedAt.None? ==> !ShouldPush(local, remoteUpd)
    ensures forall t :: local.updatedAt == Some(t) ==> (ShouldPush(local, remoteUpd) <==> t > remoteUpd)
  {
    local.updatedAt.Some? && local.updatedAt.value > remoteUpd
  }

  /** `{...cur.value, updatedAt: Date.now()}`: only the stamp differs. */
  function Stamped(c: Chat, now: int): (r: Chat)
    ensures r.messages == c.messages && r.rest == c.rest && r.updatedAt == Some(now)
    ensures WellFormed(c) ==> WellFormed(r)
  {
    c.(updatedAt := Some(now))
  }

  /** One cursor step of `pushLocalChats` on the remote collection: a chat
      key whose local stamp is newer overwrites the remote document (`setDoc`,
      no merge). */
  function PushEntry(remote: map<string, Chat>, e: Entry, now: int): (r: map<string, Chat>)
    ensures !IsChatKey(e.key) ==> r == remote
    ensures IsChatKey(e.key) ==> forall id :: id != e.key.s ==> Get(r, id) == Get(remote, id)
    ensures IsChatKey(e.key) ==>
              Get(r, e.key.s) == if ShouldPush(e.value, RemoteUpdatedAt(remote, e.key.s))
                                 then Some(Stamped(e.value, now)) else Get(remote, e.key.s)
  {
    if IsChatKey(e.key) && ShouldPush(e.value, RemoteUpdatedAt(remote, e.key.s))
    then remote[e.key.s := Stamped(e.value, now)]
    else remote
  }

  /** The whole cursor walk; `clock[i]` is what `Date.now()` returns while
      visiting `entries[i]`. No document is deleted, and only visited `CHAT_`
      ids can be added. */
  function PushAll(remote: map<string, Chat>, entries: seq<Entry>, clock: seq<int>): (r: map<string, Chat>)
    requires |clock| == |entries|
    ensures remote.Keys <= r.Keys <= remote.Keys + ChatIds(entries)
    decreases |entries|
  {
    if entries == [] then remote
    else
      ChatIdsCons(entries);
      PushAll(PushEntry(remote, entries[0], clock[0]), entries[1..], clock[1..])
  }

  /** Unfolds the push walk at position `i`. */
  lemma PushAllStep(remote: map<string, Chat>, entries: seq<Entry>, clock: seq<int>, i: nat)
    requires |clock| == |entries| && i < |entries|
    ensures PushAll(remote, entries[i..], clock[i..])
         == PushAll(PushEntry(remote, entries[i], clock[i]), entries[i + 1..], clock[i + 1..])
  {
    assert entries[i..][1..] == entries[i + 1..];
    assert clock[i..][1..] == clock[i + 1..];
  }

  lemma ChatIdsCons(entries: seq<Entry>)
    requires entries != []
    ensures ChatIds(entries)
         == (if IsChatKey(entries[0].key) then {entries[0].key.s} else {}) + ChatIds(entries[1..])
  {
    var tail := entries[1..];
    forall x | x in ChatIds(entries)
      ensures x in (if IsChatKey(entries[0].key) then {entries[0].key.s} else {}) + ChatIds(tail)
    {
      var i :| 0 <= i < |entries| && IsChatKey(entries[i].key) && entries[i].key.s == x;
      if i > 0 { assert tail[i - 1] == entries[i]; }
    }
    forall x | x in ChatIds(tail) ensures x in ChatIds(entries) {
      var i :| 0 <= i < |tail| && IsChatKey(tail[i].key) && tail[i].key.s == x;
      assert entries[i + 1] == tail[i];
    }
  }

  /** A document whose id is not a chat key of the scan is left as it was. */
  lemma {:induction false} PushAllFrame(remote: map<string, Chat>, entries: seq<Entry>, clock: seq<int>, id: string)
    requires |clock| == |entries|
    requires id !in ChatIds(entries)
    ensures Get(PushAll(remote, entries, clock), id) == Get(remote, id)
    decreases |entries|
  {
    if entries != [] {
      ChatIdsCons(entries);
      PushAllFrame(PushEntry(remote, entries[0], clock[0]), entries[1..], clock[1..], id);
    }
  }

  /** Keys that are not strings starting with `CHAT_` never touch the remote
      collection: no document outside the `CHAT_` ids changes. */
  lemma NonChatIdUnchanged(remote: map<string, Chat>, entries: seq<Entry>, clock: seq<int>, id: string)
    requires |clock| == |entries|
    requires !StartsWith(id, ChatPrefix)
    ensures Get(PushAll(remote, entries, clock), id) == Get(remote, id)
  {
    PushAllFrame(remote, entries, clock, id);
  }

  /** A pass over a complete walk of the local store changes only documents
      of `CHAT_` records that the store holds. */
  lemma PushOnlyStoredChats(store: map<Key, Chat>, remote: map<string, Chat>, entries: seq<Entry>,
                            clock: seq<int>, id: string)
    requires ScanOf(entries, store) && |clock| == |entries|
    requires StrKey(id) !in store || !StartsWith(id, ChatPrefix)
    ensures Get(PushAll(remote, entries, clock), id) == Get(remote, id)
  {
    ScanOfSpec(entries, store);
    assert id !in ChatIds(entries);
    PushAllFrame(remote, entries, clock, id);
  }

  /** The document of the chat visited at position `i` is overwritten iff its
      local stamp is strictly greater than the remote one (0 when the document
      or its field is missing), and then holds the local chat stamped with the
      time of that visit. */
  lemma {:induction false} PushAllAt(remote: map<string, Chat>, entries: seq<Entry>, clock: seq<int>, i: nat)
    requires |clock| == |entries| && i < |entries|
    requires DistinctKeys(entries)
    requires IsChatKey(entries[i].key)
    ensures Get(PushAll(remote, entries, clock), entries[i].key.s)
         == if ShouldPush(entries[i].value, RemoteUpdatedAt(remote, entries[i].key.s))
            then Some(Stamped(entries[i].value, clock[i]))
            else Get(remote, entries[i].key.s)
    decreases |entries|
  {
    var k := entries[i].key.s;
    var next := PushEntry(remote, entries[0], clock[0]);
    if i == 0 {
      forall j | 0 <= j < |entries[1..]| ensures entries[1..][j].key != entries[0].key {
        assert entries[1..][j] == entries[j + 1];
      }
      assert k !in ChatIds(entries[1..]);
      PushAllFrame(next, entries[1..], clock[1..], k);
    } else {
      assert entries[0].key != entries[i].key;
      assert Get(next, k) == Get(remote, k);
      assert RemoteUpdatedAt(next, k) == RemoteUpdatedAt(remote, k);
      assert entries[1..][i - 1] == entries[i];
      PushAllAt(next, entries[1..], clock[1..], i - 1);
    }
  }

  /** A walk in which no chat is newer than its remote copy writes nothing. */
  lemma {:induction false} NoWrites(remote: map<string, Chat>, entries: seq<Entry>, clock: seq<int>)
    requires |clock| == |entries|
    requires forall i :: 0 <= i < |entries| && IsChatKey(entries[i].key) ==>
               !ShouldPush(entries[i].value, RemoteUpdatedAt(remote, entries[i].key.s))
    ensures PushAll(remote, entries, clock) == remote
    decreases |entries|
  {
    if entries != [] {
      assert PushEntry(remote, entries[0], clock[0]) == remote;
      forall i | 0 <= i < |entries[1..]| && IsChatKey(entries[1..][i].key)
        ensures !ShouldPush(entries[1..][i].value, RemoteUpdatedAt(remote, entries[1..][i].key.s))
      {
        assert entries[1..][i] == entries[i + 1];
      }
      NoWrites(remote, entries[1..], clock[1..]);
    }
  }

  /** Local stamps are not ahead of the clock that stamps pushed documents. */
  predicate StampsNotAhead(entries: seq<Entry>, clock: seq<int>)
    requires |clock| == |entries|
  {
    forall i :: 0 <= i < |entries| && entries[i].value.updatedAt.Some? ==>
      entries[i].value.updatedAt.value <= clock[i]
  }

  /** Idempotence of a push pass: repeating it over the same unchanged local
      chats writes nothing more, whatever the clock reads the second time. */
  lemma PushAllIdempotent(remote: map<string, Chat>, entries: seq<Entry>, clock: seq<int>, clock2: seq<int>)
    requires |clock| == |entries| && |clock2| == |entries|
    requires DistinctKeys(entries)
    requires StampsNotAhead(entries, clock)
    ensures PushAll(PushAll(remote, entries, clock), entries, clock2) == PushAll(remote, entries, clock)
  {
    var after := PushAll(remote, entries, clock);
    forall i | 0 <= i < |entries| && IsChatKey(entries[i].key)
      ensures !ShouldPush(entries[i].value, RemoteUpdatedAt(after, entries[i].key.s))
    {
      PushAllAt(remote, entries, clock, i);
    }
    NoWrites(after, entries, clock2);
  }

  // ---------------------------------------------------------------------
  // The push pass as written
  //
  // In `await (await import(url)).then(m => m.setDoc(...))` the member access
  // binds tighter than the outer `await`, so `.then` is looked up on the
  // imported module namespace, which exports no `then`. The call throws a
  // TypeError before `setDoc` runs; the async cursor callback rejects, skips
  // `attachListener(k)` and `cur.continue()`, and the promise wrapping the
  // walk never settles. `PushEntry` and `PushAll` above model the evidently
  // intended write instead.

  /** The state a push pass leaves: the remote collection, the registry, and
      whether the walk's promise settled. */
  datatype PassState = PassState(remote: map<string, Chat>, listeners: seq<string>, settled: bool)

  /** True when some visited `CHAT_` chat is newer than its remote copy. */
  predicate SomePushDue(remote: map<string, Chat>, entries: seq<Entry>)
  {
    exists i :: 0 <= i < |entries| && IsChatKey(entries[i].key)
      && ShouldPush(entries[i].value, RemoteUpdatedAt(remote, entries[i].key.s))
  }

  /** The cursor walk of `pushLocalChats` as written: a chat that should be
      pushed makes the callback throw, and the walk stops there. No document
      is ever written, and the pass settles iff no push was due. */
  function PushAllAsWritten(remote: map<string, Chat>, ids: seq<string>, entries: seq<Entry>): (r: PassState)
    ensures r.remote == remote
    ensures r.settled <==> !SomePushDue(remote, entries)
    ensures NoDup(ids) ==> NoDup(r.listeners)
    decreases |entries|
  {
    if entries == [] then PassState(remote, ids, true)
    else
      var e := entries[0];
      assert SomePushDue(remote, entries) <==>
               (IsChatKey(e.key) && ShouldPush(e.value, RemoteUpdatedAt(remote, e.key.s)))
               || SomePushDue(remote, entries[1..]) by {
        if SomePushDue(remote, entries[1..]) {
          var j :| 0 <= j < |entries[1..]| && IsChatKey(entries[1..][j].key)
                   && ShouldPush(entries[1..][j].value, RemoteUpdatedAt(remote, entries[1..][j].key.s));
          assert entries[j + 1] == entries[1..][j];
        }
        if SomePushDue(remote, entries) {
          var i :| 0 <= i < |entries| && IsChatKey(entries[i].key)
                   && ShouldPush(entries[i].value, RemoteUpdatedAt(remote, entries[i].key.s));
          if i > 0 { assert entries[1..][i - 1] == entries[i]; }
        }
      }
      if !IsChatKey(e.key) then PushAllAsWritten(remote, ids, entries[1..])
      else if ShouldPush(e.value, RemoteUpdatedAt(remote, e.key.s)) then PassState(remote, ids, false)
      else PushAllAsWritten(remote, Attach(ids, e.key.s), entries[1..])
  }

  /** When no push is due the code as written and the intended pass agree:
      the same registry, no write, and the walk settles. */
  lemma {:induction false} AsWrittenMatchesWhenNoPush(remote: map<string, Chat>, ids: seq<string>,
                                                      entries: seq<Entry>, clock: seq<int>)
    requires |clock| == |entries|
    requires !SomePushDue(remote, entries)
    ensures PushAllAsWritten(remote, ids, entries) == PassState(PushAll(remote, entries, clock), AttachAll(ids, entries), true)
    decreases |entries|
  {
    if entries != [] {
      var e := entries[0];
      assert !(IsChatKey(e.key) && ShouldPush(e.value, RemoteUpdatedAt(remote, e.key.s))) by {
        assert !(0 < |entries| && IsChatKey(entries[0].key)
                 && ShouldPush(entries[0].value, RemoteUpdatedAt(remote, entries[0].key.s)));
      }
      assert !SomePushDue(remote, entries[1..]) by {
        forall j | 0 <= j < |entries[1..]|
          ensures !(IsChatKey(entries[1..][j].key)
                    && ShouldPush(entries[1..][j].value, RemoteUpdatedAt(remote, entries[1..][j].key.s)))
        {
          assert entries[1..][j] == entries[j + 1];
        }
      }
      assert PushEntry(remote, e, clock[0]) == remote;
      AsWrittenMatchesWhenNoPush(remote, if IsChatKey(e.key) then Attach(ids, e.key.s) else ids,
                                 entries[1..], clock[1..]);
    }
  }

  /** The discrepancy on one newer chat with no remote copy: as written the
      pass writes nothing, registers nothing and never settles; the intended
      pass writes the stamped chat and registers it. */
  lemma AsWrittenPushDiscrepancy()
    ensures var c := Chat([], Some(5), map[]);
            var entries := [Entry(StrKey("CHAT_a"), c)];
            PushAllAsWritten(map[], [], entries) == PassState(map[], [], false)
            && PushAll(map[], entries, [7]) == map["CHAT_a" := Stamped(c, 7)]
            && AttachAll([], entries) == ["CHAT_a"]
  {
    var c := Chat([], Some(5), map[]);
    var entries := [Entry(StrKey("CHAT_a"), c)];
    assert IsChatKey(entries[0].key) by {
      assert StartsWith("CHAT_a", ChatPrefix);
    }
    assert entries[1..] == [];
  }

  // ---------------------------------------------------------------------
  // Listener registry

  predicate NoDup(ids: seq<string>)
  {
    forall a, b :: 0 <= a < b < |ids| ==> ids[a] != ids[b]
  }

  /** `attachListener(chatId)` on the list of registered ids: an id already
      present is not registered again, a new id goes at the end. */
  function Attach(ids: seq<string>, id: string): (r: seq<string>)
    ensures NoDup(ids) ==> NoDup(r)
    ensures |ids| <= |r| <= |ids| + 1 && r[..|ids|] == ids
    ensures forall x :: x in r <==> x in ids || x == id
    ensures id in ids ==> r == ids
  {
    if id in ids then ids else ids + [id]
  }

  /** Attaching is idempotent. */
  lemma AttachIdempotent(ids: seq<string>, id: string)
    ensures Attach(Attach(ids, id), id) == Attach(ids, id)
  {
  }

  /** The attachments made by a push pass, in cursor order: the registry
      stays duplicate-free, keeps the old registry as a prefix, and gains
      exactly the `CHAT_` ids visited. */
  function AttachAll(ids: seq<string>, entries: seq<Entry>): (r: seq<string>)
    ensures NoDup(ids) ==> NoDup(r)
    ensures |ids| <= |r| && r[..|ids|] == ids
    ensures forall x :: x in r <==> x in ids || x in ChatIds(entries)
    decreases |entries|
  {
    if entries == [] then ids
    else
      var next := if IsChatKey(entries[0].key) then Attach(ids, entries[0].key.s) else ids;
      var r := AttachAll(next, entries[1..]);
      ChatIdsCons(entries);
      assert r[..|ids|] == r[..|next|][..|ids|];
      r
  }

  /** Unfolds the attachments of a push pass at position `i`. */
  lemma AttachAllStep(ids: seq<string>, entries: seq<Entry>, i: nat)
    requires i < |entries|
    ensures AttachAll(ids, entries[i..])
         == AttachAll(if IsChatKey(entries[i].key) then Attach(ids, entries[i].key.s) else ids, entries[i + 1..])
  {
    assert entries[i..][1..] == entries[i + 1..];
  }

  // ---------------------------------------------------------------------
  // Message injection

  /** `req.result || {messages: [], updatedAt: 0}` for a missing chat. */
  const EmptyChat: Chat := Chat([], Some(0), map[])

  /** The chat `injectToLocal` writes back: the stored messages (or none) are
      kept as a prefix, the incoming messages follow in order with no
      deduplication, the stamp becomes `now` and the other fields are those
      of the stored chat (none for a missing chat). */
  function Injected(existing: Option<Chat>, msgs: seq<Value>, now: int): (c: Chat)
    ensures var prev := if existing.Some? then existing.value.messages else [];
            |c.messages| == |prev| + |msgs| && c.messages[..|prev|] == prev && c.messages[|prev|..] == msgs
    ensures c.updatedAt == Some(now)
    ensures existing.Some? ==> c.rest == existing.value.rest
    ensures existing.None? ==> c.rest == map[]
    ensures existing.None? || WellFormed(existing.value) ==> WellFormed(c)
  {
    var base := existing.GetOr(EmptyChat);
    base.(messages := base.messages + msgs, updatedAt := Some(now))
  }

  /** Two successive injections append the same as one injection of both
      batches; only the later stamp survives. */
  lemma InjectTwice(existing: Option<Chat>, a: seq<Value>, b: seq<Value>, t1: int, t2: int)
    ensures Injected(Some(Injected(existing, a, t1)), b, t2) == Injected(existing, a + b, t2)
  {
    var base := existing.GetOr(EmptyChat);
    assert base.messages + a + b == base.messages + (a + b);
  }

  /** An injected chat is stamped with `now`, so the next push pass uploads it
      again when `now` is newer than the remote stamp: the file has no
      suppression of its own echoes. */
  lemma InjectedChatIsPushedBack(remote: map<string, Chat>, id: string, existing: Option<Chat>,
                                 msgs: seq<Value>, now: int, later: int)
    requires StartsWith(id, ChatPrefix)
    requires now > RemoteUpdatedAt(remote, id)
    ensures var c := Injected(existing, msgs, now);
            PushEntry(remote, Entry(StrKey(id), c), later) == remote[id := Stamped(c, later)]
  {
  }
}
