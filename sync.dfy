/** The extension's module-level state and the operations that update it in
    place: `localStorage`, the Firebase handles (reduced to whether they are
    set), the remote `chats` collection, the `listeners` array and the local
    IndexedDB `keyval` store. */
module Extension {
  import opened Wrappers
  import opened JsText
  import opened SyncConfig
  import opened ChatSync

  /** How `initFirebase()` ends: it returns, or throws `config missing`. */
  datatype InitOutcome = Ready | ConfigMissing

  class FirebaseSync {
    /** `localStorage`, item name to value. */
    var items: map<string, string>
    /** `fbApp !== null` (with `fbDB` and `fbStore` set alongside). */
    var initialized: bool
    /** The Firestore collection `chats`, document id to document. */
    var remote: map<string, Chat>
    /** The chat ids of the `listeners` array. */
    var listeners: seq<string>
    /** The IndexedDB `keyval` store. */
    var local: map<Key, Chat>

    /** The registry never holds an id twice. */
    ghost predicate Valid()
      reads this
    {
      NoDup(listeners)
    }

    /** Page load: stores as found, Firebase not yet initialized, no listener. */
    constructor (items0: map<string, string>, remote0: map<string, Chat>, local0: map<Key, Chat>)
      ensures Valid()
      ensures items == items0 && remote == remote0 && local == local0
      ensures !initialized && listeners == []
    {
      items, remote, local := items0, remote0, local0;
      initialized := false;
      listeners := [];
    }

    /** `getConfigObj()`: reads each configuration item and keeps the
        non-empty ones under their bare key. */
    method GetConfigObj() returns (cfg: map<string, string>)
      ensures cfg == ConfigObj(items)
      ensures forall k :: k in cfg <==> k in ConfigKeys && Prefix + k in items && items[Prefix + k] != ""
      ensures forall k :: k in cfg ==> cfg[k] == items[Prefix + k]
    {
      cfg := map[];
      var i := 0;
      while i < |ConfigKeys|
        invariant 0 <= i <= |ConfigKeys|
        invariant forall k :: k in cfg <==> k in ConfigKeys[..i] && StoredValue(items, k) != ""
        invariant forall k :: k in cfg ==> cfg[k] == StoredValue(items, k)
      {
        var k := ConfigKeys[i];
        var v := Get(items, Prefix + k);
        if v.Some? && v.value != "" {
          cfg := cfg[k := v.value];
        }
        assert ConfigKeys[..i + 1] == ConfigKeys[..i] + [k];
        i := i + 1;
      }
      assert ConfigKeys[..i] == ConfigKeys;
    }

    /** `initFirebase()`: a no-op once initialized; otherwise throws `config
        missing` when no configuration item is stored, and initializes when
        at least one is. */
    method InitFirebase() returns (r: InitOutcome)
      modifies this`initialized
      ensures old(initialized) ==> r == Ready && initialized
      ensures !old(initialized) ==> (r == Ready <==> AnyConfig(items))
      ensures initialized <==> r == Ready
    {
      if initialized {
        return Ready;
      }
      var cfg := GetConfigObj();
      if |cfg| == 0 {
        return ConfigMissing;
      }
      initialized := true;
      r := Ready;
    }

    /** `saveConfig(modal)` given the four form fields in `CONFIG_KEYS`
        order: store the non-blank ones trimmed, then run `initFirebase()`. */
    method SaveConfig(fields: seq<string>) returns (r: InitOutcome)
      requires |fields| == |ConfigKeys|
      modifies this`items, this`initialized
      ensures items == Saved(old(items), fields)
      ensures old(initialized) ==> r == Ready && initialized
      ensures !old(initialized) ==> (r == Ready <==> AnyConfig(items))
      ensures initialized <==> r == Ready
    {
      StoreFields(fields);
      r := InitFirebase();
    }

    /** The store loop of `saveConfig`. */
    method StoreFields(fields: seq<string>)
      requires |fields| == |ConfigKeys|
      modifies this`items
      ensures items == Saved(old(items), fields)
    {
      var i := 0;
      while i < |ConfigKeys|
        invariant 0 <= i <= |ConfigKeys|
        invariant SaveFields(items, ConfigKeys[i..], fields[i..]) == Saved(old(items), fields)
      {
        SaveFieldsStep(items, ConfigKeys, fields, i);
        var val := Trim(fields[i]);
        if val != "" {
          items := items[Prefix + ConfigKeys[i] := val];
        }
        i := i + 1;
      }
    }

    /** `attachListener(chatId)`: registers the id unless it already is. */
    method AttachListener(chatId: string)
      requires Valid() && initialized
      modifies this`listeners
      ensures Valid()
      ensures listeners == Attach(old(listeners), chatId)
    {
      if chatId in listeners {
        return;
      }
      listeners := listeners + [chatId];
    }

    /** `pushLocalChats()`: `entries` is the cursor's walk of the local
        store and `clock[i]` is `Date.now()` at the visit of `entries[i]`.
        Overwrites each newer `CHAT_` chat remotely and attaches a listener
        to every `CHAT_` key. */
    method PushLocalChats(entries: seq<Entry>, clock: seq<int>)
      requires Valid() && initialized
      requires ScanOf(entries, local)
      requires |clock| == |entries|
      modifies this`remote, this`listeners
      ensures Valid()
      ensures remote == PushAll(old(remote), entries, clock)
      ensures listeners == AttachAll(old(listeners), entries)
    {
      var i := 0;
      while i < |entries|
        invariant 0 <= i <= |entries|
        invariant Valid()
        invariant PushAll(remote, entries[i..], clock[i..]) == PushAll(old(remote), entries, clock)
        invariant AttachAll(listeners, entries[i..]) == AttachAll(old(listeners), entries)
      {
        PushAllStep(remote, entries, clock, i);
        AttachAllStep(listeners, entries, i);
        VisitRecord(entries[i], clock[i]);
        i := i + 1;
      }
    }

    /** The cursor's `onsuccess` callback for one record, `now` being
        `Date.now()`: a `CHAT_` record newer than its remote copy overwrites
        it, and every `CHAT_` record gets a listener. */
    method VisitRecord(e: Entry, now: int)
      requires Valid() && initialized
      modifies this`remote, this`listeners
      ensures Valid()
      ensures remote == PushEntry(old(remote), e, now)
      ensures listeners == if IsChatKey(e.key) then Attach(old(listeners), e.key.s) else old(listeners)
    {
      if e.key.StrKey? && StartsWith(e.key.s, ChatPrefix) {
        var k := e.key.s;
        var remoteUpd := if k in remote then remote[k].updatedAt.GetOr(0) else 0;
        if e.value.updatedAt.Some? && e.value.updatedAt.value > remoteUpd {
          remote := remote[k := e.value.(updatedAt := Some(now))];
        }
        AttachListener(k);
      }
    }

    /** `injectToLocal(chatId, msgs)` with `now` for `Date.now()`: append the
        messages one by one to the stored chat (or to an empty one) and stamp it. */
    method InjectToLocal(chatId: string, msgs: seq<Value>, now: int)
      modifies this`local
      ensures local == old(local)[StrKey(chatId) := Injected(Get(old(local), StrKey(chatId)), msgs, now)]
    {
      var base := Get(local, StrKey(chatId)).GetOr(EmptyChat);
      var chat := base;
      var j := 0;
      while j < |msgs|
        invariant 0 <= j <= |msgs|
        invariant chat == base.(messages := base.messages + msgs[..j])
      {
        chat := chat.(messages := chat.messages + [msgs[j]]);
        assert msgs[..j + 1] == msgs[..j] + [msgs[j]];
        j := j + 1;
      }
      assert msgs[..j] == msgs;
      chat := chat.(updatedAt := Some(now));
      local := local[StrKey(chatId) := chat];
    }

    /** The `onSnapshot` callback registered by `attachListener`: an empty
        batch of changes is ignored, otherwise the changed documents are
        injected. */
    method OnSnapshot(chatId: string, changes: seq<Value>, now: int)
      modifies this`local
      ensures changes == [] ==> local == old(local)
      ensures changes != [] ==>
                local == old(local)[StrKey(chatId) := Injected(Get(old(local), StrKey(chatId)), changes, now)]
    {
      if |changes| == 0 {
        return;
      }
      InjectToLocal(chatId, changes, now);
    }
  }
}
