/** The extension's Firebase configuration as kept in `localStorage`:
    four keys, each stored under the `tcs_fb_` prefix. `localStorage` is a
    map from item name to string value. */
module SyncConfig {
  import opened Wrappers
  import opened JsText

  /** `CONFIG_KEYS`, in the order the extension walks them. */
  const ConfigKeys: seq<string> := ["apiKey", "authDomain", "projectId", "storageBucket"]

  /** `LSTORE_PREFIX`. */
  const Prefix: string := "tcs_fb_"

  /** `localStorage.getItem(LSTORE_PREFIX + k) || ''`: a missing item reads as
      the empty string, which JavaScript treats as falsy like `null`. */
  function StoredValue(items: map<string, string>, k: string): string
  {
    Get(items, Prefix + k).GetOr("")
  }

  /** `keys.every(k => localStorage.getItem(LSTORE_PREFIX + k))`, walked left
      to right and stopping at the first key whose item is missing or empty.
      The walk succeeds exactly when every key has a non-empty stored value. */
  function Every(keys: seq<string>, items: map<string, string>): (r: bool)
    ensures r <==> forall k :: k in keys ==> StoredValue(items, k) != ""
  {
    if keys == [] then true
    else
      assert forall k :: k in keys <==> k == keys[0] || k in keys[1..];
      StoredValue(items, keys[0]) != "" && Every(keys[1..], items)
  }

  /** `hasConfig()`: holds iff all four configuration keys are stored
      non-empty under `tcs_fb_`. */
  predicate HasConfig(items: map<string, string>)
    ensures HasConfig(items) <==>
              (StoredValue(items, "apiKey") != "" && StoredValue(items, "authDomain") != ""
               && StoredValue(items, "projectId") != "" && StoredValue(items, "storageBucket") != "")
  {
    Every(ConfigKeys, items)
  }

  /** The object `getConfigObj()` builds: exactly the configuration keys whose
      `localStorage` item is present and non-empty, each mapped to that item. */
  function ConfigObj(items: map<string, string>): (cfg: map<string, string>)
    ensures forall k :: k in cfg <==> k in ConfigKeys && Prefix + k in items && items[Prefix + k] != ""
    ensures forall k :: k in cfg ==> cfg[k] == items[Prefix + k]
  {
    map k | k in ConfigKeys && StoredValue(items, k) != "" :: StoredValue(items, k)
  }

  /** With `hasConfig()` true, the configuration object has all four keys,
      each mapped to the item stored under the prefixed name. */
  lemma HasConfigFullObj(items: map<string, string>)
    requires HasConfig(items)
    ensures ConfigObj(items).Keys == set k | k in ConfigKeys
    ensures forall k :: k in ConfigKeys ==> Prefix + k in items && ConfigObj(items)[k] == items[Prefix + k]
  {
  }

  /** The guard of `initFirebase()`: the configuration object has at least one
      key. It passes exactly when some configuration key is stored non-empty. */
  predicate AnyConfig(items: map<string, string>)
    ensures AnyConfig(items) <==> exists k :: k in ConfigKeys && StoredValue(items, k) != ""
  {
    var cfg := ConfigObj(items);
    NonEmptyMap(cfg);
    |cfg| != 0
  }

  lemma NonEmptyMap(m: map<string, string>)
    ensures |m| != 0 <==> exists k :: k in m
  {
    if |m| != 0 {
      assert |m.Keys| != 0;
      var k :| k in m.Keys;
    }
  }

  /** `initFirebase()` demands less than `hasConfig()`: one stored key is
      enough to pass its guard even though `hasConfig()` is false. */
  lemma PartialConfigPassesInitGuard()
    ensures var items := map[Prefix + "apiKey" := "k"];
            AnyConfig(items) && !HasConfig(items)
  {
    var items := map[Prefix + "apiKey" := "k"];
    assert StoredValue(items, "apiKey") != "";
    assert Prefix + "authDomain" != Prefix + "apiKey" by {
      assert (Prefix + "authDomain")[8] != (Prefix + "apiKey")[8];
    }
    assert StoredValue(items, "authDomain") == "";
  }

  /** `hasConfig()` implies the guard of `initFirebase()` passes. */
  lemma HasConfigPassesInitGuard(items: map<string, string>)
    requires HasConfig(items)
    ensures AnyConfig(items)
  {
    HasConfigFullObj(items);
    assert "apiKey" in ConfigObj(items);
  }

  /** The item names `saveConfig` may write for `keys`. */
  function ItemNames(keys: seq<string>): set<string>
  {
    set k | k in keys :: Prefix + k
  }

  /** The store loop of `saveConfig`: walk the keys with their form fields;
      a field that trims to non-empty is stored (trimmed) under the prefixed
      key, a blank field writes nothing. No item is ever removed, and only
      prefixed key names can be added. */
  function SaveFields(items: map<string, string>, keys: seq<string>, fields: seq<string>): (r: map<string, string>)
    requires |keys| == |fields|
    ensures items.Keys <= r.Keys <= items.Keys + ItemNames(keys)
    decreases |keys|
  {
    if keys == [] then items
    else
      assert ItemNames(keys) == {Prefix + keys[0]} + ItemNames(keys[1..]);
      SaveFields(SaveOne(items, keys[0], fields[0]), keys[1..], fields[1..])
  }

  /** Unfolds the store loop at position `i`. */
  lemma SaveFieldsStep(items: map<string, string>, keys: seq<string>, fields: seq<string>, i: nat)
    requires |keys| == |fields| && i < |keys|
    ensures SaveFields(items, keys[i..], fields[i..])
         == SaveFields(SaveOne(items, keys[i], fields[i]), keys[i + 1..], fields[i + 1..])
  {
    assert keys[i..][1..] == keys[i + 1..];
    assert fields[i..][1..] == fields[i + 1..];
  }

  /** One iteration of that loop: the item of `k` becomes the trimmed field
      when that is non-empty and is otherwise left as it was; no other item
      changes. */
  function SaveOne(items: map<string, string>, k: string, field: string): (r: map<string, string>)
    ensures Get(r, Prefix + k) == if Trim(field) != "" then Some(Trim(field)) else Get(items, Prefix + k)
    ensures forall name :: name != Prefix + k ==> Get(r, name) == Get(items, name)
  {
    var val := Trim(field);
    if val != "" then items[Prefix + k := val] else items
  }

  /** Item names no configuration key maps to are left as they were. */
  lemma {:induction false} SaveFieldsOther(items: map<string, string>, keys: seq<string>, fields: seq<string>, name: string)
    requires |keys| == |fields|
    requires forall k :: k in keys ==> name != Prefix + k
    ensures Get(SaveFields(items, keys, fields), name) == Get(items, name)
    decreases |keys|
  {
    if keys != [] {
      var next := SaveOne(items, keys[0], fields[0]);
      assert keys[0] in keys;
      assert Get(next, name) == Get(items, name);
      SaveFieldsOther(next, keys[1..], fields[1..], name);
    }
  }

  /** Distinct keys have distinct prefixed item names. */
  lemma PrefixedDistinct(a: string, b: string)
    requires a != b
    ensures Prefix + a != Prefix + b
  {
    assert (Prefix + a)[|Prefix|..] == a;
    assert (Prefix + b)[|Prefix|..] == b;
  }

  /** The item of the `i`-th key holds the trimmed field when it is non-empty,
      and keeps its previous value (or absence) when the field is blank. */
  lemma {:induction false} SaveFieldsAt(items: map<string, string>, keys: seq<string>, fields: seq<string>, i: nat)
    requires |keys| == |fields| && i < |keys|
    requires forall a, b :: 0 <= a < b < |keys| ==> keys[a] != keys[b]
    ensures Get(SaveFields(items, keys, fields), Prefix + keys[i])
         == if Trim(fields[i]) != "" then Some(Trim(fields[i])) else Get(items, Prefix + keys[i])
    decreases |keys|
  {
    var next := SaveOne(items, keys[0], fields[0]);
    var rest := keys[1..];
    if i == 0 {
      forall k | k in rest ensures Prefix + keys[0] != Prefix + k {
        var b :| 0 <= b < |rest| && rest[b] == k;
        assert keys[0] != keys[b + 1];
        PrefixedDistinct(keys[0], k);
      }
      SaveFieldsOther(next, rest, fields[1..], Prefix + keys[0]);
    } else {
      assert rest[i - 1] == keys[i];
      SaveFieldsAt(next, rest, fields[1..], i - 1);
      PrefixedDistinct(keys[0], keys[i]);
      assert Get(next, Prefix + keys[i]) == Get(items, Prefix + keys[i]);
    }
  }

  /** `saveConfig` applied to the four configuration keys: it removes no
      item and adds none outside the four prefixed configuration names. */
  function Saved(items: map<string, string>, fields: seq<string>): (r: map<string, string>)
    requires |fields| == |ConfigKeys|
    ensures items.Keys <= r.Keys <= items.Keys + ItemNames(ConfigKeys)
  {
    SaveFields(items, ConfigKeys, fields)
  }

  /** Per key: a non-blank field is stored trimmed; a blank one leaves the
      previous item (or its absence) in place. */
  lemma SavedConfigKey(items: map<string, string>, fields: seq<string>, i: nat)
    requires |fields| == |ConfigKeys| && i < |ConfigKeys|
    ensures Get(Saved(items, fields), Prefix + ConfigKeys[i])
         == if Trim(fields[i]) != "" then Some(Trim(fields[i])) else Get(items, Prefix + ConfigKeys[i])
  {
    SaveFieldsAt(items, ConfigKeys, fields, i);
  }

  /** No item outside the four prefixed configuration names is written. */
  lemma SavedOther(items: map<string, string>, fields: seq<string>, name: string)
    requires |fields| == |ConfigKeys|
    requires forall k :: k in ConfigKeys ==> name != Prefix + k
    ensures Get(Saved(items, fields), name) == Get(items, name)
  {
    SaveFieldsOther(items, ConfigKeys, fields, name);
  }

  /** Filling in all four fields with non-blank text makes `hasConfig()` true. */
  lemma SavedAllFieldsHasConfig(items: map<string, string>, fields: seq<string>)
    requires |fields| == |ConfigKeys|
    requires forall i :: 0 <= i < |fields| ==> !AllWhite(fields[i])
    ensures HasConfig(Saved(items, fields))
  {
    var r := Saved(items, fields);
    forall k | k in ConfigKeys ensures StoredValue(r, k) != "" {
      var i :| 0 <= i < |ConfigKeys| && ConfigKeys[i] == k;
      TrimEmptyIff(fields[i]);
      SavedConfigKey(items, fields, i);
    }
  }

  /** Saving only blank fields changes nothing. */
  lemma {:induction false} SaveBlankFieldsUnchanged(items: map<string, string>, keys: seq<string>, fields: seq<string>)
    requires |keys| == |fields|
    requires forall i :: 0 <= i < |fields| ==> AllWhite(fields[i])
    ensures SaveFields(items, keys, fields) == items
    decreases |keys|
  {
    if keys != [] {
      TrimEmptyIff(fields[0]);
      SaveBlankFieldsUnchanged(items, keys[1..], fields[1..]);
    }
  }
}
