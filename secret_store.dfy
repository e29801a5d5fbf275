/** The durable secret store the bridge keeps its identity in: the entries
    of the keyring service `mp.ticketing.service`, as a map from key to secret. */
module SecretStore {
  import opened Base

  /** The keyring service every entry of the bridge lives under. */
  const SERVICE := "mp.ticketing.service"
  /** Key of the enrolled server address. */
  const SERVER_KEY := "mp.server"
  /** Key of the kiosk's display name. */
  const NAME_KEY := "mp.kiosk.name"

  type Store = map<string, string>

  /** `keyring.get_password(SERVICE, key)`: None when nothing is stored. */
  function Lookup(store: Store, key: string): (r: Option<string>)
    ensures r.Some? <==> key in store
    ensures r.Some? ==> r.value == store[key]
  {
    if key in store then Some(store[key]) else None
  }

  /** Every key is present and no key is named twice, so deleting them one
      after another never meets a missing key. */
  ghost predicate Deletable(store: Store, keys: seq<string>) {
    (forall i :: 0 <= i < |keys| ==> keys[i] in store) &&
    (forall i, j :: 0 <= i < j < |keys| ==> keys[i] != keys[j])
  }

  /** The store after a run of deletions, and the key that raised, if one did. */
  datatype Deletion = Deletion(store: Store, failedAt: Option<string>)

  /** `delete_password` on each key in order; the first key that holds
      nothing raises and the remaining deletions do not happen. */
  function DeleteEach(store: Store, keys: seq<string>): (d: Deletion)
    ensures d.failedAt.None? <==> Deletable(store, keys)
    ensures d.failedAt.None? ==> d.store == store - set k | k in keys
    ensures d.failedAt.Some? ==> d.failedAt.value in keys && d.failedAt.value !in d.store
    ensures forall k :: k in d.store ==> k in store && d.store[k] == store[k]
    ensures forall k :: k in store && k !in keys ==> k in d.store
  {
    if keys == [] then Deletion(store, None)
    else if keys[0] !in store then Deletion(store, Some(keys[0]))
    else
      var d := DeleteEach(store - {keys[0]}, keys[1..]);
      assert Deletable(store, keys) <==> Deletable(store - {keys[0]}, keys[1..]) by {
        if Deletable(store - {keys[0]}, keys[1..]) {
          forall i, j | 0 <= i < j < |keys| ensures keys[i] != keys[j] {
            if i > 0 { assert keys[i] == keys[1..][i - 1] && keys[j] == keys[1..][j - 1]; }
            else { assert keys[j] == keys[1..][j - 1]; }
          }
        }
        if Deletable(store, keys) {
          forall i | 0 <= i < |keys[1..]| ensures keys[1..][i] in store - {keys[0]} {
            assert keys[1..][i] == keys[i + 1];
          }
        }
      }
      assert (set k | k in keys) == {keys[0]} + set k | k in keys[1..];
      d
  }

  /** Deleting a list of keys is deleting its first key, then the rest. */
  lemma DeleteEachCons(store: Store, key: string, rest: seq<string>)
    ensures DeleteEach(store, [key] + rest) ==
      if key in store then DeleteEach(store - {key}, rest) else Deletion(store, Some(key))
  {
  }

  /** Deleting a deletable list is deleting its first key, then a deletable rest. */
  lemma DeletableTail(store: Store, done: seq<string>)
    requires done != [] && Deletable(store, done)
    ensures done[0] in store && Deletable(store - {done[0]}, done[1..])
    ensures store - (set k | k in done) == (store - {done[0]}) - (set k | k in done[1..])
  {
  }

  /** Where a run of deletions stops: at the first key that the deletions
      before it (`done`) have left absent. The store then lacks exactly the
      keys of `done`, that key is the one reported, and the keys after it
      are never touched. */
  lemma {:induction false} DeleteEachStopsAtFirstMissing(store: Store, done: seq<string>, key: string, rest: seq<string>)
    requires Deletable(store, done)
    requires key !in store - (set k | k in done)
    ensures DeleteEach(store, done + [key] + rest) == Deletion(store - (set k | k in done), Some(key))
  {
    if done == [] {
      assert done + [key] + rest == [key] + rest;
      assert store - (set k | k in done) == store;
      DeleteEachCons(store, key, rest);
    } else {
      assert done + [key] + rest == [done[0]] + (done[1..] + [key] + rest);
      DeleteEachCons(store, done[0], done[1..] + [key] + rest);
      DeletableTail(store, done);
      DeleteEachStopsAtFirstMissing(store - {done[0]}, done[1..], key, rest);
    }
  }

  /** The keyring itself: an object outside the bridge whose entries outlive it. */
  class Keyring {
    var entries: Store

    constructor (initial: Store)
      ensures entries == initial
    {
      entries := initial;
    }

    method GetPassword(key: string) returns (secret: Option<string>)
      ensures secret == Lookup(entries, key)
    {
      secret := Lookup(entries, key);
    }

    method SetPassword(key: string, secret: string)
      modifies this
      ensures entries == old(entries)[key := secret]
    {
      entries := entries[key := secret];
    }

    /** Raises `PasswordDeleteError` when the key holds nothing. */
    method DeletePassword(key: string) returns (outcome: Outcome<()>)
      modifies this
      ensures key in old(entries) ==> outcome == Returned(()) && entries == old(entries) - {key}
      ensures key !in old(entries) ==> outcome == Raised(PasswordDeleteError(key)) && entries == old(entries)
    {
      if key in entries {
        entries := entries - {key};
        outcome := Returned(());
      } else {
        outcome := Raised(PasswordDeleteError(key));
      }
    }
  }
}
