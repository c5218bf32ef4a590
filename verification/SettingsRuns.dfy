/** Every run of the settings store behaves as a plain map. */
module SettingsRuns {
  import opened SecureSettings

  datatype Request =
    | Get(name: string, defaultValue: Variant)
    | Put(name: string, v: Variant)
    | Delete(name: string)
    | Clear
    | Reopen                            // a new process opens what the old one left

  /** A plain map serving a request: its new contents and its answer. */
  function PlainStep(m: Entries, request: Request, c: Codec, encryptionRequired: bool): (Entries, Variant) {
    match request
    case Get(name, defaultValue) => (m, if name in m then m[name] else defaultValue)
    case Put(name, v) => (m[name := v], Invalid)
    case Delete(name) => (m - {name}, Invalid)
    case Clear => (map[], Invalid)
    case Reopen =>
      if encryptionRequired && !(ENCRYPTED_FLAG in m && c.toBool(m[ENCRYPTED_FLAG]))
      then (m[ENCRYPTED_FLAG := Boolean(true)], Invalid)
      else (m, Invalid)
  }

  function PlainRun(m: Entries, requests: seq<Request>, c: Codec, encryptionRequired: bool): (Entries, seq<Variant>) {
    if requests == [] then (m, [])
    else
      var before := PlainRun(m, requests[..|requests| - 1], c, encryptionRequired);
      var step := PlainStep(before.0, requests[|requests| - 1], c, encryptionRequired);
      (step.0, before.1 + [step.1])
  }

  /** No key is the name of another key's group. */
  ghost predicate NoGroups(names: set<string>) {
    forall a, b :: a in names && b in names && InGroup(a, b) ==> a == b
  }

  /** The request stays within the names, and a plain value is not marked as encrypted. */
  predicate Proper(request: Request, names: set<string>, encryptionRequired: bool) {
    match request
    case Get(name, _) => name in names
    case Put(name, v) => name in names && ((encryptionRequired && name in ENCRYPTED_KEYS) || !Sealed(v))
    case Delete(name) => name in names
    case Clear => true
    case Reopen => true
  }

  /** What a run keeps besides the store's own invariant. */
  ghost predicate Orderly(store: SecureQSettings, names: set<string>)
    reads store
  {
    && store.Valid() && store.keychainWorks
    && store.settings.Keys <= names && ENCRYPTED_FLAG in names
    && (ENCRYPTED_FLAG in store.settings ==> !Sealed(store.settings[ENCRYPTED_FLAG]))
  }

  method PutOne(store: SecureQSettings, name: string, v: Variant, ghost names: set<string>)
    requires Orderly(store, names) && name in names && store.Storable(name, v)
    modifies store
    ensures Orderly(store, names) && store.View() == old(store.View())[name := v]
    ensures store.encryptionRequired && old(NoneInClear(store.settings)) ==> NoneInClear(store.settings)
  {
    FlagIsNotEncrypted();
    store.SetValue(name, v);
  }

  method DeleteOne(store: SecureQSettings, name: string, ghost names: set<string>)
    requires Orderly(store, names) && name in names && NoGroups(names)
    modifies store
    ensures Orderly(store, names) && store.View() == old(store.View()) - {name}
    ensures old(NoneInClear(store.settings)) ==> NoneInClear(store.settings)
  {
    assert forall other :: other in store.cache ==> other in names;
    assert forall other :: other in store.settings && InGroup(other, name) ==> other == name;
    store.Remove(name);
  }

  method ServeOne(store: SecureQSettings, request: Request, ghost names: set<string>) returns (answer: Variant)
    requires Orderly(store, names) && NoGroups(names) && !request.Reopen?
    requires Proper(request, names, store.encryptionRequired)
    modifies store
    ensures Orderly(store, names)
    ensures store.encryptionRequired && old(NoneInClear(store.settings)) ==> NoneInClear(store.settings)
    ensures (store.View(), answer) == PlainStep(old(store.View()), request, store.codec, store.encryptionRequired)
  {
    answer := Invalid;
    match request {
      case Get(name, defaultValue) =>
        answer := store.Value(name, defaultValue);
      case Put(name, v) =>
        PutOne(store, name, v, names);
      case Delete(name) =>
        DeleteOne(store, name, names);
      case Clear =>
        store.ClearSettings();
    }
  }

  /** Every run of reads, writes, removals, clearings and new processes gives the answers and the
      contents of a plain map. */
  method Serve(first: SecureQSettings, requests: seq<Request>, ghost names: set<string>)
      returns (store: SecureQSettings, answers: seq<Variant>)
    requires Orderly(first, names) && NoGroups(names)
    requires forall i :: 0 <= i < |requests| ==> Proper(requests[i], names, first.encryptionRequired)
    modifies first
    ensures store == first || fresh(store)
    ensures store.codec == first.codec && store.encryptionRequired == first.encryptionRequired
    ensures Orderly(store, names)
    // once everything that has to be is encrypted, it stays so
    ensures first.encryptionRequired && old(NoneInClear(first.settings)) ==> NoneInClear(store.settings)
    ensures (store.View(), answers) == PlainRun(old(first.View()), requests, first.codec, first.encryptionRequired)
  {
    store, answers := first, [];
    for i := 0 to |requests|
      invariant store == first || fresh(store)
      invariant store.codec == first.codec && store.encryptionRequired == first.encryptionRequired
      invariant Orderly(store, names)
      invariant first.encryptionRequired && old(NoneInClear(first.settings)) ==> NoneInClear(store.settings)
      invariant (store.View(), answers)
             == PlainRun(old(first.View()), requests[..i], first.codec, first.encryptionRequired)
    {
      assert requests[..i + 1][..i] == requests[..i];
      var answer := Invalid;
      if requests[i].Reopen? {
        store := ReopenStore(store, names);
      } else {
        answer := ServeOne(store, requests[i], names);
      }
      answers := answers + [answer];
    }
    assert requests[..|requests|] == requests;
  }

  method ReopenStore(store: SecureQSettings, ghost names: set<string>) returns (next: SecureQSettings)
    requires Orderly(store, names)
    ensures fresh(next) && Orderly(next, names)
    ensures next.codec == store.codec && next.encryptionRequired == store.encryptionRequired
    ensures NoneInClear(store.settings) ==> NoneInClear(next.settings)
    ensures next.View() == PlainStep(store.View(), Reopen, store.codec, store.encryptionRequired).0
  {
    next := new SecureQSettings(store.codec, store.encryptionRequired, true, store.settings, store.keychain);
    assert next.View().Keys == next.settings.Keys;
  }
}
