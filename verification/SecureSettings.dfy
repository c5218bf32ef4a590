/** The settings store that encrypts selected entries and caches decoded values. */
module SecureSettings {
  import opened Bytes

  type Blob = seq<Byte>

  /** `QVariant`, as far as the store looks into it. */
  datatype Variant = Invalid | ByteArray(bytes: Blob) | Boolean(value: bool) | Other(id: int)

  /** The serialiser, the cipher and the truth value of a variant. */
  datatype Codec = Codec(
    serialise: Variant -> Blob,
    deserialise: Blob -> Variant,
    encrypt: (Blob, Blob, Blob) -> Blob,
    decrypt: (Blob, Blob, Blob) -> Blob,
    toBool: Variant -> bool)

  /** What is expected of them: they undo each other. */
  ghost predicate Working(c: Codec) {
    && (forall v :: c.deserialise(c.serialise(v)) == v)
    && (forall text, key, iv :: c.decrypt(c.encrypt(text, key, iv), key, iv) == text)
  }

  /** "EncData", the marker in front of an encrypted value. */
  const MAGIC: Blob := [69, 110, 99, 68, 97, 116, 97]

  lemma MagicIsItsText()
    ensures |MAGIC| == |"EncData"| && forall i :: 0 <= i < |MAGIC| ==> MAGIC[i] == "EncData"[i] as int
  {
  }

  const ENCRYPTED_KEYS: set<string> := {"Servers/serversList"}
  const ENCRYPTED_FLAG := "Conf/encrypted"
  const KEY_TAG := "settingsKeyTag"
  const IV_TAG := "settingsIvTag"

  /** The value is marked as encrypted. */
  predicate Sealed(v: Variant) {
    v.ByteArray? && MAGIC <= v.bytes
  }

  /** The two secrets in the keychain; an empty one is missing. */
  datatype Secrets = Secrets(key: Blob, iv: Blob)

  predicate Usable(s: Secrets) {
    s.key != [] && s.iv != []
  }

  /** The value an entry stands for; an encrypted one stands for nothing without the secrets. */
  function Open(c: Codec, s: Secrets, v: Variant): Variant {
    if !Sealed(v) then v
    else if !Usable(s) then Invalid
    else c.deserialise(c.decrypt(v.bytes[|MAGIC|..], s.key, s.iv))
  }

  function Seal(c: Codec, s: Secrets, v: Variant): Variant {
    ByteArray(MAGIC + c.encrypt(c.serialise(v), s.key, s.iv))
  }

  lemma SealOpens(c: Codec, s: Secrets, v: Variant)
    requires Working(c) && Usable(s)
    ensures Sealed(Seal(c, s, v)) && Open(c, s, Seal(c, s, v)) == v
  {
    assert (MAGIC + c.encrypt(c.serialise(v), s.key, s.iv))[|MAGIC|..] == c.encrypt(c.serialise(v), s.key, s.iv);
  }

  type Entries = map<string, Variant>

  /** The plain map that the stored entries stand for. */
  ghost function Logical(c: Codec, s: Secrets, entries: Entries): Entries {
    map key | key in entries :: Open(c, s, entries[key])
  }

  /** A working keychain has the secrets of whatever is encrypted. */
  ghost predicate Openable(s: Secrets, entries: Entries, works: bool) {
    works ==> forall key :: key in entries && Sealed(entries[key]) ==> Usable(s)
  }

  /** Every cached value is the decoded stored one. */
  ghost predicate Coherent(c: Codec, s: Secrets, entries: Entries, cache: Entries) {
    forall key :: key in cache ==> key in entries && cache[key] == Open(c, s, entries[key])
  }

  /** New secrets only come up while nothing is encrypted; then they change nothing. */
  lemma NewSecretsChangeNothing(c: Codec, s: Secrets, t: Secrets, entries: Entries, works: bool)
    requires Openable(s, entries, works) && (s == t || (works && !Usable(s)))
    ensures Openable(t, entries, works) && Logical(c, t, entries) == Logical(c, s, entries)
  {
  }

  /** Every entry that is to be encrypted is. */
  ghost predicate NoneInClear(entries: Entries) {
    forall name :: name in entries && name in ENCRYPTED_KEYS ==> Sealed(entries[name])
  }

  /** No key came or went, and every other entry is byte for byte what it was. */
  ghost predicate OnlyEncryptedRewritten(before: Entries, after: Entries) {
    after.Keys == before.Keys && forall name :: name in before && name !in ENCRYPTED_KEYS ==> after[name] == before[name]
  }

  /** `QSettings::remove` takes the key and everything in the group of that name. */
  predicate InGroup(key: string, group: string) {
    key == group || group == "" || group + "/" <= key
  }

  function WithoutGroup(entries: Entries, group: string): Entries {
    map key | key in entries && !InGroup(key, group) :: entries[key]
  }

  /** Writing an entry that opens to `v`. */
  lemma WriteEntry(c: Codec, s: Secrets, entries: Entries, cache: Entries, works: bool, name: string, stored: Variant, v: Variant)
    requires Openable(s, entries, works) && Coherent(c, s, entries, cache)
    requires Open(c, s, stored) == v && (works && Sealed(stored) ==> Usable(s))
    ensures Openable(s, entries[name := stored], works)
    ensures Logical(c, s, entries[name := stored]) == Logical(c, s, entries)[name := v]
    ensures Coherent(c, s, entries[name := stored], cache[name := v])
    ensures Coherent(c, s, entries[name := stored], cache - {name})
  {
  }

  /** A marked value that stands for itself was decoded, so the secrets are there. */
  lemma MarkedNeedsSecrets(c: Codec, s: Secrets, v: Variant)
    requires Sealed(v) && Open(c, s, v) == v
    ensures Usable(s)
  {
  }

  lemma LogicalUpdate(c: Codec, s: Secrets, entries: Entries, name: string, stored: Variant)
    ensures Logical(c, s, entries[name := stored]) == Logical(c, s, entries)[name := Open(c, s, stored)]
  {
  }

  lemma GroupRemoval(c: Codec, s: Secrets, entries: Entries, cache: Entries, group: string)
    requires Coherent(c, s, entries, cache)
    ensures Coherent(c, s, WithoutGroup(entries, group), cache - {group})
       <==> forall other :: other in cache && InGroup(other, group) ==> other == group
  {
    var rest, kept := WithoutGroup(entries, group), cache - {group};
    if Coherent(c, s, rest, kept) {
      forall other | other in cache && InGroup(other, group)
        ensures other == group
      {
        assert other in kept ==> other in rest;
      }
    }
  }

  /** A cached key of a group outlives the removal of the group. */
  lemma RemovedGroupStaysCached(c: Codec, s: Secrets)
    ensures var entries: Entries := map["Conf/theme" := Boolean(true)];
            && Coherent(c, s, entries, entries)
            && "Conf/theme" in entries - {"Conf"} && WithoutGroup(entries, "Conf") == map[]
            && !Coherent(c, s, WithoutGroup(entries, "Conf"), entries - {"Conf"})
  {
    var entries: Entries := map["Conf/theme" := Boolean(true)];
    assert |"Conf/theme"| != |"Conf"|;
    assert "Conf" + "/" <= "Conf/theme" && InGroup("Conf/theme", "Conf");
    assert "Conf/theme" in entries - {"Conf"} && "Conf/theme" !in WithoutGroup(entries, "Conf");
  }

  /** An encrypted value that is written under a plain key stands for what was encrypted. */
  lemma MarkedValueIsDecoded(c: Codec, s: Secrets)
    requires Working(c) && Usable(s)
    ensures var v := Seal(c, s, Boolean(true)); Sealed(v) && Open(c, s, v) == Boolean(true) != v
  {
    SealOpens(c, s, Boolean(true));
  }

  type Keychain = map<string, Blob>

  function Under(keychain: Keychain, tag: string): Blob {
    if tag in keychain then keychain[tag] else []
  }

  method GetSecTag(keychain: Keychain, tag: string, works: bool) returns (data: Blob)
    ensures data == if works then Under(keychain, tag) else []
  {
    data := if works && tag in keychain then keychain[tag] else [];
  }

  method SetSecTag(keychain: Keychain, tag: string, data: Blob, works: bool) returns (next: Keychain)
    ensures next == if works then keychain[tag := data] else keychain
  {
    next := if works then keychain[tag := data] else keychain;
  }

  /** Getting a secret through a keychain each of whose three calls may fail on its own. A secret that
      was there stays there if and only if the first read succeeds, the write fails, or the new
      secret happens to be the old one. A secret is returned exactly if it was read, or made and read
      back, and then the keychain holds it. */
  method LoadThrough(keychain: Keychain, tag: string, salt: Blob, readable: bool, writable: bool, rereadable: bool)
      returns (secret: Blob, loaded: Blob, next: Keychain)
    requires salt != []
    ensures next == keychain || next == keychain[tag := salt]
    ensures Under(keychain, tag) != [] ==>
              (Under(next, tag) == Under(keychain, tag) <==> readable || !writable || salt == Under(keychain, tag))
    ensures secret != [] ==> secret == loaded == Under(next, tag)
    ensures secret != [] <==>
              || (readable && Under(keychain, tag) != [])
              || (rereadable && (writable || salt == Under(keychain, tag)))
    ensures readable && Under(keychain, tag) != [] ==> next == keychain
    ensures !writable ==> next == keychain
    ensures !readable && !rereadable ==> loaded == []
  {
    next := keychain;
    loaded := GetSecTag(keychain, tag, readable);
    if loaded == [] {
      next := SetSecTag(keychain, tag, salt, writable);
      loaded := GetSecTag(next, tag, rereadable);
      if salt != loaded {
        return [], loaded, next;
      }
    }
    return loaded, loaded, next;
  }

  /** `SecureQSettings`. The persistent settings and the keychain outlive the object. */
  class SecureQSettings {
    const codec: Codec
    const encryptionRequired: bool
    /** Whether reads and writes of the keychain succeed. */
    const keychainWorks: bool
    var settings: Entries
    var keychain: Keychain
    var cache: Entries
    var key: Blob
    var iv: Blob

    ghost function Kept(tag: string): Blob reads this {
      if keychainWorks && tag in keychain then keychain[tag] else []
    }

    ghost function Known(): Secrets reads this {
      Secrets(Kept(KEY_TAG), Kept(IV_TAG))
    }

    ghost function View(): Entries reads this {
      Logical(codec, Known(), settings)
    }

    ghost predicate Valid() reads this {
      && Working(codec)
      && (key == [] || key == Kept(KEY_TAG))
      && (iv == [] || iv == Kept(IV_TAG))
      && Openable(Known(), settings, keychainWorks)
      && Coherent(codec, Known(), settings, cache)
    }

    method GenerateSalt() returns (salt: Blob)
      ensures |salt| == 32
    {
      salt := *;
      if |salt| != 32 {
        salt := seq(32, _ => 0);
      }
    }

    /** The secret under the tag: kept, or made and kept now. */
    method LoadSecret(tag: string) returns (secret: Blob, loaded: Blob)
      modifies this`keychain
      ensures keychainWorks ==> secret == loaded == Kept(tag) != []
      ensures !keychainWorks ==> secret == loaded == [] && keychain == old(keychain)
      ensures old(Kept(tag)) != [] ==> keychain == old(keychain)
      ensures forall other :: other != tag ==> Kept(other) == old(Kept(other))
    {
      var salt := GenerateSalt();
      secret, loaded, keychain := LoadThrough(keychain, tag, salt, keychainWorks, keychainWorks, keychainWorks);
    }

    method GetEncKey() returns (secret: Blob)
      requires Valid()
      modifies this`keychain, this`key
      ensures Valid() && View() == old(View())
      ensures keychainWorks ==> secret == Kept(KEY_TAG) != [] && key == secret
      ensures !keychainWorks ==> secret == []
      ensures Kept(IV_TAG) == old(Kept(IV_TAG))
    {
      if key != [] {
        return key;
      }
      ghost var before := Known();
      secret, key := LoadSecret(KEY_TAG);
      NewSecretsChangeNothing(codec, before, Known(), settings, keychainWorks);
    }

    method GetEncIv() returns (secret: Blob)
      requires Valid()
      modifies this`keychain, this`iv
      ensures Valid() && View() == old(View())
      ensures keychainWorks ==> secret == Kept(IV_TAG) != [] && iv == secret
      ensures !keychainWorks ==> secret == []
      ensures Kept(KEY_TAG) == old(Kept(KEY_TAG))
    {
      if iv != [] {
        return iv;
      }
      ghost var before := Known();
      secret, iv := LoadSecret(IV_TAG);
      NewSecretsChangeNothing(codec, before, Known(), settings, keychainWorks);
    }

    /** Decodes a stored value, as `value` does. */
    method Decode(stored: Variant) returns (v: Variant, final: bool)
      requires Valid() && (keychainWorks && Sealed(stored) ==> Usable(Known()))
      modifies this`keychain, this`key, this`iv
      ensures Valid() && View() == old(View())
      ensures v == Open(codec, Known(), stored)
      ensures !final ==> v == Invalid
    {
      if stored == Invalid || !Sealed(stored) {
        return stored, true;
      }
      var secretKey := GetEncKey();
      var secretIv := GetEncIv();
      if secretKey == [] || secretIv == [] {
        return Invalid, false;
      }
      var plain := codec.decrypt(stored.bytes[|MAGIC|..], secretKey, secretIv);
      return codec.deserialise(plain), true;
    }

    method Value(name: string, defaultValue: Variant) returns (v: Variant)
      requires Valid()
      modifies this`keychain, this`key, this`iv, this`cache
      ensures Valid() && View() == old(View())
      ensures v == if name in View() then View()[name] else defaultValue
      ensures cache == old(cache) || (name in View() && cache == old(cache)[name := v])
    {
      if name in cache {
        return cache[name];
      }
      if name !in settings {
        return defaultValue;
      }
      var final;
      v, final := Decode(settings[name]);
      if final {
        cache := cache[name := v];
      }
    }

    /** The entry is to be encrypted. */
    predicate NeedsSeal(name: string) reads this {
      encryptionRequired && name in ENCRYPTED_KEYS
    }

    /** What is written for a value can be told from an encrypted one. */
    predicate Storable(name: string, v: Variant) reads this {
      NeedsSeal(name) || !Sealed(v)
    }

    method SetValue(name: string, v: Variant)
      requires Valid()
      modifies this`keychain, this`key, this`iv, this`cache, this`settings
      // without secrets an entry that needs them is not written
      ensures NeedsSeal(name) && !keychainWorks ==> Valid() && settings == old(settings) && View() == old(View())
      ensures !(NeedsSeal(name) && !keychainWorks) && Storable(name, v) ==>
                Valid() && View() == old(View())[name := v]
      // a plain value that is marked as encrypted comes to stand for what decoding makes of it
      ensures !NeedsSeal(name) ==>
                settings == old(settings)[name := v] && View() == old(View())[name := Open(codec, Known(), v)]
      // and the cache then agrees with it exactly if that is the value itself
      ensures !NeedsSeal(name) ==> (Valid() <==> Open(codec, Known(), v) == v)
      ensures NeedsSeal(name) && keychainWorks ==>
                name in settings && settings == old(settings)[name := settings[name]] && Sealed(settings[name])
      ensures cache == if NeedsSeal(name) && !keychainWorks then old(cache) else old(cache)[name := v]
    {
      if NeedsSeal(name) {
        var secretKey := GetEncKey();
        var secretIv := GetEncIv();
        if secretKey != [] && secretIv != [] {
          SealOpens(codec, Known(), v);
          WriteEntry(codec, Known(), settings, cache, keychainWorks, name, Seal(codec, Known(), v), v);
          var text := codec.serialise(v);
          settings := settings[name := ByteArray(MAGIC + codec.encrypt(text, secretKey, secretIv))];
        } else {
          return;
        }
        cache := cache[name := v];
      } else {
        WritePlain(name, v);
      }
    }

    /** A write of an entry that is not to be encrypted. */
    method WritePlain(name: string, v: Variant)
      requires Valid()
      modifies this`cache, this`settings
      ensures settings == old(settings)[name := v] && cache == old(cache)[name := v]
      ensures View() == old(View())[name := Open(codec, Known(), v)]
      ensures Valid() <==> Open(codec, Known(), v) == v
    {
      LogicalUpdate(codec, Known(), settings, name, v);
      if Open(codec, Known(), v) == v {
        if Sealed(v) {
          MarkedNeedsSecrets(codec, Known(), v);
        }
        WriteEntry(codec, Known(), settings, cache, keychainWorks, name, v, v);
      }
      settings := settings[name := v];
      cache := cache[name := v];
      assert name in cache && cache[name] == v;
    }

    /** The view loses the key and its group. The cache only loses the key: it stays coherent if and
        only if it held nothing else of the group. */
    method Remove(name: string)
      requires Valid()
      modifies this`settings, this`cache
      ensures View() == WithoutGroup(old(View()), name) && settings == WithoutGroup(old(settings), name)
      ensures Valid() <==> forall other :: other in old(cache) && InGroup(other, name) ==> other == name
    {
      settings := WithoutGroup(settings, name);
      cache := cache - {name};
      GroupRemoval(codec, Known(), old(settings), old(cache), name);
    }

    method ClearSettings()
      requires Valid()
      modifies this`settings, this`cache
      ensures Valid() && View() == map[] && settings == map[]
    {
      settings := map[];
      cache := map[];
    }

    /** Opens the store on what an earlier process left. An unencrypted store is converted: its view
        stays what it was, but for the flag, even if the keychain does not work. */
    constructor (codec: Codec, encryptionRequired: bool, keychainWorks: bool,
                 settings: Entries, keychain: map<string, Blob>)
      requires Working(codec)
      requires Openable(if keychainWorks then SecretsIn(keychain) else Secrets([], []), settings, keychainWorks)
      ensures Valid()
      ensures this.codec == codec && this.encryptionRequired == encryptionRequired
      ensures this.keychainWorks == keychainWorks
      ensures var before := Logical(codec, if keychainWorks then SecretsIn(keychain) else Secrets([], []), settings);
              View() == if encryptionRequired && !(ENCRYPTED_FLAG in settings && codec.toBool(settings[ENCRYPTED_FLAG]))
                        then before[ENCRYPTED_FLAG := Boolean(true)] else before
      ensures ENCRYPTED_FLAG in this.settings ==>
                || this.settings[ENCRYPTED_FLAG] == Boolean(true)
                || (ENCRYPTED_FLAG in settings && this.settings[ENCRYPTED_FLAG] == settings[ENCRYPTED_FLAG])
      // what is stored: the conversion seals what has to be sealed and sets the flag, nothing else
      ensures var converts := encryptionRequired && !(ENCRYPTED_FLAG in settings && codec.toBool(settings[ENCRYPTED_FLAG]));
              && (!converts ==> this.settings == settings)
              && (converts ==> OnlyEncryptedRewritten(settings[ENCRYPTED_FLAG := Boolean(true)], this.settings))
              && (converts && !keychainWorks ==> this.settings == settings[ENCRYPTED_FLAG := Boolean(true)])
              && (NoneInClear(this.settings) <==> NoneInClear(settings) || (converts && keychainWorks))
    {
      this.codec, this.encryptionRequired, this.keychainWorks := codec, encryptionRequired, keychainWorks;
      this.settings, this.keychain := settings, keychain;
      cache, key, iv := map[], [], [];
      FlagIsNotEncrypted();
      new;
      var encrypted := ENCRYPTED_FLAG in settings && codec.toBool(settings[ENCRYPTED_FLAG]);
      if encryptionRequired && !encrypted {
        Migrate();
      }
    }

    /** Reads an entry and writes it back. */
    method Rewrite(name: string)
      requires Valid() && name in settings && NeedsSeal(name)
      modifies this`keychain, this`key, this`iv, this`cache, this`settings
      ensures Valid() && View() == old(View()) && settings.Keys == old(settings.Keys)
      ensures cache.Keys <= old(cache.Keys) + {name}
      ensures settings == old(settings)[name := settings[name]]
      ensures if keychainWorks then Sealed(settings[name]) else settings == old(settings)
    {
      var v := Value(name, Invalid);
      assert View()[name := v] == View();
      SetValue(name, v);
    }

    /** The conversion loop over all keys. */
    method RewriteAll()
      requires Valid() && encryptionRequired
      modifies this
      ensures Valid() && View() == old(View())
      ensures cache.Keys <= old(cache.Keys) + ENCRYPTED_KEYS
      ensures OnlyEncryptedRewritten(old(settings), settings)
      ensures if keychainWorks then NoneInClear(settings) else settings == old(settings)
    {
      var todo := settings.Keys;
      while todo != {}
        invariant Valid() && View() == old(View()) && todo <= settings.Keys
        invariant cache.Keys <= old(cache.Keys) + ENCRYPTED_KEYS
        invariant OnlyEncryptedRewritten(old(settings), settings)
        invariant if keychainWorks
                  then forall name :: name in settings && name in ENCRYPTED_KEYS && name !in todo ==> Sealed(settings[name])
                  else settings == old(settings)
        decreases |todo|
      {
        var name :| name in todo;
        todo := todo - {name};
        if name in ENCRYPTED_KEYS {
          Rewrite(name);
        }
      }
    }

    method Migrate()
      requires Valid() && encryptionRequired && ENCRYPTED_FLAG !in cache
      modifies this
      ensures Valid() && View() == old(View())[ENCRYPTED_FLAG := Boolean(true)]
      ensures ENCRYPTED_FLAG in settings && settings[ENCRYPTED_FLAG] == Boolean(true)
      ensures OnlyEncryptedRewritten(old(settings)[ENCRYPTED_FLAG := Boolean(true)], settings)
      ensures if keychainWorks then NoneInClear(settings) else settings == old(settings)[ENCRYPTED_FLAG := Boolean(true)]
    {
      RewriteAll();
      FlagIsNotEncrypted();
      WriteEntry(codec, Known(), settings, cache, keychainWorks, ENCRYPTED_FLAG, Boolean(true), Boolean(true));
      assert cache - {ENCRYPTED_FLAG} == cache;
      settings := settings[ENCRYPTED_FLAG := Boolean(true)];
    }
  }

  /** A store that is opened while the keychain does not work: the flag is set and the list of servers
      stays in clear, so it is never converted again. */
  method FlagWithoutEncryption(codec: Codec) returns (store: SecureQSettings)
    requires Working(codec) && codec.toBool(Boolean(true))
    ensures "Servers/serversList" in store.settings && store.settings["Servers/serversList"] == Other(1)
    ensures ENCRYPTED_FLAG in store.settings && codec.toBool(store.settings[ENCRYPTED_FLAG])
  {
    FlagIsNotEncrypted();
    store := new SecureQSettings(codec, true, false, map["Servers/serversList" := Other(1)], map[]);
  }

  lemma FlagIsNotEncrypted()
    ensures ENCRYPTED_FLAG !in ENCRYPTED_KEYS
  {
    assert |ENCRYPTED_FLAG| != |"Servers/serversList"|;
  }

  /** The secrets kept in a keychain. */
  function SecretsIn(keychain: map<string, Blob>): Secrets {
    Secrets(if KEY_TAG in keychain then keychain[KEY_TAG] else [],
            if IV_TAG in keychain then keychain[IV_TAG] else [])
  }
}
