/** Backing up the configuration and restoring it. */
module SettingsBackup {
  import opened SecureSettings
  import opened SettingsRuns

  /** A JSON value, as far as the backup looks into it. */
  datatype JsonValue = JsonValue(text: string)

  /** `QJsonValue::fromVariant` and `QJsonValue::toVariant`. */
  datatype Converter = Converter(fromVariant: Variant -> JsonValue, toVariant: JsonValue -> Variant)

  type Document = map<string, JsonValue>

  const INSTALLATION_UUID := "Conf/installationUuid"
  const FIELDS_TO_BACKUP := ["Conf/", "Servers/"]

  predicate Selected(name: string) {
    name != INSTALLATION_UUID && ("Conf/" <= name || "Servers/" <= name)
  }

  method NeedToBackup(name: string) returns (needed: bool)
    ensures needed <==> Selected(name)
  {
    for i := 0 to |FIELDS_TO_BACKUP|
      invariant forall j :: 0 <= j < i ==> !(FIELDS_TO_BACKUP[j] <= name)
      invariant i > 0 ==> name != INSTALLATION_UUID
    {
      if name == INSTALLATION_UUID {
        return false;
      }
      if FIELDS_TO_BACKUP[i] <= name {
        assert FIELDS_TO_BACKUP[0] == "Conf/" && FIELDS_TO_BACKUP[1] == "Servers/";
        return true;
      }
    }
    assert FIELDS_TO_BACKUP[0] == "Conf/" && FIELDS_TO_BACKUP[1] == "Servers/";
    return false;
  }

  /** The document a backup of the contents makes. */
  ghost function BackupOf(m: Entries, conv: Converter): Document {
    map name | name in m && Selected(name) :: conv.fromVariant(m[name])
  }

  /** What a restoration leaves alone: the installation's identity and, without secrets, what has to
      be encrypted. */
  ghost function Skipped(encryptionRequired: bool, keychainWorks: bool): set<string> {
    {INSTALLATION_UUID} + if encryptionRequired && !keychainWorks then ENCRYPTED_KEYS else {}
  }

  /** The contents after restoring a document. */
  ghost function RestoreInto(m: Entries, doc: Document, conv: Converter, skipped: set<string>): Entries {
    m + map name | name in doc && name !in skipped :: conv.toVariant(doc[name])
  }

  method BackupAppConfig(store: SecureQSettings, conv: Converter) returns (doc: Document)
    requires store.Valid()
    modifies store
    ensures store.Valid() && store.View() == old(store.View()) && store.settings == old(store.settings)
    ensures doc == BackupOf(store.View(), conv)
  {
    doc := map[];
    var todo := store.settings.Keys;
    while todo != {}
      invariant store.Valid() && store.View() == old(store.View()) && store.settings == old(store.settings)
      invariant todo <= store.settings.Keys
      invariant doc == BackupOf(store.View() - todo, conv)
      decreases |todo|
    {
      var name :| name in todo;
      BackupStep(store.View(), todo, name, conv);
      todo := todo - {name};
      var needed := NeedToBackup(name);
      if needed {
        var v := store.Value(name, Invalid);
        doc := doc[name := conv.fromVariant(v)];
      }
    }
    assert store.View() - {} == store.View();
  }

  lemma BackupStep(m: Entries, todo: set<string>, name: string, conv: Converter)
    requires name in m && name in todo
    ensures BackupOf(m - (todo - {name}), conv)
         == if Selected(name) then BackupOf(m - todo, conv)[name := conv.fromVariant(m[name])]
            else BackupOf(m - todo, conv)
  {
  }

  /** One turn of the restoring loop. */
  method RestoreOne(store: SecureQSettings, name: string, v: Variant)
    requires store.Valid() && (name != INSTALLATION_UUID ==> store.Storable(name, v))
    modifies store
    ensures store.Valid()
    ensures store.View() == if name in Skipped(store.encryptionRequired, store.keychainWorks)
                            then old(store.View()) else old(store.View())[name := v]
  {
    if name != INSTALLATION_UUID {
      store.SetValue(name, v);
    }
  }

  method RestoreAppConfig(store: SecureQSettings, doc: Document, conv: Converter) returns (ok: bool)
    requires store.Valid()
    requires forall name :: name in doc && name != INSTALLATION_UUID ==> store.Storable(name, conv.toVariant(doc[name]))
    modifies store
    ensures store.Valid()
    ensures ok <==> doc != map[]
    ensures store.View() == RestoreInto(old(store.View()), doc, conv, Skipped(store.encryptionRequired, store.keychainWorks))
  {
    ghost var skipped := Skipped(store.encryptionRequired, store.keychainWorks);
    if doc == map[] {
      assert old(store.View()) == RestoreInto(old(store.View()), doc, conv, skipped);
      return false;
    }
    var todo := doc.Keys;
    assert store.View() == RestoreInto(store.View(), map[], conv, skipped);
    while todo != {}
      invariant store.Valid()
      invariant todo <= doc.Keys
      invariant store.View() == RestoreInto(old(store.View()), doc - todo, conv, skipped)
      decreases |todo|
    {
      var name :| name in todo;
      RestoreStep(old(store.View()), doc, todo, name, conv, skipped);
      todo := todo - {name};
      RestoreOne(store, name, conv.toVariant(doc[name]));
    }
    assert doc - {} == doc;
    return true;
  }

  lemma RestoreStep(m: Entries, doc: Document, todo: set<string>, name: string, conv: Converter, skipped: set<string>)
    requires name in doc && name in todo
    ensures RestoreInto(m, doc - (todo - {name}), conv, skipped)
         == if name in skipped then RestoreInto(m, doc - todo, conv, skipped)
            else RestoreInto(m, doc - todo, conv, skipped)[name := conv.toVariant(doc[name])]
  {
  }

  ghost function OnlySelected(m: Entries): Entries {
    map name | name in m && Selected(name) :: m[name]
  }

  /** The backup is unharmed by the conversion to JSON and back. */
  ghost predicate Convertible(saved: Entries, conv: Converter) {
    forall name :: name in saved && Selected(name) ==>
      conv.toVariant(conv.fromVariant(saved[name])) == saved[name]
  }

  /** Restoring a backup into any later contents puts the selected entries back, but for the skipped
      ones, and touches no other. */
  lemma RestoreOfBackup(saved: Entries, later: Entries, conv: Converter, skipped: set<string>)
    requires Convertible(saved, conv)
    ensures RestoreInto(later, BackupOf(saved, conv), conv, skipped) == later + (OnlySelected(saved) - skipped)
  {
  }

  /** The selected entries are then exactly the backed-up ones if and only if the later contents had
      no selected entry of another name, and had the skipped ones right. */
  lemma BackupRestores(saved: Entries, later: Entries, conv: Converter, skipped: set<string>)
    requires Convertible(saved, conv)
    ensures OnlySelected(RestoreInto(later, BackupOf(saved, conv), conv, skipped)) == OnlySelected(saved)
       <==> && OnlySelected(later).Keys <= saved.Keys
            && forall name :: name in OnlySelected(saved) && name in skipped ==>
                 name in later && later[name] == saved[name]
  {
    RestoreOfBackup(saved, later, conv, skipped);
    var r := OnlySelected(later + (OnlySelected(saved) - skipped));
    if r == OnlySelected(saved) {
      assert forall name :: name in OnlySelected(later) ==> name in r;
      forall name | name in OnlySelected(saved) && name in skipped
        ensures name in later && later[name] == saved[name]
      {
        assert name in r && r[name] == saved[name];
      }
    }
  }

  /** A selected value can be told from an encrypted one when it is written back. */
  ghost predicate Restorable(saved: Entries, encryptionRequired: bool) {
    forall name :: name in OnlySelected(saved) ==>
      (encryptionRequired && name in ENCRYPTED_KEYS) || !Sealed(saved[name])
  }

  /** A backup, any run of the store, new processes included, and the restoration: nothing but the
      selected entries changes, and these are the backed-up ones again if and only if the run left
      no selected entry of another name. */
  method BackupRunRestore(first: SecureQSettings, conv: Converter, requests: seq<Request>, ghost names: set<string>)
      returns (store: SecureQSettings, ok: bool)
    requires Orderly(first, names) && NoGroups(names)
    requires forall i :: 0 <= i < |requests| ==> Proper(requests[i], names, first.encryptionRequired)
    requires Convertible(first.View(), conv) && Restorable(first.View(), first.encryptionRequired)
    modifies first
    ensures store.Valid()
    ensures ok <==> OnlySelected(old(first.View())) != map[]
    ensures var saved := old(first.View());
            var later := PlainRun(saved, requests, first.codec, first.encryptionRequired).0;
            && store.View() == later + OnlySelected(saved)
            && (OnlySelected(store.View()) == OnlySelected(saved) <==> OnlySelected(later).Keys <= saved.Keys)
  {
    ghost var saved := first.View();
    var doc := BackupAppConfig(first, conv);
    var answers;
    store, answers := Serve(first, requests, names);
    ghost var later := store.View();
    BackedUpIsStorable(saved, conv, store);
    SkippedWhenWorking(store.encryptionRequired);
    RestoredAfterRun(saved, later, conv);
    ok := RestoreAppConfig(store, doc, conv);
  }

  lemma SkippedWhenWorking(encryptionRequired: bool)
    ensures Skipped(encryptionRequired, true) == {INSTALLATION_UUID}
  {
  }

  lemma RestoredAfterRun(saved: Entries, later: Entries, conv: Converter)
    requires Convertible(saved, conv)
    ensures BackupOf(saved, conv) == map[] <==> OnlySelected(saved) == map[]
    ensures var restored := RestoreInto(later, BackupOf(saved, conv), conv, {INSTALLATION_UUID});
            && restored == later + OnlySelected(saved)
            && (OnlySelected(restored) == OnlySelected(saved) <==> OnlySelected(later).Keys <= saved.Keys)
  {
    RestoreOfBackup(saved, later, conv, {INSTALLATION_UUID});
    BackupRestores(saved, later, conv, {INSTALLATION_UUID});
    assert OnlySelected(saved) - {INSTALLATION_UUID} == OnlySelected(saved);
    assert BackupOf(saved, conv).Keys == OnlySelected(saved).Keys;
  }

  lemma BackedUpIsStorable(saved: Entries, conv: Converter, store: SecureQSettings)
    requires Convertible(saved, conv) && Restorable(saved, store.encryptionRequired)
    ensures forall name :: name in BackupOf(saved, conv) ==> store.Storable(name, conv.toVariant(BackupOf(saved, conv)[name]))
  {
  }

  /** A setting made after the backup is still there after restoring it. */
  lemma LaterSettingSurvivesRestore(conv: Converter, v: Variant)
    requires conv.toVariant(conv.fromVariant(v)) == v
    ensures var saved: Entries := map["Conf/a" := v];
            var later: Entries := map["Conf/bb" := v];
            "Conf/bb" in OnlySelected(RestoreInto(later, BackupOf(saved, conv), conv, {})) && "Conf/bb" !in OnlySelected(saved)
  {
    var saved: Entries := map["Conf/a" := v];
    var later: Entries := map["Conf/bb" := v];
    assert |"Conf/a"| != |"Conf/bb"| && |"Conf/bb"| != |INSTALLATION_UUID|;
    assert "Conf/" <= "Conf/bb" && Selected("Conf/bb");
    RestoreOfBackup(saved, later, conv, {});
  }
}
