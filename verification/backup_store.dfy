/** Local backups of the settings and presets, kept under one `localStorage`
    key: creation, retention of the newest ten, listing, deletion, restore and
    import. */
module BackupStore {
  import opened Results
  import opened Strings
  import opened Numbers
  import opened Sequences
  import opened Sorting
  import opened Records
  import opened Table
  import SettingsStore
  import PresetStore

  /** The format version written into every backup. */
  const BackupVersion: string := "1.0.0"

  /** `getAllBackups`: the stored backups object, or an empty one when the key
      is missing or holds something else. */
  function GetAllBackups(st: Storage): (t: BackupTable)
    ensures BackupsKey !in st ==> t == []
    ensures BackupsKey in st && st[BackupsKey].BackupsJson? ==> t == st[BackupsKey].backups
    ensures BackupsKey in st && !st[BackupsKey].BackupsJson? ==> t == []
  {
    if BackupsKey in st && st[BackupsKey].BackupsJson? then st[BackupsKey].backups else []
  }

  /** Writing the backups object; no other key changes. */
  function WriteBackups(st: Storage, t: BackupTable): (r: Storage)
    ensures GetAllBackups(r) == t
    ensures r - {BackupsKey} == st - {BackupsKey}
  {
    st[BackupsKey := BackupsJson(t)]
  }

  /** `saveBackup`: the backup is put under its id, then the oldest entries are
      deleted until at most ten remain, and the result is written back. */
  function SaveBackup(st: Storage, id: string, data: BackupData, metadata: BackupMetadata): (r: Storage)
    ensures var put := Put(GetAllBackups(st), id, Backup(data, metadata));
            var t := GetAllBackups(r);
            && |t| <= MaxBackups
            && (|put| > MaxBackups ==> |t| == MaxBackups)
            && SubsequenceOf(t, put)
            && (forall e :: e in t ==> e in put)
            && (forall e, f :: e in put && e !in t && f in t ==> Timestamp(e) <= Timestamp(f))
            && (|put| <= MaxBackups ==> t == put)
    ensures r - {BackupsKey} == st - {BackupsKey}
  {
    var put := Put(GetAllBackups(st), id, Backup(data, metadata));
    var t := Retain(put);
    assert forall e, f :: e in put && e !in t && f in t ==> Timestamp(e) <= Timestamp(f) by {
      forall e, f | e in put && e !in t && f in t
        ensures Timestamp(e) <= Timestamp(f)
      {
        RetainDropsOldest(put, e, f);
      }
    }
    WriteBackups(st, t)
  }

  /** A backup newer than every stored one is kept by `saveBackup`, under its id. */
  lemma SaveKeepsNewest(st: Storage, id: string, data: BackupData, metadata: BackupMetadata)
    requires forall i :: 0 <= i < |GetAllBackups(st)| ==> Timestamp(GetAllBackups(st)[i]) < metadata.timestamp
    ensures Lookup(GetAllBackups(SaveBackup(st, id, data, metadata)), id) == Some(Backup(data, metadata))
  {
    var old_ := GetAllBackups(st);
    var e := Entry(id, Backup(data, metadata));
    var put := Put(old_, id, Backup(data, metadata));
    forall i | 0 <= i < |put| && put[i] != e
      ensures Timestamp(put[i]) < Timestamp(e)
    {
      assert put[i] in put;
      var j :| 0 <= j < |old_| && old_[j] == put[i];
    }
    NewestSurvives(put, e);
    LookupMembership(GetAllBackups(SaveBackup(st, id, data, metadata)), id, Backup(data, metadata));
  }

  /** A payload `restoreBackup` accepts: a non-empty version, a settings object
      and a presets array. */
  predicate Valid(d: BackupData) {
    d.version.Some? && d.version.value != "" && d.settings.Some? && d.presets.Some?
  }

  /** What `createBackup` returns, and the storage after it. */
  datatype Created = Created(id: string, data: BackupData, metadata: BackupMetadata, storage: Storage)

  /** `createBackup`: the current settings and presets with version `1.0.0`
      and the clock reading `now`, described by metadata whose counts are
      taken from them, saved under `backup_` and a second clock reading. */
  function CreateBackup(st: Storage, name: string, description: Option<string>, now: nat, idClock: nat): (c: Created)
    ensures Valid(c.data)
    ensures c.data.version == Some(BackupVersion) && c.data.timestamp == Some(now)
    ensures c.data.settings == Some(Embed(SettingsStore.LoadSettings(st)))
    ensures c.data.presets == Some(PresetStore.LoadPresets(st))
    ensures c.metadata.name == Trim(name)
    ensures c.metadata.description == Some(if description.None? then "" else Trim(description.value))
    ensures c.metadata.timestamp == c.data.timestamp.value
    ensures c.metadata.version == c.data.version.value
    ensures c.metadata.settingsCount == KeyCount(c.data.settings.value) == 3
    ensures c.metadata.presetsCount == |c.data.presets.value|
    ensures c.id == "backup_" + DecimalString(idClock)
    ensures c.storage == SaveBackup(st, c.id, c.data, c.metadata)
  {
    var settings := Embed(SettingsStore.LoadSettings(st));
    var presets := PresetStore.LoadPresets(st);
    var data := BackupData(Some(BackupVersion), Some(now), Some(settings), Some(presets));
    var text := match description case None => "" case Some(d) => Trim(d);
    var metadata := BackupMetadata(Trim(name), Some(text), now, BackupVersion, KeyCount(settings), |presets|);
    var id := "backup_" + DecimalString(idClock);
    Created(id, data, metadata, SaveBackup(st, id, data, metadata))
  }

  /** One line of `getBackupList`. */
  datatype Listed = Listed(id: string, metadata: BackupMetadata)

  function ToListed(e: Entry): Listed {
    Listed(e.id, e.backup.metadata)
  }

  function ListedId(l: Listed): string {
    l.id
  }

  /** The sort key of `getBackupList`: newer first. */
  function NewestFirst(l: Listed): int {
    -l.metadata.timestamp
  }

  /** `getBackupList`: every stored backup's id and metadata, exactly once
      each, newest first, ties in storage order. */
  function GetBackupList(st: Storage): (r: seq<Listed>)
    ensures |r| == |GetAllBackups(st)|
    ensures forall i, j :: 0 <= i < j < |r| ==> r[i].metadata.timestamp >= r[j].metadata.timestamp
    ensures multiset(r) == multiset(Map(GetAllBackups(st), ToListed))
    ensures DistinctBy(r, ListedId)
  {
    var t := GetAllBackups(st);
    var listed := Map(t, ToListed);
    assert DistinctBy(listed, ListedId);
    var r := SortBy(listed, NewestFirst);
    PermutationKeepsDistinct(r, listed, ListedId);
    r
  }

  /** Every stored backup is listed, and everything listed is stored. */
  lemma ListedExactlyStored(st: Storage, id: string, m: BackupMetadata)
    ensures Listed(id, m) in GetBackupList(st) <==> exists b :: Entry(id, b) in GetAllBackups(st) && b.metadata == m
  {
    var t := GetAllBackups(st);
    var r := GetBackupList(st);
    var listed := Map(t, ToListed);
    if Listed(id, m) in r {
      assert Listed(id, m) in multiset(listed);
      var i :| 0 <= i < |listed| && listed[i] == Listed(id, m);
      assert Entry(id, t[i].backup) == t[i];
    }
    if exists b :: Entry(id, b) in t && b.metadata == m {
      var b :| Entry(id, b) in t && b.metadata == m;
      var i :| 0 <= i < |t| && t[i] == Entry(id, b);
      assert listed[i] == Listed(id, m);
      assert Listed(id, m) in multiset(r);
    }
  }

  /** `deleteBackup`: the id is gone and every other entry stays, in order;
      the backups object is written back even when nothing was stored. */
  function DeleteBackup(st: Storage, id: string): (r: Storage)
    ensures forall e :: e in GetAllBackups(r) <==> e in GetAllBackups(st) && e.id != id
    ensures Lookup(GetAllBackups(r), id).None?
    ensures r - {BackupsKey} == st - {BackupsKey}
  {
    WriteBackups(st, Remove(GetAllBackups(st), id))
  }

  /** Deleting an id that is not stored leaves the backups as they were. */
  lemma DeleteAbsent(st: Storage, id: string)
    requires Lookup(GetAllBackups(st), id).None?
    ensures GetAllBackups(DeleteBackup(st, id)) == GetAllBackups(st)
  {
    RemoveAbsent(GetAllBackups(st), id);
  }

  /** Deleting one id leaves every other id's backup as it was. */
  lemma DeleteLeavesOthers(st: Storage, id: string, other: string)
    requires other != id
    ensures Lookup(GetAllBackups(DeleteBackup(st, id)), other) == Lookup(GetAllBackups(st), other)
  {
    RemoveLookup(GetAllBackups(st), id, other);
  }

  datatype RestoreError = NotFound | InvalidData

  /** `restoreBackup`: an unknown id and an invalid payload are errors;
      otherwise the payload's settings object and presets array are written
      as they are. */
  function RestoreBackup(st: Storage, id: string): (r: Result<Storage, RestoreError>)
    ensures var found := Lookup(GetAllBackups(st), id);
            && (r == Err(NotFound) <==> found.None?)
            && (r == Err(InvalidData) <==> found.Some? && !Valid(found.value.data))
            && (r.Ok? ==>
                  && found.Some? && Valid(found.value.data)
                  && SettingsStore.Read(r.value) == found.value.data.settings
                  && PresetStore.LoadPresets(r.value) == found.value.data.presets.value
                  && r.value - {SettingsKey, PresetsKey} == st - {SettingsKey, PresetsKey})
  {
    match Lookup(GetAllBackups(st), id)
    case None => Err(NotFound)
    case Some(b) =>
      if !Valid(b.data) then Err(InvalidData)
      else Ok(WritePayload(st, b.data))
  }

  /** Writes a valid payload's settings object and presets array, and nothing else. */
  function WritePayload(st: Storage, data: BackupData): (r: Storage)
    requires Valid(data)
    ensures SettingsStore.Read(r) == data.settings
    ensures PresetStore.LoadPresets(r) == data.presets.value
    ensures r - {SettingsKey, PresetsKey} == st - {SettingsKey, PresetsKey}
  {
    var written := SettingsStore.SaveSettings(st, data.settings.value);
    var r := PresetStore.SavePresets(written, data.presets.value);
    assert r - {SettingsKey, PresetsKey} == st - {SettingsKey, PresetsKey} by {
      assert r - {SettingsKey, PresetsKey} == (r - {PresetsKey}) - {SettingsKey};
      assert st - {SettingsKey, PresetsKey} == (st - {SettingsKey}) - {PresetsKey};
    }
    r
  }

  /** A backup created when every stored one is older restores the settings
      and presets it was taken from. */
  lemma CreateThenRestore(st: Storage, name: string, description: Option<string>, now: nat, idClock: nat)
    requires forall i :: 0 <= i < |GetAllBackups(st)| ==> Timestamp(GetAllBackups(st)[i]) < now
    ensures var c := CreateBackup(st, name, description, now, idClock);
            var r := RestoreBackup(c.storage, c.id);
            && r.Ok?
            && SettingsStore.LoadSettings(r.value) == SettingsStore.LoadSettings(st)
            && PresetStore.LoadPresets(r.value) == PresetStore.LoadPresets(st)
  {
    var c := CreateBackup(st, name, description, now, idClock);
    SaveKeepsNewest(st, c.id, c.data, c.metadata);
    SettingsStore.MergeEmbedded(SettingsStore.LoadSettings(st), SettingsStore.Defaults);
  }

  /** `clearAllBackups`: the key is removed, so the backups load empty. */
  function ClearAllBackups(st: Storage): (r: Storage)
    ensures BackupsKey !in r
    ensures GetAllBackups(r) == []
    ensures r - {BackupsKey} == st - {BackupsKey}
  {
    st - {BackupsKey}
  }

  // ---------------------------------------------------------------- import

  /** A parsed import file, seen the two ways `importBackup` looks at it: as a
      wrapper through its `data` and `metadata` properties (`None` when
      missing or falsy), and as a bare payload through its own `version`,
      `settings`, `presets` and `timestamp`. Every JSON value but `null` is
      read this way; a number, string, boolean or array has none of these
      properties and so is an unsupported format. */
  datatype ImportDoc = ImportDoc(data: Option<BackupData>, metadata: Option<BackupMetadata>, payload: BackupData)

  /** Every failure of `importBackup` is rethrown as one import error. */
  datatype ImportError =
    | Unsupported   // neither a wrapper nor a valid bare payload
    | Unreadable    // the text is not JSON, or is `null`, whose properties cannot be read

  /** What `importBackup` returns, and the storage after it; `versionWarning`
      is the console warning about a version other than `1.0.0`. */
  datatype Imported = Imported(id: string, data: BackupData, metadata: BackupMetadata, versionWarning: bool, storage: Storage)

  /** The metadata `importBackup` makes up for a bare payload: a name from the
      local time, no description, the payload's timestamp unless it is missing
      or zero (then the clock), and counts taken from the payload. */
  function SynthesizedMetadata(payload: BackupData, localTime: string, now: nat): (m: BackupMetadata)
    requires Valid(payload)
    ensures m.name == "导入备份_" + localTime && m.description.None?
    ensures payload.timestamp.None? || payload.timestamp == Some(0) ==> m.timestamp == now
    ensures payload.timestamp.Some? && payload.timestamp != Some(0) ==> m.timestamp == payload.timestamp.value
    ensures m.version == payload.version.value
    ensures m.settingsCount == KeyCount(payload.settings.value) && m.presetsCount == |payload.presets.value|
  {
    var ts := if payload.timestamp.None? || payload.timestamp == Some(0) then now else payload.timestamp.value;
    BackupMetadata("导入备份_" + localTime, None, ts, payload.version.value, KeyCount(payload.settings.value), |payload.presets.value|)
  }

  /** The payload and metadata `importBackup` settles on, given how it
      discriminates the formats. */
  function Discriminate(doc: ImportDoc, localTime: string, now: nat): (r: Result<Backup, ImportError>)
    ensures doc.data.Some? && doc.metadata.Some? ==> r == Ok(Backup(doc.data.value, doc.metadata.value))
    ensures !(doc.data.Some? && doc.metadata.Some?) && Valid(doc.payload) ==>
              r == Ok(Backup(doc.payload, SynthesizedMetadata(doc.payload, localTime, now)))
    ensures r == Err(Unsupported) <==> !(doc.data.Some? && doc.metadata.Some?) && !Valid(doc.payload)
    ensures r.Err? ==> r.error == Unsupported
  {
    if doc.data.Some? && doc.metadata.Some? then Ok(Backup(doc.data.value, doc.metadata.value))
    else if Valid(doc.payload) then Ok(Backup(doc.payload, SynthesizedMetadata(doc.payload, localTime, now)))
    else Err(Unsupported)
  }

  /** Saving a discriminated import under `backup_import_` and the clock reading. */
  function SaveImported(st: Storage, b: Backup, idClock: nat): (r: Imported)
    ensures r.data == b.data && r.metadata == b.metadata
    ensures r.versionWarning <==> b.data.version != Some(BackupVersion)
    ensures r.id == "backup_import_" + DecimalString(idClock)
    ensures r.storage == SaveBackup(st, r.id, b.data, b.metadata)
  {
    var id := "backup_import_" + DecimalString(idClock);
    Imported(id, b.data, b.metadata, b.data.version != Some(BackupVersion), SaveBackup(st, id, b.data, b.metadata))
  }

  /** `importBackup`: unreadable text and an unsupported shape are errors; a
      version other than `1.0.0` only warns; the backup is saved under
      `backup_import_` and the clock reading. */
  function ImportBackup(st: Storage, doc: Option<ImportDoc>, localTime: string, now: nat, idClock: nat): (r: Result<Imported, ImportError>)
    ensures doc.None? ==> r == Err(Unreadable)
    ensures doc.Some? ==> (r == Err(Unsupported) <==> Discriminate(doc.value, localTime, now).Err?)
    ensures r.Ok? ==>
              && doc.Some? && Discriminate(doc.value, localTime, now) == Ok(Backup(r.value.data, r.value.metadata))
              && r.value == SaveImported(st, Backup(r.value.data, r.value.metadata), idClock)
  {
    match doc
    case None => Err(Unreadable)
    case Some(d) =>
      match Discriminate(d, localTime, now)
      case Err(e) => Err(e)
      case Ok(b) => Ok(SaveImported(st, b, idClock))
  }

  /** A version mismatch never causes a rejection: a valid bare payload of any
      version is imported, with the warning exactly when the version differs. */
  lemma VersionOnlyWarns(st: Storage, payload: BackupData, localTime: string, now: nat, idClock: nat)
    requires Valid(payload)
    ensures var r := ImportBackup(st, Some(ImportDoc(None, None, payload)), localTime, now, idClock);
            r.Ok? && (r.value.versionWarning <==> payload.version != Some(BackupVersion))
  {
  }

  /** A wrapper's payload is taken without any check, so an import can succeed
      with a payload that `restoreBackup` will later refuse. */
  lemma WrapperNotValidated(st: Storage, m: BackupMetadata, now: nat)
    requires forall i :: 0 <= i < |GetAllBackups(st)| ==> Timestamp(GetAllBackups(st)[i]) < m.timestamp
    ensures var empty := BackupData(None, None, None, None);
            var r := ImportBackup(st, Some(ImportDoc(Some(empty), Some(m), empty)), "", now, now);
            && r.Ok?
            && RestoreBackup(r.value.storage, r.value.id) == Err(InvalidData)
  {
    var empty := BackupData(None, None, None, None);
    var r := ImportBackup(st, Some(ImportDoc(Some(empty), Some(m), empty)), "", now, now);
    var id := "backup_import_" + DecimalString(now);
    assert r == Ok(SaveImported(st, Backup(empty, m), now));
    assert r.value.storage == SaveBackup(st, id, empty, m) && r.value.id == id;
    assert !Valid(empty);
    SaveKeepsNewest(st, id, empty, m);
  }

  // ---------------------------------------------------------------- export and re-import

  /** The object `exportBackup` writes to the file: the payload's own
      properties with `metadata` added beside them, so the file has no `data`
      property. */
  function ExportDocument(b: Backup): (doc: ImportDoc)
    ensures doc.data.None? && doc.metadata == Some(b.metadata) && doc.payload == b.data
  {
    ImportDoc(None, Some(b.metadata), b.data)
  }

  /** As written, an exported file is taken for a bare payload: its own
      metadata is replaced by made-up metadata. */
  lemma ExportedMetadataReplaced(st: Storage, b: Backup, localTime: string, now: nat, idClock: nat)
    requires Valid(b.data)
    ensures var r := ImportBackup(st, Some(ExportDocument(b)), localTime, now, idClock);
            r.Ok? && r.value.data == b.data && r.value.metadata == SynthesizedMetadata(b.data, localTime, now)
  {
  }

  /** For instance, a backup named `work` with a description comes back
      under a generated name and without its description. */
  lemma ExportedNameLost()
    ensures var b := Backup(BackupData(Some(BackupVersion), Some(5), Some(Embed(SettingsStore.Defaults)), Some([])),
                            BackupMetadata("work", Some("weekly"), 5, BackupVersion, 3, 0));
            var r := ImportBackup(map[], Some(ExportDocument(b)), "1/1/2025", 9, 9);
            && r.Ok?
            && r.value.metadata.name != b.metadata.name
            && r.value.metadata.description.None?
  {
    var b := Backup(BackupData(Some(BackupVersion), Some(5), Some(Embed(SettingsStore.Defaults)), Some([])),
                    BackupMetadata("work", Some("weekly"), 5, BackupVersion, 3, 0));
    var r := ImportBackup(map[], Some(ExportDocument(b)), "1/1/2025", 9, 9);
    assert r.value.metadata.name[0] == '导';
  }

  /** The discrimination the wrapper branch's comment describes: an exported
      file (a valid payload with a `metadata` property beside it) keeps its
      metadata; everything else is treated as before. */
  function DiscriminateExported(doc: ImportDoc, localTime: string, now: nat): (r: Result<Backup, ImportError>)
    ensures doc.metadata.Some? && Valid(doc.payload) && doc.data.None? ==> r == Ok(Backup(doc.payload, doc.metadata.value))
    ensures doc.metadata.None? || doc.data.Some? ==> r == Discriminate(doc, localTime, now)
    ensures r.Err? <==> Discriminate(doc, localTime, now).Err?
  {
    if doc.data.Some? && doc.metadata.Some? then Ok(Backup(doc.data.value, doc.metadata.value))
    else if doc.metadata.Some? && Valid(doc.payload) then Ok(Backup(doc.payload, doc.metadata.value))
    else Discriminate(doc, localTime, now)
  }

  /** `importBackup` with the exported format recognised. */
  function ImportBackupExported(st: Storage, doc: Option<ImportDoc>, localTime: string, now: nat, idClock: nat): (r: Result<Imported, ImportError>)
    ensures doc.None? ==> r == Err(Unreadable)
    ensures doc.Some? ==> (r == Err(Unsupported) <==> Discriminate(doc.value, localTime, now).Err?)
    ensures r.Ok? ==>
              && doc.Some? && DiscriminateExported(doc.value, localTime, now) == Ok(Backup(r.value.data, r.value.metadata))
              && r.value == SaveImported(st, Backup(r.value.data, r.value.metadata), idClock)
  {
    match doc
    case None => Err(Unreadable)
    case Some(d) =>
      match DiscriminateExported(d, localTime, now)
      case Err(e) => Err(e)
      case Ok(b) => Ok(SaveImported(st, b, idClock))
  }

  /** Exporting a valid backup and importing the file gives back its payload
      and its metadata. */
  lemma ExportThenImport(st: Storage, b: Backup, localTime: string, now: nat, idClock: nat)
    requires Valid(b.data)
    ensures var r := ImportBackupExported(st, Some(ExportDocument(b)), localTime, now, idClock);
            r.Ok? && r.value.data == b.data && r.value.metadata == b.metadata
  {
  }
}
