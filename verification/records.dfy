/** The records the application keeps in the browser's `localStorage`, and the
    storage itself as a map from key to the value parsed from the stored JSON. */
module Records {
  import opened Results

  datatype Theme = Blue | Pink

  /** A property of a stored JSON object: absent, or present with a value
      (which may itself be `null`, written `None`). */
  datatype Field<+T> = Absent | Present(value: T) {

    /** The property's value, or `default` when the property is absent; this
        is what an object spread over defaults yields. */
    function Or(default: T): T {
      match this
      case Present(v) => v
      case Absent => default
    }
  }

  /** The settings object as the application holds it after merging with the
      defaults: every property is there, possibly `null`. */
  datatype Settings = Settings(mirrorUrl: Option<string>, theme: Option<Theme>, accessToken: Option<string>)

  /** A settings object as stored, where any property may be missing (a
      restored backup stores its settings object as it is). */
  datatype StoredSettings = StoredSettings(mirrorUrl: Field<Option<string>>, theme: Field<Option<Theme>>, accessToken: Field<Option<string>>)

  /** The number of own keys of a stored settings object (`Object.keys(...).length`). */
  function KeyCount(s: StoredSettings): (n: nat)
    ensures n <= 3
    ensures n == 3 <==> s.mirrorUrl.Present? && s.theme.Present? && s.accessToken.Present?
  {
    (if s.mirrorUrl.Present? then 1 else 0) + (if s.theme.Present? then 1 else 0) + (if s.accessToken.Present? then 1 else 0)
  }

  /** A merged settings object written out: every property present. */
  function Embed(s: Settings): (t: StoredSettings)
    ensures KeyCount(t) == 3
    ensures t.mirrorUrl.Or(None) == s.mirrorUrl && t.theme.Or(None) == s.theme && t.accessToken.Or(None) == s.accessToken
  {
    StoredSettings(Present(s.mirrorUrl), Present(s.theme), Present(s.accessToken))
  }

  datatype Preset = Preset(id: string, name: string, owner: string, repo: string)

  /** A backup's payload. Imported payloads are taken as they are, so every
      property may be missing or of the wrong kind (`None`). */
  datatype BackupData = BackupData(version: Option<string>, timestamp: Option<int>, settings: Option<StoredSettings>, presets: Option<seq<Preset>>)

  datatype BackupMetadata = BackupMetadata(
    name: string,
    description: Option<string>,
    timestamp: int,
    version: string,
    settingsCount: nat,
    presetsCount: nat)

  datatype Backup = Backup(data: BackupData, metadata: BackupMetadata)

  /** One property of the stored backups object. */
  datatype Entry = Entry(id: string, backup: Backup)

  /** No id occurs twice. */
  predicate UniqueIds(t: seq<Entry>) {
    forall i, j :: 0 <= i < j < |t| ==> t[i].id != t[j].id
  }

  /** The stored backups object: its properties in insertion order, which is the
      order `Object.entries` reports for keys that are not array indices. */
  type BackupTable = t: seq<Entry> | UniqueIds(t) witness []

  /** The set of ids in a table. */
  function Ids(t: seq<Entry>): set<string> {
    set i | 0 <= i < |t| :: t[i].id
  }

  /** What a `localStorage` key holds once its JSON is parsed: one of the three
      shapes the application writes, or anything else (text that does not
      parse, a value of another shape). */
  datatype Stored =
    | SettingsJson(settings: StoredSettings)
    | PresetsJson(presets: seq<Preset>)
    | BackupsJson(backups: BackupTable)
    | OtherJson

  type Storage = map<string, Stored>

  const SettingsKey: string := "github-release-downloader-settings"
  const PresetsKey: string := "github-release-presets"
  const BackupsKey: string := "github-release-backups"
}
