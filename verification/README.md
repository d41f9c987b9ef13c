# asd-web backup core in Dafny

This project models the browser-side core of asd-web, a GitHub release downloader. It covers:

- the WebDAV client (`WebDAVService`) that uploads, lists and downloads backup files;
- the local backup store kept in `localStorage`: creation, retention of the newest ten, listing, deletion, restore, import and export;
- the saved `owner/repo` presets;
- the application settings;
- the parser that turns a GitHub URL or an `owner/repo` string into a pair.

The modules are:

- `Results`: `Option` and `Result`.
- `Strings`: the JavaScript string operations the core uses (`trim`, `trimStart`, `split`, `indexOf`, `lastIndexOf`) over `seq<char>`.
- `Numbers`: `Number.prototype.toString` and `parseInt` on decimal text.
- `Sequences` and `Sorting`: `Array.prototype.filter`, `map`, and a stable sort by an integer key.
- `Records`: the stored records, and `localStorage` as a map from key to the parsed JSON value.
- `SettingsStore`, `PresetStore`, `Table` and `BackupStore`: the storage-backed utilities. `Table` is the backups object as an insertion-ordered list of entries with distinct ids.
- `SettingsSession`: the settings with the shared defaults object as part of the state. It exists to exhibit the first finding below.
- `WebDav`: the client over an abstract server.
- `DavServer`: a reference collection server and concrete scripted servers, with lemmas about what the client achieves against them.
- `GitHubUrl`: `parseGitHubUrl`.

How the environment is modelled:

- The network is a parameter. A server is any function from its own state and a request to a reply and its next state.
- Every client operation threads the server state together with the log of requests sent so far. Contracts can therefore say exactly which requests are issued, in which order.
- A rejected `fetch` is the reply `NetworkFailure`.
- Clock readings (`Date.now()`), the local time string and the URL parser (`new URL`) are parameters.
- A parsed import file is given as its two views: the wrapper properties `data` and `metadata`, and the bare payload properties.

The model follows the code as written, with one exception. `SettingsStore` reads settings against constant defaults. The code instead returns one shared defaults object when nothing is stored (settings.ts:15-34), and its setters later mutate that object. `SettingsSession` models the shared object, and the first finding below compares the two.

Where a comment in the code expects more than the code does, the model follows the code:

- `listFiles` treats a 207 and a 200 alike. The comment at webdav.ts:186 says a parse failure after a 200 gives an empty list. But `parsePropFindResponse` catches every error itself and returns what it collected, so that `catch` is never reached, and a 207 behaves the same way.

## Model

| member | source | states |
|---|---|---|
| WebDav.NewClient | src/lib/services/webdav.ts:17-23 | the client's base URL ends with `/`; it is the configured one plus at most that one `/`; every other field is unchanged |
| WebDav.NewClientIgnoresTrailingSlash | src/lib/services/webdav.ts:19-22 | a base URL written with or without its trailing `/` gives the same client |
| WebDav.NormalizePath | src/lib/services/webdav.ts:34-36 | the path ends with `/`; the input is its prefix with at most one character added; a path already ending in `/` is unchanged |
| WebDav.StripLeadingSlash | src/lib/services/webdav.ts:40 | exactly one leading `/` is removed when present; otherwise the text is unchanged |
| WebDav.Parent | src/lib/services/webdav.ts:109 | the parent is a strictly shorter prefix that ends just before the last `/`, with no `/` after that point; it is empty when the path has no `/` |
| WebDav.LastSegment | src/lib/services/webdav.ts:251 | the entry name is the suffix after the last `/` of the href and holds no `/`; an href without `/` is its own name |
| WebDav.SizeOf | src/lib/services/webdav.ts:255-273 | a missing or empty `getcontentlength` gives size 0; otherwise the size is `parseInt` of its text (NaN when no digits) |
| WebDav.ParseZero | src/lib/services/webdav.ts:270 | `parseInt('0')` is 0, the value used for an empty length text |
| WebDav.FileOf | src/lib/services/webdav.ts:249-293 | an element is kept exactly when it has an href whose last segment matches `backup-*.json`; the kept file carries that name, the parsed size and the modification text (empty when absent) |
| WebDav.ListingExactly | src/lib/services/webdav.ts:234-295 | a file is listed if and only if some response element yields it, and every listed name matches `backup-*.json` |
| WebDav.ListingConcat | src/lib/services/webdav.ts:234-295 | the listing of concatenated responses is the concatenation of their listings, so response order is kept |
| WebDav.ParsePropFindResponse | src/lib/services/webdav.ts:214-301 | the loop returns exactly the kept files of all response elements, in order |
| WebDav.CreateDirectory | src/lib/services/webdav.ts:89-131 | it never returns `false`; it only appends to the request log; the empty path and `/` send nothing and succeed; any other path sends its own MKCOL first |
| WebDav.CreateDirectoryAccepted | src/lib/services/webdav.ts:105-106 | MKCOL answered 201, 204 or 405 is success with no further request |
| WebDav.CreateDirectoryNoParent | src/lib/services/webdav.ts:107-122 | 409 or 404 on a path with no parent throws the matching error (parent missing or path missing) |
| WebDav.CreateDirectoryRecovers | src/lib/services/webdav.ts:107-121 | 409 or 404 on a path with a parent creates the parent next; an error there is the result; otherwise the path itself is tried again |
| WebDav.CreateDirectoryRejected | src/lib/services/webdav.ts:123-126 | any other MKCOL status throws an error carrying that status and the body |
| WebDav.UploadFile | src/lib/services/webdav.ts:38-87 | the first directory attempt always happens and the PUT follows it, whatever that attempt's outcome |
| WebDav.FirstPut | src/lib/services/webdav.ts:44-58 | the first PUT is sent right after the directory attempt's requests |
| WebDav.UploadAccepted | src/lib/services/webdav.ts:60-61 | a first PUT answered 200, 201 or 204 succeeds with no further request |
| WebDav.UploadRetriesOnce | src/lib/services/webdav.ts:62-78 | a PUT answered 409 gets exactly one more directory attempt and, unless that throws, exactly one more PUT whose status decides the result; failures on this path are wrapped as a conflict |
| WebDav.UploadRejected | src/lib/services/webdav.ts:79-82 | any other status of the first PUT throws an error carrying the status and the body |
| WebDav.DownloadFile | src/lib/services/webdav.ts:133-154 | one GET of the file URL; the body is returned exactly on 200; 404 is "file not found"; any other status and a rejected fetch are their own errors |
| WebDav.FileExists | src/lib/services/webdav.ts:198-212 | one HEAD; the answer is true exactly on a 200 reply, and a rejected fetch reads as false |
| WebDav.ListFiles | src/lib/services/webdav.ts:156-196 | one depth-1 PROPFIND of the remote directory; 404 lists nothing; 207 and 200 list the kept entries; any other status throws with status and body |
| WebDav.TestConnection | src/lib/services/webdav.ts:303-335 | OPTIONS answered 200, 204 or 405 is enough; a rejected OPTIONS is false; otherwise a depth-0 PROPFIND decides, 207 or 200 meaning true |
| DavServer.ExistsIffStored | src/lib/services/webdav.ts:198-212 | against the reference server, a file exists exactly when its URL is among the stored files, and asking changes nothing on the server |
| DavServer.UploadThenExists | src/lib/services/webdav.ts:38-87 | after an upload that reports success, the file exists |
| DavServer.ConnectionToReference | src/lib/services/webdav.ts:303-313 | a server that answers OPTIONS with 200 passes the connection test with that single request |
| DavServer.ConnectionFallsBackToPropFind | src/lib/services/webdav.ts:316-329 | OPTIONS refused with 501 leads to exactly one depth-0 PROPFIND, and the result is true exactly when it is answered 207 or 200 |
| DavServer.UrlOfWellFormed | src/lib/services/webdav.ts:94-95 | the collection URL of a well-formed path is the base URL, the path without its leading `/`, and one closing `/` |
| DavServer.RelativeUrl | src/lib/services/webdav.ts:94-95 | for any path not ending in `/`, the collection URL is the base URL, the path without its leading `/`, and one `/` |
| DavServer.RootUrl | src/lib/services/webdav.ts:157-158 | the empty path and `/` both address the base URL itself |
| DavServer.ParentOfRooted | src/lib/services/webdav.ts:109 | the parent of `/r` is `/` plus `r` up to its last `/`, or empty when `r` has no `/` |
| DavServer.ParentOfWellFormed | src/lib/services/webdav.ts:109-110 | a well-formed path has a parent exactly when it has more than one segment, and that parent is well formed and one segment shorter |
| DavServer.ContainerOfCollection | src/lib/services/webdav.ts:94-95 | the container of a path's collection URL is the collection URL of its parent, or the base URL for a single segment |
| DavServer.ContainerOfFile | src/lib/services/webdav.ts:39-40 | a file URL sits directly in the remote directory's collection |
| DavServer.CreateRootIsFree | src/lib/services/webdav.ts:90-92 | creating the empty path or `/` succeeds without a request and without changing anything |
| DavServer.CreateDirectoryDirect | src/lib/services/webdav.ts:105-106 | on the reference server, when the collection or its container exists, one MKCOL creates it without touching any file |
| DavServer.CreateDirectoryViaParent | src/lib/services/webdav.ts:107-112 | when the container is missing and creating the parent succeeds, the retried MKCOL creates the collection |
| DavServer.MissingContainer | src/lib/services/webdav.ts:109-112 | a missing container means the refused MKCOL left the server unchanged, and the parent is a shorter well-formed path whose collection is exactly that container |
| DavServer.CreateDirectoryReachesGoal | src/lib/services/webdav.ts:89-131 | on the reference server with the base collection present, any well-formed path is created with one re-entry allowed, no collection is lost and no file changes |
| DavServer.UploadStoresContent | src/lib/services/webdav.ts:51-75 | an upload that reports success has stored exactly the content at the file's URL |
| DavServer.DownloadReadsStore | src/lib/services/webdav.ts:143-144 | downloading a stored file returns what is stored |
| DavServer.UploadThenDownload | src/lib/services/webdav.ts:133-149 | after an upload that reports success, downloading the same name returns exactly the uploaded content |
| DavServer.UploadSucceeds | src/lib/services/webdav.ts:44-75 | against the reference server with the base collection present, uploading into a well-formed remote directory succeeds even when the directory was missing |
| DavServer.NestedCreateScenario | src/lib/services/webdav.ts:107-112 | a child refused with 409 is followed by the parent's MKCOL and then the child's again, exactly three requests in that order |
| DavServer.UploadConflictScenario | src/lib/services/webdav.ts:62-75 | a first PUT answered 409 leads to exactly MKCOL, PUT, MKCOL, PUT, and success |
| DavServer.EndlessConflict | src/lib/services/webdav.ts:111-112 | a server that always refuses a path with 409 but accepts its parent keeps the client re-entering until the re-entry bound is exhausted, whatever the bound |
| DavServer.ChildConflictIsEndless | src/lib/services/webdav.ts:119-120 | an instance of that server, for `/a/b` under `/a` |
| BackupStore.GetAllBackups | src/lib/utils/backup.ts:87-103 | the stored backups when the key holds a backups object, and an empty table when it is missing or holds anything else |
| BackupStore.WriteBackups | src/lib/utils/backup.ts:77 | what is written is read back, and no other key changes |
| BackupStore.SaveBackup | src/lib/utils/backup.ts:63-82 | after the put, at most ten backups remain, and exactly ten when the put made more; they come from the put in its order; no dropped backup is newer than a kept one; with at most ten nothing is dropped; other keys do not change |
| BackupStore.SaveKeepsNewest | src/lib/utils/backup.ts:63-75 | a backup newer than every stored one is found under its id after saving |
| BackupStore.CreateBackup | src/lib/utils/backup.ts:28-58 | the backup is a valid payload of version 1.0.0 holding the current settings and presets; its metadata has the trimmed name and description, the payload's timestamp and version, and counts taken from the payload; it is saved under `backup_` and the clock |
| BackupStore.GetBackupList | src/lib/utils/backup.ts:108-114 | the list is a permutation of the stored ids and metadata, newest first, each id once |
| BackupStore.ListedExactlyStored | src/lib/utils/backup.ts:110-113 | an id and metadata are listed if and only if a backup with that id and metadata is stored |
| BackupStore.DeleteBackup | src/lib/utils/backup.ts:119-132 | exactly the entries with other ids remain; the id is no longer found; other keys do not change |
| BackupStore.DeleteAbsent | src/lib/utils/backup.ts:124-127 | deleting an id that is not stored leaves the backups as they were |
| BackupStore.DeleteLeavesOthers | src/lib/utils/backup.ts:126 | deleting one id leaves every other id's backup as it was |
| BackupStore.Valid | src/lib/utils/backup.ts:152 | a payload is restorable when its version is a non-empty string, it has a settings object and its presets are an array |
| BackupStore.RestoreBackup | src/lib/utils/backup.ts:137-171 | an unknown id and an invalid payload are the two errors, each exactly in its case; otherwise the stored settings object and presets array are the payload's, and nothing else changes |
| BackupStore.WritePayload | src/lib/utils/backup.ts:156-161 | the settings key and the presets key hold the payload's parts, and no other key changes |
| BackupStore.CreateThenRestore | src/lib/utils/backup.ts:142-161 | restoring a freshly created backup gives back the settings and presets it was taken from |
| BackupStore.ClearAllBackups | src/lib/utils/backup.ts:261-272 | the key is removed, the backups read as empty, and no other key changes |
| BackupStore.SynthesizedMetadata | src/lib/utils/backup.ts:230-236 | the generated name comes from the local time, with no description; the payload's timestamp is used unless it is missing or zero; the version and counts come from the payload |
| BackupStore.Discriminate | src/lib/utils/backup.ts:223-239 | a wrapper with data and metadata is taken as it is; otherwise a valid bare payload gets generated metadata; the unsupported-format error happens exactly when neither applies |
| BackupStore.SaveImported | src/lib/utils/backup.ts:241-251 | the import is saved under `backup_import_` and the clock, and it warns exactly when the version is not 1.0.0 |
| BackupStore.ImportBackup | src/lib/utils/backup.ts:210-256 | unreadable text is an error; unsupported exactly when the discrimination fails; otherwise the discriminated backup is saved |
| BackupStore.VersionOnlyWarns | src/lib/utils/backup.ts:241-244 | a valid payload of any version is imported, with the warning exactly when the version differs |
| BackupStore.WrapperNotValidated | src/lib/utils/backup.ts:223-226 | a wrapper's payload is not checked, so an import can succeed with a backup that restore then refuses |
| BackupStore.ExportDocument | src/lib/utils/backup.ts:188-192 | the exported object has the payload's own properties and `metadata` beside them, and no `data` property |
| BackupStore.ExportedMetadataReplaced | src/lib/utils/backup.ts:223-236 | as written, importing an exported file keeps the payload but replaces its metadata with generated metadata |
| BackupStore.ExportedNameLost | src/lib/utils/backup.ts:230-231 | a concrete exported backup named `work` comes back under another name and without its description |
| BackupStore.DiscriminateExported | src/lib/utils/backup.ts:223-226 | an exported file keeps its own metadata; every other document is treated as before, and it fails exactly when the original discrimination fails |
| BackupStore.ImportBackupExported | src/lib/utils/backup.ts:210-256 | the import with the exported format recognised has the same errors as before and saves the backup chosen by the corrected discrimination |
| BackupStore.ExportThenImport | src/lib/utils/backup.ts:188-192 | exporting a valid backup and importing the file gives back both its payload and its metadata |
| Table.Lookup | src/lib/utils/backup.ts:143 | nothing exactly when no entry carries the id; otherwise the backup of the entry carrying it |
| Table.LookupMembership | src/lib/utils/backup.ts:143 | since ids are distinct, an id looks up to a backup if and only if that entry is stored |
| Table.Put | src/lib/utils/backup.ts:66 | the new entry is present and every other entry with another id stays; a new id goes last; an existing id keeps its place |
| Table.PutLookup | src/lib/utils/backup.ts:65-66 | after the put, the id finds the new backup and every other id finds what it found before |
| Table.Remove | src/lib/utils/backup.ts:126 | exactly the entries with other ids remain |
| Table.RemoveLookup | src/lib/utils/backup.ts:126 | after removal the id is not found and every other id finds what it found before |
| Table.RemoveAbsent | src/lib/utils/backup.ts:126 | removing an id no entry carries changes nothing |
| Table.Retain | src/lib/utils/backup.ts:68-75 | with at most ten entries nothing changes; otherwise exactly ten remain, in table order, and they are exactly the entries whose ids are not among the oldest |
| Table.KeptCount | src/lib/utils/backup.ts:70-74 | deleting the ids of the oldest `n - 10` of `n > 10` entries leaves exactly ten |
| Table.RetainDropsOldest | src/lib/utils/backup.ts:72-74 | no dropped entry is newer than a kept one |
| Table.NewestSurvives | src/lib/utils/backup.ts:72-74 | an entry strictly newer than all others is never dropped |
| Sorting.SortBy | src/lib/utils/backup.ts:72 | the result is sorted by the key and is a permutation of the input |
| PresetStore.LoadPresets | src/lib/utils/presets.ts:15-31 | the stored list when the key holds an array, and the empty list otherwise |
| PresetStore.SavePresets | src/lib/utils/presets.ts:36-46 | what is saved is what is loaded, and no other key changes |
| PresetStore.AddPreset | src/lib/utils/presets.ts:51-64 | the new preset is appended after the unchanged earlier ones; its id is the clock's decimal text, which parses back to the clock; name, owner and repo are trimmed |
| PresetStore.Without | src/lib/utils/presets.ts:71 | every survivor comes from the list and does not carry the id; every preset not carrying it survives |
| PresetStore.DeletePreset | src/lib/utils/presets.ts:69-73 | a preset remains if and only if it was there and does not carry the id; no other key changes |
| PresetStore.DeleteKeepsOrder | src/lib/utils/presets.ts:71 | deletion distributes over concatenation, so the survivors keep their relative order |
| PresetStore.DeleteCount | src/lib/utils/presets.ts:71 | the list shrinks by exactly the number of presets carrying the id |
| PresetStore.DeleteIdempotent | src/lib/utils/presets.ts:69-73 | deleting twice is deleting once |
| PresetStore.DeleteAbsent | src/lib/utils/presets.ts:69-73 | deleting an id no preset carries leaves the list unchanged |
| PresetStore.AddThenDelete | src/lib/utils/presets.ts:51-73 | adding under a fresh id and then deleting that id restores the list |
| PresetStore.Apply | src/lib/utils/presets.ts:82 | given fields replace the preset's, absent ones keep it, and the id never changes |
| PresetStore.UpdatePreset | src/lib/utils/presets.ts:78-87 | length, order and ids are kept; exactly the presets carrying the id receive the update |
| PresetStore.UpdateNothing | src/lib/utils/presets.ts:78-87 | an empty update leaves the list unchanged |
| PresetStore.FindPresetById | src/lib/utils/presets.ts:92-95 | nothing exactly when no preset carries the id; otherwise the first preset carrying it |
| PresetStore.FindAdded | src/lib/utils/presets.ts:92-95 | a preset added under a fresh id is found by that id |
| PresetStore.FindDeleted | src/lib/utils/presets.ts:92-95 | after deletion the id is not found |
| PresetStore.ClearPresets | src/lib/utils/presets.ts:108-118 | the key is removed, the list loads empty, and no other key changes |
| PresetStore.GetPresetCount | src/lib/utils/presets.ts:100-103 | the count is the length of the loaded list |
| PresetStore.CountAfterOperations | src/lib/utils/presets.ts:100-103 | the count grows by one on add, is zero after clear, and falls by the number of matching presets on delete |
| SettingsStore.Merge | src/lib/utils/settings.ts:24-27 | each stored property wins, and each missing one falls back to the default |
| SettingsStore.LoadSettings | src/lib/utils/settings.ts:15-34 | the defaults when nothing readable is stored; otherwise the stored properties over the defaults |
| SettingsStore.SaveSettings | src/lib/utils/settings.ts:36-46 | the settings key holds exactly what was saved, and no other key changes |
| SettingsStore.SaveLoad | src/lib/utils/settings.ts:15-46 | loading after saving a complete settings object gives it back |
| SettingsStore.MergeEmbedded | src/lib/utils/settings.ts:24-27 | a complete settings object ignores the defaults |
| SettingsStore.MirrorSuffix | src/lib/utils/settings.ts:54-58 | the result ends in `/` or `=`; the input is its prefix with at most one character added; the input is unchanged exactly when it already ends in one of them |
| SettingsStore.MirrorSuffixIdempotent | src/lib/utils/settings.ts:54-58 | applying the suffix rule twice is applying it once |
| SettingsStore.GetMirrorUrl | src/lib/utils/settings.ts:48-61 | nothing exactly for a null or empty mirror; otherwise the mirror with the suffix rule applied |
| SettingsStore.SetMirrorUrl | src/lib/utils/settings.ts:63-67 | the mirror becomes the given value; the theme, the token and every other key stay |
| SettingsStore.SetAccessToken | src/lib/utils/settings.ts:74-78 | the token becomes the given value; the mirror, the theme and every other key stay |
| SettingsStore.SetTheme | src/lib/utils/settings.ts:80-85 | the theme becomes the given one; the mirror, the token and every other key stay |
| SettingsStore.GetTheme | src/lib/utils/settings.ts:87-90 | the loaded theme, or blue when it is null or nothing is stored |
| SettingsStore.GetAccessToken | src/lib/utils/settings.ts:69-72 | nothing exactly for a null or empty token; otherwise the token |
| SettingsStore.SetThenGetMirror | src/lib/utils/settings.ts:48-67 | setting a non-empty mirror and reading it back gives the suffixed mirror |
| SettingsStore.ClearMirror | src/lib/utils/settings.ts:50-52 | setting the mirror to null turns mirroring off |
| SettingsStore.SetThenGetTheme | src/lib/utils/settings.ts:80-90 | the theme set is the theme read |
| SettingsStore.SetThenGetAccessToken | src/lib/utils/settings.ts:69-78 | a non-empty token set is the token read; an empty one reads as none |
| SettingsStore.SettersCommute | src/lib/utils/settings.ts:63-85 | the setters touch different properties, so their order does not matter |
| SettingsStore.MissingPropertiesReadAsDefaults | src/lib/utils/settings.ts:7-11 | with constant defaults, a stored object without theme reads blue, without mirror reads no mirror, and without token reads no token |
| SettingsSession.Load | src/lib/utils/settings.ts:15-34 | the stored properties over the current defaults object, or that object itself when nothing is stored |
| SettingsSession.SetTheme | src/lib/utils/settings.ts:80-85 | the theme is set; when nothing was stored, the defaults object itself now carries it |
| SettingsSession.Restore | src/lib/utils/backup.ts:158 | the backup's settings object is stored as it is, and the defaults object is untouched |
| SettingsSession.GetTheme | src/lib/utils/settings.ts:87-90 | the loaded theme, or blue when it is null |
| SettingsSession.StaleDefaultTheme | src/lib/utils/settings.ts:15-34 | as written, choosing pink on empty storage and then restoring settings without a theme still reads pink, where constant defaults read blue |
| GitHubUrl.StripGit | src/lib/utils/github-url.ts:30 | one `.git` at the very end is removed, and nothing else changes |
| GitHubUrl.StripGitOnce | src/lib/utils/github-url.ts:30 | only one suffix is removed, so `x.git.git` keeps `x.git` |
| GitHubUrl.Segments | src/lib/utils/github-url.ts:39 | every segment of the path is non-empty and holds no `/` |
| GitHubUrl.ParseGitHubUrl | src/lib/utils/github-url.ts:21-52 | the short form gives the text before the first `/` and the next piece without `.git`; otherwise a pair exactly for a parsable URL on host `github.com` with two non-empty path segments, taken from the first two |
| GitHubUrl.TrimmedFirst | src/lib/utils/github-url.ts:22 | only the trimmed input matters |
| GitHubUrl.NoSlashNoUrl | src/lib/utils/github-url.ts:36-51 | text without `/` that is not a `github.com` URL gives nothing |
| GitHubUrl.ShortFormPieces | src/lib/utils/github-url.ts:25-33 | trimmed short-form text gives its first two split pieces |
| GitHubUrl.InnerGitKept | src/lib/utils/github-url.ts:30 | `owner/repo` gives exactly that pair when the repo has no trailing `.git` |
| GitHubUrl.ShortFormFirstTwo | src/lib/utils/github-url.ts:26-31 | pieces after a second `/` are ignored |
| GitHubUrl.TwoSegments | src/lib/utils/github-url.ts:39 | the path `/owner/repo` has exactly the two segments |
| GitHubUrl.UrlForm | src/lib/utils/github-url.ts:36-46 | a `github.com` URL with path `/owner/repo` gives the owner and the repo without `.git` |
| GitHubUrl.OtherHost | src/lib/utils/github-url.ts:38 | a URL on any other host gives nothing |
| GitHubUrl.ShortExample | src/lib/utils/github-url.ts:12-14 | the documented `facebook/react` example |
| GitHubUrl.UrlExample | src/lib/utils/github-url.ts:6-10 | the documented `https://github.com/facebook/react` example |
| GitHubUrl.UrlGitExample | src/lib/utils/github-url.ts:16-19 | the documented example with `.git` |
| GitHubUrl.SchemelessUrl | src/lib/utils/github-url.ts:25 | `github.com/facebook/react` takes the short-form branch and gives owner `github.com`, repo `facebook` |
| Numbers.DecimalString | src/lib/utils/presets.ts:54 | digits only, no leading zero except for `0`, and the digits denote the number |
| Numbers.DecimalStringInjective | src/lib/utils/backup.ts:52 | different clock readings give different decimal texts |
| Numbers.ParseInt | src/lib/services/webdav.ts:270 | NaN exactly when no digit follows the leading white space and one sign |
| Numbers.ParsePrinted | src/lib/utils/presets.ts:54 | parsing the printed form of a natural number gives the number back |
| Numbers.ParseIgnoresSuffix | src/lib/services/webdav.ts:270 | text after the digits is ignored, as in `parseInt('12px')` |
| Strings.TrimStart | src/lib/services/webdav.ts:270 | the result is a suffix that does not start with white space, and everything cut off is white space |
| Strings.Trim | src/lib/utils/github-url.ts:22 | the result is a slice with no white space at either end, and everything cut off on each side is white space |
| Strings.TrimIdempotent | src/lib/utils/github-url.ts:22 | trimming twice is trimming once |
| Strings.TrimNoOp | src/lib/utils/backup.ts:44 | text with no white space at either end is its own trim |
| Strings.LastIndexOf | src/lib/services/webdav.ts:251 | -1 exactly when the character is absent; otherwise an index holding it with none after it |
| Strings.Split | src/lib/utils/github-url.ts:26 | at least one piece, none holding the separator; with a separator present, at least two pieces, the first being the text before it |
| Strings.JoinSplit | src/lib/utils/github-url.ts:26 | joining the pieces with the separator gives back the input |
| Strings.SplitSecond | src/lib/utils/github-url.ts:29-30 | the second piece is the text after the first separator, up to the next one |
| Records.KeyCount | src/lib/utils/backup.ts:48 | at most three keys, and three exactly when every property is present |
| Records.Embed | src/lib/utils/backup.ts:36-41 | a merged settings object is written with all three properties, and reading them back gives its values |

## Left out

- The server-side rendering branches (`typeof window === 'undefined'`) are not modelled. Every operation is modelled as it runs in a browser.
- Headers are not modelled: the `Authorization` header built with `btoa`, `User-Agent`, `Depth` and `Content-Type`. Requests carry only the verb, the URL, the PUT content and the PROPFIND depth.
- `console` logging, `response.text()` and `response.blob()` as streams, and `Blob` and `File` objects are left out. Bodies are strings.
- DOMParser and namespace lookup are left out: the choice among `d:response`, `D:response`, the `DAV:` namespace and plain `response`, and the `href`, `propstat`, `getcontentlength` and `getlastmodified` selectors. The parsed document is given as a sequence of response elements holding the texts those lookups find.
- JSON text is not modelled: `localStorage` holds parsed values. Text that does not parse, or parses to an unexpected shape, is one `OtherJson` value.
- `new URL` is a parameter, `urlObj.hostname` and `urlObj.pathname` included.
- `Date.now()`, `toLocaleString` and `toISOString` are not modelled. The clock readings and the local time text are parameters.
- `exportBackup` is modelled up to the exported object (lines 188-192). The Blob, the object URL, the download link and the file name are left out.
- `applyTheme` and `initTheme` are DOM side effects (settings.ts:92-101) and are left out. So is the `applyTheme` call in `restoreBackup`.
- `getOwnerRepoFromUrl` and `buildOwnerRepoUrl` (github-url.ts:58-85) are left out. They only read and write URLSearchParams.
- `src/lib/services/github.ts` and `svelte.config.js` are not part of this model.
- WebDav.CreateDirectory: the recursion in the source is unbounded; the model bounds the path's own re-entries by a `fuel` count. A server that refuses a path forever therefore ends in `FuelExhausted`, where the source would keep sending requests. DavServer.EndlessConflict states this.
- Numbers.ParseInt: only decimal text is modelled. The `0x` prefix, `Infinity` and the loss of precision beyond 2^53 are left out. NaN is `None`.
- BackupStore.GetAllBackups: the code returns any stored value that passes `typeof parsed === 'object'` as it is: an array, `null`, or an object whose properties are not `{data, metadata}` pairs. The model reads an array and `null` as an empty table, and represents only objects whose properties are all backup entries.
- BackupStore.RestoreBackup: the test at backup.ts:152 is truthiness, but the model reads `version` only as a string and `settings` only as a settings object. A truthy value of another JSON type there (a numeric `version`, a `settings` that is a number or a string) counts as missing, so the model reports invalid data where the code would restore it.
- BackupStore.Discriminate: the same truthiness gap applies to the bare-payload test at backup.ts:227, and to the wrapper test at backup.ts:223 for a truthy `data` or `metadata` that is not an object. Such a document is an unsupported format in the model, where the code would import it. An example is `{"version": 2, "settings": {}, "presets": []}`.
- SettingsStore.LoadSettings: assumes the module's defaults object was never mutated. When nothing is stored, the code returns that shared object itself, so after a setter ran on empty storage later loads see the changed values. `SettingsSession` models the sharing (first finding below). `BackupStore.CreateBackup` and `BackupStore.CreateThenRestore` read settings through `LoadSettings` and share this assumption.
- BackupStore.CreateBackup: a stored settings object is modelled with its three known properties only. Extra properties, which would raise `settingsCount` above 3, are left out.
- Sorting.SortBy: the definition is stable, like `Array.prototype.sort`, but its contract does not state stability. Ties among equal timestamps in retention and in `getBackupList` are therefore not specified beyond the definition.
- BackupStore.GetBackupList: the order among backups with equal timestamps is not stated (see `Sorting.SortBy`).
- Metadata whose `timestamp` is missing or not a number (possible in an imported wrapper) is left out. Timestamps are integers, and the NaN comparisons of the retention sort are not modelled.

## Findings

| source | as written | input that shows it | evidently intended | confidence | as-written member | corrected member |
|---|---|---|---|---|---|---|
| src/lib/utils/settings.ts:15-34 | `loadSettings` returns the module's own `defaultSettings` object when nothing is stored, and `setTheme`, `setMirrorUrl` and `setAccessToken` assign into the object they loaded, so the first setter call on empty storage rewrites the defaults for the rest of the page | empty storage; `setTheme('pink')`; restore a backup whose settings object has no `theme` property; `getTheme()` returns `'pink'` | the defaults stay constant (a copy is returned), so a missing `theme` reads as `'blue'` | not executed | SettingsSession.StaleDefaultTheme | SettingsStore.MissingPropertiesReadAsDefaults |
| src/lib/utils/backup.ts:188-192 | `exportBackup` writes `{...data, metadata}`, which has no `data` property, while `importBackup` recognises the wrapper format by `importData.data && importData.metadata` (lines 223-226); an exported file is therefore taken for a bare payload and its metadata is replaced | export a valid backup named `work` with description `weekly` and import the file: the name becomes `导入备份_` plus the local time and the description is gone | re-importing an exported file keeps its name, description and timestamp | not executed | BackupStore.ExportedNameLost | BackupStore.ExportThenImport |
