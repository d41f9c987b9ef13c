/** The application settings kept under one `localStorage` key: loading merges
    what is stored over the defaults, and each setter rewrites one property. */
module SettingsStore {
  import opened Results
  import opened Strings
  import opened Records

  /** No mirror, the blue theme, no access token. */
  const Defaults: Settings := Settings(None, Some(Blue), None)

  /** The stored settings object, when the key holds one. */
  function Read(st: Storage): Option<StoredSettings> {
    if SettingsKey in st && st[SettingsKey].SettingsJson? then Some(st[SettingsKey].settings) else None
  }

  /** `{...defaults, ...stored}`: a stored property wins, a missing one falls back. */
  function Merge(stored: StoredSettings, defaults: Settings): (s: Settings)
    ensures stored.mirrorUrl.Present? ==> s.mirrorUrl == stored.mirrorUrl.value
    ensures stored.mirrorUrl.Absent? ==> s.mirrorUrl == defaults.mirrorUrl
    ensures stored.theme.Present? ==> s.theme == stored.theme.value
    ensures stored.theme.Absent? ==> s.theme == defaults.theme
    ensures stored.accessToken.Present? ==> s.accessToken == stored.accessToken.value
    ensures stored.accessToken.Absent? ==> s.accessToken == defaults.accessToken
  {
    Settings(stored.mirrorUrl.Or(defaults.mirrorUrl), stored.theme.Or(defaults.theme), stored.accessToken.Or(defaults.accessToken))
  }

  /** `loadSettings`: the defaults when nothing readable is stored, and
      otherwise the stored properties over the defaults. */
  function LoadSettings(st: Storage): (s: Settings)
    ensures Read(st).None? ==> s == Defaults
    ensures Read(st).Some? ==> s == Merge(Read(st).value, Defaults)
  {
    match Read(st)
    case None => Defaults
    case Some(stored) => Merge(stored, Defaults)
  }

  /** `saveSettings`: the settings key now holds exactly `s`; no other key changes. */
  function SaveSettings(st: Storage, s: StoredSettings): (r: Storage)
    ensures Read(r) == Some(s)
    ensures r - {SettingsKey} == st - {SettingsKey}
  {
    st[SettingsKey := SettingsJson(s)]
  }

  /** What is saved is what is loaded back. */
  lemma SaveLoad(st: Storage, s: Settings)
    ensures LoadSettings(SaveSettings(st, Embed(s))) == s
  {
  }

  /** Merging a complete object ignores the defaults. */
  lemma MergeEmbedded(s: Settings, defaults: Settings)
    ensures Merge(Embed(s), defaults) == s
  {
  }

  /** `getMirrorUrl`'s suffix rule: a URL ending in `/` or `=` is kept, any
      other gets one `/`. */
  function MirrorSuffix(url: string): (r: string)
    ensures EndsWith(r, "/") || EndsWith(r, "=")
    ensures StartsWith(r, url) && |url| <= |r| <= |url| + 1
    ensures EndsWith(url, "/") || EndsWith(url, "=") <==> r == url
  {
    if EndsWith(url, "/") || EndsWith(url, "=") then url
    else
      assert EndsWith(url + "/", "/") && (url + "/")[..|url|] == url;
      url + "/"
  }

  /** Applying the suffix rule twice is applying it once. */
  lemma MirrorSuffixIdempotent(url: string)
    ensures MirrorSuffix(MirrorSuffix(url)) == MirrorSuffix(url)
  {
  }

  /** `getMirrorUrl`: nothing for a `null` or empty mirror, otherwise the
      mirror with the suffix rule applied. */
  function GetMirrorUrl(st: Storage): (r: Option<string>)
    ensures var m := LoadSettings(st).mirrorUrl;
            && (r.None? <==> m.None? || m == Some(""))
            && (r.Some? ==> r.value == MirrorSuffix(m.value))
  {
    match LoadSettings(st).mirrorUrl
    case None => None
    case Some(url) => if url == "" then None else Some(MirrorSuffix(url))
  }

  /** `setMirrorUrl`: the mirror becomes `url`; the other properties and every
      other key stay as they were. */
  function SetMirrorUrl(st: Storage, url: Option<string>): (r: Storage)
    ensures LoadSettings(r).mirrorUrl == url
    ensures LoadSettings(r).theme == LoadSettings(st).theme
    ensures LoadSettings(r).accessToken == LoadSettings(st).accessToken
    ensures r - {SettingsKey} == st - {SettingsKey}
  {
    SaveSettings(st, Embed(LoadSettings(st).(mirrorUrl := url)))
  }

  /** `setAccessToken`: the token becomes `token`; everything else stays. */
  function SetAccessToken(st: Storage, token: Option<string>): (r: Storage)
    ensures LoadSettings(r).accessToken == token
    ensures LoadSettings(r).mirrorUrl == LoadSettings(st).mirrorUrl
    ensures LoadSettings(r).theme == LoadSettings(st).theme
    ensures r - {SettingsKey} == st - {SettingsKey}
  {
    SaveSettings(st, Embed(LoadSettings(st).(accessToken := token)))
  }

  /** `setTheme`: the theme becomes `theme`; everything else stays. */
  function SetTheme(st: Storage, theme: Theme): (r: Storage)
    ensures LoadSettings(r).theme == Some(theme)
    ensures LoadSettings(r).mirrorUrl == LoadSettings(st).mirrorUrl
    ensures LoadSettings(r).accessToken == LoadSettings(st).accessToken
    ensures r - {SettingsKey} == st - {SettingsKey}
  {
    SaveSettings(st, Embed(LoadSettings(st).(theme := Some(theme))))
  }

  /** `getTheme`: the stored theme, blue when it is unset or `null`. */
  function GetTheme(st: Storage): (t: Theme)
    ensures LoadSettings(st).theme.Some? ==> t == LoadSettings(st).theme.value
    ensures LoadSettings(st).theme.None? ==> t == Blue
    ensures Read(st).None? ==> t == Blue
  {
    LoadSettings(st).theme.GetOr(Blue)
  }

  /** `getAccessToken`: nothing for a `null`, missing or empty token. */
  function GetAccessToken(st: Storage): (r: Option<string>)
    ensures var k := LoadSettings(st).accessToken;
            && (r.None? <==> k.None? || k == Some(""))
            && (r.Some? ==> r == k)
  {
    match LoadSettings(st).accessToken
    case None => None
    case Some(token) => if token == "" then None else Some(token)
  }

  /** Setting the mirror and reading it back gives the suffixed mirror. */
  lemma SetThenGetMirror(st: Storage, url: string)
    requires url != ""
    ensures GetMirrorUrl(SetMirrorUrl(st, Some(url))) == Some(MirrorSuffix(url))
  {
  }

  /** Clearing the mirror turns mirroring off. */
  lemma ClearMirror(st: Storage)
    ensures GetMirrorUrl(SetMirrorUrl(st, None)) == None
  {
  }

  /** A theme that is set is the theme that is read. */
  lemma SetThenGetTheme(st: Storage, theme: Theme)
    ensures GetTheme(SetTheme(st, theme)) == theme
  {
  }

  /** A non-empty token that is set is the token that is read; an empty one reads as none. */
  lemma SetThenGetAccessToken(st: Storage, token: string)
    ensures GetAccessToken(SetAccessToken(st, Some(token))) == (if token == "" then None else Some(token))
  {
  }

  /** The setters touch different properties, so they commute. */
  lemma SettersCommute(st: Storage, url: Option<string>, token: Option<string>, theme: Theme)
    ensures LoadSettings(SetAccessToken(SetMirrorUrl(st, url), token)) == LoadSettings(SetMirrorUrl(SetAccessToken(st, token), url))
    ensures LoadSettings(SetTheme(SetMirrorUrl(st, url), theme)) == LoadSettings(SetMirrorUrl(SetTheme(st, theme), url))
  {
  }

  /** The defaults never change: a stored settings object without a `theme`
      property reads as blue, and one without an `accessToken` reads as no
      token, whatever was set before it was written. */
  lemma MissingPropertiesReadAsDefaults(st: Storage, stored: StoredSettings)
    requires Read(st) == Some(stored)
    ensures stored.theme.Absent? ==> GetTheme(st) == Blue
    ensures stored.mirrorUrl.Absent? ==> GetMirrorUrl(st) == None
    ensures stored.accessToken.Absent? ==> GetAccessToken(st) == None
  {
  }
}
