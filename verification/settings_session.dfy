/** `loadSettings` as written returns the module's own defaults object whenever
    nothing readable is stored, and the setters assign into the object they
    loaded. The first setter call on empty storage therefore changes the
    defaults for the rest of the page's life. This module keeps the defaults
    as part of the state to show the effect; `SettingsStore` is the model with
    constant defaults that the rest of the project uses. */
module SettingsSession {
  import opened Results
  import opened Records
  import SettingsStore

  /** The storage together with the current contents of the defaults object. */
  datatype Session = Session(defaults: Settings, storage: Storage)

  /** `loadSettings` as written: the stored properties over the current
      defaults, or the defaults object itself. */
  function Load(s: Session): (r: Settings)
    ensures SettingsStore.Read(s.storage).None? ==> r == s.defaults
    ensures SettingsStore.Read(s.storage).Some? ==> r == SettingsStore.Merge(SettingsStore.Read(s.storage).value, s.defaults)
  {
    match SettingsStore.Read(s.storage)
    case None => s.defaults
    case Some(stored) => SettingsStore.Merge(stored, s.defaults)
  }

  /** `setTheme` as written: when nothing is stored, the assignment goes into the
      defaults object, which is then saved. */
  function SetTheme(s: Session, theme: Theme): (r: Session)
    ensures Load(r).theme == Some(theme)
    ensures SettingsStore.Read(s.storage).Some? ==> r.defaults == s.defaults
    ensures SettingsStore.Read(s.storage).None? ==> r.defaults == s.defaults.(theme := Some(theme))
  {
    var loaded := Load(s).(theme := Some(theme));
    var defaults := if SettingsStore.Read(s.storage).None? then loaded else s.defaults;
    Session(defaults, SettingsStore.SaveSettings(s.storage, Embed(loaded)))
  }

  /** `restoreBackup` writing a backup's settings object as it is. */
  function Restore(s: Session, stored: StoredSettings): (r: Session)
    ensures r.defaults == s.defaults
    ensures SettingsStore.Read(r.storage) == Some(stored)
  {
    Session(s.defaults, SettingsStore.SaveSettings(s.storage, stored))
  }

  /** `getTheme` as written. */
  function GetTheme(s: Session): (t: Theme)
    ensures Load(s).theme.None? ==> t == Blue
    ensures Load(s).theme.Some? ==> t == Load(s).theme.value
  {
    Load(s).theme.GetOr(Blue)
  }

  /** Starting from empty storage, choose the pink theme, then restore a backup
      whose settings object has no `theme` property: the theme read back is
      still pink, although a missing property is meant to mean the default,
      blue. `SettingsStore` on the same storage reads blue. */
  lemma StaleDefaultTheme()
    ensures var stored := StoredSettings(Present(None), Absent, Present(None));
            var s := Restore(SetTheme(Session(SettingsStore.Defaults, map[]), Pink), stored);
            && GetTheme(s) == Pink
            && SettingsStore.GetTheme(s.storage) == Blue
  {
    var stored := StoredSettings(Present(None), Absent, Present(None));
    var s1 := SetTheme(Session(SettingsStore.Defaults, map[]), Pink);
    assert s1.defaults.theme == Some(Pink);
    var s := Restore(s1, stored);
    assert Load(s).theme == Some(Pink);
  }
}
