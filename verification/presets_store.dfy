/** The saved `owner/repo` presets: a list kept under one `localStorage` key,
    appended to, filtered, mapped and searched by id. */
module PresetStore {
  import opened Results
  import opened Strings
  import opened Numbers
  import opened Sequences
  import opened Records

  /** `loadPresets`: the stored list, or the empty list when the key is
      missing or does not hold an array. */
  function LoadPresets(st: Storage): (ps: seq<Preset>)
    ensures PresetsKey !in st ==> ps == []
    ensures PresetsKey in st && st[PresetsKey].PresetsJson? ==> ps == st[PresetsKey].presets
    ensures PresetsKey in st && !st[PresetsKey].PresetsJson? ==> ps == []
  {
    if PresetsKey in st && st[PresetsKey].PresetsJson? then st[PresetsKey].presets else []
  }

  /** `savePresets`: the key holds exactly `ps`; no other key changes. */
  function SavePresets(st: Storage, ps: seq<Preset>): (r: Storage)
    ensures LoadPresets(r) == ps
    ensures r - {PresetsKey} == st - {PresetsKey}
  {
    st[PresetsKey := PresetsJson(ps)]
  }

  /** The preset `addPreset` creates and the storage after it. */
  datatype Added = Added(preset: Preset, storage: Storage)

  /** `addPreset`: a preset with the clock reading as its id and the trimmed
      name, owner and repo is appended; the earlier presets stay as they were. */
  function AddPreset(st: Storage, name: string, owner: string, repo: string, now: nat): (a: Added)
    ensures LoadPresets(a.storage) == LoadPresets(st) + [a.preset]
    ensures a.preset.id == DecimalString(now) && ParseInt(a.preset.id) == Some(now)
    ensures a.preset.name == Trim(name) && a.preset.owner == Trim(owner) && a.preset.repo == Trim(repo)
    ensures a.storage - {PresetsKey} == st - {PresetsKey}
  {
    ParsePrinted(now);
    var p := Preset(DecimalString(now), Trim(name), Trim(owner), Trim(repo));
    Added(p, SavePresets(st, LoadPresets(st) + [p]))
  }

  /** The presets whose id is not `id`, in their order. */
  function Without(ps: seq<Preset>, id: string): (r: seq<Preset>)
    ensures forall i :: 0 <= i < |r| ==> r[i].id != id && r[i] in ps
    ensures forall i :: 0 <= i < |ps| && ps[i].id != id ==> ps[i] in r
  {
    var keep := (p: Preset) => p.id != id;
    FilterMembers(ps, keep);
    Filter(ps, keep)
  }

  /** `deletePreset`: every preset with that id is gone and every other one remains. */
  function DeletePreset(st: Storage, id: string): (r: Storage)
    ensures forall p :: p in LoadPresets(r) <==> p in LoadPresets(st) && p.id != id
    ensures r - {PresetsKey} == st - {PresetsKey}
  {
    SavePresets(st, Without(LoadPresets(st), id))
  }

  /** Deletion keeps the relative order of what remains: it works piecewise
      on any split of the list. */
  lemma DeleteKeepsOrder(a: seq<Preset>, b: seq<Preset>, id: string)
    ensures Without(a + b, id) == Without(a, id) + Without(b, id)
  {
    FilterConcat(a, b, (p: Preset) => p.id != id);
  }

  /** The list shrinks by exactly the number of presets carrying the id. */
  lemma DeleteCount(ps: seq<Preset>, id: string)
    ensures |Without(ps, id)| == |ps| - CountNot(ps, (p: Preset) => p.id != id)
  {
    FilterLength(ps, (p: Preset) => p.id != id);
  }

  /** Deleting twice is deleting once. */
  lemma DeleteIdempotent(st: Storage, id: string)
    ensures LoadPresets(DeletePreset(DeletePreset(st, id), id)) == LoadPresets(DeletePreset(st, id))
  {
    FilterIdempotent(LoadPresets(st), (p: Preset) => p.id != id);
  }

  /** Deleting an id no preset carries leaves the list as it is. */
  lemma DeleteAbsent(st: Storage, id: string)
    requires forall i :: 0 <= i < |LoadPresets(st)| ==> LoadPresets(st)[i].id != id
    ensures LoadPresets(DeletePreset(st, id)) == LoadPresets(st)
  {
    FilterKeepsAll(LoadPresets(st), (p: Preset) => p.id != id);
  }

  /** Adding a preset under a fresh id and deleting that id gives back the
      list from before. */
  lemma AddThenDelete(st: Storage, name: string, owner: string, repo: string, now: nat)
    requires forall i :: 0 <= i < |LoadPresets(st)| ==> LoadPresets(st)[i].id != DecimalString(now)
    ensures LoadPresets(DeletePreset(AddPreset(st, name, owner, repo, now).storage, DecimalString(now))) == LoadPresets(st)
  {
    var ps := LoadPresets(st);
    var a := AddPreset(st, name, owner, repo, now);
    var keep := (p: Preset) => p.id != DecimalString(now);
    FilterConcat(ps, [a.preset], keep);
    FilterKeepsAll(ps, keep);
    assert Filter([a.preset], keep) == [];
  }

  /** The fields `updatePreset` may change; `None` leaves a field alone. */
  datatype PresetUpdate = PresetUpdate(name: Option<string>, owner: Option<string>, repo: Option<string>)

  /** `{...p, ...updates}`: the given fields replace the preset's, the id stays. */
  function Apply(p: Preset, u: PresetUpdate): (q: Preset)
    ensures q.id == p.id
    ensures u.name.Some? ==> q.name == u.name.value
    ensures u.name.None? ==> q.name == p.name
    ensures u.owner.Some? ==> q.owner == u.owner.value
    ensures u.owner.None? ==> q.owner == p.owner
    ensures u.repo.Some? ==> q.repo == u.repo.value
    ensures u.repo.None? ==> q.repo == p.repo
  {
    Preset(p.id, u.name.GetOr(p.name), u.owner.GetOr(p.owner), u.repo.GetOr(p.repo))
  }

  /** `updatePreset`: the list keeps its length, order and ids; exactly the
      presets carrying the id are changed. */
  function UpdatePreset(st: Storage, id: string, u: PresetUpdate): (r: Storage)
    ensures var ps, qs := LoadPresets(st), LoadPresets(r);
            && |qs| == |ps|
            && (forall i :: 0 <= i < |ps| ==> qs[i].id == ps[i].id)
            && (forall i :: 0 <= i < |ps| && ps[i].id != id ==> qs[i] == ps[i])
            && (forall i :: 0 <= i < |ps| && ps[i].id == id ==> qs[i] == Apply(ps[i], u))
    ensures r - {PresetsKey} == st - {PresetsKey}
  {
    SavePresets(st, Map(LoadPresets(st), (p: Preset) => if p.id == id then Apply(p, u) else p))
  }

  /** An update that changes nothing leaves the list as it is. */
  lemma UpdateNothing(st: Storage, id: string)
    ensures LoadPresets(UpdatePreset(st, id, PresetUpdate(None, None, None))) == LoadPresets(st)
  {
  }

  /** The position of the first preset carrying `id`. */
  function FirstIndex(ps: seq<Preset>, id: string): (k: Option<nat>)
    ensures k.Some? ==> k.value < |ps| && ps[k.value].id == id && forall j :: 0 <= j < k.value ==> ps[j].id != id
    ensures k.None? <==> forall j :: 0 <= j < |ps| ==> ps[j].id != id
  {
    if |ps| == 0 then None
    else if ps[0].id == id then Some(0)
    else
      match FirstIndex(ps[1..], id)
      case None => None
      case Some(k) => Some(k + 1)
  }

  /** `findPresetById`: the first preset carrying the id, or nothing. */
  function FindPresetById(st: Storage, id: string): (r: Option<Preset>)
    ensures var ps := LoadPresets(st);
            && (r.None? <==> forall j :: 0 <= j < |ps| ==> ps[j].id != id)
            && (r.Some? ==>
                  && r.value.id == id
                  && exists k :: 0 <= k < |ps| && ps[k] == r.value && forall j :: 0 <= j < k ==> ps[j].id != id)
  {
    match FirstIndex(LoadPresets(st), id)
    case None => None
    case Some(k) => Some(LoadPresets(st)[k])
  }

  /** A preset added under a fresh id is found by it. */
  lemma FindAdded(st: Storage, name: string, owner: string, repo: string, now: nat)
    requires forall i :: 0 <= i < |LoadPresets(st)| ==> LoadPresets(st)[i].id != DecimalString(now)
    ensures var a := AddPreset(st, name, owner, repo, now);
            FindPresetById(a.storage, DecimalString(now)) == Some(a.preset)
  {
    var a := AddPreset(st, name, owner, repo, now);
    var old_ := LoadPresets(st);
    var ps := LoadPresets(a.storage);
    assert ps == old_ + [a.preset];
    assert ps[|old_|].id == DecimalString(now);
    var k := FirstIndex(ps, DecimalString(now));
    assert k.Some?;
    assert forall j :: 0 <= j < |old_| ==> ps[j] == old_[j];
  }

  /** After a deletion the id is not found. */
  lemma FindDeleted(st: Storage, id: string)
    ensures FindPresetById(DeletePreset(st, id), id) == None
  {
    var ps := LoadPresets(DeletePreset(st, id));
    assert forall j :: 0 <= j < |ps| ==> ps[j] in ps;
  }

  /** `getPresetCount`. */
  function GetPresetCount(st: Storage): (n: nat)
    ensures n == |LoadPresets(st)|
  {
    |LoadPresets(st)|
  }

  /** `clearPresets`: the key is removed, so the list loads empty; no other key changes. */
  function ClearPresets(st: Storage): (r: Storage)
    ensures PresetsKey !in r
    ensures LoadPresets(r) == []
    ensures r - {PresetsKey} == st - {PresetsKey}
  {
    st - {PresetsKey}
  }

  /** Adding counts one more, clearing counts none, deleting counts the survivors. */
  lemma CountAfterOperations(st: Storage, name: string, owner: string, repo: string, now: nat, id: string)
    ensures GetPresetCount(AddPreset(st, name, owner, repo, now).storage) == GetPresetCount(st) + 1
    ensures GetPresetCount(ClearPresets(st)) == 0
    ensures GetPresetCount(DeletePreset(st, id)) == GetPresetCount(st) - CountNot(LoadPresets(st), (p: Preset) => p.id != id)
  {
    DeleteCount(LoadPresets(st), id);
  }
}
