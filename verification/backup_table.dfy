/** The stored backups object as a table of entries with distinct ids, kept in
    the order their properties were first assigned. */
module Table {
  import opened Results
  import opened Sequences
  import opened Sorting
  import opened Records

  /** The position of the entry with that id. */
  function Position(t: BackupTable, id: string): (k: Option<nat>)
    ensures k.Some? ==> k.value < |t| && t[k.value].id == id
    ensures k.None? <==> forall i :: 0 <= i < |t| ==> t[i].id != id
  {
    if |t| == 0 then None
    else if t[0].id == id then Some(0)
    else
      assert UniqueIds(t[1..]);
      match Position(t[1..], id)
      case None => None
      case Some(k) => Some(k + 1)
  }

  /** `backups[id]`. */
  function Lookup(t: BackupTable, id: string): (r: Option<Backup>)
    ensures r.None? <==> forall i :: 0 <= i < |t| ==> t[i].id != id
    ensures r.Some? ==> Entry(id, r.value) in t
  {
    match Position(t, id)
    case None => None
    case Some(k) => Some(t[k].backup)
  }

  /** Because ids are distinct, looking an id up is asking which entry carries it. */
  lemma LookupMembership(t: BackupTable, id: string, b: Backup)
    ensures Lookup(t, id) == Some(b) <==> Entry(id, b) in t
  {
    if Entry(id, b) in t {
      var i :| 0 <= i < |t| && t[i] == Entry(id, b);
      var k := Position(t, id).value;
      assert t[k].id == t[i].id;
    }
  }

  /** `backups[id] = backup`: an existing property keeps its place and gets the
      new value, a new one goes last. */
  function Put(t: BackupTable, id: string, b: Backup): (r: BackupTable)
    ensures Entry(id, b) in r
    ensures forall e :: e in r <==> e == Entry(id, b) || (e in t && e.id != id)
    ensures Lookup(t, id).None? ==> r == t + [Entry(id, b)]
    ensures Lookup(t, id).Some? ==> |r| == |t| && forall i :: 0 <= i < |t| ==> r[i].id == t[i].id
  {
    match Position(t, id)
    case None => t + [Entry(id, b)]
    case Some(k) =>
      var r := t[k := Entry(id, b)];
      assert r[k] == Entry(id, b);
      assert forall i :: 0 <= i < |t| && i != k ==> r[i] == t[i] && t[i].id != id;
      assert forall e :: e in t && e.id != id ==> e in r by {
        forall e | e in t && e.id != id ensures e in r {
          var i :| 0 <= i < |t| && t[i] == e;
          assert r[i] == e;
        }
      }
      r
  }

  /** After a put the id looks up to the new value and every other id to what it was. */
  lemma PutLookup(t: BackupTable, id: string, b: Backup, other: string)
    ensures Lookup(Put(t, id, b), id) == Some(b)
    ensures other != id ==> Lookup(Put(t, id, b), other) == Lookup(t, other)
  {
    var r := Put(t, id, b);
    LookupMembership(r, id, b);
    if other != id {
      match Lookup(t, other)
      case None =>
      case Some(c) =>
        LookupMembership(r, other, c);
    }
  }

  /** A filter keeps ids distinct. */
  lemma {:induction false} FilterUnique(t: seq<Entry>, p: Entry -> bool)
    requires UniqueIds(t)
    ensures UniqueIds(Filter(t, p))
  {
    if |t| > 0 {
      assert UniqueIds(t[1..]);
      FilterUnique(t[1..], p);
      var rest := Filter(t[1..], p);
      FilterMembers(t[1..], p);
      assert forall i :: 0 <= i < |rest| ==> rest[i] in t[1..];
    }
  }

  /** The entries whose id is not `id`, in their order. */
  function Remove(t: BackupTable, id: string): (r: BackupTable)
    ensures forall e :: e in r <==> e in t && e.id != id
  {
    var keep := (e: Entry) => e.id != id;
    FilterUnique(t, keep);
    FilterMembers(t, keep);
    Filter(t, keep)
  }

  /** After a removal the id is gone and every other id looks up as before. */
  lemma RemoveLookup(t: BackupTable, id: string, other: string)
    ensures Lookup(Remove(t, id), id) == None
    ensures other != id ==> Lookup(Remove(t, id), other) == Lookup(t, other)
  {
    var r := Remove(t, id);
    if other != id {
      match Lookup(t, other)
      case None =>
      case Some(c) =>
        LookupMembership(r, other, c);
    }
  }

  /** Removing an id no entry carries changes nothing. */
  lemma RemoveAbsent(t: BackupTable, id: string)
    requires Lookup(t, id).None?
    ensures Remove(t, id) == t
  {
    FilterKeepsAll(t, (e: Entry) => e.id != id);
  }

  // ---------------------------------------------------------------- retention

  /** The most entries `saveBackup` keeps. */
  const MaxBackups: nat := 10

  function Timestamp(e: Entry): int {
    e.backup.metadata.timestamp
  }

  /** The ids `saveBackup` deletes: those of the first `|t| - 10` entries once
      the table is sorted by ascending timestamp. */
  function EvictedIds(t: BackupTable): set<string> {
    if |t| <= MaxBackups then {}
    else
      var s := SortBy(t, Timestamp);
      set i | 0 <= i < |t| - MaxBackups :: EntryId(s[i])
  }

  /** The retention step of `saveBackup`: with more than ten entries, the
      oldest are deleted until ten remain; the rest keep their order. */
  function Retain(t: BackupTable): (r: BackupTable)
    ensures |t| <= MaxBackups ==> r == t
    ensures |t| > MaxBackups ==> |r| == MaxBackups
    ensures multiset(r) <= multiset(t)
    ensures SubsequenceOf(r, t)
    ensures forall e :: e in r <==> e in t && e.id !in EvictedIds(t)
  {
    if |t| <= MaxBackups then
      SubsequenceOfSelf(t);
      t
    else
      var keep := (e: Entry) => e.id !in EvictedIds(t);
      FilterUnique(t, keep);
      FilterMembers(t, keep);
      FilterSubsequence(t, keep);
      KeptCount(t, keep);
      Filter(t, keep)
  }

  /** Past ten entries exactly ten survive: each evicted id is carried by
      exactly one entry, and the survivors are, up to order, the newest ten of
      the sorted table. */
  lemma KeptCount(t: BackupTable, keep: Entry -> bool)
    requires |t| > MaxBackups
    requires forall e :: keep(e) <==> e.id !in EvictedIds(t)
    ensures |Filter(t, keep)| == MaxBackups
  {
    var s := SortBy(t, Timestamp);
    PermutationKeepsDistinct(s, t, EntryId);
    FilterOutPrefixKeys(s, EntryId, |t| - MaxBackups, EvictedIds(t), keep);
    FilterPermuted(t, s, keep);
    assert |multiset(Filter(t, keep))| == |Filter(t, keep)|;
  }

  /** A deleted entry sits in the sorted prefix. */
  lemma EvictedInPrefix(t: BackupTable, e: Entry)
    requires |t| > MaxBackups && e in t
    ensures e.id in EvictedIds(t) ==> e in SortBy(t, Timestamp)[..|t| - MaxBackups]
  {
    if e.id in EvictedIds(t) {
      var s := SortBy(t, Timestamp);
      var j :| 0 <= j < |t| - MaxBackups && s[j].id == e.id;
      assert s[j] in multiset(t);
      var a :| 0 <= a < |t| && t[a] == s[j];
      var b :| 0 <= b < |t| && t[b] == e;
      assert s[j] == e;
      assert s[..|t| - MaxBackups][j] == e;
    }
  }

  /** A kept entry sits in the sorted suffix. */
  lemma KeptInSuffix(t: BackupTable, f: Entry)
    requires |t| > MaxBackups && f in t && f.id !in EvictedIds(t)
    ensures f in SortBy(t, Timestamp)[|t| - MaxBackups..]
  {
    var s := SortBy(t, Timestamp);
    var k := |t| - MaxBackups;
    PrefixEvicted(t, f);
    assert f in multiset(t);
    InSuffix(s, k, f);
  }

  lemma InSuffix<T>(s: seq<T>, k: nat, x: T)
    requires k <= |s| && x in multiset(s) && x !in s[..k]
    ensures x in s[k..]
  {
    assert s == s[..k] + s[k..];
    assert multiset(s) == multiset(s[..k]) + multiset(s[k..]);
  }

  /** Every entry in the sorted prefix has its id deleted. */
  lemma PrefixEvicted(t: BackupTable, x: Entry)
    requires |t| > MaxBackups
    ensures x in SortBy(t, Timestamp)[..|t| - MaxBackups] ==> x.id in EvictedIds(t)
  {
    var s := SortBy(t, Timestamp);
    var k := |t| - MaxBackups;
    if x in s[..k] {
      var i :| 0 <= i < k && s[..k][i] == x;
      assert s[i] == x;
    }
  }

  /** In a sorted sequence everything before a cut is no larger than everything after it. */
  lemma SortedCut<T>(s: seq<T>, key: T -> int, k: nat, x: T, y: T)
    requires SortedBy(s, key) && k <= |s| && x in s[..k] && y in s[k..]
    ensures key(x) <= key(y)
  {
    var i :| 0 <= i < k && s[..k][i] == x;
    var j :| 0 <= j < |s| - k && s[k..][j] == y;
    assert s[i] == x && s[k + j] == y;
  }

  /** The oldest are the ones deleted: no deleted entry is newer than a kept one. */
  lemma RetainDropsOldest(t: BackupTable, e: Entry, f: Entry)
    requires e in t && e !in Retain(t) && f in Retain(t)
    ensures Timestamp(e) <= Timestamp(f)
  {
    assert |t| > MaxBackups;
    EvictedInPrefix(t, e);
    assert e.id in EvictedIds(t);
    KeptInSuffix(t, f);
    SortedCut(SortBy(t, Timestamp), Timestamp, |t| - MaxBackups, e, f);
  }

  /** A table with distinct ids holds every entry at most once. */
  lemma CountsAtMostOne(t: BackupTable, x: Entry)
    ensures multiset(t)[x] <= 1
  {
    DistinctCountsOne(t, EntryId, x);
  }

  function EntryId(e: Entry): string {
    e.id
  }

  /** An element held once is not on both sides of a cut. */
  lemma NotInBothHalves<T>(s: seq<T>, k: nat, x: T)
    requires k <= |s| && multiset(s)[x] <= 1
    ensures x in s[k..] ==> x !in s[..k]
  {
    assert s == s[..k] + s[k..];
    assert multiset(s) == multiset(s[..k]) + multiset(s[k..]);
  }

  /** Sorting puts an element with a strictly largest key last. */
  lemma StrictMaxLast<T>(t: seq<T>, s: seq<T>, key: T -> int, x: T)
    requires SortedBy(s, key) && multiset(s) == multiset(t) && x in t
    requires forall i :: 0 <= i < |t| && t[i] != x ==> key(t[i]) < key(x)
    ensures |s| > 0 && s[|s| - 1] == x
  {
    assert x in multiset(s);
    var z := s[|s| - 1];
    assert z in multiset(t);
    var i :| 0 <= i < |s| && s[i] == x;
    assert key(x) <= key(z);
  }

  /** An entry strictly newer than every other one survives retention. */
  lemma NewestSurvives(t: BackupTable, e: Entry)
    requires e in t
    requires forall i :: 0 <= i < |t| && t[i] != e ==> Timestamp(t[i]) < Timestamp(e)
    ensures e in Retain(t)
  {
    if |t| > MaxBackups {
      var s := SortBy(t, Timestamp);
      var k := |t| - MaxBackups;
      StrictMaxLast(t, s, Timestamp, e);
      assert s[k..][|s| - 1 - k] == e;
      CountsAtMostOne(t, e);
      NotInBothHalves(s, k, e);
      EvictedInPrefix(t, e);
    }
  }
}
