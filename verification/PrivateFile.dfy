/**
 Replacing and removing a private file so that a crash at any point finds
 complete contents.

 The disk keeps what a crash may undo: directory entries changed since the
 directory was last synced, name by name, and the data of files never synced.
 */
module PrivateFile {
  import opened Outcomes

  type Name = string

  type Bytes = string

  type Inode = nat

  datatype File = File(data: Bytes, synced: bool)

  datatype Disk = Disk(
    entries: map<Name, Inode>,
    files: map<Inode, File>,
    next: Inode,
    unsynced: map<Name, set<Option<Inode>>>)
  {
    function Entry(name: Name): Option<Inode> {
      if name in entries then Some(entries[name]) else None
    }

    /** The entries a name may have after a crash. */
    function Survivors(name: Name): set<Option<Inode>> {
      if name in unsynced then unsynced[name] else {Entry(name)}
    }

    ghost predicate Valid() {
      && (forall name <- entries.Keys :: entries[name] in files)
      && (forall name <- unsynced.Keys :: Entry(name) in unsynced[name])
      && (forall name <- unsynced.Keys, e <- unsynced[name] :: e.Some? ==> e.value in files)
      && (forall inode <- files.Keys :: inode < next)
    }

    /** What a reader finds at a name now. */
    function Now(name: Name): Option<Bytes> {
      if name in entries && entries[name] in files then Some(files[entries[name]].data) else None
    }

    /** What a reader may find at a name after a crash now. */
    ghost predicate MayFind(name: Name, found: Option<Bytes>) {
      exists e <- Survivors(name) :: Leads(e, found)
    }

    /** Whether an entry may lead to these contents after a crash. */
    ghost predicate Leads(e: Option<Inode>, found: Option<Bytes>) {
      match e
      case None => found == None
      case Some(inode) => inode in files && found.Some? && (files[inode].synced ==> found.value == files[inode].data)
    }

    function SetEntry(name: Name, e: Option<Inode>): Disk {
      this.(entries := if e.Some? then entries[name := e.value] else entries - {name},
            unsynced := unsynced[name := Survivors(name) + {e}])
    }

    // The system calls

    function Unlinked(name: Name): Disk {
      if name in entries then SetEntry(name, None) else this
    }

    function Created(name: Name): Disk {
      this.(files := files[next := File("", false)], next := next + 1).SetEntry(name, Some(next))
    }

    function Wrote(name: Name, data: Bytes): Disk {
      if name in entries then this.(files := files[entries[name] := File(data, false)]) else this
    }

    function SyncedFile(name: Name): Disk {
      if name in entries && entries[name] in files
      then this.(files := files[entries[name] := files[entries[name]].(synced := true)]) else this
    }

    function RenamedOver(from: Name, to: Name): Disk {
      if from in entries && from != to then SetEntry(to, Some(entries[from])).SetEntry(from, None) else this
    }

    function SyncedDirectory(): Disk {
      this.(unsynced := map[])
    }

    /** Unlinks every listed name that exists. */
    function AllUnlinked(names: set<Name>): Disk {
      this.(entries := entries - names,
            unsynced := unsynced + map name | name in names && name in entries :: Survivors(name) + {None})
    }
  }

  /** A disk as a crash may leave it, everything left being durable. */
  ghost predicate CrashImage(before: Disk, after: Disk) {
    && after.unsynced == map[]
    && (forall name: Name :: after.Entry(name) in before.Survivors(name))
    && after.files.Keys == before.files.Keys && after.next == before.next
    && (forall inode <- after.files.Keys ::
          after.files[inode].synced && (before.files[inode].synced ==> after.files[inode].data == before.files[inode].data))
  }

  /** `MayFind` is exactly what crashes leave. */
  lemma CrashFinds(before: Disk, after: Disk, name: Name)
    requires before.Valid() && CrashImage(before, after)
    ensures after.Valid() && before.MayFind(name, after.Now(name))
    ensures forall found :: after.MayFind(name, found) <==> found == after.Now(name)
  {
    assert after.Entry(name) in before.Survivors(name);
    forall other <- after.entries.Keys ensures after.entries[other] in after.files {
      assert after.Entry(other) in before.Survivors(other);
    }
    assert after.Entry(name) in after.Survivors(name);
  }

  lemma CrashMayLeave(before: Disk, name: Name, found: Option<Bytes>) returns (after: Disk)
    requires before.Valid() && before.MayFind(name, found)
    ensures CrashImage(before, after) && after.Now(name) == found
  {
    var e :| e in before.Survivors(name) && before.Leads(e, found);
    var entries := if e.Some? then before.entries[name := e.value] else before.entries - {name};
    var files := map inode | inode in before.files ::
      File(if e == Some(inode) then found.value else before.files[inode].data, true);
    after := Disk(entries, files, before.next, map[]);
    forall other: Name ensures after.Entry(other) in before.Survivors(other) {
    }
  }

  // ----- The names of a private file

  /** The position of the last dot that does not start the name, else its length. */
  function StemLength(name: Name): (n: nat)
    ensures n <= |name|
  {
    StemBefore(name, |name|)
  }

  function StemBefore(name: Name, n: nat): (k: nat)
    requires n <= |name|
    ensures k <= |name|
    ensures k == 0 ==> name == ""
  {
    if n <= 1 then |name| else if name[n - 1] == '.' then n - 1 else StemBefore(name, n - 1)
  }

  /** The temporary name earlier versions used: the extension becomes `tmp`. */
  function Legacy(path: Name): Name {
    path[..StemLength(path)] + ".tmp"
  }

  /** The start of every temporary name; `hash` digests the file name. */
  function Prefix(path: Name, hash: Name -> string): string {
    "." + hash(path) + ".tmp-"
  }

  /** The names a write would delete as its own leftover: those ending in `.tmp`. */
  lemma OwnLegacyName(path: Name)
    ensures Legacy(path) == path <==> |path| > 4 && path[|path| - 4..] == ".tmp"
  {
    var n := |path|;
    if n > 4 && path[n - 4..] == ".tmp" {
      var end := path[n - 4..];
      assert path[n - 1] == end[3] && path[n - 2] == end[2] && path[n - 3] == end[1] && path[n - 4] == end[0];
      assert StemBefore(path, n) == StemBefore(path, n - 1) == StemBefore(path, n - 2) == StemBefore(path, n - 3) == n - 4;
      assert path == path[..n - 4] + end;
    }
    if Legacy(path) == path {
      var k := StemLength(path);
      assert |path| == k + 4 && path[k..] == (path[..k] + ".tmp")[k..] == ".tmp";
    }
  }

  lemma {:induction false} LastDot(name: Name, k: nat, n: nat)
    requires 0 < k < n <= |name| && name[k] == '.'
    requires forall i :: k < i < n ==> name[i] != '.'
    ensures StemBefore(name, n) == k
  {
    if n > k + 1 { LastDot(name, k, n - 1); }
  }

  lemma {:induction false} NoDot(name: Name, n: nat)
    requires n <= |name| && forall i :: 1 <= i < n ==> name[i] != '.'
    ensures StemBefore(name, n) == |name|
  {
    if n > 1 { NoDot(name, n - 1); }
  }

  /** The old temporary name replaces the extension, or is appended without one;
      a dot that starts the name starts no extension. */
  lemma LegacyReplacesExtension(stem: Name, extension: string)
    requires stem != "" && '.' !in extension
    ensures Legacy(stem + "." + extension) == stem + ".tmp"
    ensures '.' !in stem[1..] ==> Legacy(stem) == stem + ".tmp"
  {
    var name := stem + "." + extension;
    forall i | |stem| < i < |name| ensures name[i] != '.' {
      assert name[i] == extension[i - |stem| - 1];
    }
    LastDot(name, |stem|, |name|);
    assert name[..|stem|] == stem;
    if '.' !in stem[1..] {
      forall i | 1 <= i < |stem| ensures stem[i] != '.' {
        assert stem[1..][i - 1] == stem[i];
      }
      NoDot(stem, |stem|);
      assert stem[..|stem|] == stem;
    }
  }

  /** A name that is a temporary's of two files tells their digests alike: files
      with different digests of one length never share a temporary. */
  lemma TemporariesTellDigest(path: Name, other: Name, hash: Name -> string, name: Name)
    requires Prefix(path, hash) <= name && Prefix(other, hash) <= name
    requires |hash(path)| == |hash(other)|
    ensures hash(path) == hash(other)
  {
    PrefixTellsDigest(path, hash, name);
    PrefixTellsDigest(other, hash, name);
  }

  lemma PrefixTellsDigest(path: Name, hash: Name -> string, name: Name)
    requires Prefix(path, hash) <= name
    ensures 1 + |hash(path)| <= |name| && name[1..1 + |hash(path)|] == hash(path)
  {
    assert Prefix(path, hash)[1..1 + |hash(path)|] == hash(path);
    assert name[..|Prefix(path, hash)|] == Prefix(path, hash);
  }

  predicate IsTemporary(path: Name, hash: Name -> string, name: Name) {
    name == Legacy(path) || Prefix(path, hash) <= name
  }

  function Temporaries(path: Name, hash: Name -> string, disk: Disk): set<Name> {
    set name <- disk.entries.Keys | IsTemporary(path, hash, name)
  }

  // ----- The directory and its two operations

  class Directory {
    var disk: Disk
    /** Every state the disk was in. */
    ghost var trace: seq<Disk>

    constructor (disk: Disk)
      ensures this.disk == disk && trace == [disk]
    {
      this.disk := disk;
      trace := [disk];
    }

    method Change(after: Disk)
      modifies this
      ensures disk == after && trace == old(trace) + [after]
    {
      disk := after;
      trace := trace + [after];
    }

    /** Whether the removal deleted something. */
    method Unlink(name: Name) returns (removed: bool)
      modifies this
      ensures disk == old(disk).Unlinked(name) && trace == old(trace) + [disk]
      ensures removed <==> name in old(disk).entries
    {
      removed := name in disk.entries;
      Change(disk.Unlinked(name));
    }
  }

  /** A state that a crash, and a reader, find old contents in, or the new ones. */
  ghost predicate OldOrNew(before: Disk, d: Disk, path: Name, bytes: Bytes) {
    && d.Valid()
    && (forall found :: d.MayFind(path, found) ==> before.MayFind(path, found) || found == Some(bytes))
    && (d.Now(path) == before.Now(path) || d.Now(path) == Some(bytes))
  }

  /** The path's entry, and the files it may lead to after a crash, are as before. */
  ghost predicate PathUntouched(before: Disk, d: Disk, path: Name) {
    && d.Valid()
    && d.Entry(path) == before.Entry(path)
    && d.Survivors(path) == before.Survivors(path)
    && (forall inode <- before.files.Keys :: inode in d.files && d.files[inode] == before.files[inode])
  }

  lemma UntouchedIsOld(before: Disk, d: Disk, path: Name, bytes: Bytes)
    requires before.Valid() && PathUntouched(before, d, path)
    ensures OldOrNew(before, d, path, bytes)
  {
    assert before.Entry(path) in before.Survivors(path);
    forall e | e in before.Survivors(path) && e.Some? ensures e.value in before.files {
    }
  }

  lemma UnlinkPresent(d: Disk, gone: set<Name>, name: Name)
    requires name in d.entries && name !in gone
    ensures d.AllUnlinked(gone).Unlinked(name) == d.AllUnlinked(gone + {name})
  {
    var some, all := d.AllUnlinked(gone), d.AllUnlinked(gone + {name});
    assert some.Survivors(name) == d.Survivors(name);
    assert some.entries - {name} == all.entries;
    NothingMoreChanges(d, gone, name);
  }

  lemma NothingMoreChanges(d: Disk, gone: set<Name>, name: Name)
    requires name in d.entries && name !in gone
    ensures d.AllUnlinked(gone).unsynced[name := d.Survivors(name) + {None}] == d.AllUnlinked(gone + {name}).unsynced
  {
    var some := map other | other in gone && other in d.entries :: d.Survivors(other) + {None};
    var all := map other | other in gone + {name} && other in d.entries :: d.Survivors(other) + {None};
    assert all == some[name := d.Survivors(name) + {None}];
    MergeThenUpdate(d.unsynced, some, name, d.Survivors(name) + {None});
  }

  lemma MergeThenUpdate<K, V>(m: map<K, V>, n: map<K, V>, k: K, v: V)
    ensures (m + n)[k := v] == m + n[k := v]
  {
  }

  /** Unlinking one more name, whether or not it is still there. */
  lemma UnlinkOneMore(d: Disk, gone: set<Name>, name: Name)
    requires gone <= d.entries.Keys
    ensures d.AllUnlinked(gone).Unlinked(name) == d.AllUnlinked(gone + ({name} * d.entries.Keys))
  {
    if name in d.entries && name !in gone {
      UnlinkPresent(d, gone, name);
      assert {name} * d.entries.Keys == {name};
    } else {
      assert gone + ({name} * d.entries.Keys) == gone;
    }
  }

  lemma UnlinkedEntries(d: Disk, gone: set<Name>)
    ensures d.AllUnlinked(gone).entries == d.entries - gone
  {
  }

  lemma UnlinkedIsValid(d: Disk, gone: set<Name>)
    requires d.Valid()
    ensures d.AllUnlinked(gone).Valid()
  {
  }

  lemma UnlinkingElsewhere(d: Disk, gone: set<Name>, path: Name)
    requires d.Valid() && path !in gone
    ensures PathUntouched(d, d.AllUnlinked(gone), path)
  {
    UnlinkedIsValid(d, gone);
  }

  /** A state while these names are unlinked one after another. */
  ghost predicate Unlinking(before: Disk, names: set<Name>, d: Disk) {
    exists gone: set<Name> :: gone <= names && d == before.AllUnlinked(gone)
  }

  lemma NothingUnlinked(d: Disk)
    ensures d.AllUnlinked({}) == d
  {
    assert d.AllUnlinked({}).unsynced == d.unsynced;
  }

  lemma UnlinkingGoesOn(before: Disk, steps: seq<Disk>, gone: set<Name>, more: set<Name>)
    requires forall d <- steps :: Unlinking(before, gone, d)
    requires gone <= more
    ensures forall d <- steps + [before.AllUnlinked(more)] :: Unlinking(before, more, d)
  {
    hide Disk.AllUnlinked;
    forall d | d in steps ensures Unlinking(before, more, d) {
      var some: set<Name> :| some <= gone && d == before.AllUnlinked(some);
    }
  }

  /** Removes temporaries of the file left by interrupted writes, and returns
      whether any existed. */
  method RemoveTemporaries(dir: Directory, path: Name, hash: Name -> string)
    returns (removed: bool, ghost steps: seq<Disk>)
    requires dir.disk.Valid()
    modifies dir
    ensures dir.trace == old(dir.trace) + steps
    ensures dir.disk == old(dir.disk).AllUnlinked(Temporaries(path, hash, old(dir.disk)))
    ensures forall d <- steps :: Unlinking(old(dir.disk), Temporaries(path, hash, old(dir.disk)), d)
    ensures steps != [] && steps[|steps| - 1] == dir.disk
    ensures removed <==> Temporaries(path, hash, old(dir.disk)) != {}
  {
    hide Unlinking, Disk.Unlinked, Disk.AllUnlinked, Disk.Valid, Legacy;
    ghost var before := dir.disk;
    var listed := dir.disk.entries.Keys;
    ghost var gone := {Legacy(path)} * before.entries.Keys;
    NothingUnlinked(before);
    UnlinkOneMore(before, {}, Legacy(path));
    assert {} + gone == gone;
    removed := dir.Unlink(Legacy(path));
    steps := [dir.disk];
    UnlinkingGoesOn(before, [], {}, gone);
    assert [] + [dir.disk] == steps;
    while listed != {}
      invariant listed <= before.entries.Keys
      invariant {Legacy(path)} * before.entries.Keys <= gone
      invariant gone <= Temporaries(path, hash, before) <= gone + listed
      invariant dir.disk == before.AllUnlinked(gone)
      invariant forall d <- steps :: Unlinking(before, gone, d)
      invariant removed <==> gone != {}
      invariant steps != [] && steps[|steps| - 1] == dir.disk
      invariant dir.trace == old(dir.trace) + steps
    {
      var name :| name in listed;
      listed := listed - {name};
      if Prefix(path, hash) <= name {
        UnlinkedEntries(before, gone);
        UnlinkOneMore(before, gone, name);
        assert {name} * before.entries.Keys == {name};
        var unlinked := dir.Unlink(name);
        UnlinkingGoesOn(before, steps, gone, gone + {name});
        steps := steps + [dir.disk];
        gone := gone + {name};
        removed := removed || unlinked;
      }
    }
    assert gone == Temporaries(path, hash, before);
  }

  // ----- Writing

  /** The new file while it is filled and synced: nothing else changes. */
  lemma FillingElsewhere(d: Disk, temporary: Name, path: Name, file: File)
    requires d.Valid() && temporary != path && temporary !in d.entries
    ensures PathUntouched(d, Filled(d, temporary, file), path)
  {
  }

  /** A disk with a new file at a new name. */
  function Filled(d: Disk, temporary: Name, file: File): Disk {
    Disk(d.entries[temporary := d.next], d.files[d.next := file], d.next + 1,
         d.unsynced[temporary := d.Survivors(temporary) + {Some(d.next)}])
  }

  lemma FillingSteps(d: Disk, temporary: Name, bytes: Bytes)
    requires temporary !in d.entries
    ensures var created := d.Created(temporary);
      && created == Filled(d, temporary, File("", false))
      && created.Wrote(temporary, bytes) == Filled(d, temporary, File(bytes, false))
      && created.Wrote(temporary, bytes).SyncedFile(temporary) == Filled(d, temporary, File(bytes, true))
  {
  }

  /** The rename adds the new contents to what the path may hold. */
  lemma RenamingAddsNew(d: Disk, temporary: Name, path: Name, bytes: Bytes)
    requires d.Valid() && temporary != path && temporary !in d.entries
    ensures var renamed := Filled(d, temporary, File(bytes, true)).RenamedOver(temporary, path);
      OldOrNew(d, renamed, path, bytes)
  {
    var filled := Filled(d, temporary, File(bytes, true));
    var renamed := filled.RenamedOver(temporary, path);
    FillingElsewhere(d, temporary, path, File(bytes, true));
    assert renamed.Survivors(path) == d.Survivors(path) + {Some(d.next)};
    RenamedIsValid(d, temporary, path, bytes);
    forall found | renamed.MayFind(path, found) ensures d.MayFind(path, found) || found == Some(bytes) {
      var e :| e in renamed.Survivors(path) && renamed.Leads(e, found);
      if e != Some(d.next) {
        assert e in d.Survivors(path);
        assert d.Leads(e, found);
      }
    }
    assert renamed.Now(path) == Some(bytes);
  }

  lemma RenamedIsValid(d: Disk, temporary: Name, path: Name, bytes: Bytes)
    requires d.Valid() && temporary != path && temporary !in d.entries
    ensures Filled(d, temporary, File(bytes, true)).RenamedOver(temporary, path).Valid()
  {
    var filled := Filled(d, temporary, File(bytes, true));
    FillingElsewhere(d, temporary, path, File(bytes, true));
    SetEntryIsValid(filled, path, Some(d.next));
    SetEntryIsValid(filled.SetEntry(path, Some(d.next)), temporary, None);
  }

  lemma SetEntryIsValid(d: Disk, name: Name, e: Option<Inode>)
    requires d.Valid() && (e.Some? ==> e.value in d.files)
    ensures d.SetEntry(name, e).Valid()
  {
  }

  /** After the directory is synced only the new contents survive. */
  lemma OnlyNewSurvives(d: Disk, temporary: Name, path: Name, bytes: Bytes)
    requires d.Valid() && temporary !in d.entries
    ensures var done := Filled(d, temporary, File(bytes, true)).RenamedOver(temporary, path).SyncedDirectory();
      && done.Valid()
      && done.Now(path) == Some(bytes)
      && (forall found :: done.MayFind(path, found) <==> found == Some(bytes))
      && done.entries == d.entries[path := d.next]
      && done.unsynced == map[]
  {
    hide Disk.Valid, Disk.MayFind, Disk.Survivors;
    RenamedEntries(d, temporary, path, bytes);
    if temporary == path {
      FilledIsValid(d, temporary, File(bytes, true));
    } else {
      RenamedIsValid(d, temporary, path, bytes);
    }
    SyncedIsCertain(Filled(d, temporary, File(bytes, true)).RenamedOver(temporary, path), path, bytes);
  }

  lemma RenamedEntries(d: Disk, temporary: Name, path: Name, bytes: Bytes)
    requires temporary !in d.entries
    ensures var renamed := Filled(d, temporary, File(bytes, true)).RenamedOver(temporary, path);
      renamed.entries == d.entries[path := d.next] && renamed.files == d.files[d.next := File(bytes, true)]
  {
    hide Disk.Survivors;
    var filled := Filled(d, temporary, File(bytes, true));
    if temporary != path {
      assert filled.RenamedOver(temporary, path).entries == filled.entries[path := d.next] - {temporary};
    }
  }

  lemma FilledIsValid(d: Disk, temporary: Name, file: File)
    requires d.Valid()
    ensures Filled(d, temporary, file).Valid()
  {
  }

  /** What a synced directory leads to is certain when the file is synced. */
  lemma SyncedIsCertain(d: Disk, path: Name, bytes: Bytes)
    requires d.Valid() && path in d.entries && d.files[d.entries[path]] == File(bytes, true)
    ensures var done := d.SyncedDirectory();
      && done.Valid() && done.Now(path) == Some(bytes)
      && (forall found :: done.MayFind(path, found) <==> found == Some(bytes))
  {
    var done := d.SyncedDirectory();
    assert done.Survivors(path) == {Some(d.entries[path])};
    assert done.Leads(Some(d.entries[path]), Some(bytes));
  }

  lemma OldOrNewChains(before: Disk, d: Disk, after: Disk, path: Name, bytes: Bytes)
    requires before.Valid() && PathUntouched(before, d, path) && OldOrNew(d, after, path, bytes)
    ensures OldOrNew(before, after, path, bytes)
  {
    UntouchedIsOld(before, d, path, bytes);
    forall found | d.MayFind(path, found) ensures before.MayFind(path, found) {
      var e :| e in d.Survivors(path) && d.Leads(e, found);
      assert before.Leads(e, found);
    }
  }

  /** The states of a write from the creation of its temporary on. */
  function WriteSteps(d: Disk, temporary: Name, path: Name, bytes: Bytes): seq<Disk> {
    var synced := Filled(d, temporary, File(bytes, true));
    var renamed := synced.RenamedOver(temporary, path);
    [Filled(d, temporary, File("", false)), Filled(d, temporary, File(bytes, false)), synced,
     renamed, renamed.SyncedDirectory()]
  }

  lemma WriteStepsKeepOld(d: Disk, temporary: Name, path: Name, bytes: Bytes)
    requires d.Valid() && temporary != path && temporary !in d.entries
    ensures forall step <- WriteSteps(d, temporary, path, bytes) :: OldOrNew(d, step, path, bytes)
  {
    FillingIsOld(d, temporary, path, File("", false), bytes);
    FillingIsOld(d, temporary, path, File(bytes, false), bytes);
    FillingIsOld(d, temporary, path, File(bytes, true), bytes);
    RenamingAddsNew(d, temporary, path, bytes);
    OnlyNewSurvives(d, temporary, path, bytes);
    hide OldOrNew, Filled;
  }

  lemma FillingIsOld(d: Disk, temporary: Name, path: Name, file: File, bytes: Bytes)
    requires d.Valid() && temporary != path && temporary !in d.entries
    ensures OldOrNew(d, Filled(d, temporary, file), path, bytes)
  {
    FillingElsewhere(d, temporary, path, file);
    UntouchedIsOld(d, Filled(d, temporary, file), path, bytes);
  }

  /** A state of a write: temporaries are being unlinked, or a new one is filled,
      synced, renamed over the file and synced with its directory. */
  ghost predicate WriteState(d: Disk, path: Name, hash: Name -> string, bytes: Bytes, suffix: string, after: Disk) {
    var gone := Temporaries(path, hash, d);
    || Unlinking(d, gone, after)
    || after in WriteSteps(d.AllUnlinked(gone), Prefix(path, hash) + suffix, path, bytes)
  }

  /** What a write leaves that is not stopped. */
  function WrittenOut(d: Disk, path: Name, hash: Name -> string, bytes: Bytes, suffix: string): Disk {
    WriteSteps(d.AllUnlinked(Temporaries(path, hash, d)), Prefix(path, hash) + suffix, path, bytes)[4]
  }

  lemma WriteStateIsOldOrNew(d: Disk, path: Name, hash: Name -> string, bytes: Bytes, suffix: string, after: Disk)
    requires d.Valid() && !IsTemporary(path, hash, path)
    requires WriteState(d, path, hash, bytes, suffix, after)
    ensures OldOrNew(d, after, path, bytes)
  {
    hide OldOrNew, PathUntouched, Disk.Valid, Disk.AllUnlinked, WriteSteps;
    var gone, temporary := Temporaries(path, hash, d), Prefix(path, hash) + suffix;
    if Unlinking(d, gone, after) {
      var some: set<Name> :| some <= gone && after == d.AllUnlinked(some);
      UnlinkingElsewhere(d, some, path);
      UntouchedIsOld(d, after, path, bytes);
    } else {
      UnlinkedEntries(d, gone);
      UnlinkedIsValid(d, gone);
      UnlinkingElsewhere(d, gone, path);
      WriteStepsKeepOld(d.AllUnlinked(gone), temporary, path, bytes);
      OldOrNewChains(d, d.AllUnlinked(gone), after, path, bytes);
    }
  }

  /** Replaces the file. Unless its own name is one of its temporary names, every
      state on the way has the old contents or the new, now and after a crash;
      at the end only the new, and no temporary, survive a crash. */
  method Write(dir: Directory, path: Name, hash: Name -> string, bytes: Bytes, suffix: string)
    returns (ghost steps: seq<Disk>)
    requires dir.disk.Valid()
    modifies dir
    ensures dir.disk.Valid() && dir.trace == old(dir.trace) + steps
    ensures forall d <- steps :: WriteState(old(dir.disk), path, hash, bytes, suffix, d)
    ensures !IsTemporary(path, hash, path) ==> forall d <- steps :: OldOrNew(old(dir.disk), d, path, bytes)
    ensures IsTemporary(path, hash, path) ==> exists d <- steps :: d.Now(path) == None
    ensures dir.disk == WrittenOut(old(dir.disk), path, hash, bytes, suffix)
    ensures dir.disk.Now(path) == Some(bytes)
    ensures forall found :: dir.disk.MayFind(path, found) <==> found == Some(bytes)
    ensures forall name :: name != path && IsTemporary(path, hash, name) ==> dir.disk.Survivors(name) == {None}
    ensures forall name :: name != path && !IsTemporary(path, hash, name) ==>
              dir.disk.Entry(name) == old(dir.disk).Entry(name)
  {
    hide Unlinking, OldOrNew, Disk.Valid, Disk.MayFind, Disk.Now, Disk.AllUnlinked, Disk.Survivors, Disk.Created,
      Disk.Wrote, Disk.SyncedFile, Disk.RenamedOver, Disk.SyncedDirectory, Filled;
    ghost var before := dir.disk;
    ghost var gone := Temporaries(path, hash, before);
    ghost var cleaning;
    var removed;
    removed, cleaning := RemoveTemporaries(dir, path, hash);
    var temporary := Prefix(path, hash) + suffix;
    assert IsTemporary(path, hash, temporary);
    UnlinkedIsValid(before, gone);
    ghost var cleaned := dir.disk;
    CleanedOut(before, gone, path);
    FillingSteps(cleaned, temporary, bytes);
    dir.Change(dir.disk.Created(temporary));
    dir.Change(dir.disk.Wrote(temporary, bytes));
    dir.Change(dir.disk.SyncedFile(temporary));
    dir.Change(dir.disk.RenamedOver(temporary, path));
    dir.Change(dir.disk.SyncedDirectory());
    OnlyNewSurvives(cleaned, temporary, path, bytes);
    OnlyPathAppears(before, cleaned, dir.disk, path, hash);
    steps := cleaning + WriteSteps(cleaned, temporary, path, bytes);
    if IsTemporary(path, hash, path) {
      assert cleaned in steps;
    } else {
      forall d | d in steps ensures OldOrNew(before, d, path, bytes) {
        WriteStateIsOldOrNew(before, path, hash, bytes, suffix, d);
      }
    }
  }

  /** A disk holding the cleaned entries and the path's, all durable. */
  lemma OnlyPathAppears(before: Disk, cleaned: Disk, done: Disk, path: Name, hash: Name -> string)
    requires cleaned.entries == before.entries - Temporaries(path, hash, before)
    requires done.entries.Keys == cleaned.entries.Keys + {path} && done.unsynced == map[]
    requires forall name <- cleaned.entries.Keys :: name != path ==> done.entries[name] == cleaned.entries[name]
    ensures forall name :: name != path && IsTemporary(path, hash, name) ==> done.Survivors(name) == {None}
    ensures forall name :: name != path && !IsTemporary(path, hash, name) ==> done.Entry(name) == before.Entry(name)
  {
  }

  lemma CleanedOut(before: Disk, gone: set<Name>, path: Name)
    ensures before.AllUnlinked(gone).entries == before.entries - gone
    ensures path in gone || path !in before.entries ==> before.AllUnlinked(gone).Now(path) == None
  {
  }

  // ----- Removing

  /** What `remove` leaves: it syncs the directory only if it removed something. */
  function Removal(d: Disk, path: Name, hash: Name -> string): Disk {
    var names := Temporaries(path, hash, d) + ({path} * d.entries.Keys);
    if names == {} then d else d.AllUnlinked(names).SyncedDirectory()
  }

  lemma SyncingIsValid(d: Disk)
    requires d.Valid()
    ensures d.SyncedDirectory().Valid()
  {
  }

  /** A state of a removal: names are being unlinked, or it is done. */
  ghost predicate RemoveState(d: Disk, path: Name, hash: Name -> string, after: Disk) {
    || Unlinking(d, Temporaries(path, hash, d) + {path}, after)
    || after == Removal(d, path, hash)
  }

  method Remove(dir: Directory, path: Name, hash: Name -> string) returns (ghost steps: seq<Disk>)
    requires dir.disk.Valid()
    modifies dir
    ensures dir.disk.Valid() && dir.trace == old(dir.trace) + steps
    ensures dir.disk == Removal(old(dir.disk), path, hash)
    ensures forall d <- steps :: RemoveState(old(dir.disk), path, hash, d)
    ensures forall name :: name == path || IsTemporary(path, hash, name) ==> name !in dir.disk.entries
  {
    hide Unlinking, Disk.Unlinked, Disk.AllUnlinked, Disk.Valid, IsTemporary;
    ghost var before := dir.disk;
    ghost var gone := Temporaries(path, hash, before);
    ghost var cleaning;
    var temporaries;
    temporaries, cleaning := RemoveTemporaries(dir, path, hash);
    var removed := dir.Unlink(path);
    UnlinkOneMore(before, gone, path);
    ghost var all := gone + ({path} * before.entries.Keys);
    NothingUnlinked(before);
    UnlinkedEntries(before, gone);
    UnlinkedEntries(before, all);
    UnlinkedIsValid(before, all);
    UnlinkingGoesOn(before, cleaning, gone, all);
    steps := cleaning + [dir.disk];
    UnlinkingGoesOn(before, steps, all, gone + {path});
    SyncingIsValid(dir.disk);
    if temporaries || removed {
      dir.Change(dir.disk.SyncedDirectory());
      steps := steps + [dir.disk];
    }
  }

  /** Nothing of the file or its temporaries can come back after a crash. */
  ghost predicate GoneForGood(d: Disk, path: Name, hash: Name -> string) {
    forall name :: name == path || IsTemporary(path, hash, name) ==> d.Survivors(name) == {None}
  }

  /** A removal is durable exactly when it finds the file or a temporary, or
      nothing of them could come back before it. */
  lemma RemovalIsDurableIff(d: Disk, path: Name, hash: Name -> string)
    requires d.Valid()
    ensures GoneForGood(Removal(d, path, hash), path, hash) <==>
              path in d.entries || Temporaries(path, hash, d) != {} || GoneForGood(d, path, hash)
  {
    var names := Temporaries(path, hash, d) + ({path} * d.entries.Keys);
    if names != {} {
      var removal := Removal(d, path, hash);
      forall name | name == path || IsTemporary(path, hash, name) ensures removal.Survivors(name) == {None} {
      }
    }
  }

  /** A removal stopped between unlinking the file and syncing the directory is
      not made up for: the next one finds nothing, succeeds without syncing, and
      a crash may bring the file back with its contents. */
  lemma InterruptedRemovalMayComeBack(d: Disk, path: Name, hash: Name -> string)
    requires d.Valid() && path in d.entries && Temporaries(path, hash, d) == {}
    ensures var stopped := d.Unlinked(path);
      && Removal(stopped, path, hash) == stopped
      && stopped.Now(path) == None
      && stopped.MayFind(path, d.Now(path))
  {
    var stopped := d.Unlinked(path);
    assert Temporaries(path, hash, stopped) == {};
    assert d.Entry(path) in stopped.Survivors(path);
    assert stopped.Leads(d.Entry(path), d.Now(path));
  }

  // ----- Runs of writes, removals and crashes

  /** One turn of a process, stopped at any state of its operation, or a crash. */
  datatype Turn = Writing(bytes: Bytes, suffix: string) | Removing | Crash

  ghost predicate TurnLeads(d: Disk, turn: Turn, after: Disk, path: Name, hash: Name -> string) {
    match turn
    case Writing(bytes, suffix) => WriteState(d, path, hash, bytes, suffix, after)
    case Removing => RemoveState(d, path, hash, after)
    case Crash => CrashImage(d, after)
  }

  ghost predicate Run(disks: seq<Disk>, turns: seq<Turn>, path: Name, hash: Name -> string) {
    && |disks| == |turns| + 1
    && disks[0].Valid()
    && forall i :: 0 <= i < |turns| ==> TurnLeads(disks[i], turns[i], disks[i + 1], path, hash)
  }

  /** What the turns may bring to the path besides what may be there already. */
  ghost predicate Brought(turns: seq<Turn>, found: Option<Bytes>) {
    match found
    case Some(bytes) => exists turn <- turns :: turn.Writing? && turn.bytes == bytes
    case None => Removing in turns
  }

  lemma UnlinkingOnlyRemoves(d: Disk, gone: set<Name>, path: Name, found: Option<Bytes>)
    requires d.Valid() && d.AllUnlinked(gone).MayFind(path, found)
    ensures d.MayFind(path, found) || found == None
  {
    hide Disk.Valid;
    var after := d.AllUnlinked(gone);
    var e :| e in after.Survivors(path) && after.Leads(e, found);
    assert e == None || (e in d.Survivors(path) && d.Leads(e, found));
  }

  lemma RemovingOnlyRemoves(d: Disk, path: Name, hash: Name -> string, after: Disk, found: Option<Bytes>)
    requires d.Valid() && RemoveState(d, path, hash, after)
    ensures after.Valid()
    ensures after.MayFind(path, found) ==> d.MayFind(path, found) || found == None
  {
    hide Disk.Valid, Disk.MayFind, Disk.AllUnlinked, Temporaries;
    var names := Temporaries(path, hash, d) + ({path} * d.entries.Keys);
    if after == Removal(d, path, hash) {
      RemovalIsSure(d, names, path);
    } else {
      var gone: set<Name> :| gone <= Temporaries(path, hash, d) + {path} && after == d.AllUnlinked(gone);
      UnlinkedIsValid(d, gone);
      if after.MayFind(path, found) { UnlinkingOnlyRemoves(d, gone, path, found); }
    }
  }

  lemma RemovalIsSure(d: Disk, names: set<Name>, path: Name)
    requires d.Valid() && (path in d.entries ==> path in names)
    ensures var done := d.AllUnlinked(names).SyncedDirectory();
      done.Valid() && forall found :: done.MayFind(path, found) ==> found == None
  {
    UnlinkedIsValid(d, names);
    UnlinkedEntries(d, names);
  }

  lemma TurnBrings(d: Disk, turn: Turn, after: Disk, path: Name, hash: Name -> string, found: Option<Bytes>)
    requires d.Valid() && !IsTemporary(path, hash, path) && TurnLeads(d, turn, after, path, hash)
    ensures after.Valid()
    ensures after.MayFind(path, found) ==> d.MayFind(path, found) || Brought([turn], found)
  {
    hide WriteState, RemoveState, CrashImage, Disk.Valid, Disk.MayFind, IsTemporary;
    assert turn in [turn];
    match turn {
      case Writing(bytes, suffix) => WriteStateIsOldOrNew(d, path, hash, bytes, suffix, after);
      case Removing => RemovingOnlyRemoves(d, path, hash, after, found);
      case Crash => CrashFinds(d, after, path);
    }
  }

  /** However writes and removals are stopped and crashes follow, a file not named
      like its temporaries has only contents it might have had at first or that
      some write was given in full, and is missing only if it might have been at
      first or a removal was among the turns. */
  lemma {:induction false} OnlyWrittenContentsAreFound(
    disks: seq<Disk>, turns: seq<Turn>, path: Name, hash: Name -> string, found: Option<Bytes>)
    requires Run(disks, turns, path, hash) && !IsTemporary(path, hash, path)
    ensures disks[|turns|].Valid()
    ensures disks[|turns|].MayFind(path, found) ==> disks[0].MayFind(path, found) || Brought(turns, found)
    decreases |turns|
  {
    if turns != [] {
      hide TurnLeads, Disk.Valid, Disk.MayFind, IsTemporary;
      var n := |turns| - 1;
      var front := turns[..n];
      assert turns == front + [turns[n]];
      RunBegins(disks, turns, path, hash, n);
      OnlyWrittenContentsAreFound(disks[..n + 1], front, path, hash, found);
      TurnBrings(disks[n], turns[n], disks[n + 1], path, hash, found);
    }
  }

  /** The rest of a run is a run. */
  lemma RunGoesOn(disks: seq<Disk>, turns: seq<Turn>, path: Name, hash: Name -> string, i: nat)
    requires Run(disks, turns, path, hash) && i <= |turns|
    requires disks[i].Valid()
    ensures Run(disks[i..], turns[i..], path, hash)
  {
    hide TurnLeads, Disk.Valid;
    var after, later := disks[i..], turns[i..];
    forall k | 0 <= k < |later| ensures TurnLeads(after[k], later[k], after[k + 1], path, hash) {
      assert TurnLeads(disks[i + k], turns[i + k], disks[i + k + 1], path, hash);
    }
  }

  lemma RunBegins(disks: seq<Disk>, turns: seq<Turn>, path: Name, hash: Name -> string, i: nat)
    requires Run(disks, turns, path, hash) && i <= |turns|
    ensures Run(disks[..i + 1], turns[..i], path, hash)
  {
    hide TurnLeads, Disk.Valid;
  }

  lemma WrittenOutIsCertain(d: Disk, path: Name, hash: Name -> string, bytes: Bytes, suffix: string)
    requires d.Valid()
    ensures WrittenOut(d, path, hash, bytes, suffix).Valid()
    ensures forall found :: WrittenOut(d, path, hash, bytes, suffix).MayFind(path, found) <==> found == Some(bytes)
  {
    hide Disk.Valid, Disk.MayFind, Disk.AllUnlinked, Filled;
    UnlinkedEntries(d, Temporaries(path, hash, d));
    UnlinkedIsValid(d, Temporaries(path, hash, d));
    OnlyNewSurvives(d.AllUnlinked(Temporaries(path, hash, d)), Prefix(path, hash) + suffix, path, bytes);
  }

  /** A write that completed is not lost: whatever follows, its contents are found
      unless a later turn brings others or removes the file. */
  lemma CompletedWriteSurvives(
    disks: seq<Disk>, turns: seq<Turn>, path: Name, hash: Name -> string, i: nat, found: Option<Bytes>)
    requires Run(disks, turns, path, hash) && !IsTemporary(path, hash, path)
    requires i < |turns| && turns[i].Writing?
    requires disks[i + 1] == WrittenOut(disks[i], path, hash, turns[i].bytes, turns[i].suffix)
    ensures disks[|turns|].MayFind(path, found) ==> found == Some(turns[i].bytes) || Brought(turns[i + 1..], found)
  {
    hide TurnLeads, Disk.Valid, Disk.MayFind, WrittenOut, Brought;
    RunBegins(disks, turns, path, hash, i);
    OnlyWrittenContentsAreFound(disks[..i + 1], turns[..i], path, hash, found);
    WrittenOutIsCertain(disks[i], path, hash, turns[i].bytes, turns[i].suffix);
    RunGoesOn(disks, turns, path, hash, i + 1);
    OnlyWrittenContentsAreFound(disks[i + 1..], turns[i + 1..], path, hash, found);
  }
}
