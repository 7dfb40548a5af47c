/**
 Rewriting `config.json`: a sibling temporary is created, given the old mode,
 written, synced and renamed over the document, and the directory is synced.
 Every effect may fail, and the machine may stop after any of them.
 */
module ConfigWrite {
  import opened Wrappers
  import opened Bytes
  import opened Decimal

  datatype File = File(mode: nat, content: seq<byte>)

  /** An inode that is not synced holds anything at all after a crash. */
  datatype Inode = Inode(file: File, synced: bool)

  type Names = map<string, nat>

  /** One directory. `versions` are its states since it was last synced: after a
      crash a name may be what it was in any of them. */
  datatype Disk = Disk(names: Names, versions: set<Names>, inodes: seq<Inode>)

  function Visible(d: Disk, name: string): Option<File> {
    if name in d.names && d.names[name] < |d.inodes| then Some(d.inodes[d.names[name]].file) else None
  }

  /** `found` is what a crash now may leave under `name`. */
  predicate Survives(d: Disk, name: string, found: Option<File>) {
    exists v :: v in d.versions &&
      match found
      case None => name !in v
      case Some(f) => name in v && v[name] < |d.inodes| && (d.inodes[v[name]].synced ==> f == d.inodes[v[name]].file)
  }

  // ----- effects as values

  const FRESH_MODE: nat := 0x1A4

  function Named(d: Disk, names: Names): Disk { d.(names := names, versions := d.versions + {names}) }

  function Created(d: Disk, name: string): Disk {
    Named(d, d.names[name := |d.inodes|]).(inodes := d.inodes + [Inode(File(FRESH_MODE, []), false)])
  }

  function Updated(d: Disk, i: nat, inode: Inode): Disk
    requires i < |d.inodes|
  {
    d.(inodes := d.inodes[i := inode])
  }

  function Renamed(d: Disk, from: string, to: string): Disk
    requires from in d.names
  {
    Named(d, (d.names - {from})[to := d.names[from]])
  }

  function Unlinked(d: Disk, name: string): Disk { Named(d, d.names - {name}) }

  function TempName(config: string, pid: string, nonce: nat): string {
    "." + config + ".imageless-" + pid + "-" + Show(nonce)
  }

  lemma TempIsNotConfig(config: string, pid: string, nonce: nat)
    ensures TempName(config, pid, nonce) != config
  {
    assert |TempName(config, pid, nonce)| > |config|;
  }

  /** The nonce the search settles on. `refused` are the nonces whose file cannot
      be opened for another reason than existing already. */
  function FirstFree(names: Names, config: string, pid: string, next: nat, tries: nat, refused: set<nat>): Option<nat>
    decreases tries
  {
    if tries == 0 || next in refused then None
    else if TempName(config, pid, next) !in names then Some(next)
    else FirstFree(names, config, pid, next + 1, tries - 1, refused)
  }

  /** The search settles on the first nonce whose name is not taken, and fails exactly
      when every one of the tried names is taken before anything else goes wrong. */
  lemma {:induction false} FirstFreeExactly(names: Names, config: string, pid: string, next: nat, tries: nat,
                                            refused: set<nat>, n: nat)
    ensures FirstFree(names, config, pid, next, tries, refused) == Some(n) <==>
      && next <= n < next + tries && n !in refused && TempName(config, pid, n) !in names
      && forall m :: next <= m < n ==> m !in refused && TempName(config, pid, m) in names
    ensures FirstFree(names, config, pid, next, tries, refused).None? && refused == {} ==>
      forall m :: next <= m < next + tries ==> TempName(config, pid, m) in names
    decreases tries
  {
    if tries > 0 {
      FirstFreeExactly(names, config, pid, next + 1, tries - 1, refused, n);
    }
  }

  /** Names of different nonces differ, and stay in the directory. */
  lemma TempNamesDiffer(config: string, pid: string, m: nat, n: nat)
    requires TempName(config, pid, m) == TempName(config, pid, n)
    ensures m == n
  {
    var prefix := "." + config + ".imageless-" + pid + "-";
    assert TempName(config, pid, m)[|prefix|..] == Show(m) && TempName(config, pid, n)[|prefix|..] == Show(n);
    ShowValue(m);
    ShowValue(n);
  }

  /** Which effects fail. A write may stop after any number of bytes. */
  datatype Faults = Faults(
    refused: set<nat>, chmod: bool, write: Option<nat>, sync: bool, rename: bool, directory: bool, unlink: bool)

  /** Every effect after the creation works. */
  predicate Works(f: Faults, length: nat) {
    !f.chmod && (f.write.None? || f.write.value >= length) && !f.sync && !f.rename && !f.directory
  }

  // ----- what must hold at every instant

  /** A reader, now or after a crash, finds exactly one of two complete documents. */
  ghost predicate Intact(d: Disk, config: string, a: File, b: File) {
    && Visible(d, config) in {Some(a), Some(b)}
    && forall found :: Survives(d, config, found) ==> found in {Some(a), Some(b)}
  }

  /** The document is the old one for everybody, now and after a crash. */
  ghost predicate Unchanged(d: Disk, config: string, i: nat, a: File) {
    && i < |d.inodes| && d.inodes[i] == Inode(a, true)
    && config in d.names && d.names[config] == i && d.names in d.versions
    && forall v :: v in d.versions ==> config in v && v[config] == i
  }

  /** The new document is visible; a crash may still bring the old one back. */
  ghost predicate Replaced(d: Disk, config: string, i: nat, a: File, j: nat, b: File) {
    && i < |d.inodes| && j < |d.inodes| && d.inodes[i] == Inode(a, true) && d.inodes[j] == Inode(b, true)
    && config in d.names && d.names[config] == j
    && forall v :: v in d.versions ==> config in v && (v[config] == i || v[config] == j)
  }

  /** A directory that holds one durable document, and nothing else. */
  lemma SomeDirectoryIsUnchanged(config: string, a: File)
    ensures Unchanged(Disk(map[config := 0], {map[config := 0]}, [Inode(a, true)]), config, 0, a)
  {
  }

  lemma UnchangedIsIntact(d: Disk, config: string, i: nat, a: File, b: File)
    requires Unchanged(d, config, i, a)
    ensures Intact(d, config, a, b) && Visible(d, config) == Some(a)
    ensures forall found :: Survives(d, config, found) ==> found == Some(a)
  {
  }

  lemma ReplacedIsIntact(d: Disk, config: string, i: nat, a: File, j: nat, b: File)
    requires Replaced(d, config, i, a, j, b)
    ensures Intact(d, config, a, b) && Visible(d, config) == Some(b)
  {
  }

  /** Why the directory is synced after it: until then a crash may bring the old document back. */
  lemma UnsyncedDirectoryForgets(d: Disk, config: string, temp: string, i: nat, a: File)
    requires Unchanged(d, config, i, a) && temp in d.names && temp != config
    ensures Survives(Renamed(d, temp, config), config, Some(a))
  {
    assert d.names in Renamed(d, temp, config).versions;
  }

  /** Before the rename: the document untouched, the temporary under its own name. */
  ghost predicate Writing(d: Disk, before: Disk, config: string, temp: string, i: nat, a: File) {
    && Unchanged(d, config, i, a)
    && d.names == before.names[temp := |before.inodes|]
    && |d.inodes| == |before.inodes| + 1 && i < |before.inodes|
    && d.inodes[..|before.inodes|] == before.inodes
  }

  class Directory {
    var disk: Disk
    var next: nat
    ghost var trace: seq<Disk>      // the state after every effect so far

    constructor (disk: Disk, next: nat)
      ensures this.disk == disk && this.next == next && trace == []
    {
      this.disk, this.next, trace := disk, next, [];
    }

    method Become(d: Disk)
      modifies this`disk, this`trace
      ensures disk == d && trace == old(trace) + [d]
    {
      disk := d;
      trace := trace + [d];
    }

    /** `create_sibling_temp`: up to 128 nonces, skipping names already taken. */
    method CreateSiblingTemp(config: string, pid: string, refused: set<nat>) returns (r: Option<string>)
      modifies this
      ensures var free := FirstFree(old(disk.names), config, pid, old(next), 128, refused);
        && (r.Some? <==> free.Some?)
        && (r.Some? ==> r.value == TempName(config, pid, free.value) && r.value !in old(disk.names))
        && (r.Some? ==> disk == Created(old(disk), r.value) && trace == old(trace) + [disk])
        && (r.None? ==> disk == old(disk) && trace == old(trace))
    {
      for attempt := 0 to 128
        invariant disk == old(disk) && trace == old(trace) && next == old(next) + attempt
        invariant FirstFree(disk.names, config, pid, old(next), 128, refused)
               == FirstFree(disk.names, config, pid, next, 128 - attempt, refused)
      {
        var nonce := next;
        next := next + 1;
        if nonce in refused {
          return None;
        }
        var path := TempName(config, pid, nonce);
        if path !in disk.names {
          Become(Created(disk, path));
          return Some(path);
        }
      }
      return None;
    }

    /** `write_all`: bytes arrive in order, and an error leaves what was written. */
    method WriteAll(i: nat, bytes: seq<byte>, stop: Option<nat>, ghost before: Disk, 
                    ghost config: string, ghost temp: string, ghost doc: nat, ghost a: File)
      returns (ok: bool)
      requires Writing(disk, before, config, temp, doc, a) && i == |before.inodes| && disk.inodes[i].file.content == []
      modifies this`disk, this`trace
      ensures Writing(disk, before, config, temp, doc, a)
      ensures disk.inodes[i].file.mode == old(disk.inodes[i].file.mode)
      ensures ok <==> stop.None? || stop.value >= |bytes|
      ensures ok ==> disk.inodes[i].file.content == bytes
      ensures old(trace) <= trace
      ensures forall k :: |old(trace)| <= k < |trace| ==> Writing(trace[k], before, config, temp, doc, a)
    {
      ghost var mode := disk.inodes[i].file.mode;
      for n := 0 to |bytes|
        invariant Writing(disk, before, config, temp, doc, a)
        invariant disk.inodes[i].file == File(mode, bytes[..n])
        invariant stop.Some? ==> n <= stop.value
        invariant old(trace) <= trace
        invariant forall k :: |old(trace)| <= k < |trace| ==> Writing(trace[k], before, config, temp, doc, a)
      {
        if stop == Some(n) {
          return false;
        }
        var file := disk.inodes[i].file;
        assert bytes[..n + 1] == bytes[..n] + [bytes[n]];
        Become(Updated(disk, i, Inode(file.(content := file.content + [bytes[n]]), false)));
      }
      assert bytes[..|bytes|] == bytes;
      return true;
    }

    /** The closure of `write_config_atomically`. `renamed` says how far it got. */
    method ReplaceDocument(config: string, temp: string, mode: nat, bytes: seq<byte>, faults: Faults,
                           ghost before: Disk, ghost doc: nat, ghost a: File)
      returns (ok: bool, ghost renamed: bool)
      requires temp != config && temp !in before.names && Unchanged(before, config, doc, a)
      requires disk == Created(before, temp)
      modifies this`disk, this`trace
      ensures ok <==> Works(faults, |bytes|)
      ensures ok ==> renamed && disk.versions == {disk.names}
      ensures renamed && !ok ==> Survives(disk, config, Some(a))
      ensures !renamed ==> Writing(disk, before, config, temp, doc, a)
      ensures renamed ==> Replaced(disk, config, doc, a, |before.inodes|, File(mode, bytes))
                          && disk.names == before.names[config := |before.inodes|]
                          && |disk.inodes| == |before.inodes| + 1 && disk.inodes[..|before.inodes|] == before.inodes
      ensures old(trace) <= trace
      ensures forall k :: |old(trace)| <= k < |trace| ==> Intact(trace[k], config, a, File(mode, bytes))
    {
      var i := disk.names[temp];
      renamed := false;
      if faults.chmod {
        return false, false;
      }
      Become(Updated(disk, i, Inode(File(mode, []), false)));
      UnchangedIsIntact(disk, config, doc, a, File(mode, bytes));
      ok := WriteAll(i, bytes, faults.write, before, config, temp, doc, a);
      forall k | |old(trace)| < k < |trace|
        ensures Intact(trace[k], config, a, File(mode, bytes))
      {
        UnchangedIsIntact(trace[k], config, doc, a, File(mode, bytes));
      }
      if !ok || faults.sync {
        return false, false;
      }
      Become(Updated(disk, i, Inode(File(mode, bytes), true)));
      UnchangedIsIntact(disk, config, doc, a, File(mode, bytes));
      ok, renamed := RenameOver(config, temp, faults, before, doc, a, File(mode, bytes));
    }

    /** The rename and the directory sync. */
    method RenameOver(config: string, temp: string, faults: Faults,
                      ghost before: Disk, ghost doc: nat, ghost a: File, ghost b: File)
      returns (ok: bool, ghost renamed: bool)
      requires temp != config && temp !in before.names && Writing(disk, before, config, temp, doc, a)
      requires disk.inodes[|before.inodes|] == Inode(b, true)
      modifies this`disk, this`trace
      ensures ok <==> !faults.rename && !faults.directory
      ensures renamed <==> !faults.rename
      ensures ok ==> disk.versions == {disk.names}
      ensures renamed && !ok ==> Survives(disk, config, Some(a))
      ensures !renamed ==> disk == old(disk)
      ensures renamed ==> Replaced(disk, config, doc, a, |before.inodes|, b)
                          && disk.names == before.names[config := |before.inodes|] && disk.inodes == old(disk).inodes
      ensures old(trace) <= trace
      ensures forall k :: |old(trace)| <= k < |trace| ==> Intact(trace[k], config, a, b)
    {
      if faults.rename {
        return false, false;
      }
      UnsyncedDirectoryForgets(disk, config, temp, doc, a);
      Become(Renamed(disk, temp, config));
      assert disk.names == before.names[config := |before.inodes|];
      ReplacedIsIntact(disk, config, doc, a, |before.inodes|, b);
      if faults.directory {
        return false, true;
      }
      Become(disk.(versions := {disk.names}));
      ReplacedIsIntact(disk, config, doc, a, |before.inodes|, b);
      return true, true;
    }

    /** `write_config_atomically`. The document it replaces is a durable file `a`. */
    method WriteConfigAtomically(config: string, pid: string, bytes: seq<byte>, faults: Faults,
                                 ghost i: nat, ghost a: File, mode: nat)
      returns (ok: bool, ghost renamed: bool)
      requires Unchanged(disk, config, i, a) && mode == a.mode
      modifies this
      // at every instant, before and after a crash: the old document or all of the new one, in the old mode
      ensures old(trace) <= trace
      ensures forall k :: |old(trace)| <= k < |trace| ==> Intact(trace[k], config, a, File(a.mode, bytes))
      // success: exactly when every effect works; then the new document is visible and durable
      ensures var free := FirstFree(old(disk.names), config, pid, old(next), 128, faults.refused);
        ok <==> free.Some? && Works(faults, |bytes|)
      ensures ok ==> renamed && Visible(disk, config) == Some(File(a.mode, bytes))
                     && forall found :: Survives(disk, config, found) ==> found == Some(File(a.mode, bytes))
      // an error before the rename: nothing changed, and the temporary is gone if it can be removed
      ensures !renamed ==> !ok && Unchanged(disk, config, i, a)
      ensures !renamed && !faults.unlink ==> disk.names == old(disk.names)
      // an error from the last sync leaves the new document in place, though a crash may undo it
      ensures renamed ==> Visible(disk, config) == Some(File(a.mode, bytes))
      ensures renamed && !ok ==> Survives(disk, config, Some(a))
      // no other file is touched, and no temporary stays behind a rename
      ensures renamed ==> disk.names == old(disk.names)[config := |old(disk).inodes|]
      ensures |old(disk).inodes| <= |disk.inodes| && disk.inodes[..|old(disk).inodes|] == old(disk).inodes
    {
      var temp := CreateSiblingTemp(config, pid, faults.refused);
      if temp.None? {
        return false, false;
      }
      TempIsNotConfig(config, pid, FirstFree(old(disk.names), config, pid, old(next), 128, faults.refused).value);
      UnchangedIsIntact(disk, config, i, a, File(mode, bytes));
      ok, renamed := ReplaceDocument(config, temp.value, mode, bytes, faults, old(disk), i, a);
      if renamed {
        ReplacedIsIntact(disk, config, i, a, |old(disk).inodes|, File(mode, bytes));
      }
      if !ok && temp.value in disk.names && !faults.unlink {
        Become(Unlinked(disk, temp.value));
        UnchangedIsIntact(disk, config, i, a, File(mode, bytes));
        assert disk.names == old(disk.names);
      }
    }
  }
}
