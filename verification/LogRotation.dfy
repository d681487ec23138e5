/** `rotate_log`: the backups of the log file. */
module LogRotation {
  import opened Helpers

  type Content = seq<int>

  /** The files of a directory, by name. */
  type Files = map<string, Content>

  /** The name of backup `k`. */
  function Backup(name: string, k: nat): string {
    name + "." + if k == 1 then "1" else if k == 2 then "2" else if k == 3 then "3" else if k == 4 then "4" else "5"
  }

  lemma BackupNames(name: string)
    ensures forall j: nat, k: nat | 1 <= j < k <= 5 :: Backup(name, j) != Backup(name, k)
    ensures forall k: nat | 1 <= k <= 5 :: Backup(name, k) != name
  {
    forall j: nat, k: nat | 1 <= j < k <= 5 ensures Backup(name, j) != Backup(name, k) {
      var n := |name| + 1;
      assert Backup(name, j)[n] != Backup(name, k)[n];
    }
    forall k: nat | 1 <= k <= 5 ensures Backup(name, k) != name { assert |Backup(name, k)| > |name|; }
  }

  function BackupOf(fs: Files, name: string, k: nat): Option<Content> {
    if Backup(name, k) in fs then Some(fs[Backup(name, k)]) else None
  }

  /** What backup `k` is after a rotation: a backup moves up, and the log is copied to the first. */
  function Expected(fs: Files, name: string, k: nat): Option<Content>
    requires 1 <= k <= 5
  {
    if k == 1 then (if name in fs then Some(fs[name]) else None)
    else if BackupOf(fs, name, k - 1).Some? then BackupOf(fs, name, k - 1)
    else if k == 5 then BackupOf(fs, name, 5)
    else None
  }

  predicate IsBackup(name: string, f: string) {
    f in {Backup(name, 1), Backup(name, 2), Backup(name, 3), Backup(name, 4), Backup(name, 5)}
  }

  ghost predicate SameOthers(fs: Files, gs: Files, name: string) {
    forall f | !IsBackup(name, f) :: (f in fs <==> f in gs) && (f in fs ==> gs[f] == fs[f])
  }

  /** The state after `i` renames. */
  ghost predicate Moved(fs: Files, gs: Files, name: string, i: nat)
    requires i <= 4
  {
    && (forall k: nat | 1 <= k <= 4 - i :: BackupOf(gs, name, k) == BackupOf(fs, name, k))
    && (forall k: nat | 5 - i < k <= 5 :: BackupOf(gs, name, k) == Expected(fs, name, k))
    && BackupOf(gs, name, 5 - i) == (if i == 0 then BackupOf(fs, name, 5) else None)
    && SameOthers(fs, gs, name)
  }

  lemma MovedUp(fs: Files, gs: Files, hs: Files, name: string, i: nat)
    requires i < 4 && Moved(fs, gs, name, i)
    requires var from, to := Backup(name, 4 - i), Backup(name, 5 - i);
      hs == if from in gs then (gs - {from})[to := gs[from]] else gs
    ensures Moved(fs, hs, name, i + 1)
  {
    BackupNames(name);
    var from, to := 4 - i, 5 - i;
    forall k: nat | 1 <= k <= 5 && k != from && k != to ensures BackupOf(hs, name, k) == BackupOf(gs, name, k) {}
    assert BackupOf(hs, name, from) == None;
    assert BackupOf(hs, name, to) == Expected(fs, name, to);
  }

  const BUFFER: nat := 65536

  class Directory {
    var files: Files

    constructor (files: Files)
      ensures this.files == files
    {
      this.files := files;
    }

    /** `rename`: an existing file of the new name is replaced. */
    method Rename(from: string, to: string)
      requires from in files && from != to
      modifies this
      ensures files == (old(files) - {from})[to := old(files)[from]]
    {
      files := (files - {from})[to := files[from]];
    }

    /** Copies a file, one buffer at a time, until the end of the original has been met. */
    method Copy(from: string, to: string)
      requires from in files && from != to
      modifies this
      ensures files == old(files)[to := old(files)[from]]
    {
      ghost var fs := files;
      var original := files[from];
      files := files[to := []];
      var pos: nat := 0;
      var eof := false;
      while !eof
        invariant pos <= |original| && files == fs[to := original[..pos]] && (eof ==> pos == |original|)
        decreases !eof, |original| - pos
      {
        var n := if pos + BUFFER <= |original| then BUFFER else |original| - pos;
        var buffer := original[pos..pos + n];
        eof := n < BUFFER;
        files := files[to := files[to] + buffer];
        assert original[..pos] + buffer == original[..pos + n];
        pos := pos + n;
      }
      assert original[..pos] == original;
    }

    /** `rotate_log`. */
    method RotateLog(name: string)
      modifies this
      ensures forall k: nat | 1 <= k <= 5 :: BackupOf(files, name, k) == Expected(old(files), name, k)
      ensures SameOthers(old(files), files, name)
    {
      BackupNames(name);
      ghost var fs := files;
      for i := 0 to 4
        invariant Moved(fs, files, name, i)
      {
        var newfn := Backup(name, 5 - i);
        var oldfn := Backup(name, 4 - i);
        ghost var gs := files;
        if oldfn in files { Rename(oldfn, newfn); }
        MovedUp(fs, gs, files, name, i);
      }
      if name in files { Copy(name, Backup(name, 1)); }
    }
  }

  // ---- Whole runs ----

  /** Writing the log between two starts changes no backup. */
  function WithLog(fs: Files, name: string, log: Content): Files {
    fs[name := log]
  }

  /** After any number of starts, with the logs `logs` present at each, backup `k` is the log of the `k`-th most recent
      start. */
  method Starts(name: string, before: Files, logs: seq<Content>) returns (dir: Directory)
    requires forall k: nat | 1 <= k <= 5 :: Backup(name, k) !in before
    ensures forall k: nat | 1 <= k <= 5 ::
      BackupOf(dir.files, name, k) == if k <= |logs| then Some(logs[|logs| - k]) else None
  {
    BackupNames(name);
    dir := new Directory(before);
    for n := 0 to |logs|
      invariant fresh(dir)
      invariant forall k: nat | 1 <= k <= 5 :: BackupOf(dir.files, name, k) == if k <= n then Some(logs[n - k]) else None
    {
      ghost var was := dir.files;
      dir.files := WithLog(dir.files, name, logs[n]);
      ghost var fs := dir.files;
      assert forall k: nat | 1 <= k <= 5 :: BackupOf(fs, name, k) == BackupOf(was, name, k);
      dir.RotateLog(name);
      forall k: nat | 1 <= k <= 5
        ensures BackupOf(dir.files, name, k) == if k <= n + 1 then Some(logs[n + 1 - k]) else None
      {
        assert BackupOf(dir.files, name, k) == Expected(fs, name, k);
        if k > 1 { assert BackupOf(fs, name, k - 1) == BackupOf(was, name, k - 1); }
      }
    }
  }
}
