/** Files written together or not at all: an undo log over a disk whose writes may fail. */
module FileSets {
  import opened Options

  type Files = map<string, string>

  function At(fs: Files, file: string): Option<string> {
    if file in fs then Some(fs[file]) else None
  }

  class Disk {
    var files: Files
    /** How many operations have thrown. */
    ghost var faults: nat

    constructor (files: Files)
      ensures this.files == files && faults == 0
    {
      this.files, faults := files, 0;
    }

    /** May throw, and leaves the old bytes or the new ones when it does. */
    method WriteAtomic(file: string, content: string) returns (ok: bool)
      modifies this
      ensures faults == old(faults) + if ok then 0 else 1
      ensures ok ==> files == old(files)[file := content]
      ensures !ok ==> files == old(files) || files == old(files)[file := content]
    {
      var landed: bool := *;
      ok := *;
      if ok || landed { files := files[file := content]; }
      if !ok { faults := faults + 1; }
    }

    method Remove(file: string) returns (ok: bool)
      modifies this
      ensures faults == old(faults) + if ok then 0 else 1
      ensures ok ==> files == old(files) - {file}
      ensures !ok ==> files == old(files) || files == old(files) - {file}
    {
      var landed: bool := *;
      ok := *;
      if ok || landed { files := files - {file}; }
      if !ok { faults := faults + 1; }
    }

    method Read(file: string) returns (ok: bool, content: Option<string>)
      modifies this`faults
      ensures faults == old(faults) + if ok then 0 else 1
      ensures ok ==> content == At(files, file)
    {
      ok, content := *, At(files, file);
      if !ok { faults := faults + 1; }
    }
  }

  // ----- the undo log -----

  datatype Undo = Undo(file: string, before: Option<string>)

  function Restore(e: Undo, fs: Files): Files {
    if e.before.None? then fs - {e.file} else fs[e.file := e.before.value]
  }

  /** The log put back newest first. */
  function Replay(log: seq<Undo>, fs: Files): Files {
    if log == [] then fs else Replay(log[..|log| - 1], Restore(log[|log| - 1], fs))
  }

  ghost predicate Logged(log: seq<Undo>, file: string) {
    exists i :: 0 <= i < |log| && log[i].file == file
  }

  ghost predicate AgreeOutside(log: seq<Undo>, a: Files, b: Files) {
    forall f :: !Logged(log, f) ==> At(a, f) == At(b, f)
  }

  lemma SameFiles(a: Files, b: Files)
    requires forall f :: At(a, f) == At(b, f)
    ensures a == b
  {
    forall f ensures (f in a <==> f in b) && (f in a ==> a[f] == b[f]) {
      assert At(a, f) == At(b, f);
    }
  }

  /** Replaying does not look at what the logged files hold now. */
  lemma {:induction false} ReplayIgnoresLogged(log: seq<Undo>, a: Files, b: Files)
    requires AgreeOutside(log, a, b)
    ensures Replay(log, a) == Replay(log, b)
  {
    if log == [] {
      forall f ensures At(a, f) == At(b, f) { assert !Logged(log, f); }
      SameFiles(a, b);
    } else {
      var n := |log| - 1;
      var e, rest := log[n], log[..n];
      forall f | !Logged(rest, f) ensures At(Restore(e, a), f) == At(Restore(e, b), f) {
        if f != e.file {
          assert forall i :: 0 <= i < n ==> log[i] == rest[i];
          assert !Logged(log, f);
        }
      }
      ReplayIgnoresLogged(rest, Restore(e, a), Restore(e, b));
    }
  }

  /** Nor does it touch any other file. */
  lemma {:induction false} ReplayLeavesOthers(log: seq<Undo>, fs: Files, file: string)
    requires !Logged(log, file)
    ensures At(Replay(log, fs), file) == At(fs, file)
  {
    if log != [] {
      var n := |log| - 1;
      var rest := log[..n];
      assert forall i :: 0 <= i < n ==> log[i] == rest[i];
      ReplayLeavesOthers(rest, Restore(log[n], fs), file);
    }
  }

  /** An entry recorded before its write covers it, whether the write lands or not. */
  lemma ReplayCoversWrite(log: seq<Undo>, fs: Files, file: string, content: string)
    ensures Replay(log + [Undo(file, At(fs, file))], fs) == Replay(log, fs)
    ensures Replay(log + [Undo(file, At(fs, file))], fs[file := content]) == Replay(log, fs)
  {
    var e := Undo(file, At(fs, file));
    assert (log + [e])[..|log|] == log;
    assert Restore(e, fs) == fs && Restore(e, fs[file := content]) == fs;
  }

  datatype Write = Threw | Unchanged | Written

  class FileSet {
    const disk: Disk
    var undo: seq<Undo>
    var written: seq<string>
    ghost const atOpen: Files

    /** Replaying the log over the disk as it is gives the disk as it was. */
    ghost predicate Valid()
      reads this, disk
    {
      Replay(undo, disk.files) == atOpen
    }

    constructor (disk: Disk)
      ensures this.disk == disk && atOpen == disk.files && undo == [] && written == [] && Valid()
    {
      this.disk, atOpen := disk, disk.files;
      undo, written := [], [];
    }

    method Write(file: string, content: string) returns (r: Write)
      requires Valid()
      modifies this, disk
      ensures Valid() && disk.faults == old(disk.faults) + if r.Threw? then 1 else 0
      ensures !r.Threw? ==> (r.Unchanged? <==> At(old(disk.files), file) == Some(content))
      ensures r.Unchanged? ==>
                && At(disk.files, file) == Some(content)
                && disk.files == old(disk.files) && undo == old(undo) && written == old(written)
      ensures r.Written? ==>
                && At(old(disk.files), file) != Some(content) && disk.files == old(disk.files)[file := content]
                && undo == old(undo) + [Undo(file, At(old(disk.files), file))] && written == old(written) + [file]
      ensures r.Threw? ==>
                && written == old(written)
                && (undo == old(undo) || undo == old(undo) + [Undo(file, At(old(disk.files), file))])
                && (disk.files == old(disk.files) || disk.files == old(disk.files)[file := content])
    {
      var readable, before := disk.Read(file);
      if !readable { return Threw; }
      if before == Some(content) { return Unchanged; }
      ReplayCoversWrite(undo, disk.files, file, content);
      undo := undo + [Undo(file, before)];
      var ok := disk.WriteAtomic(file, content);
      if !ok { return Threw; }
      written := written + [file];
      return Written;
    }

    /** Every file back as it was found, unless an operation of its own throws; the log then stands, and
        still leads back. */
    method Rollback() returns (ok: bool)
      requires Valid()
      modifies this, disk
      ensures Valid() && disk.faults == old(disk.faults) + if ok then 0 else 1
      ensures ok ==> disk.files == atOpen && undo == [] && written == []
      ensures !ok ==> undo == old(undo) && written == old(written)
    {
      var i := |undo|;
      assert undo[..i] == undo;
      while i > 0
        invariant 0 <= i <= |undo| && undo == old(undo) && written == old(written)
        invariant Replay(undo[..i], disk.files) == atOpen && disk.faults == old(disk.faults)
        invariant AgreeOutside(undo, disk.files, old(disk.files))
        modifies disk
      {
        var e := undo[i - 1];
        assert undo[..i][..i - 1] == undo[..i - 1] && undo[..i][i - 1] == e;
        assert Logged(undo, e.file);
        if e.before.None? { ok := disk.Remove(e.file); } else { ok := disk.WriteAtomic(e.file, e.before.value); }
        if !ok {
          ReplayIgnoresLogged(undo, disk.files, old(disk.files));
          return;
        }
        i := i - 1;
      }
      undo, written := [], [];
      ok := true;
    }
  }
}
