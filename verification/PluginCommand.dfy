/** What a resolution owns on disk, and the command that changes the selection. */
module PluginCommand {
  import opened Options
  import opened FileSets

  /** A file and the content it should have. */
  datatype Target = Target(file: string, content: string)

  /** The lock's text and the modules the capabilities derive. */
  datatype Resolution = Resolution(lock: string, modules: seq<Target>)

  function ResolutionFiles(resolution: Resolution, lockPath: string): seq<Target> {
    [Target(lockPath, resolution.lock)] + resolution.modules
  }

  function Apply(fs: Files, targets: seq<Target>): Files
    decreases targets
  {
    if targets == [] then fs else Apply(fs[targets[0].file := targets[0].content], targets[1..])
  }

  ghost predicate Targeted(targets: seq<Target>, file: string) {
    exists t :: t in targets && t.file == file
  }

  ghost predicate Settled(targets: seq<Target>, fs: Files) {
    forall t :: t in targets ==> At(fs, t.file) == Some(t.content)
  }

  /** No file is given two contents. */
  ghost predicate Consistent(targets: seq<Target>) {
    forall t, u :: t in targets && u in targets && t.file == u.file ==> t.content == u.content
  }

  /** Files nobody targets are left alone, and a targeted one holds one of the contents given for it. */
  lemma {:induction false} ApplyAt(fs: Files, targets: seq<Target>, file: string)
    ensures !Targeted(targets, file) ==> At(Apply(fs, targets), file) == At(fs, file)
    ensures Targeted(targets, file) ==>
              exists t :: t in targets && t.file == file && At(Apply(fs, targets), file) == Some(t.content)
    decreases targets
  {
    if targets != [] {
      var first, rest := targets[0], targets[1..];
      ApplyAt(fs[first.file := first.content], rest, file);
      assert targets == [first] + rest;
      if Targeted(rest, file) {
      } else if first.file == file {
        assert first in targets;
      }
    }
  }

  /** The last content given for a file is the one it ends with. */
  lemma {:induction false} LastOneWins(fs: Files, targets: seq<Target>, i: nat)
    requires i < |targets| && forall j :: i < j < |targets| ==> targets[j].file != targets[i].file
    ensures At(Apply(fs, targets), targets[i].file) == Some(targets[i].content)
    decreases targets
  {
    var first, rest := targets[0], targets[1..];
    var next := fs[first.file := first.content];
    if i == 0 {
      assert !Targeted(rest, first.file) by {
        assert forall k :: 0 <= k < |rest| ==> rest[k] == targets[k + 1];
      }
      ApplyAt(next, rest, first.file);
    } else {
      assert rest[i - 1] == targets[i];
      LastOneWins(next, rest, i - 1);
    }
  }

  /** Every target holds afterwards exactly when no file was given two contents. */
  lemma SettledIffConsistent(fs: Files, targets: seq<Target>)
    ensures Settled(targets, Apply(fs, targets)) <==> Consistent(targets)
  {
    if Consistent(targets) {
      forall t | t in targets ensures At(Apply(fs, targets), t.file) == Some(t.content) {
        ApplyAt(fs, targets, t.file);
      }
    }
  }

  // ----- writing a resolution -----

  /** What is said of a file: written, or - of the lock alone - unchanged. */
  datatype Said = SaidWritten(file: string) | SaidUnchanged(file: string)

  function Report(targets: seq<Target>, lockPath: string, fs: Files): seq<Said>
    decreases targets
  {
    if targets == [] then []
    else
      var t := targets[0];
      var rest := Report(targets[1..], lockPath, fs[t.file := t.content]);
      if At(fs, t.file) != Some(t.content) then [SaidWritten(t.file)] + rest
      else if t.file == lockPath then [SaidUnchanged(t.file)] + rest
      else rest
  }

  lemma {:induction false} ReportGrows(done: seq<Target>, t: Target, lockPath: string, fs: Files)
    ensures Apply(fs, done + [t]) == Apply(fs, done)[t.file := t.content]
    ensures Report(done + [t], lockPath, fs)
              == Report(done, lockPath, fs) + Report([t], lockPath, Apply(fs, done))
  {
    if done == [] {
      assert [] + [t] == [t];
      assert Report(done, lockPath, fs) == [];
    } else {
      assert (done + [t])[1..] == done[1..] + [t];
      ReportGrows(done[1..], t, lockPath, fs[done[0].file := done[0].content]);
    }
  }

  ghost predicate AllUnchanged(said: seq<Said>) {
    forall i :: 0 <= i < |said| ==> said[i].SaidUnchanged?
  }

  lemma AllUnchangedOf(a: seq<Said>, b: seq<Said>)
    ensures AllUnchanged(a + b) <==> AllUnchanged(a) && AllUnchanged(b)
  {
    if AllUnchanged(a + b) {
      forall i | 0 <= i < |a| ensures a[i].SaidUnchanged? { assert (a + b)[i] == a[i]; }
      forall i | 0 <= i < |b| ensures b[i].SaidUnchanged? { assert (a + b)[|a| + i] == b[i]; }
    }
  }

  lemma OneLine(t: Target, lockPath: string, fs: Files)
    ensures var written := At(fs, t.file) != Some(t.content);
            && Report([t], lockPath, fs) ==
               (if written then [SaidWritten(t.file)] else if t.file == lockPath then [SaidUnchanged(t.file)] else [])
            && (AllUnchanged(Report([t], lockPath, fs)) <==> !written)
  {
    if At(fs, t.file) != Some(t.content) { assert Report([t], lockPath, fs)[0].SaidWritten?; }
  }

  method WriteResolution(targets: seq<Target>, lockPath: string, files: FileSet) returns (ok: bool, said: seq<Said>)
    requires files.Valid()
    modifies files, files.disk
    ensures files.Valid() && files.disk.faults == old(files.disk.faults) + if ok then 0 else 1
    ensures ok ==> files.disk.files == Apply(old(files.disk.files), targets)
    ensures ok ==> said == Report(targets, lockPath, old(files.disk.files))
    ensures ok && AllUnchanged(said) ==> files.written == old(files.written)
    ensures forall f :: Logged(files.undo, f) ==> Logged(old(files.undo), f) || Targeted(targets, f)
  {
    said := [];
    ghost var was := files.disk.files;
    for i := 0 to |targets|
      invariant files.Valid() && files.disk.faults == old(files.disk.faults)
      invariant files.disk.files == Apply(was, targets[..i]) && said == Report(targets[..i], lockPath, was)
      invariant AllUnchanged(said) ==> files.written == old(files.written)
      invariant forall f :: Logged(files.undo, f) ==> Logged(old(files.undo), f) || Targeted(targets, f)
    {
      var t := targets[i];
      assert targets[..i + 1] == targets[..i] + [t];
      ReportGrows(targets[..i], t, lockPath, was);
      ghost var log := files.undo;
      assert t in targets;
      var r := files.Write(t.file, t.content);
      LoggedOneMore(log, files.undo, t.file);
      if r.Threw? { return false, []; }
      assert Apply(was, targets[..i])[t.file := t.content] == files.disk.files;
      var line := if r.Written? then [SaidWritten(t.file)]
                  else if t.file == lockPath then [SaidUnchanged(t.file)] else [];
      OneLine(t, lockPath, Apply(was, targets[..i]));
      AllUnchangedOf(said, line);
      said := said + line;
    }
    assert targets[..|targets|] == targets;
    ok := true;
  }

  lemma LoggedOneMore(log: seq<Undo>, now: seq<Undo>, file: string)
    requires now == log || exists before :: now == log + [Undo(file, before)]
    ensures forall f :: Logged(now, f) ==> Logged(log, f) || f == file
  {
    forall f | Logged(now, f) ensures Logged(log, f) || f == file {
      var i :| 0 <= i < |now| && now[i].file == f;
      if i < |log| { assert log[i].file == f; }
    }
  }

  function OnlyLocks(targets: seq<Target>, lockPath: string): seq<Said> {
    if targets == [] then []
    else (if targets[0].file == lockPath then [SaidUnchanged(lockPath)] else []) + OnlyLocks(targets[1..], lockPath)
  }

  /** A report names no written file exactly when everything already was as it should be; it then
      names the lock and nothing else. */
  lemma {:induction false} NothingWrittenIffSettled(targets: seq<Target>, lockPath: string, fs: Files)
    ensures AllUnchanged(Report(targets, lockPath, fs)) <==> Settled(targets, fs)
    ensures Settled(targets, fs) ==> Report(targets, lockPath, fs) == OnlyLocks(targets, lockPath)
  {
    if targets != [] {
      var t, rest := targets[0], targets[1..];
      NothingWrittenIffSettled(rest, lockPath, fs[t.file := t.content]);
      assert targets == [t] + rest;
      if At(fs, t.file) == Some(t.content) {
        assert fs[t.file := t.content] == fs;
        var tail := Report(rest, lockPath, fs);
        AllUnchangedOf([SaidUnchanged(t.file)], tail);
        assert Settled(targets, fs) <==> Settled(rest, fs);
      } else {
        assert t in targets && SaidWritten(t.file) == Report(targets, lockPath, fs)[0];
      }
    }
  }

  ghost predicate DistinctFiles(targets: seq<Target>) {
    forall i, j :: 0 <= i < j < |targets| ==> targets[i].file != targets[j].file
  }

  lemma {:induction false} NoLocksAmong(targets: seq<Target>, lockPath: string)
    requires !Targeted(targets, lockPath)
    ensures OnlyLocks(targets, lockPath) == []
  {
    if targets != [] {
      assert targets == [targets[0]] + targets[1..];
      assert targets[0] in targets;
      NoLocksAmong(targets[1..], lockPath);
    }
  }

  /** Writing the same resolution again writes nothing, exactly when no path is given two contents;
      with distinct paths it then reports the one line, that the lock is unchanged. */
  lemma SecondWriteIsQuiet(resolution: Resolution, lockPath: string, fs: Files)
    ensures var targets := ResolutionFiles(resolution, lockPath);
            var again := Report(targets, lockPath, Apply(fs, targets));
            && (AllUnchanged(again) <==> Consistent(targets))
            && (DistinctFiles(targets) ==> again == [SaidUnchanged(lockPath)])
  {
    var targets := ResolutionFiles(resolution, lockPath);
    SettledIffConsistent(fs, targets);
    NothingWrittenIffSettled(targets, lockPath, Apply(fs, targets));
    if DistinctFiles(targets) {
      assert Consistent(targets);
      assert targets[1..] == resolution.modules;
      assert !Targeted(resolution.modules, lockPath) by {
        assert forall k :: 0 <= k < |resolution.modules| ==> resolution.modules[k] == targets[k + 1];
      }
      NoLocksAmong(resolution.modules, lockPath);
    }
  }

  // ----- the command -----

  datatype Verb = Add | Enable | Disable | Remove

  /** Everything the command asks of code outside it. A plugin of a manifest maps to whether it is
      enabled. */
  datatype Assembly = Assembly(
    parse: string -> Option<map<string, bool>>,          // none: the manifest does not parse
    edited: (string, Verb, string) -> string,            // the manifest's text after an edit
    installed: string -> bool,
    lockReadable: Option<string> -> bool,
    resolve: (Files, Option<string>) -> Option<Resolution>)

  datatype Refusal =
    | ManifestMissing | ManifestUnreadable | AlreadyIn(enabled: bool) | NotInstalled | NotIn | LockUnreadable

  datatype Decision = No(why: Refusal) | NothingToDo | Propose(text: string)

  /** What a verb asks of a manifest, before anything is written. */
  function Decide(assembly: Assembly, verb: Verb, id: string, manifest: Option<string>): Decision {
    if manifest.None? then No(ManifestMissing)
    else match assembly.parse(manifest.value)
      case None => No(ManifestUnreadable)
      case Some(plugins) =>
        match verb
        case Add =>
          if id in plugins then No(AlreadyIn(plugins[id]))
          else if !assembly.installed(id) then No(NotInstalled)
          else Propose(assembly.edited(manifest.value, verb, id))
        case Remove =>
          if id !in plugins then No(NotIn) else Propose(assembly.edited(manifest.value, verb, id))
        case _ =>
          if id !in plugins then No(NotIn)
          else if plugins[id] == verb.Enable? then NothingToDo
          else Propose(assembly.edited(manifest.value, verb, id))
  }

  datatype Outcome =
    | Usage
    | Declined(why: Refusal)
    | AlreadySo
    | Refused                    // and every file put back
    | Stuck                      // a restoring write threw as well
    | Applied(said: seq<Said>)

  /** The manifest, the lock and the derived modules, as the command proposes them. */
  function Proposal(assembly: Assembly, manifestPath: string, lockPath: string, text: string, fs: Files):
    Option<seq<Target>>
  {
    match assembly.resolve(fs[manifestPath := text], At(fs, lockPath))
    case None => None
    case Some(resolution) => Some([Target(manifestPath, text)] + ResolutionFiles(resolution, lockPath))
  }

  /** The verb changes something there: it adds a plugin that is installed and not there, or takes away one
      that is there, or switches one that is there the other way. */
  predicate Proposes(assembly: Assembly, verb: Verb, id: string, had: Option<map<string, bool>>) {
    had.Some? &&
    match verb
    case Add => id !in had.value && assembly.installed(id)
    case Remove => id in had.value
    case Enable => id in had.value && !had.value[id]
    case Disable => id in had.value && had.value[id]
  }

  /** What is decided, by what the manifest's text holds. */
  lemma DecidedBy(assembly: Assembly, verb: Verb, id: string, text: Option<string>)
    ensures var had := if text.Some? then assembly.parse(text.value) else None;
            var d := Decide(assembly, verb, id, text);
            && (d == No(ManifestMissing) <==> text == None)
            && (d == No(ManifestUnreadable) <==> text.Some? && had == None)
            && (forall b :: d == No(AlreadyIn(b)) <==>
                  had.Some? && id in had.value && verb == Add && had.value[id] == b)
            && (d == No(NotInstalled) <==> had.Some? && id !in had.value && verb == Add && !assembly.installed(id))
            && (d == No(NotIn) <==> had.Some? && id !in had.value && verb != Add)
            && (d == NothingToDo <==>
                  had.Some? && id in had.value
                  && ((verb == Enable && had.value[id]) || (verb == Disable && !had.value[id])))
            && (d.Propose? <==> Proposes(assembly, verb, id, had))
            && (d.Propose? ==> d.text == assembly.edited(text.value, verb, id))
            && (d.No? ==> !d.why.LockUnreadable?)
  {
  }

  /** Writes the manifest and what it resolves to, all of it exactly when nothing throws and it resolves; else
      every file is as it was - unless an operation throws while putting back, and then no file outside the
      proposal has changed. `mid` is how many operations had thrown when putting back began. */
  method WriteProposal(text: string, previous: Option<string>, manifestPath: string, lockPath: string,
                       assembly: Assembly, disk: Disk) returns (outcome: Outcome, ghost mid: nat)
    requires previous == At(disk.files, lockPath)
    modifies disk
    ensures old(disk.faults) <= mid <= disk.faults
    ensures outcome.Applied? || outcome.Refused? || outcome.Stuck?
    ensures var proposal := Proposal(assembly, manifestPath, lockPath, text, old(disk.files));
            && (outcome.Applied? ==>
                  && disk.faults == old(disk.faults) && proposal.Some?
                  && disk.files == Apply(old(disk.files), proposal.value)
                  && outcome.said == Report(proposal.value[1..], lockPath, old(disk.files)[manifestPath := text]))
            && (outcome.Refused? || outcome.Stuck? ==> mid > old(disk.faults) || proposal.None?)
            && forall f :: f != manifestPath && (proposal.Some? ==> !Targeted(proposal.value, f)) ==>
                 At(disk.files, f) == At(old(disk.files), f)
    ensures outcome.Refused? ==> disk.files == old(disk.files) && disk.faults == mid
    ensures outcome.Stuck? ==> disk.faults > mid
  {
    ghost var was := disk.files;
    var files := new FileSet(disk);
    var resolution := None;
    var said: seq<Said> := [];
    var r := files.Write(manifestPath, text);
    LoggedOneMore([], files.undo, manifestPath);
    var ok := !r.Threw?;
    if ok {
      assert disk.files == was[manifestPath := text];
      resolution := assembly.resolve(disk.files, previous);
      ok := resolution.Some?;
    }
    if ok {
      ok, said := WriteResolution(ResolutionFiles(resolution.value, lockPath), lockPath, files);
    }
    if ok {
      var targets := [Target(manifestPath, text)] + ResolutionFiles(resolution.value, lockPath);
      assert targets[1..] == ResolutionFiles(resolution.value, lockPath);
      forall f | !Targeted(targets, f) ensures At(disk.files, f) == At(was, f) { ApplyAt(was, targets, f); }
      return Applied(said), disk.faults;
    }
    mid := disk.faults;
    var restored := files.Rollback();
    forall f | !Logged(files.undo, f) ensures At(disk.files, f) == At(was, f) {
      ReplayLeavesOthers(files.undo, disk.files, f);
    }
    return if restored then Refused else Stuck, mid;
  }

  /** Which outcome there is, by what the manifest holds and the verb; nothing is written but of a proposal,
      and that whole or, when it cannot be, not at all. */
  method RunPluginCommand(verb: Option<Verb>, id: string, manifestPath: string, lockPath: string,
                          assembly: Assembly, disk: Disk) returns (outcome: Outcome, ghost mid: nat)
    modifies disk
    ensures old(disk.faults) <= mid <= disk.faults
    ensures outcome.Usage? || outcome.Declined? || outcome.AlreadySo? || outcome.Applied? ==>
              disk.faults == old(disk.faults)
    ensures outcome.Usage? <==> verb.None? || id == ""
    ensures !outcome.Usage? ==>
              var text := At(old(disk.files), manifestPath);
              var had := if text.Some? then assembly.parse(text.value) else None;
              && (outcome == Declined(ManifestMissing) <==> text == None)
              && (outcome == Declined(ManifestUnreadable) <==> text.Some? && had == None)
              && (forall b :: outcome == Declined(AlreadyIn(b)) <==>
                    had.Some? && id in had.value && verb == Some(Add) && had.value[id] == b)
              && (outcome == Declined(NotInstalled) <==>
                    had.Some? && id !in had.value && verb == Some(Add) && !assembly.installed(id))
              && (outcome == Declined(NotIn) <==> had.Some? && id !in had.value && verb != Some(Add))
              && (outcome == AlreadySo <==>
                    had.Some? && id in had.value
                    && ((verb == Some(Enable) && had.value[id]) || (verb == Some(Disable) && !had.value[id])))
              && (outcome == Declined(LockUnreadable) <==>
                    Proposes(assembly, verb.value, id, had) && !assembly.lockReadable(At(old(disk.files), lockPath)))
              && (outcome.Applied? || outcome.Refused? || outcome.Stuck? <==>
                    Proposes(assembly, verb.value, id, had) && assembly.lockReadable(At(old(disk.files), lockPath)))
    ensures outcome.Usage? || outcome.Declined? || outcome.AlreadySo? || outcome.Refused? ==>
              disk.files == old(disk.files)
    ensures outcome.Applied? || outcome.Refused? || outcome.Stuck? ==>
              var text := assembly.edited(old(disk.files)[manifestPath], verb.value, id);
              var proposal := Proposal(assembly, manifestPath, lockPath, text, old(disk.files));
              && (outcome.Applied? ==>
                    && proposal.Some? && disk.files == Apply(old(disk.files), proposal.value)
                    && outcome.said == Report(proposal.value[1..], lockPath, old(disk.files)[manifestPath := text]))
              && (outcome.Refused? || outcome.Stuck? ==> mid > old(disk.faults) || proposal.None?)
              && (outcome.Stuck? ==>
                    forall f :: f != manifestPath && (proposal.Some? ==> !Targeted(proposal.value, f)) ==>
                      At(disk.files, f) == At(old(disk.files), f))
    ensures outcome.Refused? ==> disk.faults == mid
    ensures outcome.Stuck? ==> disk.faults > mid
  {
    mid := disk.faults;
    if verb.None? || id == "" { return Usage, mid; }
    DecidedBy(assembly, verb.value, id, At(disk.files, manifestPath));
    var decided := Decide(assembly, verb.value, id, At(disk.files, manifestPath));
    if decided.No? { return Declined(decided.why), mid; }
    if decided.NothingToDo? { return AlreadySo, mid; }
    var previous := At(disk.files, lockPath);
    if !assembly.lockReadable(previous) { return Declined(LockUnreadable), mid; }
    outcome, mid := WriteProposal(decided.text, previous, manifestPath, lockPath, assembly, disk);
  }
}
