/** Snapshot, connect and disconnect as they run on a file system, each tied to its trace. */
module RecoveryEngine {
  import opened Text
  import opened Files
  import opened Recovery

  /** Operations done and the disk they lead to. */
  twostate predicate Did(fs: FileSystem, steps: seq<Step>)
    reads fs
  {
    && fs.log == old(fs.log) + steps
    && fs.Now() == DoAll(old(fs.Now()), steps)
    && Fresh(fs.Now())
  }

  lemma Then(d: Disk, log: seq<Step>, a: seq<Step>, b: seq<Step>)
    ensures log + a + b == log + (a + b)
    ensures DoAll(DoAll(d, a), b) == DoAll(d, a + b)
  {
    DoAllAppend(d, a, b);
  }

  lemma Regroup<T>(a: seq<T>, b: seq<T>, c: seq<T>)
    ensures (a + b) + c == a + (b + c)
    ensures b == [] ==> a + b == a
  {
  }

  class Snapshot {
    const fs: FileSystem

    constructor (fs: FileSystem)
      ensures this.fs == fs
    {
      this.fs := fs;
    }

    method TakeFile(file: File)
      requires Fresh(fs.Now())
      modifies fs
      ensures Did(fs, TakeOne(old(fs.Now()), file))
    {
      TakeEffect(fs.Now(), file);
      NoSteps(fs.Now());
      var backup := fs.Get(Backup(file));
      var marker := fs.Get(Marker(file));
      if backup.Some? || marker.Some? {
        return;
      }
      var current := fs.Get(Config(file));
      match current
      case Some(bytes) => fs.WriteAtomic(Backup(file), bytes);
      case None => fs.WriteAtomic(Marker(file), []);
    }

    method Take(files: seq<File>)
      requires Fresh(fs.Now())
      modifies fs
      ensures Did(fs, TakeSteps(old(fs.Now()), files))
    {
      hide DoAll, TakeOne, Fresh;
      ghost var d, log, done := fs.Now(), fs.log, [];
      NoSteps(d);
      var n := 0;
      while n < |files|
        invariant n <= |files| && Fresh(fs.Now())
        invariant fs.log == log + done && fs.Now() == DoAll(d, done)
        invariant TakeSteps(d, files) == done + TakeSteps(fs.Now(), files[n..])
      {
        ghost var steps := TakeOne(fs.Now(), files[n]);
        ghost var before := done;
        Unroll(files, n);
        TakeFile(files[n]);
        done := done + steps;
        Then(d, log, before, steps);
        Regroup(before, steps, TakeSteps(fs.Now(), files[n + 1..]));
        n := n + 1;
      }
      assert TakeSteps(fs.Now(), files[n..]) == [];
      assert done + [] == done;
    }

    method ReadBackup(file: File) returns (bytes: Option<Bytes>)
      ensures bytes == Read(fs.Now(), Backup(file))
    {
      bytes := fs.Get(Backup(file));
    }

    method ClearRecord(file: File)
      requires Fresh(fs.Now())
      modifies fs
      ensures Did(fs, ClearSteps(file))
    {
      ClearEffect(fs.Now(), file);
      fs.Unlink(Backup(file));
      fs.Unlink(Marker(file));
    }

    method PreserveBad(file: File)
      requires Fresh(fs.Now())
      modifies fs
      ensures Did(fs, [Rename(Backup(file), Aside(file, old(fs.next)))])
    {
      OneStep(fs.Now(), Rename(Backup(file), Aside(file, fs.next)));
      fs.Move(Backup(file), Aside(file, fs.next));
    }
  }

  lemma Unroll<T>(xs: seq<T>, n: nat)
    requires n < |xs|
    ensures xs[n..] != [] && xs[n..][0] == xs[n] && xs[n..][1..] == xs[n + 1..]
  {
  }

  class Wiring {
    const fs: FileSystem
    const snapshot: Snapshot

    ghost predicate Valid() {
      snapshot.fs == fs
    }

    constructor (fs: FileSystem)
      ensures Valid() && this.fs == fs
    {
      this.fs := fs;
      snapshot := new Snapshot(fs);
    }

    /** What an agent specification writes, file by file. */
    method ApplyEdits(edits: seq<Edit>)
      requires Fresh(fs.Now())
      modifies fs
      ensures Did(fs, EditAllSteps(old(fs.Now()), edits))
    {
      hide DoAll, EditSteps, Fresh;
      ghost var d, log, done := fs.Now(), fs.log, [];
      NoSteps(d);
      var n := 0;
      while n < |edits|
        invariant n <= |edits| && Fresh(fs.Now())
        invariant fs.log == log + done && fs.Now() == DoAll(d, done)
        invariant EditAllSteps(d, edits) == done + EditAllSteps(fs.Now(), edits[n..])
      {
        ghost var steps := EditSteps(fs.Now(), edits[n]);
        ghost var before := done;
        Unroll(edits, n);
        ApplyEdit(edits[n]);
        done := done + steps;
        Then(d, log, before, steps);
        Regroup(before, steps, EditAllSteps(fs.Now(), edits[n + 1..]));
        n := n + 1;
      }
      assert EditAllSteps(fs.Now(), edits[n..]) == [];
      assert done + [] == done;
    }

    method ApplyEdit(edit: Edit)
      requires Fresh(fs.Now())
      modifies fs
      ensures Did(fs, EditSteps(old(fs.Now()), edit))
    {
      EditEffect(fs.Now(), edit);
      match edit.contents
      case Some(bytes) => fs.WriteAtomic(Config(edit.file), bytes);
      case None => fs.Unlink(Config(edit.file));
    }

    method RestoreFile(file: File)
      requires Valid() && Fresh(fs.Now())
      modifies fs
      ensures Did(fs, RestoreOne(old(fs.Now()), file))
    {
      RestoreEffect(fs.Now(), file);
      NoSteps(fs.Now());
      var backup := snapshot.ReadBackup(file);
      var current := fs.Get(Config(file));
      match (backup, current)
      case (Some(bytes), Some(now)) =>
        if bytes != now {
          fs.WriteAtomic(Config(file), bytes);
        }
      case (Some(bytes), None) => fs.WriteAtomic(Config(file), bytes);
      case (None, Some(_)) => fs.Unlink(Config(file));
      case (None, None) =>
    }

    method RestoreAfterFailedConnect(files: seq<File>, broken: set<File>)
      requires Valid() && Fresh(fs.Now())
      modifies fs
      ensures Did(fs, RestoreSteps(old(fs.Now()), files, broken))
    {
      hide DoAll, RestoreOne, Fresh;
      ghost var d, log, done := fs.Now(), fs.log, [];
      NoSteps(d);
      var n := 0;
      while n < |files|
        invariant n <= |files| && Fresh(fs.Now())
        invariant fs.log == log + done && fs.Now() == DoAll(d, done)
        invariant RestoreSteps(d, files, broken) == done + RestoreSteps(fs.Now(), files[n..], broken)
      {
        ghost var steps := if files[n] in broken then [] else RestoreOne(fs.Now(), files[n]);
        ghost var before := done;
        Unroll(files, n);
        NoSteps(fs.Now());
        if files[n] !in broken {
          RestoreFile(files[n]);
        }
        done := done + steps;
        Then(d, log, before, steps);
        Regroup(before, steps, RestoreSteps(fs.Now(), files[n + 1..], broken));
        n := n + 1;
      }
      assert RestoreSteps(fs.Now(), files[n..], broken) == [];
      assert done + [] == done;
    }

    /** `ok` is whether the agent's edits went through; on failure only `edits` were made. */
    method Connect(files: seq<File>, edits: seq<Edit>, ok: bool, broken: set<File>)
      requires Valid() && Fresh(fs.Now())
      modifies fs
      ensures Did(fs, ConnectSteps(old(fs.Now()), files, edits, ok, broken))
      ensures ok ==> forall f :: Read(fs.Now(), Config(f)) == AfterEdits(edits, f, Read(old(fs.Now()), Config(f)))
      ensures !ok ==> forall f | f in files && f !in broken ::
                        Record(fs.Now(), f).Some? && Read(fs.Now(), Config(f)) == Record(fs.Now(), f).value
      ensures forall f :: Record(fs.Now(), f)
                == if f in files && Record(old(fs.Now()), f) == None then Some(Read(old(fs.Now()), Config(f)))
                   else Record(old(fs.Now()), f)
    {
      hide DoAll, Fresh, TakeSteps, EditAllSteps, RestoreSteps, AfterEdits, Record;
      ghost var d, log := fs.Now(), fs.log;
      ghost var take := TakeSteps(d, files);
      snapshot.Take(files);
      ghost var write := EditAllSteps(fs.Now(), edits);
      ApplyEdits(edits);
      Then(d, log, take, write);
      if ok {
        assert take + write + [] == take + write;
      } else {
        ghost var restore := RestoreSteps(fs.Now(), files, broken);
        RestoreAfterFailedConnect(files, broken);
        Then(d, log, take + write, restore);
      }
      forall f
        ensures Record(fs.Now(), f)
             == if f in files && Record(d, f) == None then Some(Read(d, Config(f))) else Record(d, f)
        ensures Read(fs.Now(), Config(f))
             == if !ok && f in files && f !in broken then Record(fs.Now(), f).value
                else AfterEdits(edits, f, Read(d, Config(f)))
      {
        ConnectOutcome(d, files, edits, ok, broken, f);
      }
    }

    method Settle(rules: Rules, file: File, unreadable: set<File>) returns (verdict: Verdict)
      requires Valid() && Fresh(fs.Now())
      modifies fs
      ensures verdict == Decide(rules, old(fs.Now()), file, unreadable)
      ensures Did(fs, SettleOne(rules, old(fs.Now()), file, unreadable))
    {
      hide DoAll, WriteSteps, Fresh, ClearSteps, Written;
      ghost var d, log := fs.Now(), fs.log;
      SettleEffect(d, file, Decide(rules, d, file, unreadable));
      NoSteps(d);
      assert log + [] == log;
      var backup := snapshot.ReadBackup(file);
      var marker := fs.Get(Marker(file));
      var current := fs.Get(Config(file));
      if backup.Some? && file in unreadable {
        snapshot.PreserveBad(file);
        return SetAside;
      }
      match (backup, current)
      case (Some(bytes), Some(now)) =>
        if now == bytes {
          snapshot.ClearRecord(file);
          return Clear;
        } else if rules.same(file, now, bytes) {
          fs.WriteAtomic(Config(file), bytes);
          snapshot.ClearRecord(file);
          Then(d, log, WriteSteps(d, Config(file), bytes), ClearSteps(file));
          return RestoreBytes(bytes);
        } else {
          return Keep;
        }
      case (Some(_), None) =>
        return Keep;
      case (None, Some(now)) =>
        if marker.None? {
          return Nothing;
        } else if rules.empty(file, now) {
          OneStep(d, Remove(Config(file)));
          EditEffect(d, Edit(file, None));
          fs.Unlink(Config(file));
          snapshot.ClearRecord(file);
          Then(d, log, [Remove(Config(file))], ClearSteps(file));
          return RemoveFile;
        } else {
          return Keep;
        }
      case (None, None) =>
        if marker.Some? {
          snapshot.ClearRecord(file);
          return Clear;
        }
        return Nothing;
    }

    /** The decision for every file in turn; each unreadable backup is worth a warning. */
    method SettleAll(rules: Rules, files: seq<File>, unreadable: set<File>) returns (kept: seq<File>, corrupt: seq<string>)
      requires Valid() && Fresh(fs.Now())
      modifies fs
      ensures Did(fs, SettleSteps(rules, old(fs.Now()), files, unreadable))
      ensures kept == Kept(rules, old(fs.Now()), files, unreadable)
      ensures corrupt == Corrupt(rules, old(fs.Now()), files, unreadable)
    {
      hide DoAll, Fresh, SettleOne, Decide;
      ghost var d, log, done := fs.Now(), fs.log, [];
      NoSteps(d);
      kept, corrupt := [], [];
      var n := 0;
      while n < |files|
        invariant n <= |files| && Fresh(fs.Now())
        invariant fs.log == log + done && fs.Now() == DoAll(d, done)
        invariant SettleSteps(rules, d, files, unreadable) == done + SettleSteps(rules, fs.Now(), files[n..], unreadable)
        invariant Kept(rules, d, files, unreadable) == kept + Kept(rules, fs.Now(), files[n..], unreadable)
        invariant Corrupt(rules, d, files, unreadable) == corrupt + Corrupt(rules, fs.Now(), files[n..], unreadable)
      {
        ghost var steps, before := SettleOne(rules, fs.Now(), files[n], unreadable), done;
        ghost var keptBefore, corruptBefore := kept, corrupt;
        Unroll(files, n);
        var verdict := Settle(rules, files[n], unreadable);
        if verdict.Keep? {
          kept := kept + [files[n]];
        } else if verdict.SetAside? {
          corrupt := corrupt + ["backup_corrupt"];
        }
        done := done + steps;
        Then(d, log, before, steps);
        Regroup(before, steps, SettleSteps(rules, fs.Now(), files[n + 1..], unreadable));
        Regroup(keptBefore, if verdict.Keep? then [files[n]] else [], Kept(rules, fs.Now(), files[n + 1..], unreadable));
        Regroup(corruptBefore, if verdict.SetAside? then ["backup_corrupt"] else [],
                Corrupt(rules, fs.Now(), files[n + 1..], unreadable));
        n := n + 1;
      }
      assert SettleSteps(rules, fs.Now(), files[n..], unreadable) == [] && Kept(rules, fs.Now(), files[n..], unreadable) == [];
      assert Corrupt(rules, fs.Now(), files[n..], unreadable) == [] && corrupt + [] == corrupt;
      assert done + [] == done && kept + [] == kept;
    }

    /** The agent's edits, then the three-way decision for every file. */
    method Disconnect(rules: Rules, files: seq<File>, edits: seq<Edit>, unreadable: set<File>, stashEmpty: bool)
      returns (kept: seq<File>, warnings: seq<string>)
      requires Valid() && Fresh(fs.Now())
      modifies fs
      ensures Did(fs, DisconnectSteps(rules, old(fs.Now()), files, edits, unreadable))
      ensures kept == Kept(rules, DoAll(old(fs.Now()), EditAllSteps(old(fs.Now()), edits)), files, unreadable)
      ensures warnings == (if stashEmpty then ["stash_missing"] else [])
                + Corrupt(rules, DoAll(old(fs.Now()), EditAllSteps(old(fs.Now()), edits)), files, unreadable)
                + (if kept != [] then ["kept_backup"] else [])
    {
      hide DoAll, Fresh, EditAllSteps, SettleSteps, Kept, Corrupt;
      ghost var d, log, write := fs.Now(), fs.log, EditAllSteps(fs.Now(), edits);
      ApplyEdits(edits);
      ghost var settle := SettleSteps(rules, fs.Now(), files, unreadable);
      var corrupt;
      kept, corrupt := SettleAll(rules, files, unreadable);
      Then(d, log, write, settle);
      warnings := (if stashEmpty then ["stash_missing"] else []) + corrupt;
      if kept != [] {
        warnings := warnings + ["kept_backup"];
      }
    }
  }
}
