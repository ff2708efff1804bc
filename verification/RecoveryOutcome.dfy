/** What a disconnect leaves of every covered file. */
module RecoveryOutcome {
  import opened Text
  import opened Files
  import opened Recovery

  /** The file can be put back as the record has it without losing a change. */
  predicate Restorable(rules: Rules, f: File, record: Option<Bytes>, current: Option<Bytes>) {
    match (record, current)
    case (Some(bytes), Some(now)) => now == bytes || rules.same(f, now, bytes)
    case (Some(_), None) => false
    case (None, Some(now)) => rules.empty(f, now)
    case (None, None) => true
  }

  predicate Recorded(d: Disk, f: File) {
    Record(d, f).Some? && OneRecord(d, f)
  }

  /** What one file's decision leaves, the record being readable. */
  lemma SettledFile(rules: Rules, d: Disk, f: File, unreadable: set<File>)
    requires Recorded(d, f) && f !in unreadable
    ensures var v := Decide(rules, d, f, unreadable);
      var e := Settled(d, f, v);
      && (v.Keep? <==> !Restorable(rules, f, Record(d, f).value, Read(d, Config(f))))
      && (v.Keep? ==> e == d)
      && (!v.Keep? ==> Record(e, f) == None && Read(e, Config(f)) == Record(d, f).value)
  {
  }

  /** Another file's decision does not touch `g`. */
  lemma SettledElsewhere(rules: Rules, d: Disk, f: File, g: File, unreadable: set<File>)
    requires f != g
    ensures SameFor(d, Settled(d, f, Decide(rules, d, f, unreadable)), g)
  {
  }

  predicate Distinct(files: seq<File>) {
    forall i, j | 0 <= i < j < |files| :: files[i] != files[j]
  }

  lemma {:induction false} SettleFrame(rules: Rules, d: Disk, files: seq<File>, g: File, unreadable: set<File>)
    requires Fresh(d) && g !in files
    ensures SameFor(d, DoAll(d, SettleSteps(rules, d, files, unreadable)), g)
    ensures g !in Kept(rules, d, files, unreadable)
    decreases |files|
  {
    hide DoAll, SettleOne;
    NoSteps(d);
    if files != [] {
      var v := Decide(rules, d, files[0], unreadable);
      SettleEffect(d, files[0], v);
      var a := Settled(d, files[0], v);
      assert SettleOne(rules, d, files[0], unreadable) == VerdictSteps(d, files[0], v) by { SettleOneIs(rules, d, files[0], unreadable); }
      SettledElsewhere(rules, d, files[0], g, unreadable);
      SettleFrame(rules, a, files[1..], g, unreadable);
      DoAllAppend(d, VerdictSteps(d, files[0], v), SettleSteps(rules, a, files[1..], unreadable));
    }
  }

  lemma SettleOneIs(rules: Rules, d: Disk, f: File, unreadable: set<File>)
    ensures SettleOne(rules, d, f, unreadable) == VerdictSteps(d, f, Decide(rules, d, f, unreadable))
  {
  }

  /**
   * After the agent's edits: a file with a readable record is reported as kept if and only if it
   * cannot be restored without losing a change, and then it and its record are as they were;
   * every other covered file is back as its record had it, and the record is gone.
   */
  lemma {:induction false} SettleOutcome(rules: Rules, d: Disk, files: seq<File>, f: File, unreadable: set<File>)
    requires Fresh(d) && Distinct(files) && f in files && Recorded(d, f) && f !in unreadable
    ensures var e := DoAll(d, SettleSteps(rules, d, files, unreadable));
      var (kept, record) := (Kept(rules, d, files, unreadable), Record(d, f).value);
      && (f in kept <==> !Restorable(rules, f, record, Read(d, Config(f))))
      && (f in kept ==> SameFor(d, e, f))
      && (f !in kept ==> Read(e, Config(f)) == record && Record(e, f) == None)
    decreases |files|
  {
    hide DoAll, SettleOne, Restorable;
    var first := files[0];
    var v := Decide(rules, d, first, unreadable);
    var a := Settled(d, first, v);
    SettleEffect(d, first, v);
    SettleOneIs(rules, d, first, unreadable);
    DoAllAppend(d, VerdictSteps(d, first, v), SettleSteps(rules, a, files[1..], unreadable));
    FirstOrLater(files, f);
    if f == first {
      SettledFile(rules, d, f, unreadable);
      assert f !in files[1..];
      SettleFrame(rules, a, files[1..], f, unreadable);
    } else {
      SettledElsewhere(rules, d, first, f, unreadable);
      SettleOutcome(rules, a, files[1..], f, unreadable);
    }
  }

  /** The whole of `disconnect`, the agent's edits included. */
  lemma DisconnectOutcome(rules: Rules, d: Disk, files: seq<File>, edits: seq<Edit>, f: File, unreadable: set<File>)
    requires Fresh(d) && Distinct(files) && f in files && Recorded(d, f) && f !in unreadable
    ensures var edited := DoAll(d, EditAllSteps(d, edits));
      var e := DoAll(d, DisconnectSteps(rules, d, files, edits, unreadable));
      var (now, record) := (AfterEdits(edits, f, Read(d, Config(f))), Record(d, f).value);
      var kept := Kept(rules, edited, files, unreadable);
      && (f in kept <==> !Restorable(rules, f, record, now))
      && (f in kept ==> Read(e, Config(f)) == now && Record(e, f) == Some(record))
      && (f !in kept ==> Read(e, Config(f)) == record && Record(e, f) == None)
  {
    hide DoAll, EditAllSteps, SettleSteps, Kept, Restorable, AfterEdits;
    var edited := DoAll(d, EditAllSteps(d, edits));
    EditsKeepRecords(d, edits);
    EditsApply(d, edits, f);
    assert Read(edited, Backup(f)) == Read(d, Backup(f)) && Read(edited, Marker(f)) == Read(d, Marker(f));
    SettleOutcome(rules, edited, files, f, unreadable);
    DoAllAppend(d, EditAllSteps(d, edits), SettleSteps(rules, edited, files, unreadable));
  }

  // ---- files that have no readable record -------------------------------------------------------------

  predicate Unreadable(d: Disk, f: File, unreadable: set<File>) {
    Backup(f) in d.entries && f in unreadable
  }

  lemma UnreadableFile(rules: Rules, d: Disk, f: File, unreadable: set<File>)
    requires Unreadable(d, f, unreadable)
    ensures var e := Settled(d, f, Decide(rules, d, f, unreadable));
      && Read(e, Config(f)) == Read(d, Config(f)) && Read(e, Backup(f)) == None && Read(e, Marker(f)) == Read(d, Marker(f))
      && Read(e, Aside(f, d.next)) == Read(d, Backup(f))
  {
  }

  lemma {:induction false} AsideStays(rules: Rules, d: Disk, files: seq<File>, f: File, id: nat, unreadable: set<File>)
    requires Fresh(d) && f !in files
    ensures Read(DoAll(d, SettleSteps(rules, d, files, unreadable)), Aside(f, id)) == Read(d, Aside(f, id))
    decreases |files|
  {
    hide DoAll, SettleOne;
    NoSteps(d);
    if files != [] {
      var v := Decide(rules, d, files[0], unreadable);
      SettleEffect(d, files[0], v);
      SettleOneIs(rules, d, files[0], unreadable);
      var a := Settled(d, files[0], v);
      AsideStays(rules, a, files[1..], f, id, unreadable);
      DoAllAppend(d, VerdictSteps(d, files[0], v), SettleSteps(rules, a, files[1..], unreadable));
    }
  }

  /** An unreadable record is set aside whole, and without a record nothing is decided; the file stays either way. */
  lemma {:induction false} SettleWithoutRecord(rules: Rules, d: Disk, files: seq<File>, f: File, unreadable: set<File>)
    requires Fresh(d) && Distinct(files) && f in files
    requires Unreadable(d, f, unreadable) || Record(d, f) == None
    ensures var e := DoAll(d, SettleSteps(rules, d, files, unreadable));
      && f !in Kept(rules, d, files, unreadable)
      && Read(e, Config(f)) == Read(d, Config(f))
      && Read(e, Backup(f)) == None && Read(e, Marker(f)) == Read(d, Marker(f))
      && (Unreadable(d, f, unreadable) ==> exists id :: Read(e, Aside(f, id)) == Read(d, Backup(f)))
    decreases |files|
  {
    hide DoAll, SettleOne;
    var first, rest := files[0], files[1..];
    var v := Decide(rules, d, first, unreadable);
    var a := Settled(d, first, v);
    SettleEffect(d, first, v);
    SettleOneIs(rules, d, first, unreadable);
    DoAllAppend(d, VerdictSteps(d, first, v), SettleSteps(rules, a, rest, unreadable));
    FirstOrLater(files, f);
    if f == first {
      assert f !in rest;
      if Unreadable(d, f, unreadable) {
        UnreadableFile(rules, d, f, unreadable);
        AsideStays(rules, a, rest, f, d.next, unreadable);
      }
      SettleFrame(rules, a, rest, f, unreadable);
    } else {
      SettledElsewhere(rules, d, first, f, unreadable);
      SettleWithoutRecord(rules, a, rest, f, unreadable);
    }
  }

  /** The whole of `disconnect` for the files it decides nothing about, uncovered ones included. */
  lemma DisconnectLeavesAlone(rules: Rules, d: Disk, files: seq<File>, edits: seq<Edit>, f: File, unreadable: set<File>)
    requires Fresh(d) && Distinct(files)
    requires f in files ==> Unreadable(d, f, unreadable) || Record(d, f) == None
    ensures var e := DoAll(d, DisconnectSteps(rules, d, files, edits, unreadable));
      && f !in Kept(rules, DoAll(d, EditAllSteps(d, edits)), files, unreadable)
      && Read(e, Config(f)) == AfterEdits(edits, f, Read(d, Config(f)))
      && (f !in files ==> Record(e, f) == Record(d, f))
      && (f in files && Unreadable(d, f, unreadable) ==>
            Read(e, Backup(f)) == None && exists id :: Read(e, Aside(f, id)) == Read(d, Backup(f)))
  {
    hide DoAll, EditAllSteps, SettleSteps, Kept, AfterEdits;
    var edited := DoAll(d, EditAllSteps(d, edits));
    EditsKeepRecords(d, edits);
    EditsApply(d, edits, f);
    assert Read(edited, Backup(f)) == Read(d, Backup(f)) && Read(edited, Marker(f)) == Read(d, Marker(f));
    DoAllAppend(d, EditAllSteps(d, edits), SettleSteps(rules, edited, files, unreadable));
    if f in files {
      SettleWithoutRecord(rules, edited, files, f, unreadable);
    } else {
      SettleFrame(rules, edited, files, f, unreadable);
    }
  }

  /** The files to keep, each judged on the disk as it was before any of them was settled. */
  function Judged(rules: Rules, d: Disk, files: seq<File>, unreadable: set<File>): seq<File>
    decreases |files|
  {
    if files == [] then []
    else
      (if Decide(rules, d, files[0], unreadable).Keep? then [files[0]] else [])
      + Judged(rules, d, files[1..], unreadable)
  }

  /** One warning for each covered file whose record is there and cannot be read. */
  function Warned(d: Disk, files: seq<File>, unreadable: set<File>): seq<string>
    decreases |files|
  {
    if files == [] then []
    else (if Unreadable(d, files[0], unreadable) then ["backup_corrupt"] else []) + Warned(d, files[1..], unreadable)
  }

  lemma {:induction false} WarnedSame(d: Disk, e: Disk, files: seq<File>, unreadable: set<File>)
    requires forall f | f in files :: SameFor(d, e, f)
    ensures Warned(d, files, unreadable) == Warned(e, files, unreadable)
    decreases |files|
  {
    if files != [] {
      assert SameFor(d, e, files[0]);
      WarnedSame(d, e, files[1..], unreadable);
    }
  }

  lemma DecideUnreadable(rules: Rules, d: Disk, f: File, unreadable: set<File>)
    ensures Decide(rules, d, f, unreadable).SetAside? <==> Unreadable(d, f, unreadable)
  {
  }

  lemma DecideSame(rules: Rules, d: Disk, e: Disk, f: File, unreadable: set<File>)
    requires SameFor(d, e, f)
    ensures Decide(rules, d, f, unreadable) == Decide(rules, e, f, unreadable)
  {
  }

  lemma {:induction false} JudgedSame(rules: Rules, d: Disk, e: Disk, files: seq<File>, unreadable: set<File>)
    requires forall f | f in files :: SameFor(d, e, f)
    ensures Judged(rules, d, files, unreadable) == Judged(rules, e, files, unreadable)
    decreases |files|
  {
    hide SameFor, Decide;
    if files != [] {
      DecideSame(rules, d, e, files[0], unreadable);
      JudgedSame(rules, d, e, files[1..], unreadable);
    }
  }

  /**
   * The files reported as kept are exactly those that cannot be restored, in the order of the
   * covered files, each once: settling one has no say in another. There is one warning for each
   * unreadable record.
   */
  lemma {:induction false} KeptInOrder(rules: Rules, d: Disk, files: seq<File>, unreadable: set<File>)
    requires Fresh(d) && Distinct(files)
    ensures Kept(rules, d, files, unreadable) == Judged(rules, d, files, unreadable)
    ensures Corrupt(rules, d, files, unreadable) == Warned(d, files, unreadable)
    decreases |files|
  {
    hide Decide, SettleOne, DoAll, SameFor, Settled;
    if files != [] {
      var f, rest := files[0], files[1..];
      var v := Decide(rules, d, f, unreadable);
      var a := Settled(d, f, v);
      SettleEffect(d, f, v);
      SettleOneIs(rules, d, f, unreadable);
      forall g | g in rest ensures SameFor(d, a, g) {
        var k :| 0 <= k < |rest| && rest[k] == g;
        assert files[0] != files[k + 1];
        SettledElsewhere(rules, d, f, g, unreadable);
      }
      KeptInOrder(rules, a, rest, unreadable);
      JudgedSame(rules, d, a, rest, unreadable);
      WarnedSame(d, a, rest, unreadable);
      DecideUnreadable(rules, d, f, unreadable);
    }
  }

  // ---- a first connect, the user's own edits, a disconnect --------------------------------------------------

  /** What a user does between two calls: contents of covered files change, nothing else. */
  ghost predicate UserChange(d: Disk, e: Disk) {
    Fresh(e) && forall f :: Read(e, Backup(f)) == Read(d, Backup(f)) && Read(e, Marker(f)) == Read(d, Marker(f))
  }

  /**
   * From a disk without records: connect, any changes by the user, disconnect. Every covered file
   * not reported as kept is byte for byte what it was before the connect, or absent again.
   */
  lemma ConnectThenDisconnect(rules: Rules, d: Disk, files: seq<File>, edits: seq<Edit>, changed: Disk, undo: seq<Edit>, f: File)
    requires Fresh(d) && Distinct(files) && f in files && Record(d, f) == None
    requires UserChange(DoAll(d, ConnectSteps(d, files, edits, true, {})), changed)
    ensures var edited := DoAll(changed, EditAllSteps(changed, undo));
      var e := DoAll(changed, DisconnectSteps(rules, changed, files, undo, {}));
      f !in Kept(rules, edited, files, {}) ==> Read(e, Config(f)) == Read(d, Config(f)) && Record(e, f) == None
  {
    hide DoAll, TakeSteps, EditAllSteps, DisconnectSteps, Kept, Restorable;
    var take := TakeSteps(d, files);
    var a := DoAll(d, take);
    TakeRecords(d, files);
    EditsKeepRecords(a, edits);
    DoAllAppend(d, take, EditAllSteps(a, edits));
    assert take + EditAllSteps(a, edits) + [] == take + EditAllSteps(a, edits);
    var b := DoAll(d, ConnectSteps(d, files, edits, true, {}));
    assert OneRecord(d, f);
    assert Read(b, Backup(f)) == Read(a, Backup(f)) && Read(b, Marker(f)) == Read(a, Marker(f));
    assert Read(changed, Backup(f)) == Read(b, Backup(f)) && Read(changed, Marker(f)) == Read(b, Marker(f));
    DisconnectOutcome(rules, changed, files, undo, f, {});
  }
}
