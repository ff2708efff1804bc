/** Connect and disconnect as traces of file operations: snapshot, edits, restore, three-way decision. */
module Recovery {
  import opened Text
  import opened Files

  // ---- records -----------------------------------------------------------------------------------

  /** The snapshot record of a file: its bytes, or that it was absent. */
  function Record(d: Disk, f: File): Option<Option<Bytes>> {
    if Backup(f) in d.entries then Some(Some(d.entries[Backup(f)]))
    else if Marker(f) in d.entries then Some(None)
    else None
  }

  /** Bytes and marker never stand side by side. */
  predicate OneRecord(d: Disk, f: File) {
    Backup(f) !in d.entries || Marker(f) !in d.entries
  }

  function TakeOne(d: Disk, f: File): seq<Step> {
    if Backup(f) in d.entries || Marker(f) in d.entries then []
    else
      match Read(d, Config(f))
      case Some(bytes) => WriteSteps(d, Backup(f), bytes)
      case None => WriteSteps(d, Marker(f), [])
  }

  function TakeSteps(d: Disk, files: seq<File>): seq<Step>
    decreases |files|
  {
    if files == [] then []
    else
      var steps := TakeOne(d, files[0]);
      steps + TakeSteps(DoAll(d, steps), files[1..])
  }

  function ClearSteps(f: File): seq<Step> {
    [Remove(Backup(f)), Remove(Marker(f))]
  }

  // ---- the agent's own edits -------------------------------------------------------------------------

  /** One file written, or removed, by an agent specification. */
  datatype Edit = Edit(file: File, contents: Option<Bytes>)

  function EditSteps(d: Disk, e: Edit): seq<Step> {
    match e.contents
    case Some(bytes) => WriteSteps(d, Config(e.file), bytes)
    case None => [Remove(Config(e.file))]
  }

  function EditAllSteps(d: Disk, edits: seq<Edit>): seq<Step>
    decreases |edits|
  {
    if edits == [] then []
    else
      var steps := EditSteps(d, edits[0]);
      steps + EditAllSteps(DoAll(d, steps), edits[1..])
  }

  // ---- restore after a failed connect -----------------------------------------------------------------

  function RestoreOne(d: Disk, f: File): seq<Step> {
    match (Read(d, Backup(f)), Read(d, Config(f)))
    case (Some(backup), _) => WriteSteps(d, Config(f), backup)
    case (None, Some(_)) => [Remove(Config(f))]
    case (None, None) => []
  }

  /** Files in `broken` cannot be read or written; the loop passes over them. */
  function RestoreSteps(d: Disk, files: seq<File>, broken: set<File>): seq<Step>
    decreases |files|
  {
    if files == [] then []
    else
      var steps := if files[0] in broken then [] else RestoreOne(d, files[0]);
      steps + RestoreSteps(DoAll(d, steps), files[1..], broken)
  }

  function ConnectSteps(d: Disk, files: seq<File>, edits: seq<Edit>, ok: bool, broken: set<File>): seq<Step> {
    var take := TakeSteps(d, files);
    var write := EditAllSteps(DoAll(d, take), edits);
    take + write + (if ok then [] else RestoreSteps(DoAll(d, take + write), files, broken))
  }

  // ---- the decision of disconnect -----------------------------------------------------------------------

  /** `semantically_equal` and `is_empty_document`, whatever they answer. */
  datatype Rules = Rules(same: (File, Bytes, Bytes) -> bool, empty: (File, Bytes) -> bool)

  datatype Verdict = SetAside | Clear | RestoreBytes(bytes: Bytes) | RemoveFile | Keep | Nothing

  function Decide(rules: Rules, d: Disk, f: File, unreadable: set<File>): Verdict {
    if Backup(f) in d.entries && f in unreadable then SetAside
    else
      match (Read(d, Backup(f)), Read(d, Config(f)))
      case (Some(backup), Some(current)) =>
        if current == backup then Clear
        else if rules.same(f, current, backup) then RestoreBytes(backup)
        else Keep
      case (Some(_), None) => Keep
      case (None, Some(current)) =>
        if Marker(f) !in d.entries then Nothing
        else if rules.empty(f, current) then RemoveFile
        else Keep
      case (None, None) => if Marker(f) in d.entries then Clear else Nothing
  }

  function VerdictSteps(d: Disk, f: File, v: Verdict): seq<Step> {
    match v
    case SetAside => [Rename(Backup(f), Aside(f, d.next))]
    case Clear => ClearSteps(f)
    case RestoreBytes(bytes) => WriteSteps(d, Config(f), bytes) + ClearSteps(f)
    case RemoveFile => [Remove(Config(f))] + ClearSteps(f)
    case Keep => []
    case Nothing => []
  }

  function SettleOne(rules: Rules, d: Disk, f: File, unreadable: set<File>): seq<Step> {
    VerdictSteps(d, f, Decide(rules, d, f, unreadable))
  }

  function SettleSteps(rules: Rules, d: Disk, files: seq<File>, unreadable: set<File>): seq<Step>
    decreases |files|
  {
    if files == [] then []
    else
      var steps := SettleOne(rules, d, files[0], unreadable);
      steps + SettleSteps(rules, DoAll(d, steps), files[1..], unreadable)
  }

  function Kept(rules: Rules, d: Disk, files: seq<File>, unreadable: set<File>): seq<File>
    decreases |files|
  {
    if files == [] then []
    else
      (if Decide(rules, d, files[0], unreadable).Keep? then [files[0]] else [])
      + Kept(rules, DoAll(d, SettleOne(rules, d, files[0], unreadable)), files[1..], unreadable)
  }

  /** One warning for every unreadable backup that is set aside. */
  function Corrupt(rules: Rules, d: Disk, files: seq<File>, unreadable: set<File>): seq<string>
    decreases |files|
  {
    if files == [] then []
    else
      (if Decide(rules, d, files[0], unreadable).SetAside? then ["backup_corrupt"] else [])
      + Corrupt(rules, DoAll(d, SettleOne(rules, d, files[0], unreadable)), files[1..], unreadable)
  }

  function DisconnectSteps(rules: Rules, d: Disk, files: seq<File>, edits: seq<Edit>, unreadable: set<File>): seq<Step> {
    var write := EditAllSteps(d, edits);
    write + SettleSteps(rules, DoAll(d, write), files, unreadable)
  }

  // ---- what the parts do to the disk -----------------------------------------------------------------------

  /** `f` holds `contents`, or is gone. */
  function WithFile(d: Disk, f: File, contents: Option<Bytes>): Disk {
    match contents
    case Some(bytes) => Written(d, Config(f), bytes)
    case None => d.(entries := d.entries - {Config(f)})
  }

  /** `f` has no record. */
  function Cleared(d: Disk, f: File): Disk {
    d.(entries := d.entries - {Backup(f)} - {Marker(f)})
  }

  function Taken(d: Disk, f: File): Disk {
    if Record(d, f).Some? then d
    else
      match Read(d, Config(f))
      case Some(bytes) => Written(d, Backup(f), bytes)
      case None => Written(d, Marker(f), [])
  }

  /** What the verdict leaves, set-aside copies apart. */
  function Settled(d: Disk, f: File, v: Verdict): Disk {
    match v
    case SetAside => Do(d, Rename(Backup(f), Aside(f, d.next)))
    case Clear => Cleared(d, f)
    case RestoreBytes(bytes) => Cleared(WithFile(d, f, Some(bytes)), f)
    case RemoveFile => Cleared(WithFile(d, f, None), f)
    case Keep => d
    case Nothing => d
  }

  lemma OneStep(d: Disk, s: Step)
    ensures DoAll(d, [s]) == Do(d, s)
  {
    assert [s][1..] == [];
    assert DoAll(Do(d, s), []) == Do(d, s);
  }

  lemma ClearEffect(d: Disk, f: File)
    ensures DoAll(d, ClearSteps(f)) == Cleared(d, f)
  {
    var a, b := Remove(Backup(f)), Remove(Marker(f));
    assert [a, b] == [a] + [b];
    DoAllAppend(d, [a], [b]);
    OneStep(d, a);
    OneStep(Do(d, a), b);
  }

  lemma TakeEffect(d: Disk, f: File)
    requires Fresh(d)
    ensures DoAll(d, TakeOne(d, f)) == Taken(d, f)
    ensures Fresh(Taken(d, f))
  {
    match Read(d, Config(f))
    case Some(bytes) => WriteEffect(d, Backup(f), bytes);
    case None => WriteEffect(d, Marker(f), []);
  }

  lemma EditEffect(d: Disk, e: Edit)
    requires Fresh(d)
    ensures DoAll(d, EditSteps(d, e)) == WithFile(d, e.file, e.contents)
    ensures Fresh(WithFile(d, e.file, e.contents))
  {
    match e.contents
    case Some(bytes) => WriteEffect(d, Config(e.file), bytes);
    case None => OneStep(d, Remove(Config(e.file)));
  }

  lemma RestoreEffect(d: Disk, f: File)
    requires Fresh(d)
    ensures DoAll(d, RestoreOne(d, f)) == WithFile(d, f, Read(d, Backup(f)))
    ensures Fresh(WithFile(d, f, Read(d, Backup(f))))
  {
    match (Read(d, Backup(f)), Read(d, Config(f)))
    case (Some(backup), _) => WriteEffect(d, Config(f), backup);
    case (None, Some(_)) => OneStep(d, Remove(Config(f)));
    case (None, None) => assert d.entries - {Config(f)} == d.entries;
  }

  lemma SettleEffect(d: Disk, f: File, v: Verdict)
    requires Fresh(d)
    ensures DoAll(d, VerdictSteps(d, f, v)) == Settled(d, f, v)
    ensures Fresh(Settled(d, f, v))
  {
    hide DoAll;
    assert DoAll(d, []) == d by { NoSteps(d); }
    match v
    case SetAside => OneStep(d, Rename(Backup(f), Aside(f, d.next)));
    case Clear => ClearEffect(d, f);
    case RestoreBytes(bytes) =>
      EditEffect(d, Edit(f, Some(bytes)));
      DoAllAppend(d, WriteSteps(d, Config(f), bytes), ClearSteps(f));
      ClearEffect(WithFile(d, f, Some(bytes)), f);
    case RemoveFile =>
      EditEffect(d, Edit(f, None));
      DoAllAppend(d, [Remove(Config(f))], ClearSteps(f));
      ClearEffect(WithFile(d, f, None), f);
    case Keep =>
    case Nothing =>
  }

  lemma NoSteps(d: Disk)
    ensures DoAll(d, []) == d
  {
  }

  // ---- a failed connect -----------------------------------------------------------------------------------

  /** The paths that belong to `f`. */
  predicate SameFor(d: Disk, e: Disk, f: File) {
    && Read(d, Config(f)) == Read(e, Config(f))
    && Read(d, Backup(f)) == Read(e, Backup(f))
    && Read(d, Marker(f)) == Read(e, Marker(f))
  }

  /** Taking snapshots gives every file a record: the one it had, or its contents now. */
  lemma {:induction false} TakeRecords(d: Disk, files: seq<File>)
    requires Fresh(d)
    ensures var e := DoAll(d, TakeSteps(d, files));
      && Fresh(e)
      && (forall f :: Read(e, Config(f)) == Read(d, Config(f)))
      && (forall f :: Record(e, f) == if f in files && Record(d, f).None? then Some(Read(d, Config(f))) else Record(d, f))
      && (forall f :: OneRecord(d, f) ==> OneRecord(e, f))
    decreases |files|
  {
    hide DoAll, TakeOne;
    NoSteps(d);
    if files != [] {
      TakeEffect(d, files[0]);
      var a := Taken(d, files[0]);
      TakenRecord(d, files[0]);
      TakeRecords(a, files[1..]);
      DoAllAppend(d, TakeOne(d, files[0]), TakeSteps(a, files[1..]));
      forall f ensures f in files <==> f == files[0] || f in files[1..] {
        FirstOrLater(files, f);
      }
    }
  }

  lemma FirstOrLater(files: seq<File>, f: File)
    requires files != []
    ensures f in files <==> f == files[0] || f in files[1..]
  {
    if f in files && f != files[0] {
      var k :| 0 <= k < |files| && files[k] == f;
      assert files[1..][k - 1] == f;
    }
  }

  lemma TakenRecord(d: Disk, f: File)
    requires Fresh(d)
    ensures var e := Taken(d, f);
      && (forall g :: Read(e, Config(g)) == Read(d, Config(g)))
      && (forall g :: Record(e, g) == if g == f && Record(d, f).None? then Some(Read(d, Config(f))) else Record(d, g))
      && (forall g :: OneRecord(d, g) ==> OneRecord(e, g))
  {
  }

  /** The agent's edits leave every record alone. */
  lemma {:induction false} EditsKeepRecords(d: Disk, edits: seq<Edit>)
    requires Fresh(d)
    ensures var e := DoAll(d, EditAllSteps(d, edits));
      && Fresh(e)
      && forall f :: Read(e, Backup(f)) == Read(d, Backup(f)) && Read(e, Marker(f)) == Read(d, Marker(f))
    decreases |edits|
  {
    hide DoAll, EditSteps;
    NoSteps(d);
    if edits != [] {
      EditEffect(d, edits[0]);
      var a := WithFile(d, edits[0].file, edits[0].contents);
      EditsKeepRecords(a, edits[1..]);
      DoAllAppend(d, EditSteps(d, edits[0]), EditAllSteps(a, edits[1..]));
    }
  }

  /** What the last edit of `f` leaves it with, or what it held before if there is none. */
  function AfterEdits(edits: seq<Edit>, f: File, before: Option<Bytes>): Option<Bytes> {
    if edits == [] then before
    else
      var last := edits[|edits| - 1];
      if last.file == f then last.contents else AfterEdits(edits[..|edits| - 1], f, before)
  }

  lemma {:induction false} AfterFirst(edits: seq<Edit>, f: File, before: Option<Bytes>)
    requires edits != []
    ensures AfterEdits(edits, f, before)
         == AfterEdits(edits[1..], f, if edits[0].file == f then edits[0].contents else before)
    decreases |edits|
  {
    if |edits| > 1 {
      var n := |edits| - 1;
      AfterFirst(edits[..n], f, before);
      assert edits[..n][1..] == edits[1..][..n - 1];
    } else {
      assert edits[..0] == [] && edits[1..] == [];
    }
  }

  lemma {:induction false} EditsApply(d: Disk, edits: seq<Edit>, f: File)
    requires Fresh(d)
    ensures Read(DoAll(d, EditAllSteps(d, edits)), Config(f)) == AfterEdits(edits, f, Read(d, Config(f)))
    decreases |edits|
  {
    hide DoAll, EditSteps, AfterEdits;
    if edits == [] {
      NoSteps(d);
      NoEdits(f, Read(d, Config(f)));
    } else {
      EditEffect(d, edits[0]);
      var a := WithFile(d, edits[0].file, edits[0].contents);
      EditsApply(a, edits[1..], f);
      AfterFirst(edits, f, Read(d, Config(f)));
      DoAllAppend(d, EditSteps(d, edits[0]), EditAllSteps(a, edits[1..]));
    }
  }

  lemma NoEdits(f: File, before: Option<Bytes>)
    ensures AfterEdits([], f, before) == before
  {
  }

  /** Restoring puts every reachable file's record back in place and keeps all records. */
  lemma {:induction false} RestoreFromRecords(d: Disk, files: seq<File>, broken: set<File>)
    requires Fresh(d)
    ensures var e := DoAll(d, RestoreSteps(d, files, broken));
      && Fresh(e)
      && (forall f :: Read(e, Backup(f)) == Read(d, Backup(f)) && Read(e, Marker(f)) == Read(d, Marker(f)))
      && forall f :: Read(e, Config(f)) == Read(d, if f in files && f !in broken then Backup(f) else Config(f))
    decreases |files|
  {
    hide DoAll, RestoreOne;
    NoSteps(d);
    if files != [] {
      var f := files[0];
      var a := if f in broken then d else WithFile(d, f, Read(d, Backup(f)));
      var steps := if f in broken then [] else RestoreOne(d, f);
      if f !in broken {
        RestoreEffect(d, f);
      }
      assert DoAll(d, steps) == a;
      RestoreFromRecords(a, files[1..], broken);
      DoAllAppend(d, steps, RestoreSteps(a, files[1..], broken));
      forall g ensures g in files <==> g == f || g in files[1..] {
        FirstOrLater(files, g);
      }
    }
  }

  /**
   * A failed connect, whatever the agent wrote before it failed: every covered file that can be
   * restored equals its record (bytes or absence), and all records survive.
   */
  lemma FailedConnectRestores(d: Disk, files: seq<File>, edits: seq<Edit>, broken: set<File>)
    requires Fresh(d)
    ensures var e := DoAll(d, ConnectSteps(d, files, edits, false, broken));
      forall f | f in files ::
        && Record(e, f).Some?
        && Record(e, f) == (if Record(d, f).Some? then Record(d, f) else Some(Read(d, Config(f))))
        && (f !in broken ==> Read(e, Config(f)) == Record(e, f).value)
  {
    hide DoAll, TakeSteps, EditAllSteps, RestoreSteps;
    var take := TakeSteps(d, files);
    var a := DoAll(d, take);
    var write := EditAllSteps(a, edits);
    var b := DoAll(a, write);
    TakeRecords(d, files);
    EditsKeepRecords(a, edits);
    RestoreFromRecords(b, files, broken);
    DoAllAppend(d, take, write);
    DoAllAppend(d, take + write, RestoreSteps(b, files, broken));
    forall f | f in files
      ensures Record(b, f) == Record(a, f) && Record(a, f).Some?
    {
      assert Read(b, Backup(f)) == Read(a, Backup(f)) && Read(b, Marker(f)) == Read(a, Marker(f));
    }
    var e := DoAll(b, RestoreSteps(b, files, broken));
    forall f | f in files
      ensures Record(e, f) == Record(b, f) && (f !in broken ==> Read(e, Config(f)) == Record(e, f).value)
    {
      assert Read(e, Backup(f)) == Read(b, Backup(f)) && Read(e, Marker(f)) == Read(b, Marker(f));
    }
  }

  /**
   * What a connect leaves, whatever the files: every file with the contents of its last edit, or as
   * it was, unless the connect fails and the file is covered and can be restored, and then as its
   * record has it. The record is the old one or the contents before the call.
   */
  lemma ConnectOutcome(d: Disk, files: seq<File>, edits: seq<Edit>, ok: bool, broken: set<File>, f: File)
    requires Fresh(d)
    ensures var e := DoAll(d, ConnectSteps(d, files, edits, ok, broken));
      var before := Read(d, Config(f));
      && Record(e, f) == (if f in files && Record(d, f) == None then Some(before) else Record(d, f))
      && Read(e, Config(f)) == if !ok && f in files && f !in broken then Record(e, f).value else AfterEdits(edits, f, before)
  {
    hide DoAll, TakeSteps, EditAllSteps, RestoreSteps, AfterEdits;
    var take := TakeSteps(d, files);
    var a := DoAll(d, take);
    var write := EditAllSteps(a, edits);
    var b := DoAll(a, write);
    TakeRecords(d, files);
    EditsKeepRecords(a, edits);
    EditsApply(a, edits, f);
    DoAllAppend(d, take, write);
    assert Record(b, f) == Record(a, f) by {
      assert Read(b, Backup(f)) == Read(a, Backup(f)) && Read(b, Marker(f)) == Read(a, Marker(f));
    }
    if ok {
      assert take + write + [] == take + write;
    } else {
      RestoreFromRecords(b, files, broken);
      DoAllAppend(d, take + write, RestoreSteps(b, files, broken));
      var e := DoAll(b, RestoreSteps(b, files, broken));
      assert Read(e, Backup(f)) == Read(b, Backup(f)) && Read(e, Marker(f)) == Read(b, Marker(f));
    }
  }

  /**
   * So a failed connect leaves a file as the call found it if and only if the file had no record
   * yet or still equalled it: a failed second connect takes later edits back.
   */
  lemma FailedConnectUndoesItself(d: Disk, files: seq<File>, edits: seq<Edit>, f: File)
    requires Fresh(d) && f in files
    ensures var e := DoAll(d, ConnectSteps(d, files, edits, false, {}));
      Read(e, Config(f)) == Read(d, Config(f)) <==> Record(d, f) in [None, Some(Read(d, Config(f)))]
  {
    hide ConnectSteps, DoAll;
    FailedConnectRestores(d, files, edits, {});
  }

  /** A connect, `x` replaced by `y` by hand, and a second connect that fails: the file holds `x` again. */
  lemma FailedReconnectTakesEditBack(d: Disk, f: File, x: Bytes, y: Bytes, first: seq<Edit>, second: seq<Edit>)
    requires Fresh(d) && Record(d, f) == None && Read(d, Config(f)) == Some(x) && x != y
    ensures var a := DoAll(d, ConnectSteps(d, [f], first, true, {}));
      var b := DoAll(a, WriteSteps(a, Config(f), y));
      var c := DoAll(b, ConnectSteps(b, [f], second, false, {}));
      Read(b, Config(f)) == Some(y) && Read(c, Config(f)) == Some(x)
  {
    hide DoAll, TakeSteps, EditAllSteps, WriteSteps;
    var take := TakeSteps(d, [f]);
    var taken := DoAll(d, take);
    var write := EditAllSteps(taken, first);
    TakeRecords(d, [f]);
    EditsKeepRecords(taken, first);
    DoAllAppend(d, take, write);
    assert take + write + [] == take + write;
    var a := DoAll(d, ConnectSteps(d, [f], first, true, {}));
    assert Read(a, Backup(f)) == Read(taken, Backup(f)) && Read(a, Marker(f)) == Read(taken, Marker(f));
    WriteEffect(a, Config(f), y);
    FailedConnectRestores(DoAll(a, WriteSteps(a, Config(f), y)), [f], second, {});
  }
}
