/**
 * Safety of the recovery protocol over every run: connects, failed connects, disconnects and the
 * user's own edits, with a crash between any two file operations.
 */
module RecoveryLaws {
  import opened Text
  import opened Files
  import opened Recovery

  /**
   * The disk with its history: what each file held when its record appeared, which files were
   * changed by the gateway since they last equalled their record, and which records were set aside.
   */
  datatype Watch = Watch(disk: Disk, taken: map<File, Option<Bytes>>, dirty: set<File>, aside: map<File, Bytes>)

  predicate IsRecord(p: Path) {
    p.Backup? || p.Marker?
  }

  /** One file operation of the gateway, watched. */
  function Observe(w: Watch, s: Step): Watch {
    var v := w.(disk := Do(w.disk, s));
    match s
    case Rename(from, to) =>
      if from !in w.disk.entries then v
      else if to.Config? then v.(dirty := w.dirty + {to.file})
      else if IsRecord(to) then v.(taken := w.taken[to.file := Read(w.disk, Config(to.file))])
      else if from.Backup? && to.Aside? then
        v.(taken := w.taken - {from.file}, aside := w.aside[from.file := w.disk.entries[from]])
      else v
    case Remove(p) =>
      if p !in w.disk.entries then v
      else if p.Config? then v.(dirty := w.dirty + {p.file})
      else if IsRecord(p) then v.(taken := w.taken - {p.file}, dirty := w.dirty - {p.file})
      else v
    case _ => v
  }

  function ObserveAll(w: Watch, steps: seq<Step>): (v: Watch)
    ensures v.disk == DoAll(w.disk, steps)
    decreases |steps|
  {
    if steps == [] then w else ObserveAll(Observe(w, steps[0]), steps[1..])
  }

  /**
   * What makes an operation harmless: no record is overwritten, and a new one says what the file
   * holds; a file changes only under a record; a record goes only when the file equals it, or
   * is moved aside.
   */
  predicate Harmless(w: Watch, s: Step) {
    match s
    case Create(id) => Temp(id) !in w.disk.entries
    case Append(id, _) => Temp(id) in w.disk.entries
    case Rename(from, to) =>
      && from in w.disk.entries
      && (match to
          case Config(f) => from.Temp? && f in w.taken
          case Backup(f) => from.Temp? && Record(w.disk, f) == None && Read(w.disk, Config(f)) == Some(w.disk.entries[from])
          case Marker(f) => from.Temp? && Record(w.disk, f) == None && Read(w.disk, Config(f)) == None
          case Aside(f, id) => from == Backup(f) && to !in w.disk.entries
          case Temp(_) => false)
    case Remove(p) =>
      p in w.disk.entries ==>
        (match p
         case Config(f) => f in w.taken
         case Backup(f) => Some(Read(w.disk, Config(f))) == Record(w.disk, f)
         case Marker(f) => Some(Read(w.disk, Config(f))) == Record(w.disk, f)
         case Aside(_, _) => false
         case Temp(_) => true)
  }

  /** The file's record is what was taken, and a changed file has one, or had it set aside whole. */
  ghost predicate Protected(w: Watch, f: File) {
    && OneRecord(w.disk, f)
    && Record(w.disk, f) == (if f in w.taken then Some(w.taken[f]) else None)
    && (f in w.dirty ==> f in w.taken || f in w.aside)
    && (f in w.aside ==> exists id :: Read(w.disk, Aside(f, id)) == Some(w.aside[f]))
  }

  ghost predicate Sound(w: Watch) {
    Fresh(w.disk) && forall f :: Protected(w, f)
  }

  // ---- one operation -------------------------------------------------------------------------------

  lemma AsideStays(w: Watch, s: Step, f: File)
    requires Protected(w, f) && Harmless(w, s) && f in w.aside && Observe(w, s).aside == w.aside
    ensures exists id :: Read(Observe(w, s).disk, Aside(f, id)) == Some(Observe(w, s).aside[f])
  {
    var id :| Read(w.disk, Aside(f, id)) == Some(w.aside[f]);
    assert Read(Observe(w, s).disk, Aside(f, id)) == Some(w.aside[f]);
  }

  lemma HarmlessFile(w: Watch, s: Step, f: File)
    requires Fresh(w.disk) && Protected(w, f) && Harmless(w, s)
    ensures Protected(Observe(w, s), f)
  {
    var v := Observe(w, s);
    if s.Rename? && s.to.Aside? && s.to.file == f {
      assert Read(v.disk, s.to) == Some(w.disk.entries[s.from]);
      assert f in v.aside && Read(v.disk, Aside(f, s.to.id)) == Some(v.aside[f]);
    } else if f in w.aside {
      if v.aside == w.aside {
        AsideStays(w, s, f);
      } else {
        var id :| Read(w.disk, Aside(f, id)) == Some(w.aside[f]);
        assert Read(v.disk, Aside(f, id)) == Some(v.aside[f]);
      }
    }
  }

  lemma HarmlessFresh(w: Watch, s: Step)
    requires Fresh(w.disk) && Harmless(w, s)
    ensures Fresh(Observe(w, s).disk)
  {
  }

  /** A harmless operation keeps every file protected. */
  lemma HarmlessStep(w: Watch, s: Step)
    requires Sound(w) && Harmless(w, s)
    ensures Sound(Observe(w, s))
  {
    HarmlessFresh(w, s);
    forall f ensures Protected(Observe(w, s), f) {
      HarmlessFile(w, s, f);
    }
  }

  /**
   * A record, once there, is never replaced: after one more operation it stands unchanged, or the
   * file equals it, or a copy of it has been set aside. And a file changes only while it has a record.
   */
  lemma RecordsOutlast(w: Watch, s: Step, f: File)
    requires Sound(w) && Harmless(w, s)
    ensures Record(w.disk, f).Some? ==>
      var e := Do(w.disk, s);
      || Record(e, f) == Record(w.disk, f)
      || (Record(e, f) == None && Some(Read(e, Config(f))) == Record(w.disk, f))
      || (Record(e, f) == None && exists id :: Some(Read(e, Aside(f, id))) == Record(w.disk, f))
    ensures Read(Do(w.disk, s), Config(f)) != Read(w.disk, Config(f)) ==> Record(w.disk, f).Some?
  {
    assert Protected(w, f);
    var e := Do(w.disk, s);
    if s.Rename? && s.to.Aside? && s.to.file == f {
      assert Read(e, Aside(f, s.to.id)) == Some(w.disk.entries[Backup(f)]);
    }
  }

  // ---- traces -------------------------------------------------------------------------------------------

  /** Every operation of the trace is harmless when its turn comes. */
  predicate AllHarmless(w: Watch, steps: seq<Step>)
    decreases |steps|
  {
    steps == [] || (Harmless(w, steps[0]) && AllHarmless(Observe(w, steps[0]), steps[1..]))
  }

  lemma {:induction false} HarmlessAppend(w: Watch, a: seq<Step>, b: seq<Step>)
    ensures ObserveAll(w, a + b) == ObserveAll(ObserveAll(w, a), b)
    ensures AllHarmless(w, a + b) <==> AllHarmless(w, a) && AllHarmless(ObserveAll(w, a), b)
    decreases |a|
  {
    hide Harmless, Observe, DoAll;
    if a == [] {
      assert a + b == b;
    } else {
      HarmlessAppend(Observe(w, a[0]), a[1..], b);
      assert (a + b)[1..] == a[1..] + b;
    }
  }

  lemma {:induction false} HarmlessKeeps(w: Watch, steps: seq<Step>)
    requires Sound(w) && AllHarmless(w, steps)
    ensures Sound(ObserveAll(w, steps))
    decreases |steps|
  {
    hide Harmless, Observe, Sound, DoAll;
    if steps != [] {
      HarmlessStep(w, steps[0]);
      HarmlessKeeps(Observe(w, steps[0]), steps[1..]);
    }
  }

  lemma HarmlessPrefix(w: Watch, steps: seq<Step>, n: nat)
    requires AllHarmless(w, steps) && n <= |steps|
    ensures AllHarmless(w, steps[..n])
  {
    assert steps == steps[..n] + steps[n..];
    HarmlessAppend(w, steps[..n], steps[n..]);
  }

  lemma OneHarmless(w: Watch, s: Step)
    ensures AllHarmless(w, [s]) == Harmless(w, s)
    ensures ObserveAll(w, [s]) == Observe(w, s)
  {
    assert [s][1..] == [];
    assert AllHarmless(Observe(w, s), []);
    assert ObserveAll(Observe(w, s), []) == Observe(w, s);
  }

  // ---- a write --------------------------------------------------------------------------------------------

  /** The watch once `path` holds `data`. */
  function Landed(w: Watch, path: Path, data: Bytes): Watch {
    if Read(w.disk, path) == Some(data) then w
    else
      var v := w.(disk := Written(w.disk, path, data));
      if path.Config? then v.(dirty := w.dirty + {path.file})
      else if IsRecord(path) then v.(taken := w.taken[path.file := Read(w.disk, Config(path.file))])
      else v
  }

  /** When a write may land. */
  predicate MayLand(w: Watch, path: Path, data: Bytes) {
    match path
    case Config(f) => f in w.taken
    case Backup(f) => Record(w.disk, f) == None && Read(w.disk, Config(f)) == Some(data)
    case Marker(f) => Record(w.disk, f) == None && Read(w.disk, Config(f)) == None
    case _ => false
  }

  lemma {:induction false} WriteUnderWay(w: Watch, path: Path, data: Bytes, n: nat)
    requires Fresh(w.disk) && Read(w.disk, path) != Some(data) && n <= |data| + 1
    ensures AllHarmless(w, WriteSteps(w.disk, path, data)[..n])
    ensures ObserveAll(w, WriteSteps(w.disk, path, data)[..n]) == w.(disk := MidWrite(w.disk, data, n))
    decreases n
  {
    hide AllHarmless, ObserveAll;
    var steps := WriteSteps(w.disk, path, data);
    if n == 0 {
      assert steps[..0] == [];
      NothingHarmful(w);
    } else {
      WriteUnderWay(w, path, data, n - 1);
      var v := w.(disk := MidWrite(w.disk, data, n - 1));
      assert steps[..n] == steps[..n - 1] + [steps[n - 1]];
      HarmlessAppend(w, steps[..n - 1], [steps[n - 1]]);
      OneHarmless(v, steps[n - 1]);
      if n > 1 {
        MidStep(w.disk, path, data, n - 2);
      } else {
        assert Temp(w.disk.next) !in w.disk.entries;
      }
    }
  }

  lemma NothingHarmful(w: Watch)
    ensures AllHarmless(w, []) && ObserveAll(w, []) == w
  {
  }

  /** A write is harmless if and only if it is not needed or may land. */
  lemma WriteHarmless(w: Watch, path: Path, data: Bytes)
    requires Fresh(w.disk) && Lasting(path)
    ensures AllHarmless(w, WriteSteps(w.disk, path, data)) <==> Read(w.disk, path) == Some(data) || MayLand(w, path, data)
    ensures ObserveAll(w, WriteSteps(w.disk, path, data)) == Landed(w, path, data)
  {
    hide AllHarmless, ObserveAll;
    if Read(w.disk, path) == Some(data) {
      NothingHarmful(w);
    } else {
      var steps, n := WriteSteps(w.disk, path, data), |data| + 1;
      WriteUnderWay(w, path, data, n);
      assert steps == steps[..n] + [steps[n]];
      var v := w.(disk := MidWrite(w.disk, data, n));
      HarmlessAppend(w, steps[..n], [steps[n]]);
      OneHarmless(v, steps[n]);
      WriteLands(w.disk, path, data);
      assert data[..|data|] == data;
    }
  }

  lemma SoundFile(w: Watch, f: File)
    requires Sound(w)
    ensures Fresh(w.disk) && Protected(w, f)
    ensures Record(w.disk, f).Some? <==> f in w.taken
  {
    assert Protected(w, f);
  }

  // ---- the parts of connect and disconnect --------------------------------------------------------------------

  lemma TakeOneHarmless(w: Watch, f: File)
    requires Sound(w)
    ensures AllHarmless(w, TakeOne(w.disk, f))
    ensures var v := ObserveAll(w, TakeOne(w.disk, f));
      Sound(v) && f in v.taken && v.taken.Keys == w.taken.Keys + {f} && v.aside == w.aside
  {
    hide AllHarmless, ObserveAll, Sound, WriteSteps, Written;
    NothingHarmful(w);
    SoundFile(w, f);
    match Read(w.disk, Config(f)) {
      case Some(bytes) => WriteHarmless(w, Backup(f), bytes);
      case None => WriteHarmless(w, Marker(f), []);
    }
    var v := ObserveAll(w, TakeOne(w.disk, f));
    assert v.taken.Keys == w.taken.Keys + {f};
    HarmlessKeeps(w, TakeOne(w.disk, f));
  }

  lemma {:induction false} TakeHarmless(w: Watch, files: seq<File>)
    requires Sound(w)
    ensures AllHarmless(w, TakeSteps(w.disk, files))
    ensures var v := ObserveAll(w, TakeSteps(w.disk, files));
      Sound(v) && (forall f | f in files || f in w.taken :: f in v.taken) && v.aside == w.aside
    decreases |files|
  {
    hide AllHarmless, ObserveAll, Sound, TakeOne, DoAll;
    NothingHarmful(w);
    if files != [] {
      var steps := TakeOne(w.disk, files[0]);
      TakeOneHarmless(w, files[0]);
      var v := ObserveAll(w, steps);
      TakeHarmless(v, files[1..]);
      HarmlessAppend(w, steps, TakeSteps(v.disk, files[1..]));
      forall f | f in files ensures f == files[0] || f in files[1..] {
        FirstOrLater(files, f);
      }
    }
  }

  /** One edit of the agent is harmless just if it changes nothing or its file has a record. */
  predicate EditProtected(w: Watch, e: Edit) {
    Read(w.disk, Config(e.file)) == e.contents || e.file in w.taken
  }

  lemma EditHarmless(w: Watch, e: Edit)
    requires Fresh(w.disk)
    ensures AllHarmless(w, EditSteps(w.disk, e)) <==> EditProtected(w, e)
    ensures var v := ObserveAll(w, EditSteps(w.disk, e)); Fresh(v.disk) && v.taken == w.taken && v.aside == w.aside
  {
    hide AllHarmless, ObserveAll, WriteSteps, Written;
    EditEffect(w.disk, e);
    match e.contents
    case Some(bytes) => WriteHarmless(w, Config(e.file), bytes);
    case None => OneHarmless(w, Remove(Config(e.file)));
  }

  /** Every edit that changes something is on a file with a record. */
  predicate EditsProtected(w: Watch, edits: seq<Edit>)
    decreases |edits|
  {
    edits == []
    || (EditProtected(w, edits[0]) && EditsProtected(ObserveAll(w, EditSteps(w.disk, edits[0])), edits[1..]))
  }

  lemma {:induction false} EditsHarmless(w: Watch, edits: seq<Edit>)
    requires Fresh(w.disk)
    ensures AllHarmless(w, EditAllSteps(w.disk, edits)) <==> EditsProtected(w, edits)
    ensures var v := ObserveAll(w, EditAllSteps(w.disk, edits)); v.taken == w.taken && v.aside == w.aside
    decreases |edits|
  {
    hide AllHarmless, ObserveAll, Fresh, EditSteps, EditProtected, DoAll;
    NothingHarmful(w);
    if edits != [] {
      var steps := EditSteps(w.disk, edits[0]);
      EditHarmless(w, edits[0]);
      var v := ObserveAll(w, steps);
      HarmlessAppend(w, steps, EditAllSteps(v.disk, edits[1..]));
      EditsHarmless(v, edits[1..]);
    }
  }

  lemma {:induction false} CoveredEdits(w: Watch, edits: seq<Edit>)
    requires Fresh(w.disk) && forall e | e in edits :: e.file in w.taken
    ensures EditsProtected(w, edits)
    decreases |edits|
  {
    hide ObserveAll, Fresh, EditSteps;
    if edits != [] {
      EditHarmless(w, edits[0]);
      assert forall e | e in edits[1..] :: e in edits;
      CoveredEdits(ObserveAll(w, EditSteps(w.disk, edits[0])), edits[1..]);
    }
  }

  lemma RestoreOneHarmless(w: Watch, f: File)
    requires Sound(w) && f in w.taken
    ensures AllHarmless(w, RestoreOne(w.disk, f))
    ensures var v := ObserveAll(w, RestoreOne(w.disk, f)); Sound(v) && v.taken == w.taken && v.aside == w.aside
  {
    hide AllHarmless, ObserveAll, Sound, WriteSteps, Written;
    NothingHarmful(w);
    SoundFile(w, f);
    match (Read(w.disk, Backup(f)), Read(w.disk, Config(f))) {
      case (Some(backup), _) => WriteHarmless(w, Config(f), backup);
      case (None, Some(_)) => OneHarmless(w, Remove(Config(f)));
      case (None, None) =>
    }
    HarmlessKeeps(w, RestoreOne(w.disk, f));
  }

  lemma {:induction false} RestoreHarmless(w: Watch, files: seq<File>, broken: set<File>)
    requires Sound(w) && forall f | f in files :: f in w.taken
    ensures AllHarmless(w, RestoreSteps(w.disk, files, broken))
    ensures ObserveAll(w, RestoreSteps(w.disk, files, broken)).aside == w.aside
    decreases |files|
  {
    hide AllHarmless, ObserveAll, Sound, RestoreOne, DoAll;
    NothingHarmful(w);
    if files != [] {
      var steps := if files[0] in broken then [] else RestoreOne(w.disk, files[0]);
      RestoreOneHarmless(w, files[0]);
      var v := ObserveAll(w, steps);
      assert forall f | f in files[1..] :: f in files;
      RestoreHarmless(v, files[1..], broken);
      HarmlessAppend(w, steps, RestoreSteps(v.disk, files[1..], broken));
    }
  }

  lemma ClearHarmless(w: Watch, f: File)
    requires Sound(w) && Some(Read(w.disk, Config(f))) == Record(w.disk, f)
    ensures AllHarmless(w, ClearSteps(f)) && ObserveAll(w, ClearSteps(f)).aside == w.aside
  {
    hide AllHarmless, ObserveAll, Sound;
    SoundFile(w, f);
    var a, b := Remove(Backup(f)), Remove(Marker(f));
    assert ClearSteps(f) == [a] + [b];
    OneHarmless(w, a);
    OneHarmless(Observe(w, a), b);
    HarmlessAppend(w, [a], [b]);
  }

  lemma ThenCleared(w: Watch, steps: seq<Step>, f: File)
    requires Sound(w) && AllHarmless(w, steps)
    requires var v := ObserveAll(w, steps);
      Some(Read(v.disk, Config(f))) == Record(v.disk, f) && v.aside == w.aside
    ensures AllHarmless(w, steps + ClearSteps(f)) && ObserveAll(w, steps + ClearSteps(f)).aside == w.aside
  {
    hide AllHarmless, ObserveAll, Sound, ClearSteps;
    HarmlessKeeps(w, steps);
    ClearHarmless(ObserveAll(w, steps), f);
    HarmlessAppend(w, steps, ClearSteps(f));
  }

  /** Whatever the decision about a file, its operations are harmless. */
  lemma SettleOneHarmless(rules: Rules, w: Watch, f: File, unreadable: set<File>)
    requires Sound(w)
    ensures AllHarmless(w, SettleOne(rules, w.disk, f, unreadable))
    ensures unreadable == {} ==> ObserveAll(w, SettleOne(rules, w.disk, f, unreadable)).aside == w.aside
  {
    hide AllHarmless, ObserveAll, Sound, WriteSteps, ClearSteps;
    NothingHarmful(w);
    SoundFile(w, f);
    match Decide(rules, w.disk, f, unreadable)
    case SetAside =>
      assert Aside(f, w.disk.next) !in w.disk.entries;
      OneHarmless(w, Rename(Backup(f), Aside(f, w.disk.next)));
    case Clear => ClearHarmless(w, f);
    case RestoreBytes(bytes) =>
      WriteHarmless(w, Config(f), bytes);
      ThenCleared(w, WriteSteps(w.disk, Config(f), bytes), f);
    case RemoveFile =>
      OneHarmless(w, Remove(Config(f)));
      ThenCleared(w, [Remove(Config(f))], f);
    case Keep =>
    case Nothing =>
  }

  lemma {:induction false} SettleHarmless(rules: Rules, w: Watch, files: seq<File>, unreadable: set<File>)
    requires Sound(w)
    ensures AllHarmless(w, SettleSteps(rules, w.disk, files, unreadable))
    ensures unreadable == {} ==> ObserveAll(w, SettleSteps(rules, w.disk, files, unreadable)).aside == w.aside
    decreases |files|
  {
    hide AllHarmless, ObserveAll, Sound, SettleOne, DoAll;
    NothingHarmful(w);
    if files != [] {
      var steps := SettleOne(rules, w.disk, files[0], unreadable);
      SettleOneHarmless(rules, w, files[0], unreadable);
      HarmlessKeeps(w, steps);
      var v := ObserveAll(w, steps);
      SettleHarmless(rules, v, files[1..], unreadable);
      HarmlessAppend(w, steps, SettleSteps(rules, v.disk, files[1..], unreadable));
    }
  }

  // ---- runs -------------------------------------------------------------------------------------------------

  /** One call, or one change by the user; a call may break off after any number of operations. */
  datatype Action =
    | Connect(files: seq<File>, edits: seq<Edit>, ok: bool, broken: set<File>)
    | Disconnect(rules: Rules, files: seq<File>, edits: seq<Edit>, unreadable: set<File>)
    | UserEdit(file: File, contents: Option<Bytes>)

  function CallSteps(d: Disk, a: Action): seq<Step> {
    match a
    case Connect(files, edits, ok, broken) => ConnectSteps(d, files, edits, ok, broken)
    case Disconnect(rules, files, edits, unreadable) => DisconnectSteps(rules, d, files, edits, unreadable)
    case UserEdit(_, _) => []
  }

  function Performed(d: Disk, a: Action, crash: nat): seq<Step> {
    var steps := CallSteps(d, a);
    if crash < |steps| then steps[..crash] else steps
  }

  function UserChanged(d: Disk, f: File, contents: Option<Bytes>): Disk {
    match contents
    case Some(bytes) => d.(entries := d.entries[Config(f) := bytes])
    case None => d.(entries := d.entries - {Config(f)})
  }

  function After(w: Watch, a: Action, crash: nat): Watch {
    if a.UserEdit? then w.(disk := UserChanged(w.disk, a.file, a.contents))
    else ObserveAll(w, Performed(w.disk, a, crash))
  }

  /**
   * An agent writes only files it has covered, and a disconnect's edits change only files that
   * have a record.
   */
  predicate Lawful(w: Watch, a: Action) {
    match a
    case Connect(files, edits, _, _) => forall e | e in edits :: e.file in files
    case Disconnect(_, _, edits, _) => EditsProtected(w, edits)
    case UserEdit(_, _) => true
  }

  lemma ConnectHarmless(w: Watch, files: seq<File>, edits: seq<Edit>, ok: bool, broken: set<File>)
    requires Sound(w) && forall e | e in edits :: e.file in files
    ensures AllHarmless(w, ConnectSteps(w.disk, files, edits, ok, broken))
    ensures ObserveAll(w, ConnectSteps(w.disk, files, edits, ok, broken)).aside == w.aside
  {
    hide AllHarmless, ObserveAll, Sound, TakeSteps, EditAllSteps, RestoreSteps, DoAll, EditsProtected;
    var take := TakeSteps(w.disk, files);
    TakeHarmless(w, files);
    var a := ObserveAll(w, take);
    SoundIsFresh(a);
    CoveredEdits(a, edits);
    EditsHarmless(a, edits);
    var write := EditAllSteps(a.disk, edits);
    HarmlessAppend(w, take, write);
    HarmlessKeeps(w, take + write);
    var b := ObserveAll(w, take + write);
    if !ok {
      RestoreHarmless(b, files, broken);
      HarmlessAppend(w, take + write, RestoreSteps(b.disk, files, broken));
    } else {
      assert take + write + [] == take + write;
    }
  }

  lemma SoundIsFresh(w: Watch)
    requires Sound(w)
    ensures Fresh(w.disk)
  {
  }

  /** A disconnect is harmless throughout if and only if its edits change recorded files only. */
  lemma DisconnectHarmless(rules: Rules, w: Watch, files: seq<File>, edits: seq<Edit>, unreadable: set<File>)
    requires Sound(w)
    ensures AllHarmless(w, DisconnectSteps(rules, w.disk, files, edits, unreadable)) <==> EditsProtected(w, edits)
    ensures EditsProtected(w, edits) && unreadable == {} ==>
      ObserveAll(w, DisconnectSteps(rules, w.disk, files, edits, unreadable)).aside == w.aside
  {
    hide AllHarmless, ObserveAll, Sound, EditAllSteps, SettleSteps, DoAll, EditsProtected;
    var write := EditAllSteps(w.disk, edits);
    SoundIsFresh(w);
    EditsHarmless(w, edits);
    var v := ObserveAll(w, write);
    HarmlessAppend(w, write, SettleSteps(rules, v.disk, files, unreadable));
    if EditsProtected(w, edits) {
      HarmlessKeeps(w, write);
      SettleHarmless(rules, v, files, unreadable);
    }
  }

  /** Any call, broken off anywhere, consists of harmless operations and keeps every file protected. */
  lemma CallIsSafe(w: Watch, a: Action, crash: nat)
    requires Sound(w) && Lawful(w, a)
    ensures !a.UserEdit? ==> AllHarmless(w, Performed(w.disk, a, crash))
    ensures Sound(After(w, a, crash))
  {
    hide AllHarmless, ObserveAll, Sound, ConnectSteps, DisconnectSteps, EditsProtected;
    match a
    case Connect(files, edits, ok, broken) =>
      ConnectHarmless(w, files, edits, ok, broken);
      CutOff(w, CallSteps(w.disk, a), crash);
    case Disconnect(rules, files, edits, unreadable) =>
      DisconnectHarmless(rules, w, files, edits, unreadable);
      CutOff(w, CallSteps(w.disk, a), crash);
    case UserEdit(f, contents) => UserEditIsSafe(w, f, contents);
  }

  lemma CutOff(w: Watch, steps: seq<Step>, crash: nat)
    requires Sound(w) && AllHarmless(w, steps)
    ensures var done := if crash < |steps| then steps[..crash] else steps;
      AllHarmless(w, done) && Sound(ObserveAll(w, done))
  {
    hide AllHarmless, ObserveAll, Sound;
    HarmlessPrefix(w, steps, if crash < |steps| then crash else |steps|);
    HarmlessKeeps(w, if crash < |steps| then steps[..crash] else steps);
  }

  lemma UserEditIsSafe(w: Watch, f: File, contents: Option<Bytes>)
    requires Sound(w)
    ensures Sound(w.(disk := UserChanged(w.disk, f, contents)))
  {
    var v := w.(disk := UserChanged(w.disk, f, contents));
    forall g ensures Protected(v, g) {
      assert Protected(w, g);
      if g in w.aside {
        var id :| Read(w.disk, Aside(g, id)) == Some(w.aside[g]);
        assert Read(v.disk, Aside(g, id)) == Some(v.aside[g]);
      }
    }
  }

  datatype Event = Event(action: Action, crash: nat)

  function Run(w: Watch, events: seq<Event>): Watch
    decreases |events|
  {
    if events == [] then w else Run(After(w, events[0].action, events[0].crash), events[1..])
  }

  predicate LawfulRun(w: Watch, events: seq<Event>)
    decreases |events|
  {
    events == []
    || (Lawful(w, events[0].action) && LawfulRun(After(w, events[0].action, events[0].crash), events[1..]))
  }

  /** Every operation of every call in the run is harmless. */
  predicate HarmlessRun(w: Watch, events: seq<Event>)
    decreases |events|
  {
    events == []
    || (&& (!events[0].action.UserEdit? ==> AllHarmless(w, Performed(w.disk, events[0].action, events[0].crash)))
        && HarmlessRun(After(w, events[0].action, events[0].crash), events[1..]))
  }

  predicate AllReadable(events: seq<Event>) {
    forall i | 0 <= i < |events| :: events[i].action.Disconnect? ==> events[i].action.unreadable == {}
  }

  /**
   * Over every run, whatever crashes: no record is ever overwritten, records go only when the file
   * equals them, and a file changed by the gateway has its record as it was taken.
   */
  lemma {:induction false} EveryRunIsSafe(w: Watch, events: seq<Event>)
    requires Sound(w) && LawfulRun(w, events)
    ensures HarmlessRun(w, events) && Sound(Run(w, events))
    decreases |events|
  {
    hide AllHarmless, Sound, Performed, After, Lawful;
    if events != [] {
      CallIsSafe(w, events[0].action, events[0].crash);
      EveryRunIsSafe(After(w, events[0].action, events[0].crash), events[1..]);
    }
  }

  /** The run starts on a disk without records. */
  ghost predicate Untouched(d: Disk) {
    forall p | p in d.entries :: p.Config?
  }

  function Start(d: Disk): Watch {
    Watch(d, map[], {}, map[])
  }

  lemma StartIsSound(d: Disk)
    requires Untouched(d)
    ensures Sound(Start(d))
  {
    forall f ensures Protected(Start(d), f) {
    }
  }

  /** With readable records nothing is ever set aside, so every file changed by the gateway has its record. */
  lemma {:induction false} ChangedFilesHaveRecords(w: Watch, events: seq<Event>, f: File)
    requires Sound(w) && w.aside == map[] && LawfulRun(w, events) && AllReadable(events)
    ensures var v := Run(w, events);
      f in v.dirty ==> f in v.taken && Record(v.disk, f) == Some(v.taken[f])
    decreases |events|
  {
    hide AllHarmless, Sound, Performed, After, Lawful;
    if events == [] {
      SoundFile(w, f);
    } else {
      var a := events[0].action;
      CallIsSafe(w, a, events[0].crash);
      assert a.Disconnect? ==> a.unreadable == {};
      NothingSetAside(w, a, events[0].crash);
      assert forall i | 0 <= i < |events[1..]| :: events[1..][i] == events[i + 1];
      ChangedFilesHaveRecords(After(w, a, events[0].crash), events[1..], f);
    }
  }

  lemma NothingSetAside(w: Watch, a: Action, crash: nat)
    requires Sound(w) && Lawful(w, a) && w.aside == map[] && (a.Disconnect? ==> a.unreadable == {})
    ensures After(w, a, crash).aside == map[]
  {
    hide AllHarmless, ObserveAll, Sound, ConnectSteps, DisconnectSteps, EditsProtected;
    match a
    case Connect(files, edits, ok, broken) =>
      ConnectHarmless(w, files, edits, ok, broken);
      AsideGrows(w, CallSteps(w.disk, a), crash);
    case Disconnect(rules, files, edits, unreadable) =>
      DisconnectHarmless(rules, w, files, edits, unreadable);
      AsideGrows(w, CallSteps(w.disk, a), crash);
    case UserEdit(f, contents) =>
  }

  /** Copies set aside stay, so if there is none in the end there was none before. */
  lemma AsideGrows(w: Watch, steps: seq<Step>, crash: nat)
    requires ObserveAll(w, steps).aside == map[]
    ensures ObserveAll(w, if crash < |steps| then steps[..crash] else steps).aside == map[]
  {
    hide ObserveAll;
    if crash < |steps| {
      assert steps == steps[..crash] + steps[crash..];
      HarmlessAppend(w, steps[..crash], steps[crash..]);
      AsideMonotone(ObserveAll(w, steps[..crash]), steps[crash..]);
    }
  }

  lemma {:induction false} AsideMonotone(w: Watch, steps: seq<Step>)
    ensures w.aside.Keys <= ObserveAll(w, steps).aside.Keys
    decreases |steps|
  {
    hide DoAll, Do;
    if steps != [] {
      AsideMonotone(Observe(w, steps[0]), steps[1..]);
    }
  }

  /** A disconnect of a file without a record still edits it: the file is changed and nothing is kept of it. */
  lemma UnrecordedEditIsUnprotected(rules: Rules, w: Watch, files: seq<File>, e: Edit)
    requires Sound(w) && e.file !in w.taken && e.file !in w.aside && Read(w.disk, Config(e.file)) != e.contents
    ensures var steps := DisconnectSteps(rules, w.disk, files, [e], {});
      exists n: nat :: n <= |steps| && !Protected(ObserveAll(w, steps[..n]), e.file)
  {
    hide ObserveAll, AllHarmless, Sound, SettleSteps, WriteSteps, DoAll, Written;
    var write := EditAllSteps(w.disk, [e]);
    var steps := DisconnectSteps(rules, w.disk, files, [e], {});
    SoundFile(w, e.file);
    OneEdit(w.disk, e);
    assert steps[..|write|] == write;
    match e.contents {
      case Some(bytes) => WriteHarmless(w, Config(e.file), bytes);
      case None => OneHarmless(w, Remove(Config(e.file)));
    }
    var v := ObserveAll(w, steps[..|write|]);
    assert e.file in v.dirty && e.file !in v.taken && e.file !in v.aside;
  }

  lemma OneEdit(d: Disk, e: Edit)
    ensures EditAllSteps(d, [e]) == EditSteps(d, e)
  {
    hide EditSteps;
    assert [e][1..] == [];
    assert EditSteps(d, e) + [] == EditSteps(d, e);
  }
}
