/** Files and the atomic replacement of one: every file operation is a step a crash can follow. */
module Files {
  import opened Text

  type Bytes = seq<bv8>

  /** A covered file, by its path. */
  type File = string

  /** The paths that recovery touches. Temporary and set-aside copies get unused names. */
  datatype Path = Config(file: File) | Backup(file: File) | Marker(file: File) | Aside(file: File, id: nat) | Temp(id: nat)

  /** What is on the disk, and the next unused name. */
  datatype Disk = Disk(entries: map<Path, Bytes>, next: nat)

  datatype Step = Create(id: nat) | Append(id: nat, byte: bv8) | Rename(from: Path, to: Path) | Remove(path: Path)

  function Read(d: Disk, p: Path): Option<Bytes> {
    if p in d.entries then Some(d.entries[p]) else None
  }

  function Do(d: Disk, s: Step): Disk {
    match s
    case Create(id) => Disk(d.entries[Temp(id) := []], if id < d.next then d.next else id + 1)
    case Append(id, byte) =>
      if Temp(id) in d.entries then d.(entries := d.entries[Temp(id) := d.entries[Temp(id)] + [byte]]) else d
    case Rename(from, to) =>
      if from in d.entries then
        Disk((d.entries - {from})[to := d.entries[from]], if to.Aside? && d.next <= to.id then to.id + 1 else d.next)
      else d
    case Remove(path) => d.(entries := d.entries - {path})
  }

  function DoAll(d: Disk, steps: seq<Step>): Disk
    decreases |steps|
  {
    if steps == [] then d else DoAll(Do(d, steps[0]), steps[1..])
  }

  lemma {:induction false} DoAllAppend(d: Disk, a: seq<Step>, b: seq<Step>)
    ensures DoAll(d, a + b) == DoAll(DoAll(d, a), b)
    decreases |a|
  {
    if a == [] {
      assert a + b == b;
    } else {
      DoAllAppend(Do(d, a[0]), a[1..], b);
      assert (a + b)[1..] == a[1..] + b;
    }
  }

  /** Not a copy under a made-up name. */
  predicate Lasting(p: Path) {
    !p.Temp? && !p.Aside?
  }

  /** Made-up names are not used twice. */
  ghost predicate Fresh(d: Disk) {
    forall p | p in d.entries && !Lasting(p) :: p.id < d.next
  }

  // ---- write_atomic ---------------------------------------------------------------------------

  /** `write_all`, one byte after the other. */
  function Appends(id: nat, data: Bytes): (steps: seq<Step>)
    ensures |steps| == |data|
    ensures forall k | 0 <= k < |data| :: steps[k] == Append(id, data[k])
  {
    seq(|data|, k requires 0 <= k < |data| => Append(id, data[k]))
  }

  function WriteSteps(d: Disk, path: Path, data: Bytes): seq<Step> {
    if Read(d, path) == Some(data) then []
    else [Create(d.next)] + Appends(d.next, data) + [Rename(Temp(d.next), path)]
  }

  /** The disk once `path` holds `data`. */
  function Written(d: Disk, path: Path, data: Bytes): Disk {
    if Read(d, path) == Some(data) then d else Disk(d.entries[path := data], d.next + 1)
  }

  /** After the first `n` steps of a write that is still under way. */
  function MidWrite(d: Disk, data: Bytes, n: nat): Disk
    requires n <= |data| + 1
  {
    if n == 0 then d else Disk(d.entries[Temp(d.next) := data[..n - 1]], d.next + 1)
  }

  /** Everything but temporary files is as before. */
  ghost predicate SameFiles(d: Disk, e: Disk) {
    forall p: Path | !p.Temp? :: Read(d, p) == Read(e, p)
  }

  lemma {:induction false} WriteProgress(d: Disk, path: Path, data: Bytes, n: nat)
    requires Read(d, path) != Some(data) && n <= |data| + 1
    ensures DoAll(d, WriteSteps(d, path, data)[..n]) == MidWrite(d, data, n)
  {
    hide DoAll, Do, WriteSteps, Read, MidWrite;
    WriteHasSteps(d, path, data);
    var steps := WriteSteps(d, path, data);
    if n == 0 {
      NotBegun(d, path, data);
    } else {
      WriteProgress(d, path, data, n - 1);
      assert steps[..n] == steps[..n - 1] + [steps[n - 1]];
      DoAllAppend(d, steps[..n - 1], [steps[n - 1]]);
      DoOne(MidWrite(d, data, n - 1), steps[n - 1]);
      if n == 1 {
        Created(d, path, data);
      } else {
        MidStep(d, path, data, n - 2);
        assert steps[..n][n - 1] == steps[n - 1];
      }
    }
  }

  lemma WriteHasSteps(d: Disk, path: Path, data: Bytes)
    requires Read(d, path) != Some(data)
    ensures |WriteSteps(d, path, data)| == |data| + 2
  {
  }

  lemma NotBegun(d: Disk, path: Path, data: Bytes)
    ensures DoAll(d, WriteSteps(d, path, data)[..0]) == MidWrite(d, data, 0)
  {
    hide WriteSteps;
  }

  lemma DoOne(d: Disk, step: Step)
    ensures DoAll(d, [step]) == Do(d, step)
  {
    hide Do;
    assert [step][1..] == [];
  }

  lemma Created(d: Disk, path: Path, data: Bytes)
    requires Read(d, path) != Some(data)
    ensures Do(MidWrite(d, data, 0), WriteSteps(d, path, data)[0]) == MidWrite(d, data, 1)
  {
    assert data[..0] == [];
  }

  lemma WriteLands(d: Disk, path: Path, data: Bytes)
    requires Fresh(d) && Lasting(path) && Read(d, path) != Some(data)
    ensures Do(MidWrite(d, data, |data| + 1), Rename(Temp(d.next), path)) == Written(d, path, data)
  {
    assert data[..|data|] == data;
    assert Temp(d.next) !in d.entries;
    assert MidWrite(d, data, |data| + 1).entries - {Temp(d.next)} == d.entries;
  }

  /** An uninterrupted write leaves the new contents, the old name table and no temporary file. */
  lemma WriteEffect(d: Disk, path: Path, data: Bytes)
    requires Fresh(d) && Lasting(path)
    ensures DoAll(d, WriteSteps(d, path, data)) == Written(d, path, data)
  {
    if Read(d, path) != Some(data) {
      var steps, n := WriteSteps(d, path, data), |data| + 1;
      WriteProgress(d, path, data, n);
      assert steps == steps[..n] + [steps[n]];
      DoAllAppend(d, steps[..n], [steps[n]]);
      WriteLands(d, path, data);
    }
  }

  /** A crash anywhere in a write leaves either the old file or the new one, whole; no other file changes. */
  lemma WriteIsAtomic(d: Disk, path: Path, data: Bytes, n: nat)
    requires Fresh(d) && Lasting(path) && n <= |WriteSteps(d, path, data)|
    ensures var e := DoAll(d, WriteSteps(d, path, data)[..n]);
      && Fresh(e)
      && Read(e, path) in [Read(d, path), Some(data)]
      && (n < |WriteSteps(d, path, data)| ==> SameFiles(d, e))
      && forall p: Path | p != path && !p.Temp? :: Read(e, p) == Read(d, p)
  {
    var steps := WriteSteps(d, path, data);
    if n == |steps| {
      assert steps[..n] == steps;
      WriteEffect(d, path, data);
    } else {
      WriteProgress(d, path, data, n);
    }
  }

  lemma MidStep(d: Disk, path: Path, data: Bytes, n: nat)
    requires Read(d, path) != Some(data) && n < |data|
    ensures MidWrite(d, data, n + 2) == Do(MidWrite(d, data, n + 1), Append(d.next, data[n]))
    ensures WriteSteps(d, path, data)[..n + 2] == WriteSteps(d, path, data)[..n + 1] + [Append(d.next, data[n])]
  {
    var mid := MidWrite(d, data, n + 1);
    assert data[..n + 1] == data[..n] + [data[n]];
    assert mid.entries[Temp(d.next) := data[..n + 1]] == d.entries[Temp(d.next) := data[..n + 1]];
  }

  // ---- the file operations as they run -----------------------------------------------------------

  class FileSystem {
    var entries: map<Path, Bytes>
    var next: nat
    /** Every operation carried out so far. */
    ghost var log: seq<Step>

    ghost function Now(): Disk
      reads this
    {
      Disk(entries, next)
    }

    constructor ()
      ensures Now() == Disk(map[], 0) && log == []
    {
      entries, next, log := map[], 0, [];
    }

    method Get(path: Path) returns (bytes: Option<Bytes>)
      ensures bytes == Read(Now(), path)
    {
      bytes := if path in entries then Some(entries[path]) else None;
    }

    method CreateTemp() returns (id: nat)
      modifies this
      ensures id == old(next) && log == old(log) + [Create(id)] && Now() == Do(old(Now()), Create(id))
    {
      id := next;
      entries, next := entries[Temp(id) := []], next + 1;
      log := log + [Create(id)];
    }

    method AppendTemp(id: nat, byte: bv8)
      requires Temp(id) in entries
      modifies this
      ensures log == old(log) + [Append(id, byte)] && Now() == Do(old(Now()), Append(id, byte))
    {
      entries := entries[Temp(id) := entries[Temp(id)] + [byte]];
      log := log + [Append(id, byte)];
    }

    method Move(from: Path, to: Path)
      modifies this
      ensures log == old(log) + [Rename(from, to)] && Now() == Do(old(Now()), Rename(from, to))
    {
      log := log + [Rename(from, to)];
      if from in entries {
        entries := (entries - {from})[to := entries[from]];
        if to.Aside? && next <= to.id {
          next := to.id + 1;
        }
      }
    }

    method Unlink(path: Path)
      modifies this
      ensures log == old(log) + [Remove(path)] && Now() == Do(old(Now()), Remove(path))
    {
      entries := entries - {path};
      log := log + [Remove(path)];
    }

    /** Nothing at all if the contents are there; else a temporary file, renamed over the target. */
    method WriteAtomic(path: Path, data: Bytes)
      requires Fresh(Now()) && Lasting(path)
      modifies this
      ensures log == old(log) + WriteSteps(old(Now()), path, data)
      ensures Now() == DoAll(old(Now()), WriteSteps(old(Now()), path, data)) == Written(old(Now()), path, data)
      ensures Fresh(Now())
    {
      ghost var d, steps := Now(), WriteSteps(Now(), path, data);
      WriteEffect(d, path, data);
      var current := Get(path);
      if current == Some(data) {
        return;
      }
      var id := CreateTemp();
      var n := 0;
      while n < |data|
        invariant n <= |data| && id == d.next
        invariant Now() == MidWrite(d, data, n + 1)
        invariant log == old(log) + steps[..n + 1]
      {
        MidStep(d, path, data, n);
        AppendTemp(id, data[n]);
        n := n + 1;
      }
      WriteLands(d, path, data);
      Move(Temp(id), path);
      assert steps == steps[..|data| + 1] + [Rename(Temp(id), path)];
    }
  }
}
