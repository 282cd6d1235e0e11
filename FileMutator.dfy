/** In-place replacement of one file's contents (`replace_file`). The
    operating system is an abstract file map plus one slot for the temporary
    file the protocol creates next to its target. Every operating-system
    step may fail; which ones fail is given by a set of faulty steps, so a
    contract that holds for every such set holds whatever the system does. */
module FileMutator {
  import opened Types

  /** Permission bits of a file. */
  type Perms = nat

  /** The permissions a freshly created temporary file has (owner read and
      write). */
  const TempPerms: Perms := 0x180

  datatype Entry = Entry(data: seq<byte>, perms: Perms)

  /** The temporary file: the directory it lives in, its contents and its
      permissions. */
  datatype TempFile = TempFile(dir: Path, data: seq<byte>, perms: Perms)

  /** The part of the file system the protocol sees. */
  datatype Fs = Fs(files: map<Path, Entry>, temp: Option<TempFile>)

  /** The state-changing operations the protocol performs, all on the
      temporary file except the final rename over the target. */
  datatype Op =
    | TempCreate(dir: Path)
    | TempSetLen(len: nat)
    | TempSetPerms(perms: Perms)
    | TempWrite(bytes: seq<byte>)
    | TempDelete
    | TempPersist(target: Path)

  function Zeros(n: nat): (z: seq<byte>)
    ensures |z| == n
  {
    seq(n, _ => 0)
  }

  /** `set_len`: truncate, or extend with zero bytes. */
  function Resize(data: seq<byte>, n: nat): (r: seq<byte>)
    ensures |r| == n
  {
    if n <= |data| then data[..n] else data + Zeros(n - |data|)
  }

  /** Writing through a writable mapping: the bytes land at the start of the
      file, within its current length. */
  function Overwrite(data: seq<byte>, bytes: seq<byte>): (r: seq<byte>)
    ensures |r| == |data|
  {
    if |data| <= |bytes| then bytes[..|data|] else bytes + data[|bytes|..]
  }

  /** What one operation does to the file system. Only `TempPersist`
      changes `files`: it renames the temporary file over the target, in one
      step, permissions included. */
  function Apply(st: Fs, op: Op): Fs
  {
    match op
    case TempCreate(dir) => st.(temp := Some(TempFile(dir, [], TempPerms)))
    case TempDelete => st.(temp := None)
    case _ =>
      if st.temp.None? then st
      else
        var t := st.temp.value;
        match op
        case TempSetLen(n) => st.(temp := Some(t.(data := Resize(t.data, n))))
        case TempSetPerms(p) => st.(temp := Some(t.(perms := p)))
        case TempWrite(bytes) => st.(temp := Some(t.(data := Overwrite(t.data, bytes))))
        case TempPersist(target) => Fs(st.files[target := Entry(t.data, t.perms)], None)
  }

  function ApplyAll(st: Fs, ops: seq<Op>): Fs
    decreases |ops|
  {
    if ops == [] then st else ApplyAll(Apply(st, ops[0]), ops[1..])
  }

  /** The file system, with a ghost record of every operation performed on
      it. */
  class FileSystem {
    var files: map<Path, Entry>
    var temp: Option<TempFile>
    ghost var trace: seq<Op>

    function State(): Fs
      reads this
    {
      Fs(files, temp)
    }

    constructor (initial: map<Path, Entry>)
      ensures files == initial && temp == None && trace == []
    {
      files, temp, trace := initial, None, [];
    }

    /** `NamedTempFile::new_in(dir)`. */
    method CreateTemp(dir: Path)
      modifies this
      ensures State() == Apply(old(State()), TempCreate(dir)) && trace == old(trace) + [TempCreate(dir)]
    {
      temp := Some(TempFile(dir, [], TempPerms));
      trace := trace + [TempCreate(dir)];
    }

    /** `set_len` on the temporary file. */
    method SetLen(n: nat)
      requires temp.Some?
      modifies this
      ensures State() == Apply(old(State()), TempSetLen(n)) && trace == old(trace) + [TempSetLen(n)]
    {
      temp := Some(temp.value.(data := Resize(temp.value.data, n)));
      trace := trace + [TempSetLen(n)];
    }

    /** `set_permissions` on the temporary file. */
    method SetPermissions(p: Perms)
      requires temp.Some?
      modifies this
      ensures State() == Apply(old(State()), TempSetPerms(p)) && trace == old(trace) + [TempSetPerms(p)]
    {
      temp := Some(temp.value.(perms := p));
      trace := trace + [TempSetPerms(p)];
    }

    /** Writing the bytes through a writable mapping of the temporary file. */
    method Write(bytes: seq<byte>)
      requires temp.Some?
      modifies this
      ensures State() == Apply(old(State()), TempWrite(bytes)) && trace == old(trace) + [TempWrite(bytes)]
    {
      temp := Some(temp.value.(data := Overwrite(temp.value.data, bytes)));
      trace := trace + [TempWrite(bytes)];
    }

    /** Dropping the temporary file without persisting it deletes it. */
    method DeleteTemp()
      modifies this
      ensures State() == Apply(old(State()), TempDelete) && trace == old(trace) + [TempDelete]
    {
      temp := None;
      trace := trace + [TempDelete];
    }

    /** `persist(target)`: the atomic rename over the target. */
    method Persist(target: Path)
      requires temp.Some?
      modifies this
      ensures State() == Apply(old(State()), TempPersist(target)) && trace == old(trace) + [TempPersist(target)]
    {
      files := files[target := Entry(temp.value.data, temp.value.perms)];
      temp := None;
      trace := trace + [TempPersist(target)];
    }
  }

  // ---------------------------------------------------------------------
  // The protocol as a plan of stages, each of which may fail.

  /** The operating-system steps of `replace_file` that can fail. */
  datatype Step =
    | Open | Probe | Reopen | Metadata | MapSource
    | CreateTemp | SetLen | SetPermissions | MapTarget | Write | Flush | Persist

  /** A stage of the plan: the step, and the operation it performs when it
      succeeds (mapping and flushing change nothing in this model). */
  datatype Stage = Stage(step: Step, effect: Option<Op>)

  /** The stages after the target's directory is known, in order. The
      mapping, write and flush are skipped for an empty replacement. */
  function Plan(dir: Path, replaced: seq<byte>, perms: Perms, target: Path): seq<Stage>
  {
    Setup(dir, |replaced|, perms) + Finish(replaced, target)
  }

  /** Creating the temporary file and preparing it. */
  function Setup(dir: Path, len: nat, perms: Perms): seq<Stage>
  {
    [Stage(CreateTemp, Some(TempCreate(dir))),
     Stage(SetLen, Some(TempSetLen(len))),
     Stage(SetPermissions, Some(TempSetPerms(perms)))]
  }

  /** Filling the temporary file, then renaming it over the target. */
  function Finish(replaced: seq<byte>, target: Path): seq<Stage>
  {
    Fill(replaced) + [Stage(Persist, Some(TempPersist(target)))]
  }

  /** Mapping the temporary file writable, writing the replacement and
      flushing; nothing at all for an empty replacement. */
  function Fill(replaced: seq<byte>): seq<Stage>
  {
    if |replaced| > 0 then
      [Stage(MapTarget, None), Stage(Write, Some(TempWrite(replaced))), Stage(Flush, None)]
    else []
  }


  /** The operation a stage performs, if any. */
  function EffectOf(stage: Stage): seq<Op>
  {
    if stage.effect.Some? then [stage.effect.value] else []
  }

  function Effects(stages: seq<Stage>): seq<Op>
    decreases |stages|
  {
    if stages == [] then []
    else EffectOf(stages[0]) + Effects(stages[1..])
  }

  datatype Run = Run(completed: bool, ops: seq<Op>)

  /** Runs the stages in order until the first faulty one. */
  function Execute(stages: seq<Stage>, faults: set<Step>): Run
    decreases |stages|
  {
    if stages == [] then Run(true, [])
    else if stages[0].step in faults then Run(false, [])
    else
      var rest := Execute(stages[1..], faults);
      Run(rest.completed, EffectOf(stages[0]) + rest.ops)
  }

  /** The outcome of one call and the operations it performed. */
  datatype Attempt = Attempt(result: Result<()>, ops: seq<Op>)

  /** What `replace_file` does on state `st`: opening the file fails with an
      I/O error; a file whose first byte cannot be read is left alone with
      success; re-opening, reading metadata and mapping may fail; a path
      without parent fails with `InvalidPath`; then the plan runs, and if a
      stage fails after the temporary file exists, that file is deleted. */
  function Protocol(st: Fs, path: Path, replace: seq<byte> -> seq<byte>,
                    parent: Path -> Option<Path>, faults: set<Step>): Attempt
  {
    if path !in st.files || Open in faults then
      Attempt(Err(Io), [])
    else if |st.files[path].data| == 0 || Probe in faults then
      Attempt(Ok(()), [])
    else if Reopen in faults || Metadata in faults || MapSource in faults then
      Attempt(Err(Io), [])
    else if parent(path).None? then
      Attempt(Err(InvalidPath(path)), [])
    else
      var e := st.files[path];
      Settle(Execute(Plan(parent(path).value, replace(e.data), e.perms, path), faults))
  }

  /** The end of a run of the plan: success, or an I/O error after which the
      temporary file, if one was created, is deleted. */
  function Settle(run: Run): Attempt
  {
    if run.completed then Attempt(Ok(()), run.ops)
    else if run.ops == [] then Attempt(Err(Io), [])
    else Attempt(Err(Io), run.ops + [TempDelete])
  }

  /** `replace_file`, step by step on the file system. */
  method ReplaceFile(fs: FileSystem, path: Path, replace: seq<byte> -> seq<byte>,
                     parent: Path -> Option<Path>, faults: set<Step>)
    returns (r: Result<()>)
    modifies fs
    ensures var a := Protocol(old(fs.State()), path, replace, parent, faults);
      r == a.result && fs.State() == ApplyAll(old(fs.State()), a.ops) && fs.trace == old(fs.trace) + a.ops
  {
    ghost var st := fs.State();
    // File::open(path)? followed by the one-byte probe
    if path !in fs.files || Open in faults {
      return Err(Io);
    }
    if |fs.files[path].data| == 0 || Probe in faults {
      return Ok(());
    }
    // File::open, metadata and the read-only mapping
    if Reopen in faults || Metadata in faults || MapSource in faults {
      return Err(Io);
    }
    var source := fs.files[path];
    var replaced := replace(source.data);
    var dir := parent(path);
    if dir.None? {
      return Err(InvalidPath(path));
    }

    PlanRunIsExecute(dir.value, replaced, source.perms, path, faults);
    r := PersistThroughTemp(fs, dir.value, replaced, source.perms, path, faults);
  }

  /** The second half of `replace_file`: create the temporary file in `dir`,
      give it the replacement's length and the source's permissions, write
      the replacement unless it is empty, and rename it over `target`. */
  method PersistThroughTemp(fs: FileSystem, dir: Path, replaced: seq<byte>, perms: Perms,
                            target: Path, faults: set<Step>)
    returns (r: Result<()>)
    modifies fs
    ensures var a := Settle(PlanRun(dir, replaced, perms, target, faults));
      r == a.result && fs.State() == ApplyAll(old(fs.State()), a.ops) && fs.trace == old(fs.trace) + a.ops
  {
    ghost var st, tr := fs.State(), fs.trace;
    var ok := CreateSizedTemp(fs, dir, |replaced|, perms, faults);
    if !ok {
      return Err(Io);
    }
    PlanRunSplits(st, dir, replaced, perms, target, faults);
    ghost var ops1 := SetupRun(dir, |replaced|, perms, faults).ops;
    r := FillAndPersist(fs, replaced, target, faults);
    ghost var f := FinishRun(replaced, target, faults);
    ghost var ops2 := if f.completed then f.ops else f.ops + [TempDelete];
    assert tr + ops1 + ops2 == tr + (ops1 + ops2);
  }

  /** A run of the plan whose setup completed: the setup's operations, then
      those of the finish, with the temporary file deleted if the finish
      fails. */
  lemma PlanRunSplits(st: Fs, dir: Path, replaced: seq<byte>, perms: Perms, target: Path, faults: set<Step>)
    requires SetupRun(dir, |replaced|, perms, faults).completed
    ensures var s, f := SetupRun(dir, |replaced|, perms, faults), FinishRun(replaced, target, faults);
      var a := Settle(PlanRun(dir, replaced, perms, target, faults));
      var ops2 := if f.completed then f.ops else f.ops + [TempDelete];
      a.ops == s.ops + ops2 && a.result == (if f.completed then Ok(()) else Err(Io)) &&
      ApplyAll(st, a.ops) == ApplyAll(ApplyAll(st, s.ops), ops2)
  {
    var s, f := SetupRun(dir, |replaced|, perms, faults), FinishRun(replaced, target, faults);
    var ops2 := if f.completed then f.ops else f.ops + [TempDelete];
    assert s.ops != [];
    if !f.completed {
      assert s.ops + f.ops + [TempDelete] == s.ops + ops2;
    }
    ApplyAllAppend(st, s.ops, ops2);
  }

  /** `NamedTempFile::new_in(dir)`, `set_len(len)`, `set_permissions(perms)`.
      On a failure after creation the temporary file is deleted. */
  method CreateSizedTemp(fs: FileSystem, dir: Path, len: nat, perms: Perms, faults: set<Step>)
    returns (ok: bool)
    modifies fs
    ensures var run := SetupRun(dir, len, perms, faults);
      var ops := Settle(run).ops;
      ok == run.completed && (ok ==> fs.temp.Some?) &&
      fs.State() == ApplyAll(old(fs.State()), ops) && fs.trace == old(fs.trace) + ops
  {
    ghost var st, tr := fs.State(), fs.trace;
    var c, l, p := TempCreate(dir), TempSetLen(len), TempSetPerms(perms);
    if CreateTemp in faults {
      assert tr + [] == tr;
      return false;
    }
    fs.CreateTemp(dir);
    if SetLen in faults {
      fs.DeleteTemp();
      ApplyTwo(st, c, TempDelete);
      assert tr + [c] + [TempDelete] == tr + [c, TempDelete];
      return false;
    }
    fs.SetLen(len);
    if SetPermissions in faults {
      fs.DeleteTemp();
      ApplyThree(st, c, l, TempDelete);
      assert tr + [c] + [l] + [TempDelete] == tr + [c, l, TempDelete];
      return false;
    }
    fs.SetPermissions(perms);
    ApplyThree(st, c, l, p);
    assert tr + [c] + [l] + [p] == tr + [c, l, p];
    ok := true;
  }

  /** Filling the temporary file (`FillTemp`), then `persist(target)`. On
      any failure the temporary file is deleted. */
  method FillAndPersist(fs: FileSystem, replaced: seq<byte>, target: Path, faults: set<Step>)
    returns (r: Result<()>)
    requires fs.temp.Some?
    modifies fs
    ensures var run := FinishRun(replaced, target, faults);
      var ops := if run.completed then run.ops else run.ops + [TempDelete];
      r == (if run.completed then Ok(()) else Err(Io)) &&
      fs.State() == ApplyAll(old(fs.State()), ops) && fs.trace == old(fs.trace) + ops
  {
    ghost var st := fs.State();
    var ok := FillTemp(fs, replaced, faults);
    if !ok {
      return Err(Io);
    }
    ghost var ops1 := FillRun(replaced, faults).ops;
    if Persist in faults {
      fs.DeleteTemp();
      ApplyAllSnoc(st, ops1, TempDelete);
      return Err(Io);
    }
    fs.Persist(target);
    ApplyAllSnoc(st, ops1, TempPersist(target));
    r := Ok(());
  }

  /** Mapping the temporary file writable, writing the replacement through
      the mapping and flushing it, all skipped for an empty replacement. On
      a failure the temporary file is deleted. */
  method FillTemp(fs: FileSystem, replaced: seq<byte>, faults: set<Step>) returns (ok: bool)
    requires fs.temp.Some?
    modifies fs
    ensures var run := FillRun(replaced, faults);
      var ops := if run.completed then run.ops else run.ops + [TempDelete];
      ok == run.completed && (ok ==> fs.temp.Some?) &&
      fs.State() == ApplyAll(old(fs.State()), ops) && fs.trace == old(fs.trace) + ops
  {
    ghost var st, tr := fs.State(), fs.trace;
    var w := TempWrite(replaced);
    if |replaced| > 0 {
      if MapTarget in faults {
        fs.DeleteTemp();
        ApplyOne(st, TempDelete);
        return false;
      }
      if Write in faults {
        fs.DeleteTemp();
        ApplyOne(st, TempDelete);
        return false;
      }
      fs.Write(replaced);
      if Flush in faults {
        fs.DeleteTemp();
        ApplyTwo(st, w, TempDelete);
        assert tr + [w] + [TempDelete] == tr + [w, TempDelete];
        return false;
      }
      ApplyOne(st, w);
    } else {
      assert tr + [] == tr;
    }
    ok := true;
  }

  // ---------------------------------------------------------------------
  // The runs of the stage groups in closed form.

  /** Creating, sizing and setting the permissions of the temporary file,
      up to the first failing step. */
  function SetupRun(dir: Path, len: nat, perms: Perms, faults: set<Step>): Run
  {
    if CreateTemp in faults then Run(false, [])
    else if SetLen in faults then Run(false, [TempCreate(dir)])
    else if SetPermissions in faults then Run(false, [TempCreate(dir), TempSetLen(len)])
    else Run(true, [TempCreate(dir), TempSetLen(len), TempSetPerms(perms)])
  }

  /** Mapping, writing and flushing, up to the first failing step. */
  function FillRun(replaced: seq<byte>, faults: set<Step>): Run
  {
    if |replaced| == 0 then Run(true, [])
    else if MapTarget in faults || Write in faults then Run(false, [])
    else if Flush in faults then Run(false, [TempWrite(replaced)])
    else Run(true, [TempWrite(replaced)])
  }

  function FinishRun(replaced: seq<byte>, target: Path, faults: set<Step>): Run
  {
    var f := FillRun(replaced, faults);
    if !f.completed then f
    else if Persist in faults then Run(false, f.ops)
    else Run(true, f.ops + [TempPersist(target)])
  }

  function PlanRun(dir: Path, replaced: seq<byte>, perms: Perms, target: Path, faults: set<Step>): Run
  {
    var s := SetupRun(dir, |replaced|, perms, faults);
    if !s.completed then s
    else
      var f := FinishRun(replaced, target, faults);
      Run(f.completed, s.ops + f.ops)
  }

  /** The closed form is the stage-by-stage run of the whole plan. */
  lemma PlanRunIsExecute(dir: Path, replaced: seq<byte>, perms: Perms, target: Path, faults: set<Step>)
    ensures Execute(Plan(dir, replaced, perms, target), faults) == PlanRun(dir, replaced, perms, target, faults)
  {
    var setup, finish := Setup(dir, |replaced|, perms), Finish(replaced, target);
    ExecuteAppend(setup, finish, faults);
    SetupRunIsExecute(dir, |replaced|, perms, faults);
    FinishRunIsExecute(replaced, target, faults);
  }

  lemma SetupRunIsExecute(dir: Path, len: nat, perms: Perms, faults: set<Step>)
    ensures Execute(Setup(dir, len, perms), faults) == SetupRun(dir, len, perms, faults)
  {
    var setup := Setup(dir, len, perms);
    var c, l, p := TempCreate(dir), TempSetLen(len), TempSetPerms(perms);
    var t1, t2 := setup[1..], setup[1..][1..];
    assert t2 == [Stage(SetPermissions, Some(p))] && t2[1..] == [];
    assert t1[0] == Stage(SetLen, Some(l)) && t1[1..] == t2;
    var e2 := Execute(t2, faults);
    assert EffectOf(t2[0]) == [p];
    assert Execute(t2[1..], faults) == Run(true, []);
    assert SetPermissions !in faults ==> e2 == Run(true, EffectOf(t2[0]) + Execute(t2[1..], faults).ops);
    assert e2 == if SetPermissions in faults then Run(false, []) else Run(true, [p] + []);
    var e1 := Execute(t1, faults);
    assert e1 == if SetLen in faults then Run(false, []) else Run(e2.completed, [l] + e2.ops);
    assert Execute(setup, faults) == if CreateTemp in faults then Run(false, []) else Run(e1.completed, [c] + e1.ops);
    assert [l] + ([p] + []) == [l, p] && [c] + ([l] + []) == [c, l] && [c] + [l, p] == [c, l, p];
  }

  lemma FillRunIsExecute(replaced: seq<byte>, faults: set<Step>)
    ensures Execute(Fill(replaced), faults) == FillRun(replaced, faults)
  {
    var fill := Fill(replaced);
    if |replaced| > 0 {
      var w := TempWrite(replaced);
      var t1, t2 := fill[1..], fill[1..][1..];
      assert t2 == [Stage(Flush, None)] && t2[1..] == [];
      assert t1[0] == Stage(Write, Some(w)) && t1[1..] == t2;
      var e2 := Execute(t2, faults);
      assert EffectOf(t2[0]) == [];
      assert Execute(t2[1..], faults) == Run(true, []);
      assert Flush !in faults ==> e2 == Run(true, EffectOf(t2[0]) + Execute(t2[1..], faults).ops);
      assert e2 == if Flush in faults then Run(false, []) else Run(true, [] + []);
      var e1 := Execute(t1, faults);
      assert e1 == if Write in faults then Run(false, []) else Run(e2.completed, [w] + e2.ops);
      assert Execute(fill, faults) == if MapTarget in faults then Run(false, []) else Run(e1.completed, [] + e1.ops);
      assert [w] + ([] + []) == [w] && [] + [w] == [w];
    }
  }

  lemma FinishRunIsExecute(replaced: seq<byte>, target: Path, faults: set<Step>)
    ensures Execute(Finish(replaced, target), faults) == FinishRun(replaced, target, faults)
  {
    var q := TempPersist(target);
    var fill, last := Fill(replaced), [Stage(Persist, Some(q))];
    ExecuteAppend(fill, last, faults);
    FillRunIsExecute(replaced, faults);
    assert last[1..] == [];
    assert Execute(last, faults) == if Persist in faults then Run(false, []) else Run(true, [q] + []);
    var f := FillRun(replaced, faults);
    assert f.ops + [] == f.ops && [q] + [] == [q];
  }

  lemma ApplyOne(st: Fs, a: Op)
    ensures ApplyAll(st, [a]) == Apply(st, a)
  {
  }

  lemma ApplyTwo(st: Fs, a: Op, b: Op)
    ensures ApplyAll(st, [a, b]) == Apply(Apply(st, a), b)
  {
    assert [a, b][1..] == [b];
    ApplyOne(Apply(st, a), b);
  }

  lemma ApplyThree(st: Fs, a: Op, b: Op, c: Op)
    ensures ApplyAll(st, [a, b, c]) == Apply(Apply(Apply(st, a), b), c)
  {
    assert [a, b, c][1..] == [b, c];
    ApplyTwo(Apply(st, a), b, c);
  }

  // ---------------------------------------------------------------------
  // What the protocol guarantees, for every set of failing steps.

  /** Only the rename over the target changes `files`: a sequence of
      operations without one leaves every file as it was. */
  lemma {:induction false} KeepsFilesWithoutPersist(st: Fs, ops: seq<Op>)
    requires forall k :: 0 <= k < |ops| ==> !ops[k].TempPersist?
    ensures ApplyAll(st, ops).files == st.files
    decreases |ops|
  {
    if ops != [] {
      KeepsFilesWithoutPersist(Apply(st, ops[0]), ops[1..]);
    }
  }

  /** The target is written by at most one operation: the last one, a
      rename onto `path`, and only in a call that succeeds. Every earlier
      operation works on the temporary file. */
  lemma OnlyLastOpPersists(st: Fs, path: Path, replace: seq<byte> -> seq<byte>,
                           parent: Path -> Option<Path>, faults: set<Step>)
    ensures var a := Protocol(st, path, replace, parent, faults);
      forall k :: 0 <= k < |a.ops| && a.ops[k].TempPersist? ==>
        k == |a.ops| - 1 && a.ops[k].target == path && a.result.Ok?
  {
    var a := Protocol(st, path, replace, parent, faults);
    if a.ops != [] {
      var e := st.files[path];
      var plan := Plan(parent(path).value, replace(e.data), e.perms, path);
      var last := |plan| - 1;
      var n := ExecutePrefix(plan, faults);
      assert forall k :: 0 <= k < last ==> !(plan[k].effect.Some? && plan[k].effect.value.TempPersist?);
      if n == |plan| {
        EffectsSnoc(plan, last);
        assert plan[..last + 1] == plan;
        EffectsNoPersist(plan[..last]);
      } else {
        EffectsNoPersist(plan[..n]);
      }
    }
  }

  /** A call that fails leaves every file as it was, the target included,
      and leaves no temporary file behind. */
  lemma FailureLeavesFilesUntouched(st: Fs, path: Path, replace: seq<byte> -> seq<byte>,
                                    parent: Path -> Option<Path>, faults: set<Step>)
    ensures var a := Protocol(st, path, replace, parent, faults);
      a.result.Err? ==>
        ApplyAll(st, a.ops).files == st.files &&
        (a.ops != [] ==> ApplyAll(st, a.ops).temp == None)
  {
    var a := Protocol(st, path, replace, parent, faults);
    if a.result.Err? {
      OnlyLastOpPersists(st, path, replace, parent, faults);
      KeepsFilesWithoutPersist(st, a.ops);
      if a.ops != [] {
        ApplyAllSnoc(st, a.ops[..|a.ops| - 1], TempDelete);
        assert a.ops[..|a.ops| - 1] + [TempDelete] == a.ops;
      }
    }
  }

  /** A call that succeeds either left the file alone (it was empty, or its
      first byte could not be read) or replaced exactly its contents with
      the replacement of the old contents, keeping its permissions, and left
      no temporary file behind. */
  lemma SuccessReplacesContents(st: Fs, path: Path, replace: seq<byte> -> seq<byte>,
                                parent: Path -> Option<Path>, faults: set<Step>)
    ensures var a := Protocol(st, path, replace, parent, faults);
      a.result.Ok? ==> (path in st.files &&
        if a.ops == [] then
          |st.files[path].data| == 0 || Probe in faults
        else
          var e := st.files[path];
          ApplyAll(st, a.ops) == Fs(st.files[path := Entry(replace(e.data), e.perms)], None))
  {
    var a := Protocol(st, path, replace, parent, faults);
    if a.result.Ok? && a.ops != [] {
      var e := st.files[path];
      var plan := Plan(parent(path).value, replace(e.data), e.perms, path);
      var n := ExecutePrefix(plan, faults);
      assert plan[..n] == plan;
      CompletedPlan(st, parent(path).value, replace(e.data), e.perms, path);
    }
  }

  /** With no failing step, a non-empty file that has a parent directory is
      rewritten. */
  lemma NoFaultsRewrites(st: Fs, path: Path, replace: seq<byte> -> seq<byte>, parent: Path -> Option<Path>)
    requires path in st.files && |st.files[path].data| > 0 && parent(path).Some?
    ensures var a := Protocol(st, path, replace, parent, {});
      a.result == Ok(()) && a.ops != [] &&
      ApplyAll(st, a.ops) == Fs(st.files[path := Entry(replace(st.files[path].data), st.files[path].perms)], None)
  {
    var e := st.files[path];
    var plan := Plan(parent(path).value, replace(e.data), e.perms, path);
    var n := ExecutePrefix(plan, {});
    assert plan[..n] == plan;
    CompletedPlan(st, parent(path).value, replace(e.data), e.perms, path);
  }

  /** An empty file, or one whose first byte cannot be read, is left alone
      and the call succeeds without any operation. */
  lemma EmptyFileIsLeftAlone(st: Fs, path: Path, replace: seq<byte> -> seq<byte>,
                             parent: Path -> Option<Path>, faults: set<Step>)
    requires path in st.files && Open !in faults
    requires |st.files[path].data| == 0 || Probe in faults
    ensures Protocol(st, path, replace, parent, faults) == Attempt(Ok(()), [])
  {
  }

  /** A non-empty file whose path has no parent directory fails with
      `InvalidPath` before any operation. */
  lemma NoParentIsInvalidPath(st: Fs, path: Path, replace: seq<byte> -> seq<byte>,
                              parent: Path -> Option<Path>, faults: set<Step>)
    requires path in st.files && |st.files[path].data| > 0 && parent(path).None?
    requires faults !! {Open, Probe, Reopen, Metadata, MapSource}
    ensures Protocol(st, path, replace, parent, faults) == Attempt(Err(InvalidPath(path)), [])
  {
  }

  /** The net effect of one call on `files`: the target gets the
      replacement of its old contents, with its old permissions, when the call
      succeeded after doing something; otherwise nothing changes. */
  lemma ProtocolFiles(st: Fs, path: Path, replace: seq<byte> -> seq<byte>,
                      parent: Path -> Option<Path>, faults: set<Step>)
    ensures var a := Protocol(st, path, replace, parent, faults);
      ApplyAll(st, a.ops).files ==
        if a.result.Ok? && a.ops != [] then
          st.files[path := Entry(replace(st.files[path].data), st.files[path].perms)]
        else st.files
  {
    FailureLeavesFilesUntouched(st, path, replace, parent, faults);
    SuccessReplacesContents(st, path, replace, parent, faults);
  }

  /** Running the whole plan renames a temporary file holding exactly the
      replacement, with the source's permissions, over the target. */
  lemma CompletedPlan(st: Fs, dir: Path, replaced: seq<byte>, perms: Perms, target: Path)
    ensures ApplyAll(st, Effects(Plan(dir, replaced, perms, target))) ==
      Fs(st.files[target := Entry(replaced, perms)], None)
  {
    var n := |replaced|;
    var setup, fill, last := Setup(dir, n, perms), Fill(replaced), [Stage(Persist, Some(TempPersist(target)))];
    assert Plan(dir, replaced, perms, target) == setup + (fill + last);
    EffectsAppend(setup, fill + last);
    EffectsAppend(fill, last);
    SetupEffects(dir, n, perms);
    assert Effects(last) == [TempPersist(target)] by {
      assert last[1..] == [];
    }
    var ops1 := [TempCreate(dir), TempSetLen(n), TempSetPerms(perms)];
    ApplyAllAppend(st, ops1, Effects(fill) + Effects(last));
    SetupApplied(st, dir, n, perms);
    FillApplied(st.(temp := Some(TempFile(dir, Zeros(n), perms))), replaced, target);
  }

  lemma SetupEffects(dir: Path, n: nat, perms: Perms)
    ensures Effects(Setup(dir, n, perms)) == [TempCreate(dir), TempSetLen(n), TempSetPerms(perms)]
  {
    var setup := Setup(dir, n, perms);
    assert setup[1..][1..][1..] == [];
    assert Effects(setup[1..][1..]) == [TempSetPerms(perms)];
    assert Effects(setup[1..]) == [TempSetLen(n), TempSetPerms(perms)];
  }

  /** Creating, sizing and setting the permissions of the temporary file
      leaves it zero-filled to the replacement's length. */
  lemma SetupApplied(st: Fs, dir: Path, n: nat, perms: Perms)
    ensures ApplyAll(st, [TempCreate(dir), TempSetLen(n), TempSetPerms(perms)]) ==
      st.(temp := Some(TempFile(dir, Zeros(n), perms)))
  {
    var c, l, p := TempCreate(dir), TempSetLen(n), TempSetPerms(perms);
    ApplyAllSnoc(st, [], c);
    assert [] + [c] == [c];
    ApplyAllSnoc(st, [c], l);
    assert [c] + [l] == [c, l];
    ApplyAllSnoc(st, [c, l], p);
    assert [c, l] + [p] == [c, l, p];
    assert Resize([], n) == Zeros(n);
  }

  /** Writing the replacement over the zero-filled temporary file and
      renaming it gives the target exactly the replacement. */
  lemma FillApplied(s1: Fs, replaced: seq<byte>, target: Path)
    requires s1.temp.Some? && s1.temp.value.data == Zeros(|replaced|)
    ensures var fill, last := Fill(replaced), [Stage(Persist, Some(TempPersist(target)))];
      ApplyAll(s1, Effects(fill) + [TempPersist(target)]) ==
        Fs(s1.files[target := Entry(replaced, s1.temp.value.perms)], None)
  {
    var w, q := TempWrite(replaced), TempPersist(target);
    if |replaced| > 0 {
      var fill := Fill(replaced);
      assert Effects(fill) == [w] by {
        assert fill[1..][1..][1..] == [];
        assert Effects(fill[1..][1..]) == [];
        assert Effects(fill[1..]) == [w];
      }
      ApplyAllSnoc(s1, [], w);
      assert [] + [w] == [w];
      ApplyAllSnoc(s1, [w], q);
      assert [w] + [q] == [w, q];
      assert Overwrite(Zeros(|replaced|), replaced) == replaced;
    } else {
      assert Effects(Fill(replaced)) + [q] == [q];
      ApplyAllSnoc(s1, [], q);
      assert [] + [q] == [q];
      assert Zeros(0) == replaced;
    }
  }

  lemma {:induction false} EffectsNoPersist(stages: seq<Stage>)
    requires forall k :: 0 <= k < |stages| ==> !(stages[k].effect.Some? && stages[k].effect.value.TempPersist?)
    ensures forall j :: 0 <= j < |Effects(stages)| ==> !Effects(stages)[j].TempPersist?
    decreases |stages|
  {
    if stages != [] {
      EffectsNoPersist(stages[1..]);
    }
  }

  lemma {:induction false} EffectsAppend(a: seq<Stage>, b: seq<Stage>)
    ensures Effects(a + b) == Effects(a) + Effects(b)
    decreases |a|
  {
    if a == [] {
      assert a + b == b;
    } else {
      assert (a + b)[1..] == a[1..] + b;
      EffectsAppend(a[1..], b);
    }
  }

  /** A run performs the effects of the stages before the first failing
      one, and completes exactly when no stage fails. */
  lemma {:induction false} ExecutePrefix(stages: seq<Stage>, faults: set<Step>) returns (n: nat)
    ensures n <= |stages| && Execute(stages, faults).ops == Effects(stages[..n])
    ensures Execute(stages, faults).completed <==> n == |stages|
    ensures n < |stages| ==> stages[n].step in faults
    decreases |stages|
  {
    if stages == [] || stages[0].step in faults {
      n := 0;
      assert stages[..0] == [];
    } else {
      var m := ExecutePrefix(stages[1..], faults);
      n := m + 1;
      assert stages[..n][1..] == stages[1..][..m];
    }
  }

  // ---------------------------------------------------------------------
  // General facts about plans and operation sequences.

  lemma {:induction false} ApplyAllAppend(st: Fs, ops1: seq<Op>, ops2: seq<Op>)
    ensures ApplyAll(st, ops1 + ops2) == ApplyAll(ApplyAll(st, ops1), ops2)
    decreases |ops1|
  {
    if ops1 == [] {
      assert ops1 + ops2 == ops2;
    } else {
      assert (ops1 + ops2)[1..] == ops1[1..] + ops2;
      ApplyAllAppend(Apply(st, ops1[0]), ops1[1..], ops2);
    }
  }

  /** Running two plans back to back: the second runs only if the first
      completed. */
  lemma {:induction false} ExecuteAppend(a: seq<Stage>, b: seq<Stage>, faults: set<Step>)
    ensures var ra, rb := Execute(a, faults), Execute(b, faults);
      Execute(a + b, faults) == if ra.completed then Run(rb.completed, ra.ops + rb.ops) else ra
    decreases |a|
  {
    var rb := Execute(b, faults);
    if a == [] {
      assert a + b == b;
      assert [] + rb.ops == rb.ops;
    } else if a[0].step !in faults {
      var ab := a + b;
      assert ab[0] == a[0] && ab[1..] == a[1..] + b;
      ExecuteAppend(a[1..], b, faults);
      var rt := Execute(a[1..], faults);
      var e0 := EffectOf(a[0]);
      assert Execute(a, faults) == Run(rt.completed, e0 + rt.ops);
      assert Execute(ab, faults) == Run(Execute(ab[1..], faults).completed, e0 + Execute(ab[1..], faults).ops);
      if rt.completed {
        assert e0 + (rt.ops + rb.ops) == (e0 + rt.ops) + rb.ops;
      }
    } else {
      assert (a + b)[0] == a[0];
    }
  }


  lemma {:induction false} ApplyAllSnoc(st: Fs, ops: seq<Op>, op: Op)
    ensures ApplyAll(st, ops + [op]) == Apply(ApplyAll(st, ops), op)
    decreases |ops|
  {
    if ops != [] {
      assert (ops + [op])[1..] == ops[1..] + [op];
      ApplyAllSnoc(Apply(st, ops[0]), ops[1..], op);
    }
  }

  lemma {:induction false} EffectsSnoc(stages: seq<Stage>, k: nat)
    requires k < |stages|
    ensures Effects(stages[..k + 1]) ==
      Effects(stages[..k]) + EffectOf(stages[k])
    decreases k
  {
    if k > 0 {
      assert stages[..k + 1][1..] == stages[1..][..k];
      assert stages[..k][1..] == stages[1..][..k - 1];
      EffectsSnoc(stages[1..], k - 1);
    }
  }


}
