/** `run`: the three ways a run can go, chosen by the source of the content
    and the in-place switch. Standard input is read whole and the result
    written to standard output; files are either rewritten in place, each
    one on its own, or shown on standard output in order, stopping at the
    first error. The matcher is given as two functions: `hasMatches` (the
    compiled pattern occurs somewhere) and `replace` (the substitution). */
module Driver {
  import opened Types
  import opened Sources
  import opened FileMutator
  import Substitution

  /** What a run leaves on standard output, and how it ends. */
  datatype Shown = Shown(result: Result<()>, stdout: seq<byte>)

  /** Standard input and output: the bytes read (`None` when reading fails)
      and whether writing to standard output fails. */
  datatype Console = Console(input: Option<seq<byte>>, writeFails: bool)

  // ---------------------------------------------------------------------
  // Standard input.

  /** Reads all of standard input, then writes the substitution's result, or
      the input itself when the pattern does not occur in it. */
  function StdinRun(console: Console, hasMatches: seq<byte> -> bool,
                    replace: seq<byte> -> seq<byte>): (o: Shown)
    ensures console.input.None? || console.writeFails <==> o.result == Err(Io)
    ensures o.result.Err? ==> o.stdout == []
    ensures console.input.Some? && o.result.Ok? && hasMatches(console.input.value) ==>
      o.stdout == replace(console.input.value)
    ensures console.input.Some? && o.result.Ok? && !hasMatches(console.input.value) ==>
      o.stdout == console.input.value
  {
    match console.input
    case None => Shown(Err(Io), [])
    case Some(buffer) =>
      if console.writeFails then Shown(Err(Io), [])
      else if hasMatches(buffer) then Shown(Ok(()), replace(buffer))
      else Shown(Ok(()), buffer)
  }

  /** For a plain-literal pattern, skipping the substitution when nothing
      matches cannot be observed: standard output is always the substitution
      of the whole input. */
  lemma StdinShortcutUnobservable(console: Console, pat: seq<byte>, rep: seq<byte>)
    requires console.input.Some? && !console.writeFails
    ensures var o := StdinRun(console, s => Substitution.HasMatches(s, pat),
                              s => Substitution.ReplaceAll(s, pat, rep));
      o == Shown(Ok(()), Substitution.ReplaceAll(console.input.value, pat, rep))
  {
    var buffer := console.input.value;
    if !Substitution.HasMatches(buffer, pat) {
      Substitution.NoMatchIdentity(buffer, pat, rep);
    }
  }

  // ---------------------------------------------------------------------
  // Files shown on standard output (not in place).

  /** One file in preview: opening it fails with an I/O error; an empty file
      (or one whose first byte cannot be read) is skipped and shows nothing;
      re-opening or mapping it, or writing to standard output, fails with an
      I/O error; otherwise it shows the substitution of its contents. The
      steps that fail are `faults`; `Write` is the write to standard
      output. */
  function PreviewFile(files: map<Path, Entry>, path: Path, replace: seq<byte> -> seq<byte>,
                       faults: set<Step>): (r: Result<seq<byte>>)
    ensures r.Err? <==>
              (path !in files || Open in faults ||
               (|files[path].data| > 0 && Probe !in faults &&
                (Reopen in faults || MapSource in faults || Write in faults)))
    ensures r.Err? ==> r.error == Io
    ensures r.Ok? ==> path in files
    ensures r.Ok? && |files[path].data| > 0 && Probe !in faults ==> r.value == replace(files[path].data)
    ensures path in files && Open !in faults && (|files[path].data| == 0 || Probe in faults) ==> r == Ok([])
  {
    if path !in files || Open in faults then Err(Io)
    else if |files[path].data| == 0 || Probe in faults then Ok([])
    else if Reopen in faults || MapSource in faults || Write in faults then Err(Io)
    else Ok(replace(files[path].data))
  }

  /** The preview of `paths[from..]`, the file at position `k` meeting the
      failing steps `faults(k)`: each file's bytes in order, up to the first
      file that fails, whose error ends the run. */
  function Preview(files: map<Path, Entry>, paths: seq<Path>, replace: seq<byte> -> seq<byte>,
                   faults: nat -> set<Step>, from: nat): Shown
    decreases |paths| - from
  {
    if from >= |paths| then Shown(Ok(()), [])
    else
      match PreviewFile(files, paths[from], replace, faults(from))
      case Err(e) => Shown(Err(e), [])
      case Ok(bytes) =>
        var rest := Preview(files, paths, replace, faults, from + 1);
        Shown(rest.result, bytes + rest.stdout)
  }

  /** The bytes files `from` up to `to` show, when none of them fails. */
  function Shows(files: map<Path, Entry>, paths: seq<Path>, replace: seq<byte> -> seq<byte>,
                 faults: nat -> set<Step>, from: nat, to: nat): seq<byte>
    requires from <= to <= |paths|
    decreases (to as int) - from
  {
    if from == to then []
    else
      match PreviewFile(files, paths[from], replace, faults(from))
      case Err(_) => []
      case Ok(bytes) => bytes + Shows(files, paths, replace, faults, from + 1, to)
  }

  /** The preview loop: the files in order, failing fast. */
  method RunPreview(files: map<Path, Entry>, paths: seq<Path>, replace: seq<byte> -> seq<byte>,
                    faults: nat -> set<Step>)
    returns (r: Result<()>, stdout: seq<byte>)
    ensures Shown(r, stdout) == Preview(files, paths, replace, faults, 0)
  {
    stdout := [];
    var i := 0;
    while i < |paths|
      invariant 0 <= i <= |paths|
      invariant Preview(files, paths, replace, faults, i).result == Preview(files, paths, replace, faults, 0).result
      invariant stdout + Preview(files, paths, replace, faults, i).stdout == Preview(files, paths, replace, faults, 0).stdout
    {
      match PreviewFile(files, paths[i], replace, faults(i))
      case Err(e) =>
        assert stdout + [] == stdout;
        return Err(e), stdout;
      case Ok(bytes) =>
        assert stdout + (bytes + Preview(files, paths, replace, faults, i + 1).stdout)
            == (stdout + bytes) + Preview(files, paths, replace, faults, i + 1).stdout;
        stdout := stdout + bytes;
        i := i + 1;
    }
    assert stdout + [] == stdout;
    r := Ok(());
  }

  /** Preview succeeds exactly when no file fails, and then shows every
      file's bytes in order. Otherwise it ends with the error of the first
      file that fails, having shown exactly the files before it and nothing
      of the files after it. */
  lemma {:induction false} PreviewFailsFast(files: map<Path, Entry>, paths: seq<Path>,
                                            replace: seq<byte> -> seq<byte>,
                                            faults: nat -> set<Step>, from: nat)
    returns (k: nat)
    requires from <= |paths|
    ensures var s := Preview(files, paths, replace, faults, from);
      from <= k <= |paths| &&
      (forall j :: from <= j < k ==> PreviewFile(files, paths[j], replace, faults(j)).Ok?) &&
      s.stdout == Shows(files, paths, replace, faults, from, k) &&
      if k == |paths| then s.result == Ok(())
      else
        var failed := PreviewFile(files, paths[k], replace, faults(k));
        failed.Err? && s.result == Err(failed.error)
    decreases |paths| - from
  {
    if from == |paths| {
      k := from;
    } else {
      match PreviewFile(files, paths[from], replace, faults(from))
      case Err(_) =>
        k := from;
      case Ok(_) =>
        k := PreviewFailsFast(files, paths, replace, faults, from + 1);
    }
  }

  // ---------------------------------------------------------------------
  // Files rewritten in place.

  /** The state after rewriting `paths` one after the other, the file at
      position `k` meeting the failing steps `faults(k)`, and the errors
      reported on the way, each with its path. */
  datatype BatchRun = BatchRun(final: Fs, reports: seq<(Path, Error)>)

  function Report(path: Path, r: Result<()>): seq<(Path, Error)>
  {
    if r.Err? then [(path, r.error)] else []
  }

  function Batch(st: Fs, paths: seq<Path>, replace: seq<byte> -> seq<byte>,
                 parent: Path -> Option<Path>, faults: nat -> set<Step>): BatchRun
    decreases |paths|
  {
    if paths == [] then BatchRun(st, [])
    else
      var n := |paths| - 1;
      var prev := Batch(st, paths[..n], replace, parent, faults);
      var a := Protocol(prev.final, paths[n], replace, parent, faults(n));
      BatchRun(ApplyAll(prev.final, a.ops), prev.reports + Report(paths[n], a.result))
  }

  /** The batch loop: every path is attempted, whatever happened to the
      ones before it; a failure is reported and the loop goes on. */
  method RunBatch(fs: FileSystem, paths: seq<Path>, replace: seq<byte> -> seq<byte>,
                  parent: Path -> Option<Path>, faults: nat -> set<Step>)
    returns (reports: seq<(Path, Error)>)
    modifies fs
    ensures var b := Batch(old(fs.State()), paths, replace, parent, faults);
      fs.State() == b.final && reports == b.reports
  {
    ghost var st := fs.State();
    reports := [];
    for i := 0 to |paths|
      invariant var b := Batch(st, paths[..i], replace, parent, faults);
        fs.State() == b.final && reports == b.reports
    {
      assert paths[..i + 1][..i] == paths[..i];
      var r := ReplaceFile(fs, paths[i], replace, parent, faults(i));
      reports := reports + Report(paths[i], r);
    }
    assert paths[..|paths|] == paths;
  }

  /** One path rewritten on its own, starting from `st`. */
  function Alone(st: Fs, path: Path, replace: seq<byte> -> seq<byte>,
                 parent: Path -> Option<Path>, faults: set<Step>): (after: Fs)
    ensures after.files.Keys == st.files.Keys
    ensures forall q :: q in st.files && q != path ==> after.files[q] == st.files[q]
  {
    ProtocolFiles(st, path, replace, parent, faults);
    ApplyAll(st, Protocol(st, path, replace, parent, faults).ops)
  }

  /** The errors the paths would report if each were rewritten on its own
      from `st`, in path order. */
  function AloneReports(st: Fs, paths: seq<Path>, replace: seq<byte> -> seq<byte>,
                        parent: Path -> Option<Path>, faults: nat -> set<Step>): seq<(Path, Error)>
    decreases |paths|
  {
    if paths == [] then []
    else
      var n := |paths| - 1;
      AloneReports(st, paths[..n], replace, parent, faults) +
        Report(paths[n], Protocol(st, paths[n], replace, parent, faults(n)).result)
  }

  /** Files do not interfere: when no path is listed twice, every file ends
      as if it had been rewritten on its own from the initial state, every
      other file is left alone, and each path reports what it would report
      on its own. So the order in which the paths are visited does not
      matter, which is what lets the source visit them in parallel. */
  lemma {:induction false} BatchIsolation(st: Fs, paths: seq<Path>, replace: seq<byte> -> seq<byte>,
                                          parent: Path -> Option<Path>, faults: nat -> set<Step>)
    requires forall i, j :: 0 <= i < j < |paths| ==> paths[i] != paths[j]
    ensures var b := Batch(st, paths, replace, parent, faults);
      b.final.files.Keys == st.files.Keys &&
      (forall q :: q in st.files && q !in paths ==> b.final.files[q] == st.files[q]) &&
      (forall i :: 0 <= i < |paths| && paths[i] in st.files ==>
         b.final.files[paths[i]] == Alone(st, paths[i], replace, parent, faults(i)).files[paths[i]]) &&
      b.reports == AloneReports(st, paths, replace, parent, faults)
    decreases |paths|
  {
    if paths != [] {
      var n := |paths| - 1;
      var init, last := paths[..n], paths[n];
      BatchIsolation(st, init, replace, parent, faults);
      var prev := Batch(st, init, replace, parent, faults);
      assert last !in init;
      SameEntrySameProtocol(prev.final, st, last, replace, parent, faults(n));
      ProtocolFiles(prev.final, last, replace, parent, faults(n));
      ProtocolFiles(st, last, replace, parent, faults(n));
      var b := Batch(st, paths, replace, parent, faults);
      forall i | 0 <= i < |paths| && paths[i] in st.files
        ensures b.final.files[paths[i]] == Alone(st, paths[i], replace, parent, faults(i)).files[paths[i]]
      {
        if i < n {
          assert paths[i] == init[i] && paths[i] != last;
        }
      }
    }
  }

  /** A call depends on the file system only through the entry at its own
      path. */
  lemma SameEntrySameProtocol(st1: Fs, st2: Fs, path: Path, replace: seq<byte> -> seq<byte>,
                              parent: Path -> Option<Path>, faults: set<Step>)
    requires path in st1.files <==> path in st2.files
    requires path in st1.files ==> st1.files[path] == st2.files[path]
    ensures Protocol(st1, path, replace, parent, faults) == Protocol(st2, path, replace, parent, faults)
  {
  }

  // ---------------------------------------------------------------------
  // Dispatch.

  /** `run`: standard input whatever the in-place switch; files in place,
      which always ends with success (failures are only reported); files in
      preview, which ends with the first file's error. The file system is
      changed in place mode only. */
  method Run(fs: FileSystem, source: Source, inPlace: bool, console: Console,
             hasMatches: seq<byte> -> bool, replace: seq<byte> -> seq<byte>,
             parent: Path -> Option<Path>, faults: nat -> set<Step>)
    returns (r: Result<()>, stdout: seq<byte>, reports: seq<(Path, Error)>)
    modifies fs
    ensures source.Stdin? ==>
      Shown(r, stdout) == StdinRun(console, hasMatches, replace) && reports == [] &&
      fs.State() == old(fs.State())
    ensures source.Files? && inPlace ==>
      var b := Batch(old(fs.State()), source.paths, replace, parent, faults);
      r == Ok(()) && stdout == [] && fs.State() == b.final && reports == b.reports
    ensures source.Files? && !inPlace ==>
      Shown(r, stdout) == Preview(old(fs.files), source.paths, replace, faults, 0) &&
      reports == [] && fs.State() == old(fs.State())
  {
    reports := [];
    match source
    case Stdin =>
      var o := StdinRun(console, hasMatches, replace);
      r, stdout := o.result, o.stdout;
    case Files(paths) =>
      if inPlace {
        reports := RunBatch(fs, paths, replace, parent, faults);
        r, stdout := Ok(()), [];
      } else {
        r, stdout := RunPreview(fs.files, paths, replace, faults);
      }
  }
}
