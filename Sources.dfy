/** Where the content to rewrite comes from: standard input, or a list of
    files given on the command line. */
module Sources {
  import opened Types

  datatype Source = Stdin | Files(paths: seq<Path>)

  /** Classifies a run from the path arguments: no path means the run reads
      standard input and writes standard output; otherwise it works on those
      files, in the order they were given. A `Files` source is never empty. */
  function Infer(filePaths: seq<Path>): (s: Source)
    ensures s == Stdin <==> |filePaths| == 0
    ensures s.Files? ==> s.paths == filePaths && |s.paths| > 0
  {
    if |filePaths| == 0 then Stdin else Files(filePaths)
  }
}
