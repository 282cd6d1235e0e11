/** The flag compiler: how the letters of `--flags` change the options of the
    regex builder. The letters are applied one after another to a mutable
    builder, so a later letter can undo an earlier one, and `w` replaces the
    builder altogether. */
module Flags {
  import opened Types

  /** The options of a regex builder that the core sets, with the pattern text
      the builder was created from. */
  datatype Config = Config(pattern: string, caseInsensitive: bool, multiLine: bool, dotAll: bool)

  /** A builder just created from `pattern`: every option at the regex
      library's default, which is off. */
  function Fresh(pattern: string): Config
  {
    Config(pattern, false, false, false)
  }

  /** The builder before any flag letter is read: multi-line is switched on. */
  function Initial(pattern: string): Config
  {
    Fresh(pattern).(multiLine := true)
  }

  /** The whole-word pattern: the pattern between two `\b` anchors. */
  function WordWrap(pattern: string): string
  {
    "\\b" + pattern + "\\b"
  }

  /** What one flag letter does to builder `b`. `lookFor` is the pattern text
      the run started from (already escaped in literal mode) and `all` the
      whole flag string, which `s` consults for an `m`. */
  function ApplyFlag(b: Config, c: char, lookFor: string, all: string): Config
  {
    match c
    case 'c' => b.(caseInsensitive := false)
    case 'i' => b.(caseInsensitive := true)
    case 'e' => b.(multiLine := false)
    case 's' => b.(multiLine := b.multiLine && 'm' in all, dotAll := true)
    case 'w' => Fresh(WordWrap(lookFor))
    case _ => b
  }

  /** The builder after the letters `fs` have been applied left to right. */
  function ApplyFlags(lookFor: string, fs: string, all: string): Config
    decreases |fs|
  {
    if fs == [] then Initial(lookFor)
    else ApplyFlag(ApplyFlags(lookFor, fs[..|fs| - 1], all), fs[|fs| - 1], lookFor, all)
  }

  /** The builder that the flag loop leaves behind for an optional flag string.
      With no flags, or an empty flag string, the pattern is kept as given,
      multi-line is on and the other options are off. */
  function Compiled(lookFor: string, flags: Option<string>): (r: Config)
    ensures flags == None || flags == Some([]) ==> r == Config(lookFor, false, true, false)
  {
    match flags
    case None => Initial(lookFor)
    case Some(fs) => ApplyFlags(lookFor, fs, fs)
  }

  // ---------------------------------------------------------------------
  // A closed form of the fold: what the final options are, read off the
  // letters after the last `w`.

  /** The letters that follow the last `w` of `fs` (all of `fs` if it has no `w`). */
  function AfterLastW(fs: string): (t: string)
    ensures 'w' !in t
    ensures |t| <= |fs| && t == fs[|fs| - |t|..]
    ensures 'w' !in fs ==> t == fs
    decreases |fs|
  {
    if fs == [] then []
    else if fs[|fs| - 1] == 'w' then []
    else AfterLastW(fs[..|fs| - 1]) + [fs[|fs| - 1]]
  }

  /** The last case directive in `fs`: `Some(true)` for `i`, `Some(false)`
      for `c`, `None` if there is neither. */
  function LastCase(fs: string): Option<bool>
    decreases |fs|
  {
    if fs == [] then None
    else if fs[|fs| - 1] == 'i' then Some(true)
    else if fs[|fs| - 1] == 'c' then Some(false)
    else LastCase(fs[..|fs| - 1])
  }

  /** The options the flag letters end with, stated without the fold: any
      `w` wraps the pattern once and resets every option; after the last
      `w`, the last of `c`/`i` decides the case, `s` turns dot-all on, and
      multi-line stays on only if there was no `w`, no `e`, and no `s`
      unless the whole flag string holds an `m`. */
  function Expected(lookFor: string, fs: string, all: string): Config
  {
    var t := AfterLastW(fs);
    Config(if 'w' in fs then WordWrap(lookFor) else lookFor,
           LastCase(t) == Some(true),
           'w' !in fs && 'e' !in t && ('s' in t ==> 'm' in all),
           's' in t)
  }

  lemma {:induction false} ApplyFlagsClosedForm(lookFor: string, fs: string, all: string)
    ensures ApplyFlags(lookFor, fs, all) == Expected(lookFor, fs, all)
    decreases |fs|
  {
    if fs != [] {
      var init, c := fs[..|fs| - 1], fs[|fs| - 1];
      assert fs == init + [c];
      ApplyFlagsClosedForm(lookFor, init, all);
      ExpectedStep(lookFor, init, c, all);
    }
  }

  /** One more letter moves the closed form exactly as the builder moves. */
  lemma ExpectedStep(lookFor: string, init: string, c: char, all: string)
    ensures Expected(lookFor, init + [c], all) == ApplyFlag(Expected(lookFor, init, all), c, lookFor, all)
  {
    var fs := init + [c];
    assert fs[..|fs| - 1] == init && fs[|fs| - 1] == c;
    if c == 'w' {
      assert AfterLastW(fs) == [];
    } else {
      var t := AfterLastW(init);
      assert AfterLastW(fs) == t + [c];
      LastCaseStep(t, c);
      var e := Expected(lookFor, init, all);
      var e' := Expected(lookFor, fs, all);
      assert 'w' in fs <==> 'w' in init;
      assert e'.pattern == e.pattern;
      assert e'.multiLine == (e.multiLine && c != 'e' && (c == 's' ==> 'm' in all));
      assert e'.dotAll == (e.dotAll || c == 's');
    }
  }

  lemma LastCaseStep(t: string, c: char)
    ensures LastCase(t + [c]) == if c == 'i' then Some(true) else if c == 'c' then Some(false) else LastCase(t)
  {
  }

  /** Any `w` makes the pattern the original one wrapped exactly once in
      word anchors, however many `w` letters there are. */
  lemma WordWrapOnce(lookFor: string, fs: string)
    requires 'w' in fs
    ensures Compiled(lookFor, Some(fs)).pattern == WordWrap(lookFor)
    ensures Compiled(lookFor, Some(fs)).caseInsensitive ==> 'i' in AfterLastW(fs)
  {
    ApplyFlagsClosedForm(lookFor, fs, fs);
    LastCaseIn(AfterLastW(fs));
  }

  lemma {:induction false} LastCaseIn(fs: string)
    ensures LastCase(fs) == Some(true) ==> 'i' in fs
    ensures LastCase(fs) == Some(false) ==> 'c' in fs
    decreases |fs|
  {
    if fs != [] {
      LastCaseIn(fs[..|fs| - 1]);
      assert fs == fs[..|fs| - 1] + [fs[|fs| - 1]];
    }
  }

  /** Letters other than `c`, `i`, `e`, `s` and `w` (`m` among them) leave
      the builder as it was. */
  lemma IgnoredLetter(lookFor: string, fs: string, c: char, all: string)
    requires c !in "ciesw"
    ensures ApplyFlags(lookFor, fs + [c], all) == ApplyFlags(lookFor, fs, all)
  {
  }

  /** Without `w`, the options are those of the flag letters read as a set,
      with the last case directive winning: the result does not depend on
      where `e`, `s` and `m` stand. */
  lemma {:induction false} WithoutWordWrap(lookFor: string, fs: string)
    requires 'w' !in fs
    ensures Compiled(lookFor, Some(fs)) == OrderIndependent(lookFor, fs)
  {
    ApplyFlagsClosedForm(lookFor, fs, fs);
  }

  /** The flag semantics read as a configuration set, independent of letter
      order: wrap first if there is a `w`, then apply the other options. */
  function OrderIndependent(lookFor: string, fs: string): Config
  {
    Config(if 'w' in fs then WordWrap(lookFor) else lookFor,
           LastCase(fs) == Some(true),
           'e' !in fs && ('s' in fs ==> 'm' in fs),
           's' in fs)
  }

  /** The letters are not a set: an `i` before a `w` is discarded (`iw` ends
      case-sensitive, `wi` case-insensitive), and a `w` also switches off
      the multi-line option that an order-independent reading keeps on. */
  lemma OrderMatters(lookFor: string)
    ensures !Compiled(lookFor, Some("iw")).caseInsensitive
    ensures Compiled(lookFor, Some("wi")).caseInsensitive
    ensures Compiled(lookFor, Some("iw")) != OrderIndependent(lookFor, "iw")
    ensures !Compiled(lookFor, Some("w")).multiLine && OrderIndependent(lookFor, "w").multiLine
  {
  }
}
