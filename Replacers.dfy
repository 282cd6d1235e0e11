/** The replacer: the compiled pattern together with the prepared
    replacement bytes. The regex library is outside the model: escaping a
    pattern (`escape`), decoding escape sequences in the replacement
    (`unescape`) and the final compilation (`builds`, true when the library
    accepts the builder) are given as functions. */
module Replacers {
  import opened Types
  import opened Flags
  import Substitution

  /** A replacer as `new` builds it. `config` is the final state of the regex
      builder. `needle` is the byte string the compiled pattern matches when
      that pattern is a plain literal (string mode, no `w`, case-sensitive),
      and `None` for every other pattern, whose matching belongs to the regex
      library. */
  datatype Replacer = Replacer(config: Config, replaceWith: seq<byte>, isLiteral: bool, needle: Option<seq<byte>>)

  /** The pattern text handed to the builder: escaped in string mode. */
  function PatternText(lookFor: string, isLiteral: bool, escape: string -> string): string
  {
    if isLiteral then escape(lookFor) else lookFor
  }

  /** The replacement bytes. String mode takes the text's bytes as they are;
      otherwise escape sequences are decoded, and when decoding gives up the
      text is kept unchanged. */
  function PrepareReplacement(replaceWith: string, isLiteral: bool, unescape: string -> Option<string>): (r: seq<byte>)
    ensures isLiteral || unescape(replaceWith).None? ==> r == Utf8(replaceWith)
    ensures !isLiteral && unescape(replaceWith).Some? ==> r == Utf8(unescape(replaceWith).value)
  {
    if isLiteral then
      Utf8(replaceWith)
    else
      match unescape(replaceWith)
      case Some(decoded) => Utf8(decoded)
      case None => Utf8(replaceWith)
  }

  /** The literal bytes the compiled pattern stands for, when it is a plain
      literal. */
  function Needle(lookFor: string, isLiteral: bool, flags: Option<string>, config: Config): Option<seq<byte>>
  {
    if isLiteral && !config.caseInsensitive && (flags.None? || 'w' !in flags.value) then Some(Utf8(lookFor))
    else None
  }

  /** `Replacer::new`: prepares the replacement, creates a builder with
      multi-line on, applies the flag letters one by one to that builder, and
      compiles it. */
  method New(lookFor: string, replaceWith: string, isLiteral: bool, flags: Option<string>,
             escape: string -> string, unescape: string -> Option<string>, builds: Config -> bool)
    returns (r: Result<Replacer>)
    ensures var config := Compiled(PatternText(lookFor, isLiteral, escape), flags);
      if builds(config) then
        r == Ok(Replacer(config, PrepareReplacement(replaceWith, isLiteral, unescape), isLiteral,
                         Needle(lookFor, isLiteral, flags, config)))
      else
        r == Err(InvalidPattern)
  {
    var pattern, bytes;
    if isLiteral {
      pattern, bytes := escape(lookFor), Utf8(replaceWith);
    } else {
      var decoded := unescape(replaceWith);
      pattern := lookFor;
      bytes := if decoded.Some? then Utf8(decoded.value) else Utf8(replaceWith);
    }

    var b := Fresh(pattern);
    b := b.(multiLine := true);

    if flags.Some? {
      var fs := flags.value;
      for i := 0 to |fs|
        invariant b == ApplyFlags(pattern, fs[..i], fs)
      {
        assert fs[..i + 1][..i] == fs[..i];
        match fs[i]
        case 'c' => b := b.(caseInsensitive := false);
        case 'i' => b := b.(caseInsensitive := true);
        case 'm' =>
        case 'e' => b := b.(multiLine := false);
        case 's' =>
          if 'm' !in fs {
            b := b.(multiLine := false);
          }
          b := b.(dotAll := true);
        case 'w' => b := Fresh(WordWrap(pattern));
        case _ =>
      }
      assert fs[..|fs|] == fs;
    }

    if !builds(b) {
      return Err(InvalidPattern);
    }
    r := Ok(Replacer(b, bytes, isLiteral, Needle(lookFor, isLiteral, flags, b)));
  }

  /** In string mode with `w`, the word anchors go around the escaped
      pattern, once. */
  lemma LiteralWordWrap(lookFor: string, escape: string -> string, fs: string)
    requires 'w' in fs
    ensures Compiled(PatternText(lookFor, true, escape), Some(fs)).pattern == WordWrap(escape(lookFor))
  {
    WordWrapOnce(escape(lookFor), fs);
  }

  /** `has_matches` for a plain-literal replacer. */
  function HasMatches(r: Replacer, content: seq<byte>): (b: bool)
    requires r.isLiteral && r.needle.Some?
    ensures b <==> exists i :: Substitution.StartsAt(content, r.needle.value, i)
  {
    Substitution.HasMatches(content, r.needle.value)
  }

  /** `replace` in string mode (`NoExpand`): every leftmost, non-overlapping
      occurrence of the needle becomes the replacement bytes verbatim, and
      every other byte is copied in order. An empty needle stands before
      every byte and at the end. With no occurrence the content comes back
      unchanged. */
  function Replace(r: Replacer, content: seq<byte>): (out: seq<byte>)
    requires r.isLiteral && r.needle.Some?
    ensures |r.needle.value| > 0 ==>
      out == Substitution.Render(Substitution.Tokenize(content, r.needle.value), r.replaceWith)
    ensures |r.needle.value| == 0 ==>
      out == Substitution.Render(Substitution.EveryGap(content), r.replaceWith)
    ensures !HasMatches(r, content) ==> out == content
  {
    var needle := r.needle.value;
    var out := Substitution.ReplaceAll(content, needle, r.replaceWith);
    assert !HasMatches(r, content) ==> out == content by {
      if !HasMatches(r, content) {
        Substitution.NoMatchIdentity(content, needle, r.replaceWith);
      }
    }
    if |needle| > 0 then
      Substitution.ReplaceAllIsRender(content, needle, r.replaceWith, Substitution.Tokenize(content, needle));
      out
    else
      Substitution.EmptyPatternIsRender(content, r.replaceWith);
      out
  }
}
