/** The substitution engine in string mode: the compiled pattern matches one
    fixed byte string, and every leftmost, non-overlapping occurrence of it
    is replaced by the replacement bytes taken verbatim (no `$1`
    expansion). */
module Substitution {
  import opened Types

  /** `pat` occurs in `s` at byte offset `i`. */
  predicate StartsAt(s: seq<byte>, pat: seq<byte>, i: int)
  {
    0 <= i && i + |pat| <= |s| && s[i..i + |pat|] == pat
  }

  /** The matcher's cheap probe: does `pat` occur anywhere in `s`? An empty
      pattern matches every input, the empty one included. */
  function HasMatches(s: seq<byte>, pat: seq<byte>): (r: bool)
    ensures r <==> exists i :: StartsAt(s, pat, i)
    decreases |s|
  {
    if |s| < |pat| then
      false
    else if s[..|pat|] == pat then
      assert StartsAt(s, pat, 0);
      true
    else
      ShiftStartsAt(s, pat);
      HasMatches(s[1..], pat)
  }

  lemma ShiftStartsAt(s: seq<byte>, pat: seq<byte>)
    requires |s| > 0 && !StartsAt(s, pat, 0)
    ensures (exists i :: StartsAt(s, pat, i)) <==> (exists i :: StartsAt(s[1..], pat, i))
  {
    forall i | StartsAt(s, pat, i) ensures StartsAt(s[1..], pat, i - 1) {
      assert s[1..][i - 1..i - 1 + |pat|] == s[i..i + |pat|];
    }
    forall i | StartsAt(s[1..], pat, i) ensures StartsAt(s, pat, i + 1) {
      assert s[1..][i..i + |pat|] == s[i + 1..i + 1 + |pat|];
    }
  }

  /** `replace_all` with a literal pattern and a verbatim replacement, scanning
      left to right. After a match the scan resumes behind it, so matches do
      not overlap. An empty pattern matches before every byte and at the end. */
  function ReplaceAll(s: seq<byte>, pat: seq<byte>, rep: seq<byte>): seq<byte>
    decreases |s|
  {
    if |pat| == 0 then
      if s == [] then rep else rep + [s[0]] + ReplaceAll(s[1..], pat, rep)
    else if |s| < |pat| then
      s
    else if s[..|pat|] == pat then
      rep + ReplaceAll(s[|pat|..], pat, rep)
    else
      [s[0]] + ReplaceAll(s[1..], pat, rep)
  }

  // ---------------------------------------------------------------------
  // Properties of the substitution.

  /** No occurrence: the output is the input, byte for byte. */
  lemma {:induction false} NoMatchIdentity(s: seq<byte>, pat: seq<byte>, rep: seq<byte>)
    requires !HasMatches(s, pat)
    ensures ReplaceAll(s, pat, rep) == s
    decreases |s|
  {
    if |s| >= |pat| {
      NoMatchIdentity(s[1..], pat, rep);
    }
  }

  /** Replacing the pattern by itself changes nothing. */
  lemma {:induction false} ReplaceWithItself(s: seq<byte>, pat: seq<byte>)
    ensures ReplaceAll(s, pat, pat) == s
    decreases |s|
  {
    if |pat| == 0 {
      if s != [] {
        ReplaceWithItself(s[1..], pat);
        assert s == [s[0]] + s[1..];
      }
    } else if |s| >= |pat| {
      if s[..|pat|] == pat {
        ReplaceWithItself(s[|pat|..], pat);
        assert s == s[..|pat|] + s[|pat|..];
      } else {
        ReplaceWithItself(s[1..], pat);
        assert s == [s[0]] + s[1..];
      }
    }
  }

  /** The number of occurrences the scan replaces. */
  function MatchCount(s: seq<byte>, pat: seq<byte>): nat
    decreases |s|
  {
    if |pat| == 0 then |s| + 1
    else if |s| < |pat| then 0
    else if s[..|pat|] == pat then 1 + MatchCount(s[|pat|..], pat)
    else MatchCount(s[1..], pat)
  }

  /** Each replaced occurrence trades `|pat|` input bytes for `|rep|` output
      bytes; every other byte is copied once. */
  lemma {:induction false} ReplacedLength(s: seq<byte>, pat: seq<byte>, rep: seq<byte>)
    ensures |ReplaceAll(s, pat, rep)| == |s| + MatchCount(s, pat) * (|rep| - |pat|)
    decreases |s|
  {
    var d := |rep| - |pat|;
    if |pat| == 0 {
      if s != [] {
        ReplacedLength(s[1..], pat, rep);
        Distribute(MatchCount(s[1..], pat), d);
      }
    } else if |s| >= |pat| {
      if s[..|pat|] == pat {
        ReplacedLength(s[|pat|..], pat, rep);
        Distribute(MatchCount(s[|pat|..], pat), d);
      } else {
        ReplacedLength(s[1..], pat, rep);
      }
    }
  }

  lemma Distribute(m: nat, d: int)
    ensures (1 + m) * d == d + m * d
  {
  }

  // ---------------------------------------------------------------------
  // An independent description of the result: cut the input into pieces,
  // each one either a byte copied through or an occurrence of the pattern,
  // such that no copied byte starts an occurrence (leftmost-first,
  // non-overlapping). The output is the pieces with every occurrence
  // replaced.

  datatype Piece = Byte(b: byte) | Hit

  /** The input the pieces were cut from. */
  function Spell(ps: seq<Piece>, pat: seq<byte>): seq<byte>
    decreases |ps|
  {
    if ps == [] then []
    else (match ps[0] case Byte(b) => [b] case Hit => pat) + Spell(ps[1..], pat)
  }

  /** The output the pieces stand for. */
  function Render(ps: seq<Piece>, rep: seq<byte>): seq<byte>
    decreases |ps|
  {
    if ps == [] then []
    else (match ps[0] case Byte(b) => [b] case Hit => rep) + Render(ps[1..], rep)
  }

  /** No byte copied through stands where an occurrence of the pattern begins. */
  ghost predicate Leftmost(ps: seq<Piece>, pat: seq<byte>)
  {
    forall k :: 0 <= k < |ps| && ps[k].Byte? ==> !StartsAt(Spell(ps[k..], pat), pat, 0)
  }

  /** A leftmost cut of `s` into pieces exists. */
  function Tokenize(s: seq<byte>, pat: seq<byte>): (ps: seq<Piece>)
    requires |pat| > 0
    ensures Spell(ps, pat) == s && Leftmost(ps, pat)
    decreases |s|
  {
    if s == [] then
      []
    else if StartsAt(s, pat, 0) then
      var rest := Tokenize(s[|pat|..], pat);
      var ps := [Hit] + rest;
      assert ps[1..] == rest;
      assert s == s[..|pat|] + s[|pat|..];
      assert forall k :: 1 <= k < |ps| ==> ps[k..] == rest[k - 1..];
      ps
    else
      var rest := Tokenize(s[1..], pat);
      var ps := [Byte(s[0])] + rest;
      assert ps[1..] == rest && ps[0..] == ps;
      assert s == [s[0]] + s[1..];
      assert forall k :: 1 <= k < |ps| ==> ps[k..] == rest[k - 1..];
      ps
  }

  /** Every leftmost cut of the input renders to the substitution's output:
      the output replaces exactly the leftmost, non-overlapping occurrences
      with `rep` verbatim and copies every other byte in order. */
  lemma {:induction false} ReplaceAllIsRender(s: seq<byte>, pat: seq<byte>, rep: seq<byte>, ps: seq<Piece>)
    requires |pat| > 0
    requires Spell(ps, pat) == s && Leftmost(ps, pat)
    ensures ReplaceAll(s, pat, rep) == Render(ps, rep)
    decreases |ps|
  {
    if ps != [] {
      var rest := ps[1..];
      assert ps[0..] == ps;
      assert Leftmost(rest, pat) by {
        forall k | 0 <= k < |rest| && rest[k].Byte?
          ensures !StartsAt(Spell(rest[k..], pat), pat, 0)
        {
          assert rest[k..] == ps[k + 1..];
        }
      }
      match ps[0]
      case Hit =>
        assert s == pat + Spell(rest, pat);
        assert s[..|pat|] == pat && s[|pat|..] == Spell(rest, pat);
        ReplaceAllIsRender(s[|pat|..], pat, rep, rest);
      case Byte(b) =>
        assert s == [b] + Spell(rest, pat);
        assert !StartsAt(s, pat, 0);
        assert s[1..] == Spell(rest, pat);
        ReplaceAllIsRender(s[1..], pat, rep, rest);
    }
  }

  /** The cut an empty pattern makes: an occurrence before every byte and
      one at the end. */
  function EveryGap(s: seq<byte>): (ps: seq<Piece>)
    ensures Spell(ps, []) == s
    decreases |s|
  {
    if s == [] then [Hit]
    else
      var rest := EveryGap(s[1..]);
      var ps := [Hit, Byte(s[0])] + rest;
      assert ps[1..] == [Byte(s[0])] + rest && ps[1..][1..] == rest;
      assert s == [s[0]] + s[1..];
      ps
  }

  /** With an empty pattern the output is the replacement before every byte
      of the input and once more at the end. */
  lemma {:induction false} EmptyPatternIsRender(s: seq<byte>, rep: seq<byte>)
    ensures ReplaceAll(s, [], rep) == Render(EveryGap(s), rep)
    decreases |s|
  {
    if s != [] {
      var ps := EveryGap(s);
      assert ps[1..] == [Byte(s[0])] + EveryGap(s[1..]) && ps[1..][1..] == EveryGap(s[1..]);
      EmptyPatternIsRender(s[1..], rep);
    }
  }

  /** Replacing twice is not always replacing once, even when the
      replacement holds no occurrence of the pattern: removing an occurrence
      can join its neighbours into a new one (`abb` becomes `ab`, then `a`). */
  lemma NotIdempotent()
    ensures var pat, rep, s := [97 as byte, 98], [97 as byte], [97 as byte, 98, 98];
      !HasMatches(rep, pat) &&
      ReplaceAll(s, pat, rep) == pat &&
      ReplaceAll(ReplaceAll(s, pat, rep), pat, rep) == rep
  {
  }
}
