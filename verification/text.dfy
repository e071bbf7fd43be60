/**
 * The two string operations the services use on request text: JavaScript's
 * `String.prototype.split` with a one-character separator, and `trim`.
 */
module Text {

  /** How many times `c` occurs in `s`. */
  function Count(s: string, c: char): (n: nat)
    ensures n <= |s|
  {
    if |s| == 0 then 0 else Count(s[..|s| - 1], c) + (if s[|s| - 1] == c then 1 else 0)
  }

  /**
   * One more character after the pieces read so far: a separator opens a new,
   * empty piece; any other character extends the last piece.
   */
  function Extend(pieces: seq<string>, c: char, sep: char): seq<string>
    requires |pieces| >= 1
  {
    if c == sep then pieces + [""] else pieces[..|pieces| - 1] + [pieces[|pieces| - 1] + [c]]
  }

  /**
   * `s.split(sep)`: the pieces between separators, empty pieces included, so the
   * empty string splits into one empty piece.
   */
  function Split(s: string, sep: char): (pieces: seq<string>)
    ensures |pieces| == Count(s, sep) + 1
    decreases |s|
  {
    if |s| == 0 then [""] else Extend(Split(s[..|s| - 1], sep), s[|s| - 1], sep)
  }

  /** No piece of a split holds the separator. */
  lemma {:induction false} SplitPiecesFree(s: string, sep: char)
    ensures forall i :: 0 <= i < |Split(s, sep)| ==> sep !in Split(s, sep)[i]
    decreases |s|
  {
    if |s| > 0 {
      var init := Split(s[..|s| - 1], sep);
      SplitPiecesFree(s[..|s| - 1], sep);
      if s[|s| - 1] != sep {
        var last := init[|init| - 1] + [s[|s| - 1]];
        assert sep !in last;
        var r := Split(s, sep);
        forall i | 0 <= i < |r|
          ensures sep !in r[i]
        {
          if i < |init| - 1 {
            assert r[i] == init[i];
          }
        }
      }
    }
  }

  /** The pieces glued back together with the separator between neighbours. */
  function Join(pieces: seq<string>, sep: char): string
    requires |pieces| >= 1
  {
    if |pieces| == 1 then pieces[0] else Join(pieces[..|pieces| - 1], sep) + [sep] + pieces[|pieces| - 1]
  }

  /** Joining the pieces of a split gives back the string. */
  lemma {:induction false} JoinSplit(s: string, sep: char)
    ensures Join(Split(s, sep), sep) == s
    decreases |s|
  {
    if |s| > 0 {
      var init, c := s[..|s| - 1], s[|s| - 1];
      assert s == init + [c];
      JoinSplit(init, sep);
      SplitSnoc(init, c, sep);
      JoinExtend(Split(init, sep), c, sep);
    }
  }

  /** Extending the pieces by a character extends their join by the same character. */
  lemma JoinExtend(ps: seq<string>, c: char, sep: char)
    requires |ps| >= 1
    ensures Join(Extend(ps, c, sep), sep) == Join(ps, sep) + [c]
  {
    var qs := Extend(ps, c, sep);
    if c == sep {
      assert qs[..|ps|] == ps;
    } else if |ps| > 1 {
      assert qs[..|qs| - 1] == ps[..|ps| - 1];
    }
  }

  /** Appending one character to a string extends its pieces by that character. */
  lemma SplitSnoc(s: string, c: char, sep: char)
    ensures Split(s + [c], sep) == Extend(Split(s, sep), c, sep)
  {
    assert (s + [c])[..|s|] == s;
  }

  /** A separator splits the string into the pieces before it and the pieces after it. */
  lemma {:induction false} SplitAtSep(a: string, b: string, sep: char)
    ensures Split(a + [sep] + b, sep) == Split(a, sep) + Split(b, sep)
    decreases |b|
  {
    if |b| == 0 {
      assert a + [sep] + b == a + [sep];
      SplitSnoc(a, sep, sep);
    } else {
      var b', c := b[..|b| - 1], b[|b| - 1];
      assert a + [sep] + b == (a + [sep] + b') + [c];
      assert b == b' + [c];
      SplitAtSep(a, b', sep);
      SplitSnoc(a + [sep] + b', c, sep);
      SplitSnoc(b', c, sep);
      ExtendAppend(Split(a, sep), Split(b', sep), c, sep);
    }
  }

  /** Extending `A + B`, for a non-empty `B`, extends `B` and leaves `A` in front. */
  lemma ExtendAppend(A: seq<string>, B: seq<string>, c: char, sep: char)
    requires |B| >= 1
    ensures Extend(A + B, c, sep) == A + Extend(B, c, sep)
  {
    if c == sep {
      assert A + B + [""] == A + (B + [""]);
    } else {
      var I := A + B;
      assert I[..|I| - 1] == A + B[..|B| - 1];
    }
  }

  /** Splitting a join of separator-free pieces gives back the pieces. */
  lemma {:induction false} SplitJoin(pieces: seq<string>, sep: char)
    requires |pieces| >= 1
    requires forall i :: 0 <= i < |pieces| ==> sep !in pieces[i]
    ensures Split(Join(pieces, sep), sep) == pieces
    decreases |pieces|
  {
    var last := pieces[|pieces| - 1];
    SplitNoSep(last, sep);
    if |pieces| > 1 {
      var init := pieces[..|pieces| - 1];
      SplitJoin(init, sep);
      SplitAtSep(Join(init, sep), last, sep);
    }
  }

  /** A string without the separator splits into itself alone. */
  lemma {:induction false} SplitNoSep(s: string, sep: char)
    requires sep !in s
    ensures Split(s, sep) == [s]
    decreases |s|
  {
    if |s| > 0 {
      var init := s[..|s| - 1];
      assert sep !in init by {
        assert forall k :: 0 <= k < |init| ==> init[k] == s[k];
      }
      SplitNoSep(init, sep);
      assert s[|s| - 1] in s;
      assert s == init + [s[|s| - 1]];
    }
  }

  /** The characters `trim` removes: the line terminators and the white-space characters. */
  const SpaceChars: set<char> := {
    ' ', '\t', '\n', '\r', '\U{000B}', '\U{000C}', '\U{00A0}', '\U{1680}',
    '\U{2000}', '\U{2001}', '\U{2002}', '\U{2003}', '\U{2004}', '\U{2005}', '\U{2006}',
    '\U{2007}', '\U{2008}', '\U{2009}', '\U{200A}', '\U{2028}', '\U{2029}', '\U{202F}',
    '\U{205F}', '\U{3000}', '\U{FEFF}'
  }

  predicate IsSpace(c: char) {
    c in SpaceChars
  }

  /*
   * The trimming functions take the set of blank characters as a parameter, so
   * that their proofs never look inside `SpaceChars`; `Trim` is the instance
   * with `SpaceChars`.
   */

  /** How many blanks `s` starts with: the first character after them is not blank. */
  function LeadingBlanks(s: string, blank: set<char>): (n: nat)
    ensures n <= |s|
    ensures n < |s| ==> s[n] !in blank
  {
    if |s| > 0 && s[0] in blank then
      var m := LeadingBlanks(s[1..], blank);
      assert m < |s| - 1 ==> s[1 + m] == s[1..][m];
      1 + m
    else 0
  }

  /** The characters `LeadingBlanks` counts are all blank. */
  lemma {:induction false} LeadingBlanksAreBlank(s: string, blank: set<char>)
    ensures forall k :: 0 <= k < LeadingBlanks(s, blank) ==> s[k] in blank
  {
    if |s| > 0 && s[0] in blank {
      LeadingBlanksAreBlank(s[1..], blank);
      forall k | 1 <= k < LeadingBlanks(s, blank)
        ensures s[k] in blank
      {
        assert s[k] == s[1..][k - 1];
      }
    }
  }

  /** How many blanks `s` ends with: the last character before them is not blank. */
  function TrailingBlanks(s: string, blank: set<char>): (n: nat)
    ensures n <= |s|
    ensures n < |s| ==> s[|s| - n - 1] !in blank
  {
    if |s| > 0 && s[|s| - 1] in blank then
      var m := TrailingBlanks(s[..|s| - 1], blank);
      assert m < |s| - 1 ==> s[|s| - m - 2] == s[..|s| - 1][|s| - m - 2];
      1 + m
    else 0
  }

  /** The characters `TrailingBlanks` counts are all blank. */
  lemma {:induction false} TrailingBlanksAreBlank(s: string, blank: set<char>)
    ensures forall k :: |s| - TrailingBlanks(s, blank) <= k < |s| ==> s[k] in blank
  {
    if |s| > 0 && s[|s| - 1] in blank {
      TrailingBlanksAreBlank(s[..|s| - 1], blank);
      forall k | |s| - TrailingBlanks(s, blank) <= k < |s| - 1
        ensures s[k] in blank
      {
        assert s[k] == s[..|s| - 1][k];
      }
    }
  }

  /** The string without its leading blanks. */
  function TrimStart(s: string, blank: set<char>): string {
    s[LeadingBlanks(s, blank)..]
  }

  /** The string without its trailing blanks. */
  function TrimEnd(s: string, blank: set<char>): string {
    s[..|s| - TrailingBlanks(s, blank)]
  }

  /** Blanks removed from both ends. */
  function TrimBoth(s: string, blank: set<char>): string {
    TrimEnd(TrimStart(s, blank), blank)
  }

  /** `trim`: white space removed from both ends. */
  function Trim(s: string): string {
    TrimBoth(s, SpaceChars)
  }

  /** How many leading characters `trim` drops. */
  function TrimOffset(s: string): nat {
    LeadingBlanks(s, SpaceChars)
  }

  /** A prefix of a suffix is a slice. */
  lemma SliceOfSlice(s: string, a: nat, m: nat)
    requires a + m <= |s|
    ensures s[a..][..m] == s[a..a + m]
  {
  }

  /** What `TrimBoth` keeps is the slice of `s` that starts after its leading blanks. */
  lemma TrimBothSlice(s: string, blank: set<char>)
    ensures LeadingBlanks(s, blank) + |TrimBoth(s, blank)| <= |s|
    ensures TrimBoth(s, blank) == s[LeadingBlanks(s, blank)..LeadingBlanks(s, blank) + |TrimBoth(s, blank)|]
  {
    var a := LeadingBlanks(s, blank);
    var t := s[a..];
    var m := |t| - TrailingBlanks(t, blank);
    assert TrimBoth(s, blank) == t[..m];
    SliceOfSlice(s, a, m);
  }

  /** Everything after what `TrimBoth` keeps is blank. */
  lemma TrimBothTail(s: string, blank: set<char>)
    ensures var r := TrimBoth(s, blank); var a := LeadingBlanks(s, blank);
      forall k :: a + |r| <= k < |s| ==> s[k] in blank
  {
    var a := LeadingBlanks(s, blank);
    var t := s[a..];
    TrailingBlanksAreBlank(t, blank);
    BlankTailOfSuffix(s, a, TrailingBlanks(t, blank), blank);
  }

  /** A blank tail of a suffix of `s` is a blank tail of `s`. */
  lemma BlankTailOfSuffix(s: string, a: nat, b: nat, blank: set<char>)
    requires a + b <= |s|
    requires forall k :: |s| - a - b <= k < |s| - a ==> s[a..][k] in blank
    ensures forall k :: |s| - b <= k < |s| ==> s[k] in blank
  {
    forall k | |s| - b <= k < |s|
      ensures s[k] in blank
    {
      assert s[k] == s[a..][k - a];
    }
  }

  /** Neither end of what `TrimBoth` keeps is blank. */
  lemma TrimBothEnds(s: string, blank: set<char>)
    ensures var r := TrimBoth(s, blank); |r| == 0 || (r[0] !in blank && r[|r| - 1] !in blank)
  {
    var t := TrimStart(s, blank);
    var b := TrailingBlanks(t, blank);
    var r := t[..|t| - b];
    if |r| > 0 {
      assert r[0] == t[0];
      assert r[|r| - 1] == t[|t| - b - 1];
    }
  }

  /** `trim` removes only white space: the result is the slice of `s` between a blank head and a blank tail. */
  lemma TrimRemovesOnlySpace(s: string)
    ensures var r := Trim(s); var a := TrimOffset(s);
      && a + |r| <= |s| && r == s[a..a + |r|]
      && (forall k :: 0 <= k < a ==> IsSpace(s[k]))
      && (forall k :: a + |r| <= k < |s| ==> IsSpace(s[k]))
  {
    TrimBothSlice(s, SpaceChars);
    LeadingBlanksAreBlank(s, SpaceChars);
    TrimBothTail(s, SpaceChars);
  }

  /** Neither end of a trimmed string is white space. */
  lemma TrimmedEnds(s: string)
    ensures var r := Trim(s); |r| == 0 || (!IsSpace(r[0]) && !IsSpace(r[|r| - 1]))
  {
    TrimBothEnds(s, SpaceChars);
  }

  /** Trimming never brings in a character the string did not have. */
  lemma TrimKeepsAbsent(s: string, c: char)
    requires c !in s
    ensures c !in Trim(s)
  {
    TrimBothSlice(s, SpaceChars);
    var r := Trim(s);
    var a := TrimOffset(s);
    forall k | 0 <= k < |r|
      ensures r[k] != c
    {
      assert r[k] == s[a + k];
    }
  }

  /** Trimming a trimmed string changes nothing. */
  lemma TrimIdempotent(s: string)
    ensures Trim(Trim(s)) == Trim(s)
  {
    TrimBothEnds(s, SpaceChars);
    var r := Trim(s);
    assert LeadingBlanks(r, SpaceChars) == 0;
    assert TrailingBlanks(r, SpaceChars) == 0;
  }
}
