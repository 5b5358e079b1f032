/** The JavaScript string operations the worker relies on, for the non-empty
    patterns it uses: `startsWith`, `indexOf`, `includes`, `split`, `join` and
    the first-occurrence `replace` of a string pattern. */
module JsString {
  import opened Wrappers

  /** `pat` occurs in `s` at index `i`. */
  predicate OccursAt(s: string, pat: string, i: nat)
  {
    i + |pat| <= |s| && s[i..i + |pat|] == pat
  }

  /** `s.startsWith(pat)`. */
  predicate StartsWith(s: string, pat: string)
  {
    OccursAt(s, pat, 0)
  }

  /** `s.indexOf(pat, from)`, with `None` in place of -1: the first index at
      or after `from` where `pat` occurs. */
  function IndexOfFrom(s: string, pat: string, from: nat): (r: Option<nat>)
    requires from <= |s|
    decreases |s| - from
    ensures r.Some? ==> from <= r.value && OccursAt(s, pat, r.value)
    ensures r.Some? ==> forall j :: from <= j < r.value ==> !OccursAt(s, pat, j)
    ensures r.None? ==> forall j :: from <= j ==> !OccursAt(s, pat, j)
  {
    if |s| < from + |pat| then None
    else if OccursAt(s, pat, from) then Some(from)
    else IndexOfFrom(s, pat, from + 1)
  }

  /** `s.indexOf(pat)`. */
  function IndexOf(s: string, pat: string): Option<nat>
  {
    IndexOfFrom(s, pat, 0)
  }

  /** `s.includes(pat)`: a plain substring test. */
  predicate Includes(s: string, pat: string)
    ensures Includes(s, pat) <==> exists i: nat :: OccursAt(s, pat, i)
  {
    IndexOf(s, pat).Some?
  }

  /** `parts.join(sep)`. */
  function Join(parts: seq<string>, sep: string): string
  {
    if |parts| == 0 then ""
    else if |parts| == 1 then parts[0]
    else parts[0] + sep + Join(parts[1..], sep)
  }

  /** `s.slice(from).split(sep)` for a non-empty separator: the pieces between
      the non-overlapping occurrences of `sep`, found from left to right. */
  function SplitFrom(s: string, sep: string, from: nat): (parts: seq<string>)
    requires sep != [] && from <= |s|
    decreases |s| - from
    ensures |parts| >= 1
  {
    match IndexOfFrom(s, sep, from)
    case None => [s[from..]]
    case Some(i) => [s[from..i]] + SplitFrom(s, sep, i + |sep|)
  }

  /** `s.split(sep)` for a non-empty separator. */
  function Split(s: string, sep: string): (parts: seq<string>)
    requires sep != []
    ensures |parts| >= 1
  {
    SplitFrom(s, sep, 0)
  }

  /** Joining the pieces of a split with the same separator gives the string back. */
  lemma {:induction false} JoinSplitFrom(s: string, sep: string, from: nat)
    requires sep != [] && from <= |s|
    decreases |s| - from
    ensures Join(SplitFrom(s, sep, from), sep) == s[from..]
  {
    match IndexOfFrom(s, sep, from)
    case None =>
    case Some(i) =>
      var j := i + |sep|;
      assert j <= |s| && s[i..j] == sep;
      JoinSplitFrom(s, sep, j);
      JoinCons(s[from..i], SplitFrom(s, sep, j), sep);
      SliceAround(s, from, i, j);
  }

  lemma JoinCons(head: string, rest: seq<string>, sep: string)
    requires |rest| >= 1
    ensures Join([head] + rest, sep) == head + sep + Join(rest, sep)
  {
    assert ([head] + rest)[1..] == rest;
  }

  lemma SliceAround(s: string, a: nat, b: nat, c: nat)
    requires a <= b <= c <= |s|
    ensures s[a..] == s[a..b] + s[b..c] + s[c..]
  {
  }

  /** No piece of a split contains the separator. */
  lemma {:induction false} SplitFromPiecesFree(s: string, sep: string, from: nat)
    requires sep != [] && from <= |s|
    decreases |s| - from
    ensures forall k :: 0 <= k < |SplitFrom(s, sep, from)| ==> !Includes(SplitFrom(s, sep, from)[k], sep)
  {
    var parts := SplitFrom(s, sep, from);
    match IndexOfFrom(s, sep, from)
    case None =>
      assert parts == [s[from..]];
      PieceFree(s, sep, from, |s|);
      assert s[from..|s|] == s[from..];
    case Some(i) =>
      SplitFromPiecesFree(s, sep, i + |sep|);
      assert parts == [s[from..i]] + SplitFrom(s, sep, i + |sep|);
      PieceFree(s, sep, from, i);
  }

  /** A slice `s[from..to]` in which no occurrence of `sep` starts at or after
      `from` and before `to` contains no occurrence of `sep`. */
  lemma PieceFree(s: string, sep: string, from: nat, to: nat)
    requires sep != [] && from <= to <= |s|
    requires forall j :: from <= j < to ==> !OccursAt(s, sep, j)
    ensures !Includes(s[from..to], sep)
  {
    forall j: nat
      ensures !OccursAt(s[from..to], sep, j)
    {
      OccursInSlice(s, sep, from, to, j);
    }
  }

  /** An occurrence in a slice is an occurrence in the whole string. */
  lemma OccursInSlice(s: string, pat: string, from: nat, to: nat, j: nat)
    requires from <= to <= |s|
    ensures OccursAt(s[from..to], pat, j) ==> j + |pat| <= to - from && OccursAt(s, pat, from + j)
  {
    var t := s[from..to];
    if OccursAt(t, pat, j) {
      forall k | 0 <= k < |pat|
        ensures s[from + j + k] == pat[k]
      {
        assert t[j..j + |pat|][k] == pat[k];
      }
      assert s[from + j..from + j + |pat|] == pat;
    }
  }

  /** The first piece of a split ends at the first occurrence of the
      separator at or after `from`, or at the end of the string. */
  lemma SplitFromFirst(s: string, sep: string, from: nat)
    requires sep != [] && from <= |s|
    ensures var p := SplitFrom(s, sep, from)[0];
      && from + |p| <= |s| && s[from..from + |p|] == p
      && (from + |p| == |s| || OccursAt(s, sep, from + |p|))
      && (forall j :: from <= j < from + |p| ==> !OccursAt(s, sep, j))
  {
  }

  /** `s.replace(pat, rep)` for a string pattern: only the first occurrence
      of `pat` is replaced. */
  function ReplaceFirst(s: string, pat: string, rep: string): (r: string)
    ensures !Includes(s, pat) ==> r == s
    ensures Includes(s, pat) ==> |r| == |s| - |pat| + |rep|
  {
    match IndexOf(s, pat)
    case None => s
    case Some(i) => s[..i] + rep + s[i + |pat|..]
  }

  /** What `replace` replaces: the occurrence of `pat` that no earlier
      occurrence precedes, and nothing else. */
  lemma ReplaceFirstContents(s: string, pat: string, rep: string)
    ensures Includes(s, pat) ==>
      exists i: nat :: (OccursAt(s, pat, i)
        && (forall j: nat :: j < i ==> !OccursAt(s, pat, j))
        && ReplaceFirst(s, pat, rep) == s[..i] + rep + s[i + |pat|..])
  {
    if Includes(s, pat) {
      var i := IndexOf(s, pat).value;
      assert OccursAt(s, pat, i) && forall j: nat :: j < i ==> !OccursAt(s, pat, j);
    }
  }

  /** `s.indexOf(c, from)` for a one-character pattern is the first index
      at or after `from` holding `c`. */
  lemma {:induction false} IndexOfChar(s: string, c: char, from: nat, i: nat)
    requires from <= i < |s| && s[i] == c
    requires forall j :: from <= j < i ==> s[j] != c
    decreases i - from
    ensures IndexOfFrom(s, [c], from) == Some(i)
  {
    if from == i {
      assert s[from..from + 1] == [c];
    } else {
      assert s[from..from + 1][0] == s[from];
      assert !OccursAt(s, [c], from);
      IndexOfChar(s, c, from + 1, i);
    }
  }
}
