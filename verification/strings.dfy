/** The string primitives the downloader relies on, with Python's semantics:
    the substring test `pat in s` and `s.replace(pat, rep)`. The substring
    test is computed by a search with the semantics of `s.find(pat)`, which
    the script itself does not call. */
module Strings {
  import opened Wrappers

  /** `pat` occurs in `s` starting at index `i`. */
  ghost predicate OccursAt(s: string, pat: string, i: int) {
    0 <= i && i + |pat| <= |s| && s[i..i + |pat|] == pat
  }

  /** `pat` occurs somewhere in `s`; the empty string occurs in every string. */
  ghost predicate Occurs(s: string, pat: string) {
    exists i :: OccursAt(s, pat, i)
  }

  predicate StartsWith(s: string, p: string) {
    |p| <= |s| && s[..|p|] == p
  }

  /** Dropping the first character shifts every occurrence one place to the left. */
  lemma OccursAtTail(s: string, pat: string, i: int)
    requires |s| > 0 && 0 <= i
    ensures OccursAt(s[1..], pat, i) <==> OccursAt(s, pat, i + 1)
  {
    if i + |pat| <= |s[1..]| {
      assert s[1..][i..i + |pat|] == s[i + 1..i + 1 + |pat|];
    }
  }

  /** When `pat` is not at the front of `s`, it occurs in `s` iff it occurs in the tail. */
  lemma OccursTail(s: string, pat: string)
    requires |s| > 0 && !OccursAt(s, pat, 0)
    ensures Occurs(s, pat) <==> Occurs(s[1..], pat)
  {
    if Occurs(s, pat) {
      var i :| OccursAt(s, pat, i);
      OccursAtTail(s, pat, i - 1);
      assert OccursAt(s[1..], pat, i - 1);
    }
    if Occurs(s[1..], pat) {
      var i :| OccursAt(s[1..], pat, i);
      OccursAtTail(s, pat, i);
      assert OccursAt(s, pat, i + 1);
    }
  }

  /** Python's `s.find(pat)`: the index of the leftmost occurrence of `pat`,
      `None` where Python returns -1. */
  function IndexOf(s: string, pat: string): (r: Option<nat>)
    ensures r.Some? ==> r.value + |pat| <= |s|
    decreases |s|
  {
    if StartsWith(s, pat) then
      Some(0)
    else if |s| == 0 then
      None
    else
      match IndexOf(s[1..], pat)
      case None => None
      case Some(k) => Some(k + 1)
  }

  /** `IndexOf` finds an occurrence, no occurrence lies before it, and it
      reports none exactly when there is none. */
  lemma {:induction false} IndexOfLeftmost(s: string, pat: string)
    ensures IndexOf(s, pat).Some? ==> OccursAt(s, pat, IndexOf(s, pat).value)
    ensures IndexOf(s, pat).Some? ==>
      forall j :: 0 <= j < IndexOf(s, pat).value ==> !OccursAt(s, pat, j)
    ensures IndexOf(s, pat).None? <==> !Occurs(s, pat)
    decreases |s|
  {
    if StartsWith(s, pat) {
      assert OccursAt(s, pat, 0);
    } else if |s| > 0 {
      assert !OccursAt(s, pat, 0);
      OccursTail(s, pat);
      IndexOfLeftmost(s[1..], pat);
      match IndexOf(s[1..], pat)
      case None =>
      case Some(k) =>
        OccursAtTail(s, pat, k);
        forall j | 1 <= j < k + 1
          ensures !OccursAt(s, pat, j)
        {
          OccursAtTail(s, pat, j - 1);
        }
    }
  }

  /** Python's `pat in s`. */
  function Contains(s: string, pat: string): (b: bool)
    ensures b <==> Occurs(s, pat)
  {
    IndexOfLeftmost(s, pat);
    IndexOf(s, pat).Some?
  }

  /** `rep` before every character of `s` and once more at the end: what
      Python's `replace` does with an empty pattern. */
  function Surround(s: string, rep: string): (r: string)
    ensures |r| == |s| + (|s| + 1) * |rep|
  {
    if |s| == 0 then rep else rep + [s[0]] + Surround(s[1..], rep)
  }

  /** Python's `s.replace(pat, rep)`: scanning from the left, every
      non-overlapping occurrence of `pat` is replaced by `rep`. */
  function ReplaceAll(s: string, pat: string, rep: string): string
    decreases |s|
  {
    if |pat| == 0 then
      Surround(s, rep)
    else if StartsWith(s, pat) then
      rep + ReplaceAll(s[|pat|..], pat, rep)
    else if |s| == 0 then
      []
    else
      [s[0]] + ReplaceAll(s[1..], pat, rep)
  }

  /** With no occurrence of `pat`, `replace` returns its input unchanged. */
  lemma {:induction false} ReplaceAllAbsent(s: string, pat: string, rep: string)
    requires |pat| > 0 && !Occurs(s, pat)
    ensures ReplaceAll(s, pat, rep) == s
    decreases |s|
  {
    assert !OccursAt(s, pat, 0);
    if |s| > 0 {
      OccursTail(s, pat);
      ReplaceAllAbsent(s[1..], pat, rep);
      ReplaceAllStep(s, pat, rep);
    }
  }

  /** Reference definition of `replace` in terms of `find`, the way CPython's
      `str.replace` scans: copy up to the leftmost occurrence, emit `rep`,
      continue after the occurrence. */
  function ReplaceByFind(s: string, pat: string, rep: string): string
    requires |pat| > 0
    decreases |s|
  {
    match IndexOf(s, pat)
    case None => s
    case Some(i) => s[..i] + rep + ReplaceByFind(s[i + |pat|..], pat, rep)
  }

  /** Away from a match, `replace` copies the first character and scans on. */
  lemma ReplaceAllStep(s: string, pat: string, rep: string)
    requires |pat| > 0 && |s| > 0 && !StartsWith(s, pat)
    ensures ReplaceAll(s, pat, rep) == [s[0]] + ReplaceAll(s[1..], pat, rep)
  {
  }

  /** At a match, `replace` emits `rep` and scans on after the match. */
  lemma ReplaceAllAtMatch(s: string, pat: string, rep: string)
    requires |pat| > 0 && StartsWith(s, pat)
    ensures ReplaceAll(s, pat, rep) == rep + ReplaceAll(s[|pat|..], pat, rep)
  {
  }

  /** Putting the first character back in front of a cut of the tail. */
  lemma ConsCut(s: string, i: nat, whole: string, tail: string, u: string, v: string)
    requires 0 < i <= |s|
    requires whole == [s[0]] + tail && tail == s[1..][..i - 1] + u + v
    ensures whole == s[..i] + u + v
  {
    assert [s[0]] + s[1..][..i - 1] == s[..i];
  }

  /** Scanning up to the leftmost occurrence at `i` copies `s[..i]` unchanged. */
  lemma {:induction false} ReplaceAllUpToFirst(s: string, pat: string, rep: string, i: nat)
    requires |pat| > 0 && IndexOf(s, pat).Some? && IndexOf(s, pat).value == i
    ensures ReplaceAll(s, pat, rep) == s[..i] + rep + ReplaceAll(s[i + |pat|..], pat, rep)
    decreases i
  {
    if i == 0 {
      ReplaceAllAtMatch(s, pat, rep);
      assert s[..i] == [];
    } else {
      ReplaceAllStep(s, pat, rep);
      assert IndexOf(s[1..], pat).Some? && IndexOf(s[1..], pat).value == i - 1;
      ReplaceAllUpToFirst(s[1..], pat, rep, i - 1);
      assert s[1..][i - 1 + |pat|..] == s[i + |pat|..];
      ConsCut(s, i, ReplaceAll(s, pat, rep), ReplaceAll(s[1..], pat, rep),
              rep, ReplaceAll(s[i + |pat|..], pat, rep));
    }
  }

  /** How the find-based definition unfolds at the leftmost occurrence. */
  lemma ReplaceByFindAt(s: string, pat: string, rep: string)
    requires |pat| > 0 && IndexOf(s, pat).Some?
    ensures ReplaceByFind(s, pat, rep)
         == s[..IndexOf(s, pat).value] + rep
            + ReplaceByFind(s[IndexOf(s, pat).value + |pat|..], pat, rep)
  {
  }

  /** The scanning definition and the find-based definition of `replace` agree. */
  lemma {:induction false} ReplaceAllMatchesFind(s: string, pat: string, rep: string)
    requires |pat| > 0
    ensures ReplaceAll(s, pat, rep) == ReplaceByFind(s, pat, rep)
    decreases |s|
  {
    var found := IndexOf(s, pat);
    if found.None? {
      IndexOfLeftmost(s, pat);
      ReplaceAllAbsent(s, pat, rep);
    } else {
      var i := found.value;
      ReplaceByFindAt(s, pat, rep);
      ReplaceAllUpToFirst(s, pat, rep, i);
      ReplaceAllMatchesFind(s[i + |pat|..], pat, rep);
    }
  }

  /** `s` with every `c` dropped and the other characters kept in order. */
  function Strip(s: string, c: char): (r: string)
    ensures c !in r
    ensures multiset(r) == multiset(s)[c := 0]
  {
    if |s| == 0 then
      []
    else
      assert s == [s[0]] + s[1..];
      if s[0] == c then Strip(s[1..], c) else [s[0]] + Strip(s[1..], c)
  }

  /** Replacing a one-character pattern by nothing is stripping that character. */
  lemma {:induction false} RemoveCharIsStrip(s: string, c: char)
    ensures ReplaceAll(s, [c], []) == Strip(s, c)
    decreases |s|
  {
    if |s| > 0 {
      var pat := [c];
      assert StartsWith(s, pat) <==> s[0] == c;
      RemoveCharIsStrip(s[1..], c);
      if s[0] == c {
        assert ReplaceAll(s, pat, []) == ReplaceAll(s[1..], pat, []);
      } else {
        assert ReplaceAll(s, pat, []) == [s[0]] + ReplaceAll(s[1..], pat, []);
      }
    }
  }

  /** A string lacking some character of `pat` cannot contain `pat`. */
  lemma NoOccurrenceWithout(s: string, pat: string, c: char)
    requires c in pat && c !in s
    ensures !Occurs(s, pat)
  {
  }

  /** Stripping a character that does not occur changes nothing. */
  lemma {:induction false} StripAbsent(s: string, c: char)
    requires c !in s
    ensures Strip(s, c) == s
  {
    if |s| > 0 {
      StripAbsent(s[1..], c);
    }
  }

  /** Removing `pat` from the middle of `pat[..1] + pat + pat[1..]` leaves `pat`,
      for every pattern whose first two characters differ. */
  lemma RemovalRejoins(pat: string)
    requires |pat| >= 2 && pat[0] != pat[1]
    ensures ReplaceAll(pat[..1] + pat + pat[1..], pat, []) == pat
  {
    var rest := pat[1..];
    var s := pat[..1] + pat + rest;
    assert s[..|pat|][1] != pat[1];
    ReplaceAllStep(s, pat, []);
    assert s[1..] == pat + rest;
    assert StartsWith(pat + rest, pat);
    ReplaceAllAtMatch(pat + rest, pat, []);
    assert (pat + rest)[|pat|..] == rest;
    ReplaceAllAbsent(rest, pat, []);
    assert [s[0]] + rest == pat;
  }
}
