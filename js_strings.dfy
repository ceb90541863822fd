/**
 * The parts of JavaScript's string API that the scanner relies on:
 * `indexOf`, `lastIndexOf`, `includes`, `split` with a non-empty string
 * separator and `Array.prototype.join`.  Each is given by a small
 * executable definition together with the property that characterises it.
 */
module JsStrings {
  import opened Wrappers

  /** `pat` occurs in `s` starting at index `k`. */
  predicate OccursAt(s: string, pat: string, k: nat)
  {
    k + |pat| <= |s| && s[k..k + |pat|] == pat
  }

  /** `s.includes(pat)`. */
  predicate Contains(s: string, pat: string)
  {
    exists k: nat | k <= |s| :: OccursAt(s, pat, k)
  }

  /** The first occurrence of `pat` at or after `from`. */
  function FindFrom(s: string, pat: string, from: nat): (r: Option<nat>)
    ensures r.Some? ==> from <= r.value && OccursAt(s, pat, r.value)
    ensures r.Some? ==> forall j: nat :: from <= j < r.value ==> !OccursAt(s, pat, j)
    ensures r.None? ==> forall j: nat :: from <= j ==> !OccursAt(s, pat, j)
    decreases |s| - from
  {
    if from + |pat| > |s| then None
    else if OccursAt(s, pat, from) then Some(from)
    else FindFrom(s, pat, from + 1)
  }

  /** `s.indexOf(pat)`, with `None` for -1. */
  function FirstIndex(s: string, pat: string): Option<nat>
  {
    FindFrom(s, pat, 0)
  }

  /** `indexOf` finds an occurrence exactly when there is one. */
  lemma FirstIndexFinds(s: string, pat: string)
    ensures FirstIndex(s, pat).Some? <==> Contains(s, pat)
  {
    if Contains(s, pat) {
      var k: nat :| k <= |s| && OccursAt(s, pat, k);
    }
  }

  /** The last occurrence of `pat` that starts below `n`. */
  function FindLastBelow(s: string, pat: string, n: nat): (r: Option<nat>)
    ensures r.Some? ==> r.value < n && OccursAt(s, pat, r.value)
    ensures r.Some? ==> forall j: nat :: r.value < j < n ==> !OccursAt(s, pat, j)
    ensures r.None? ==> forall j: nat :: j < n ==> !OccursAt(s, pat, j)
  {
    if n == 0 then None
    else if OccursAt(s, pat, n - 1) then Some(n - 1)
    else FindLastBelow(s, pat, n - 1)
  }

  /** `s.lastIndexOf(pat)`, with `None` for -1. */
  function LastIndex(s: string, pat: string): (r: Option<nat>)
    ensures r.Some? ==> OccursAt(s, pat, r.value)
    ensures r.Some? ==> forall j: nat :: r.value < j ==> !OccursAt(s, pat, j)
    ensures r.None? ==> forall j: nat :: !OccursAt(s, pat, j)
  {
    FindLastBelow(s, pat, |s| + 1)
  }

  /**
   * `s.split(sep)` for a non-empty separator: the pieces between the
   * occurrences of `sep` found scanning left to right.
   */
  function Split(s: string, sep: string): (parts: seq<string>)
    requires |sep| > 0
    ensures |parts| >= 1
  {
    SplitFrom(s, sep, 0)
  }

  /** There is more than one piece exactly when the separator occurs. */
  lemma SplitLength(s: string, sep: string)
    requires |sep| > 0
    ensures |Split(s, sep)| > 1 <==> Contains(s, sep)
  {
  }

  /** The pieces of `s[from..]`, splitting at the occurrences that start at or after `from`. */
  function SplitFrom(s: string, sep: string, from: nat): (parts: seq<string>)
    requires |sep| > 0 && from <= |s|
    ensures |parts| >= 1
    decreases |s| - from
  {
    match FindFrom(s, sep, from)
    case None => [s[from..]]
    case Some(i) => [s[from..i]] + SplitFrom(s, sep, i + |sep|)
  }

  /** `parts.join(sep)`. */
  function Join(parts: seq<string>, sep: string): string
  {
    if |parts| == 0 then ""
    else if |parts| == 1 then parts[0]
    else parts[0] + sep + Join(parts[1..], sep)
  }

  /** Four parts joined: each separated from the next by `sep`. */
  lemma JoinFour(parts: seq<string>, sep: string)
    requires |parts| == 4
    ensures Join(parts, sep) == parts[0] + sep + parts[1] + sep + parts[2] + sep + parts[3]
  {
    assert parts[1..][1..] == parts[2..];
    assert parts[2..][1..] == parts[3..];
    assert Join(parts[3..], sep) == parts[3];
    assert Join(parts[2..], sep) == parts[2] + sep + parts[3];
    assert Join(parts[1..], sep) == parts[1] + sep + (parts[2] + sep + parts[3]);
  }

  /** Joining a non-empty list after a first piece puts one separator between them. */
  lemma JoinCons(head: string, tail: seq<string>, sep: string)
    requires |tail| >= 1
    ensures Join([head] + tail, sep) == head + sep + Join(tail, sep)
  {
    assert ([head] + tail)[1..] == tail;
  }

  /** Joining two non-empty lists puts one separator between their joins. */
  lemma {:induction false} JoinAppend(front: seq<string>, back: seq<string>, sep: string)
    requires |front| >= 1 && |back| >= 1
    ensures Join(front + back, sep) == Join(front, sep) + sep + Join(back, sep)
  {
    if |front| == 1 {
      JoinCons(front[0], back, sep);
    } else {
      JoinAppend(front[1..], back, sep);
      assert front + back == [front[0]] + (front[1..] + back);
      JoinCons(front[0], front[1..] + back, sep);
      JoinCons(front[0], front[1..], sep);
      assert [front[0]] + front[1..] == front;
    }
  }

  /** `parts.slice(0, -1).join(sep)`. */
  function JoinButLast(parts: seq<string>, sep: string): string
    requires |parts| >= 1
  {
    Join(parts[..|parts| - 1], sep)
  }

  /** Dropping the last piece of a list with a first piece in front. */
  lemma JoinButLastCons(head: string, tail: seq<string>, sep: string)
    requires |tail| >= 1
    ensures JoinButLast([head] + tail, sep)
        == if |tail| == 1 then head else head + sep + JoinButLast(tail, sep)
  {
    var parts := [head] + tail;
    if |tail| > 1 {
      assert parts[..|parts| - 1] == [head] + tail[..|tail| - 1];
      JoinCons(head, tail[..|tail| - 1], sep);
    } else {
      assert parts[..|parts| - 1] == [head];
    }
  }

  /** A piece, the separator at `i`, and the rest of the string make up the whole. */
  lemma AroundOccurrence(s: string, sep: string, from: nat, i: nat)
    requires from <= i && OccursAt(s, sep, i)
    ensures s[from..] == s[from..i] + sep + s[i + |sep|..]
  {
    assert s[i..i + |sep|] == sep;
  }

  /** Joining the pieces of a split with the same separator gives back the original text. */
  lemma {:induction false} JoinSplitFrom(s: string, sep: string, from: nat)
    requires |sep| > 0 && from <= |s|
    ensures Join(SplitFrom(s, sep, from), sep) == s[from..]
    decreases |s| - from
  {
    var next := FindFrom(s, sep, from);
    if next.Some? {
      var i := next.value;
      JoinSplitFrom(s, sep, i + |sep|);
      JoinCons(s[from..i], SplitFrom(s, sep, i + |sep|), sep);
      AroundOccurrence(s, sep, from, i);
    }
  }

  lemma JoinSplit(s: string, sep: string)
    requires |sep| > 0
    ensures Join(Split(s, sep), sep) == s
  {
    JoinSplitFrom(s, sep, 0);
  }

  /** An occurrence of `pat` in a suffix of `s` is an occurrence in `s`, shifted. */
  lemma OccursInSuffix(s: string, pat: string, m: nat, j: nat)
    requires m <= |s|
    ensures OccursAt(s[m..], pat, j) <==> OccursAt(s, pat, m + j)
  {
    if m + j + |pat| <= |s| {
      assert s[m..][j..j + |pat|] == s[m + j..m + j + |pat|];
    }
  }

  /** The first character of `sep` does not appear again in it, so two occurrences never overlap. */
  predicate HeadNotRepeated(sep: string)
  {
    |sep| > 0 && sep[0] !in sep[1..]
  }

  lemma NoOverlap(s: string, sep: string, i: nat, j: nat)
    requires HeadNotRepeated(sep)
    requires OccursAt(s, sep, i) && i < j < i + |sep|
    ensures !OccursAt(s, sep, j)
  {
    assert sep[j - i] == sep[1..][j - i - 1];
    assert s[j] == s[i..i + |sep|][j - i];
    if j + |sep| <= |s| {
      assert s[j..j + |sep|][0] == s[j];
    }
  }

  /** `sep + s.split(sep).slice(1).join(sep)`: the text from the first separator on, or just `sep`. */
  function FromFirst(s: string, sep: string): (r: string)
    requires |sep| > 0
    ensures match FirstIndex(s, sep)
              case None => r == sep
              case Some(i) => r == s[i..]
  {
    FromFirstIsSuffix(s, sep);
    sep + Join(Split(s, sep)[1..], sep)
  }

  lemma FromFirstIsSuffix(s: string, sep: string)
    requires |sep| > 0
    ensures match FindFrom(s, sep, 0)
              case None => sep + Join(SplitFrom(s, sep, 0)[1..], sep) == sep
              case Some(i) => sep + Join(SplitFrom(s, sep, 0)[1..], sep) == s[i..]
  {
    var first := FindFrom(s, sep, 0);
    if first.Some? {
      FromFirstFound(s, sep, first.value);
    } else {
      SplitFromEnd(s, sep, 0);
      assert SplitFrom(s, sep, 0)[1..] == [];
    }
  }

  lemma FromFirstFound(s: string, sep: string, i: nat)
    requires |sep| > 0 && FindFrom(s, sep, 0) == Some(i)
    ensures sep + Join(SplitFrom(s, sep, 0)[1..], sep) == s[i..]
  {
    SplitFromStep(s, sep, 0, i);
    assert SplitFrom(s, sep, 0)[1..] == SplitFrom(s, sep, i + |sep|);
    JoinAfterOccurrence(s, sep, i);
  }

  /** The separator followed by the join of the pieces after an occurrence is the text from that occurrence. */
  lemma JoinAfterOccurrence(s: string, sep: string, i: nat)
    requires |sep| > 0 && OccursAt(s, sep, i)
    ensures sep + Join(SplitFrom(s, sep, i + |sep|), sep) == s[i..]
  {
    JoinSplitFrom(s, sep, i + |sep|);
    SuffixAtOccurrence(s, sep, i);
    SamePrefixed(sep, Join(SplitFrom(s, sep, i + |sep|), sep), s[i + |sep|..], s[i..]);
  }

  /** Replacing a text by an equal one behind the same prefix. */
  lemma SamePrefixed(a: string, x: string, y: string, z: string)
    requires x == y && z == a + y
    ensures a + x == z
  {
  }

  /** Equal texts with the same prefix agree after it. */
  lemma PrefixCancels(prefix: string, x: string, y: string)
    requires prefix + x == prefix + y
    ensures x == y
  {
    assert x == (prefix + x)[|prefix|..];
    assert y == (prefix + y)[|prefix|..];
  }

  /** The text from an occurrence on is the occurrence followed by what comes after it. */
  lemma SuffixAtOccurrence(s: string, sep: string, i: nat)
    requires OccursAt(s, sep, i)
    ensures s[i..] == sep + s[i + |sep|..]
  {
    assert s[i..] == s[i..i + |sep|] + s[i + |sep|..];
  }

  /** At an occurrence, the split yields the piece before it followed by the pieces after it. */
  lemma SplitFromStep(s: string, sep: string, from: nat, i: nat)
    requires |sep| > 0 && from <= |s| && FindFrom(s, sep, from) == Some(i)
    ensures SplitFrom(s, sep, from) == [s[from..i]] + SplitFrom(s, sep, i + |sep|)
  {
  }

  /** Without a further occurrence, the split yields the rest as its only piece. */
  lemma SplitFromEnd(s: string, sep: string, from: nat)
    requires |sep| > 0 && from <= |s| && FindFrom(s, sep, from).None?
    ensures SplitFrom(s, sep, from) == [s[from..]]
  {
  }

  /** The text between `from` and the last occurrence at or after `from`; empty if there is none. */
  function UpToLast(s: string, sep: string, from: nat): string
    requires from <= |s|
  {
    match LastIndex(s, sep)
    case Some(k) => if from <= k then s[from..k] else ""
    case None => ""
  }

  /** `s.split(sep).slice(0, -1).join(sep)`. */
  function DropLastPiece(s: string, sep: string): string
    requires |sep| > 0
  {
    JoinButLast(Split(s, sep), sep)
  }

  /**
   * For a separator that cannot overlap itself, dropping the last piece of a
   * split keeps exactly the text before the last occurrence of the separator,
   * and nothing when there is none.
   */
  lemma DropLastPieceIsPrefix(s: string, sep: string)
    requires HeadNotRepeated(sep)
    ensures DropLastPiece(s, sep) == match LastIndex(s, sep) case None => "" case Some(k) => s[..k]
  {
    DropLastPieceFrom(s, sep, 0);
    assert DropLastPiece(s, sep) == ButLastFrom(s, sep, 0);
  }

  /** The pieces of `s[from..]` but the last, joined again. */
  function ButLastFrom(s: string, sep: string, from: nat): string
    requires |sep| > 0 && from <= |s|
  {
    JoinButLast(SplitFrom(s, sep, from), sep)
  }

  /** The step behind DropLastPieceIsPrefix, for the pieces of `s[from..]`. */
  lemma {:induction false} DropLastPieceFrom(s: string, sep: string, from: nat)
    requires HeadNotRepeated(sep) && from <= |s|
    requires NoneStraddles(s, sep, from)
    ensures ButLastFrom(s, sep, from) == UpToLast(s, sep, from)
    decreases |s| - from
  {
    var next := FindFrom(s, sep, from);
    if next.Some? {
      var i := next.value;
      NoneStraddlesAfter(s, sep, i);
      DropLastPieceFrom(s, sep, i + |sep|);
      DropLastPieceFound(s, sep, from, i);
    } else {
      SplitFromEnd(s, sep, from);
      DropLastPieceNone(s, sep, from);
    }
  }

  /** No occurrence of `sep` starts before `pos` and ends after it. */
  predicate NoneStraddles(s: string, sep: string, pos: nat)
  {
    forall j: nat :: j < pos && OccursAt(s, sep, j) ==> j + |sep| <= pos
  }

  lemma NoneStraddlesAfter(s: string, sep: string, i: nat)
    requires HeadNotRepeated(sep) && OccursAt(s, sep, i)
    ensures NoneStraddles(s, sep, i + |sep|)
  {
    forall j: nat | i < j < i + |sep|
      ensures !OccursAt(s, sep, j)
    {
      NoOverlap(s, sep, i, j);
    }
  }

  lemma DropLastPieceNone(s: string, sep: string, from: nat)
    requires HeadNotRepeated(sep) && from <= |s|
    requires NoneStraddles(s, sep, from)
    requires FindFrom(s, sep, from).None?
    ensures UpToLast(s, sep, from) == ""
  {
  }

  lemma DropLastPieceFound(s: string, sep: string, from: nat, i: nat)
    requires HeadNotRepeated(sep) && from <= |s| && FindFrom(s, sep, from) == Some(i)
    requires ButLastFrom(s, sep, i + |sep|) == UpToLast(s, sep, i + |sep|)
    ensures ButLastFrom(s, sep, from) == UpToLast(s, sep, from)
  {
    var tail := SplitFrom(s, sep, i + |sep|);
    SplitFromStep(s, sep, from, i);
    JoinButLastCons(s[from..i], tail, sep);
    SplitFromSingle(s, sep, i + |sep|);
    if |tail| == 1 {
      LastAt(s, sep, i);
    } else {
      DropLastPieceBeforeLast(s, sep, from, i);
    }
  }

  /** When another occurrence follows the one at `i`, the last piece dropped lies after `i`. */
  lemma DropLastPieceBeforeLast(s: string, sep: string, from: nat, i: nat)
    requires HeadNotRepeated(sep) && from <= |s| && FindFrom(s, sep, from) == Some(i)
    requires FindFrom(s, sep, i + |sep|).Some?
    ensures LastIndex(s, sep).Some? && i + |sep| <= LastIndex(s, sep).value
    ensures s[from..i] + sep + UpToLast(s, sep, i + |sep|) == UpToLast(s, sep, from)
  {
    var j := FindFrom(s, sep, i + |sep|).value;
    assert OccursAt(s, sep, j);
    var k := LastIndex(s, sep).value;
    assert j <= k;
    AroundOccurrence(s[..k], sep, from, i);
    assert s[..k][from..] == s[from..k];
    assert s[..k][i + |sep|..] == s[i + |sep|..k];
    assert s[..k][from..i] == s[from..i];
  }

  /** The split has a single piece exactly when no further occurrence starts at or after `from`. */
  lemma SplitFromSingle(s: string, sep: string, from: nat)
    requires |sep| > 0 && from <= |s|
    ensures |SplitFrom(s, sep, from)| == 1 <==> FindFrom(s, sep, from).None?
  {
    var next := FindFrom(s, sep, from);
    if next.Some? {
      SplitFromStep(s, sep, from, next.value);
    }
  }

  /** An occurrence with none after it is the last one. */
  lemma LastAt(s: string, sep: string, i: nat)
    requires HeadNotRepeated(sep) && OccursAt(s, sep, i)
    requires FindFrom(s, sep, i + |sep|).None?
    ensures LastIndex(s, sep) == Some(i)
  {
    forall j: nat | i < j < i + |sep|
      ensures !OccursAt(s, sep, j)
    {
      NoOverlap(s, sep, i, j);
    }
  }

  /**
   * `piece` starts at `from` and runs up to the first occurrence of `sep`
   * at or after `from`, or to the end of `s` when there is none.
   */
  predicate PieceAt(s: string, sep: string, from: nat, piece: string)
  {
    && from + |piece| <= |s|
    && s[from..from + |piece|] == piece
    && (forall k: nat :: from <= k < from + |piece| ==> !OccursAt(s, sep, k))
    && (from + |piece| == |s| || OccursAt(s, sep, from + |piece|))
  }

  /** The first piece of a split is the text up to the first occurrence of the separator. */
  lemma FirstPieceFrom(s: string, sep: string, from: nat)
    requires |sep| > 0 && from <= |s|
    ensures PieceAt(s, sep, from, SplitFrom(s, sep, from)[0])
  {
    var next := FindFrom(s, sep, from);
    if next.Some? {
      SplitFromStep(s, sep, from, next.value);
    } else {
      SplitFromEnd(s, sep, from);
    }
  }

  /** The last occurrence in a suffix is the last occurrence in the whole, if it lies in the suffix. */
  lemma LastIndexInSuffix(s: string, pat: string, m: nat)
    requires m <= |s|
    ensures LastIndex(s[m..], pat)
      == match LastIndex(s, pat)
         case Some(q) => if m <= q then Some(q - m) else None
         case None => None
  {
    var whole := LastIndex(s, pat);
    var part := LastIndex(s[m..], pat);
    if part.Some? {
      OccursInSuffix(s, pat, m, part.value);
    }
    if whole.Some? && m <= whole.value {
      OccursInSuffix(s, pat, m, whole.value - m);
    }
  }

  /** Dropping the last piece of a suffix keeps the suffix up to the last occurrence, if that lies in it. */
  lemma DropLastPieceOfSuffix(s: string, sep: string, m: nat)
    requires HeadNotRepeated(sep) && m <= |s|
    ensures DropLastPiece(s[m..], sep)
      == match LastIndex(s, sep)
         case Some(q) => if m <= q then s[m..q] else ""
         case None => ""
  {
    DropLastPieceIsPrefix(s[m..], sep);
    LastIndexInSuffix(s, sep, m);
  }

  /** The contract of FindFrom determines its result when there is an occurrence ... */
  lemma FindFromIs(s: string, pat: string, from: nat, r: nat)
    requires from <= r && OccursAt(s, pat, r)
    requires forall j: nat :: from <= j < r ==> !OccursAt(s, pat, j)
    ensures FindFrom(s, pat, from) == Some(r)
  {
  }

  /** ... and when there is none. */
  lemma FindFromNone(s: string, pat: string, from: nat)
    requires forall j: nat :: from <= j ==> !OccursAt(s, pat, j)
    ensures FindFrom(s, pat, from) == None
  {
  }

  /** A one-character pattern occurs exactly where that character is. */
  lemma OccursChar(s: string, c: char, k: nat)
    ensures OccursAt(s, [c], k) <==> k < |s| && s[k] == c
  {
    if k < |s| {
      assert s[k..k + 1] == [s[k]];
    }
  }

  /** Splitting at a one-character separator: the next piece ends at the next occurrence of the character. */
  lemma SplitFromAtChar(s: string, c: char, from: nat, i: nat)
    requires from <= i < |s| && s[i] == c
    requires forall k :: from <= k < i ==> s[k] != c
    ensures SplitFrom(s, [c], from) == [s[from..i]] + SplitFrom(s, [c], i + 1)
  {
    OccursChar(s, c, i);
    forall j: nat | from <= j < i
      ensures !OccursAt(s, [c], j)
    {
      OccursChar(s, c, j);
    }
    FindFromIs(s, [c], from, i);
  }

  /** Without the character after `from`, the rest is the last piece. */
  lemma SplitFromWithoutChar(s: string, c: char, from: nat)
    requires from <= |s|
    requires forall k :: from <= k < |s| ==> s[k] != c
    ensures SplitFrom(s, [c], from) == [s[from..]]
  {
    forall j: nat | from <= j
      ensures !OccursAt(s, [c], j)
    {
      OccursChar(s, c, j);
    }
    FindFromNone(s, [c], from);
  }
}
