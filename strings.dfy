/**
 * The handful of Rust `str`/`String` operations the host picker relies on:
 * `starts_with`, `contains`, `rsplit_once`, `split`, `trim_end_matches`,
 * `push` and `pop`, each over `string` (a sequence of characters).
 */
module Strings {
  import opened Wrappers

  /** `p` is a prefix of `s` (Rust's `s.starts_with(p)`). */
  predicate IsPrefix(p: string, s: string) {
    |p| <= |s| && s[..|p|] == p
  }

  /** `sub` occurs in `s` starting at position `i`. */
  ghost predicate OccursAt(s: string, sub: string, i: nat) {
    i + |sub| <= |s| && s[i..i + |sub|] == sub
  }

  /** `sub` is a prefix of some suffix of `s` (Rust's `s.contains(sub)`). */
  predicate Contains(s: string, sub: string)
    decreases |s|
  {
    IsPrefix(sub, s) || (|s| > 0 && Contains(s[1..], sub))
  }

  /** `Contains` is exactly "occurs at some position". */
  lemma {:induction false} ContainsIff(s: string, sub: string)
    ensures Contains(s, sub) <==> exists i: nat :: OccursAt(s, sub, i)
    decreases |s|
  {
    if IsPrefix(sub, s) {
      assert OccursAt(s, sub, 0);
    } else if |s| > 0 {
      ContainsIff(s[1..], sub);
      if Contains(s[1..], sub) {
        var i: nat :| OccursAt(s[1..], sub, i);
        assert s[1..][i..i + |sub|] == s[i + 1..i + 1 + |sub|];
        assert OccursAt(s, sub, i + 1);
      }
      if exists i: nat :: OccursAt(s, sub, i) {
        var i: nat :| OccursAt(s, sub, i);
        if i > 0 {
          assert s[1..][i - 1..i - 1 + |sub|] == s[i..i + |sub|];
          assert OccursAt(s[1..], sub, i - 1);
        }
      }
    }
  }

  /** Every string contains the empty string. */
  lemma ContainsEmpty(s: string)
    ensures Contains(s, "")
  {
  }

  /** The last character of `s` is `c` (Rust's `s.ends_with(c)`). */
  predicate EndsWith(s: string, c: char) {
    |s| > 0 && s[|s| - 1] == c
  }

  /** `String::pop`: drops the last character; does nothing to the empty string. */
  function Pop(s: string): (r: string)
    ensures s == [] ==> r == []
    ensures s != [] ==> s == r + [s[|s| - 1]]
  {
    if s == [] then [] else s[..|s| - 1]
  }

  /** Pushing a character and popping it again gives the string back. */
  lemma PushPop(s: string, c: char)
    ensures Pop(s + [c]) == s
  {
  }

  /**
   * `s.rsplit_once(sep)`: `None` when `sep` does not occur, otherwise the
   * text before and after the LAST occurrence of `sep`.
   */
  function RSplitOnce(s: string, sep: char): (r: Option<(string, string)>)
    ensures r.None? <==> sep !in s
    ensures r.Some? ==> s == r.value.0 + [sep] + r.value.1 && sep !in r.value.1
  {
    if s == [] then None
    else if s[|s| - 1] == sep then Some((s[..|s| - 1], ""))
    else
      assert s == s[..|s| - 1] + [s[|s| - 1]];
      match RSplitOnce(s[..|s| - 1], sep)
      case None => None
      case Some((a, b)) => Some((a, b + [s[|s| - 1]]))
  }

  /** The split at the last separator is the only split whose right part has no separator. */
  lemma {:induction false} RSplitOnceUnique(s: string, sep: char, a: string, b: string)
    requires s == a + [sep] + b && sep !in b
    ensures RSplitOnce(s, sep) == Some((a, b))
    decreases |b|
  {
    if b == [] {
      assert s[..|s| - 1] == a;
    } else {
      var init := b[..|b| - 1];
      assert s[|s| - 1] == b[|b| - 1];
      assert s[..|s| - 1] == a + [sep] + init;
      RSplitOnceUnique(s[..|s| - 1], sep, a, init);
      assert init + [b[|b| - 1]] == b;
    }
  }

  /** `pieces` glued back together with `sep` between consecutive pieces. */
  function Join(pieces: seq<string>, sep: char): string
  {
    if |pieces| == 0 then ""
    else if |pieces| == 1 then pieces[0]
    else Join(pieces[..|pieces| - 1], sep) + [sep] + pieces[|pieces| - 1]
  }

  /**
   * `s.split(sep)`: the pieces between separators, empty pieces included;
   * always at least one piece.
   */
  function Split(s: string, sep: char): (r: seq<string>)
    ensures |r| >= 1
    ensures Join(r, sep) == s
    ensures forall k :: 0 <= k < |r| ==> sep !in r[k]
    decreases |s|
  {
    match RSplitOnce(s, sep)
    case None => [s]
    case Some((a, b)) =>
      var r := Split(a, sep) + [b];
      assert r[..|r| - 1] == Split(a, sep);
      r
  }

  /** Splitting undoes joining, for pieces free of the separator. */
  lemma {:induction false} SplitJoin(pieces: seq<string>, sep: char)
    requires |pieces| >= 1
    requires forall k :: 0 <= k < |pieces| ==> sep !in pieces[k]
    ensures Split(Join(pieces, sep), sep) == pieces
  {
    if |pieces| > 1 {
      var init := pieces[..|pieces| - 1];
      RSplitOnceUnique(Join(pieces, sep), sep, Join(init, sep), pieces[|pieces| - 1]);
      SplitJoin(init, sep);
    }
  }

  /** The first piece of `s.split(sep)` is `s` up to (not including) its first `sep`. */
  lemma {:induction false} SplitFirst(s: string, sep: char)
    ensures IsPrefix(Split(s, sep)[0], s)
    ensures sep !in Split(s, sep)[0]
    ensures |Split(s, sep)[0]| == |s| || s[|Split(s, sep)[0]|] == sep
    decreases |s|
  {
    match RSplitOnce(s, sep)
    case None =>
    case Some((a, b)) =>
      SplitFirst(a, sep);
      assert Split(s, sep)[0] == Split(a, sep)[0];
      var f := Split(a, sep)[0];
      assert s == a + [sep] + b;
      assert s[..|f|] == a[..|f|];
      if |f| == |a| {
        assert s[|f|] == sep;
      } else {
        assert s[|f|] == a[|f|];
      }
  }

  /**
   * `s.split(sep).take(1)` joined: the text before the first `sep`
   * (all of `s` when there is none).
   */
  function FirstPiece(s: string, sep: char): (r: string)
    ensures IsPrefix(r, s)
    ensures sep !in r
    ensures |r| == |s| || s[|r|] == sep
  {
    SplitFirst(s, sep);
    Split(s, sep)[0]
  }

  /** `s.trim_end_matches(c)`: `s` with every trailing `c` removed. */
  function TrimEnd(s: string, c: char): (r: string)
    ensures IsPrefix(r, s)
    ensures !EndsWith(r, c)
    ensures forall k :: |r| <= k < |s| ==> s[k] == c
  {
    if EndsWith(s, c) then TrimEnd(s[..|s| - 1], c) else s
  }
}
