/**
 * The string operations the map-attribute parser relies on, with the
 * meaning they have on byte strings: splitting on one separator, stripping
 * a set of characters from both ends, the first whitespace-separated
 * token, substring search, the slice `[:n]` and lower-casing.
 */
module TextOps {
  import opened Wrappers

  /** The characters `strip()` and `split()` treat as white space. */
  const Whitespace: set<char> := {' ', '\t', '\n', '\r', '\U{000B}', '\U{000C}'}

  /** The position of the first `c` in `s`. */
  function FirstIndex(s: string, c: char): (i: nat)
    requires c in s
    ensures i < |s| && s[i] == c && c !in s[..i]
  {
    if s[0] == c then 0 else FirstIndex(s[1..], c) + 1
  }

  /** `s.split(sep)`: the pieces between the separators, empty pieces kept. */
  function Split(s: string, sep: char): (r: seq<string>)
    ensures |r| >= 1
    decreases |s|
  {
    if sep !in s then [s]
    else
      var i := FirstIndex(s, sep);
      [s[..i]] + Split(s[i + 1..], sep)
  }

  /** No piece of a split holds the separator. */
  lemma {:induction false} SplitPieces(s: string, sep: char)
    ensures forall k :: 0 <= k < |Split(s, sep)| ==> sep !in Split(s, sep)[k]
    decreases |s|
  {
    if sep in s {
      var i := FirstIndex(s, sep);
      SplitPieces(s[i + 1..], sep);
    }
  }

  /** The pieces glued back together with the separator between them. */
  function Join(pieces: seq<string>, sep: char): string
  {
    if |pieces| == 0 then ""
    else if |pieces| == 1 then pieces[0]
    else pieces[0] + [sep] + Join(pieces[1..], sep)
  }

  /** Joining the pieces of a split gives back the text. */
  lemma {:induction false} JoinSplit(s: string, sep: char)
    ensures Join(Split(s, sep), sep) == s
    decreases |s|
  {
    if sep in s {
      var i := FirstIndex(s, sep);
      var rest := s[i + 1..];
      var head := s[..i];
      assert s == head + [sep] + rest;
      SplitStep(s, sep);
      JoinSplit(rest, sep);
      JoinCons(head, Split(rest, sep), sep);
    }
  }

  /** A text holding the separator splits into the piece before it and the split of the rest. */
  lemma SplitStep(s: string, sep: char)
    requires sep in s
    ensures Split(s, sep) == [s[..FirstIndex(s, sep)]] + Split(s[FirstIndex(s, sep) + 1..], sep)
  {
  }

  /** Joining a first piece before at least one more puts the separator after it. */
  lemma JoinCons(p: string, tail: seq<string>, sep: char)
    requires |tail| >= 1
    ensures Join([p] + tail, sep) == p + [sep] + Join(tail, sep)
  {
    assert ([p] + tail)[1..] == tail;
  }

  /** Splitting a join of separator-free pieces gives back the pieces. */
  lemma {:induction false} SplitJoin(pieces: seq<string>, sep: char)
    requires |pieces| >= 1 && forall k :: 0 <= k < |pieces| ==> sep !in pieces[k]
    ensures Split(Join(pieces, sep), sep) == pieces
  {
    if |pieces| > 1 {
      var p := pieces[0];
      var tail := pieces[1..];
      assert pieces == [p] + tail;
      JoinCons(p, tail, sep);
      var s := p + [sep] + Join(tail, sep);
      assert s[|p|] == sep && s[..|p|] == p && s[|p| + 1..] == Join(tail, sep);
      assert FirstIndex(s, sep) == |p|;
      SplitStep(s, sep);
      SplitJoin(tail, sep);
    }
  }

  /** `s.lstrip(cs)` */
  function StripLeft(s: string, cs: set<char>): (r: string)
    ensures |r| <= |s|
  {
    if |s| == 0 || s[0] !in cs then s else StripLeft(s[1..], cs)
  }

  /** `lstrip` drops the longest prefix made of characters of `cs`. */
  lemma {:induction false} StripLeftCuts(s: string, cs: set<char>)
    ensures var r := StripLeft(s, cs);
      && r == s[|s| - |r|..]
      && (forall k :: 0 <= k < |s| - |r| ==> s[k] in cs)
      && (r == [] || r[0] !in cs)
  {
    if |s| > 0 && s[0] in cs {
      StripLeftCuts(s[1..], cs);
    }
  }

  /** `s.rstrip(cs)` */
  function StripRight(s: string, cs: set<char>): (r: string)
    ensures |r| <= |s|
  {
    if |s| == 0 || s[|s| - 1] !in cs then s else StripRight(s[..|s| - 1], cs)
  }

  /** `rstrip` drops the longest suffix made of characters of `cs`. */
  lemma {:induction false} StripRightCuts(s: string, cs: set<char>)
    ensures var r := StripRight(s, cs);
      && r == s[..|r|]
      && (forall k :: |r| <= k < |s| ==> s[k] in cs)
      && (r == [] || r[|r| - 1] !in cs)
  {
    if |s| > 0 && s[|s| - 1] in cs {
      StripRightCuts(s[..|s| - 1], cs);
      assert s[..|s| - 1][..|StripRight(s, cs)|] == s[..|StripRight(s, cs)|];
    }
  }

  /** `s.strip(cs)`: the text left after dropping characters of `cs` from both ends. */
  function Strip(s: string, cs: set<char>): string
  {
    StripRight(StripLeft(s, cs), cs)
  }

  /** Where the stripped text sits in the original. */
  lemma StripBounds(s: string, cs: set<char>) returns (i: nat, j: nat)
    ensures i <= j <= |s| && Strip(s, cs) == s[i..j]
    ensures (forall k :: 0 <= k < i ==> s[k] in cs) && (forall k :: j <= k < |s| ==> s[k] in cs)
  {
    var l := StripLeft(s, cs);
    StripLeftCuts(s, cs);
    i := |s| - |l|;
    assert l == s[i..];
    var r := StripRight(l, cs);
    StripRightCuts(l, cs);
    j := i + |r|;
    assert r == l[..|r|];
    assert s[i..j] == l[..|r|];
    forall k | j <= k < |s| ensures s[k] in cs {
      assert s[k] == l[k - i];
    }
  }

  /** The stripped text neither starts nor ends with a character of the set. */
  lemma StripEnds(s: string, cs: set<char>)
    ensures Strip(s, cs) == [] || (Strip(s, cs)[0] !in cs && Strip(s, cs)[|Strip(s, cs)| - 1] !in cs)
  {
    var l := StripLeft(s, cs);
    var r := StripRight(l, cs);
    StripLeftCuts(s, cs);
    StripRightCuts(l, cs);
    assert r == [] || r[0] == l[0];
  }

  /**
   * What stripping keeps: a contiguous slice of the text whose ends are not
   * in the set, everything cut off being in the set.
   */
  lemma StripKeepsMiddle(s: string, cs: set<char>)
    ensures exists i, j :: (0 <= i <= j <= |s| && Strip(s, cs) == s[i..j] &&
      (forall k :: 0 <= k < i ==> s[k] in cs) && (forall k :: j <= k < |s| ==> s[k] in cs))
    ensures Strip(s, cs) == [] || (Strip(s, cs)[0] !in cs && Strip(s, cs)[|Strip(s, cs)| - 1] !in cs)
  {
    var i, j := StripBounds(s, cs);
    StripEnds(s, cs);
  }

  /** Stripping twice strips nothing more. */
  lemma StripIdempotent(s: string, cs: set<char>)
    ensures Strip(Strip(s, cs), cs) == Strip(s, cs)
  {
    var t := Strip(s, cs);
    StripKeepsMiddle(s, cs);
    StripLeftCuts(t, cs);
    StripRightCuts(t, cs);
    assert StripLeft(t, cs) == t;
    assert StripRight(t, cs) == t;
  }

  /** The longest prefix free of characters of `cs`. */
  function TakeUntil(s: string, cs: set<char>): (r: string)
    ensures |r| <= |s|
  {
    if |s| == 0 || s[0] in cs then [] else [s[0]] + TakeUntil(s[1..], cs)
  }

  /** The prefix taken is free of `cs` and ends at the text's end or at a character of `cs`. */
  lemma {:induction false} TakeUntilStops(s: string, cs: set<char>)
    ensures var r := TakeUntil(s, cs);
      && r == s[..|r|]
      && (forall k :: 0 <= k < |r| ==> r[k] !in cs)
      && (|r| == |s| || s[|r|] in cs)
  {
    if |s| > 0 && s[0] !in cs {
      TakeUntilStops(s[1..], cs);
    }
  }

  /** `s.split()[0]`: the first whitespace-separated token, or None when `s` is all white space. */
  function FirstToken(s: string): Option<string>
  {
    var l := StripLeft(s, Whitespace);
    if l == [] then None else Some(TakeUntil(l, Whitespace))
  }

  /**
   * There is no token exactly when the text is all white space; a token is
   * non-empty, free of white space, and preceded only by white space.
   */
  lemma FirstTokenIsToken(s: string)
    ensures FirstToken(s).None? <==> forall k :: 0 <= k < |s| ==> s[k] in Whitespace
    ensures FirstToken(s).Some? ==> var t := FirstToken(s).value;
      && |t| > 0 && (forall k :: 0 <= k < |t| ==> t[k] !in Whitespace)
      && exists i :: (OccursAt(s, t, i) && forall k :: 0 <= k < i ==> s[k] in Whitespace)
  {
    var l := StripLeft(s, Whitespace);
    StripLeftCuts(s, Whitespace);
    if l != [] {
      var t := TakeUntil(l, Whitespace);
      TakeUntilStops(l, Whitespace);
      var i := |s| - |l|;
      assert OccursAt(s, t, i);
    }
  }

  /** `key` occurs in `s` at position `i`. */
  predicate OccursAt(s: string, key: string, i: int)
  {
    0 <= i && i + |key| <= |s| && s[i..i + |key|] == key
  }

  /** `s.find(key)`: the first position where `key` occurs in `s`, or -1. */
  function Find(s: string, key: string): (r: int)
    ensures -1 <= r && (r >= 0 ==> r + |key| <= |s|)
  {
    if |s| < |key| then -1
    else if s[..|key|] == key then 0
    else
      var p := Find(s[1..], key);
      if p < 0 then -1 else p + 1
  }

  /** `find` answers the first occurrence of the key, and -1 only when there is none. */
  lemma {:induction false} FindFirst(s: string, key: string)
    ensures Find(s, key) >= 0 ==> OccursAt(s, key, Find(s, key))
    ensures forall i :: 0 <= i < Find(s, key) ==> !OccursAt(s, key, i)
    ensures Find(s, key) == -1 ==> forall i :: !OccursAt(s, key, i)
  {
    if |s| >= |key| && s[..|key|] != key {
      FindFirst(s[1..], key);
      assert !OccursAt(s, key, 0);
      forall i | 1 <= i ensures OccursAt(s, key, i) <==> OccursAt(s[1..], key, i - 1) {
        if i + |key| <= |s| {
          assert s[1..][i - 1..i - 1 + |key|] == s[i..i + |key|];
        }
      }
    }
  }

  /** `key in s` */
  predicate Contains(s: string, key: string)
  {
    Find(s, key) >= 0
  }

  /** The text contains the key exactly when the key occurs somewhere in it. */
  lemma ContainsOccurs(s: string, key: string)
    ensures Contains(s, key) <==> exists i :: OccursAt(s, key, i)
  {
    FindFirst(s, key);
  }

  /** Python's slice `xs[:n]`; a negative `n` counts from the end. */
  function SliceTo<T>(xs: seq<T>, n: int): (r: seq<T>)
    ensures n >= 0 ==> r == xs[..if n <= |xs| then n else |xs|]
    ensures n < 0 ==> r == xs[..if |xs| + n >= 0 then |xs| + n else 0]
  {
    if n >= 0 then (if n <= |xs| then xs[..n] else xs)
    else if |xs| + n >= 0 then xs[..|xs| + n] else []
  }

  /** ASCII lower case, as `lower()` does on a byte string. */
  function LowerChar(c: char): char
  {
    if 'A' <= c <= 'Z' then (c as int - 'A' as int + 'a' as int) as char else c
  }

  function Lower(s: string): (r: string)
    ensures |r| == |s| && forall k :: 0 <= k < |s| ==> r[k] == LowerChar(s[k])
  {
    seq(|s|, k requires 0 <= k < |s| => LowerChar(s[k]))
  }
}
