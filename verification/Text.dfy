/** Sequence counterparts of the Python text methods the edge relies on:
    `partition`, `split`, `join`, `strip`, `rstrip` and `removeprefix`. */
module Text {

  /** `sep` occurs in `s` at index `i`. */
  predicate At<T(==)>(s: seq<T>, sep: seq<T>, i: nat) {
    i + |sep| <= |s| && forall j :: 0 <= j < |sep| ==> s[i + j] == sep[j]
  }

  predicate Contains<T(==)>(s: seq<T>, sep: seq<T>) {
    exists i: nat :: i <= |s| && At(s, sep, i)
  }

  /** The index of the leftmost occurrence of `sep`, or `|s|` when there is none. */
  function Find<T(==)>(s: seq<T>, sep: seq<T>): (r: nat)
    requires sep != []
    ensures r <= |s|
    ensures r < |s| ==> At(s, sep, r)
    ensures forall i: nat :: i < r ==> !At(s, sep, i)
    ensures r == |s| <==> !Contains(s, sep)
  {
    if s == [] then 0
    else if At(s, sep, 0) then 0
    else
      var rest := Find(s[1..], sep);
      assert forall i: nat :: At(s, sep, i + 1) == At(s[1..], sep, i);
      assert forall i: nat :: 0 < i ==> At(s, sep, i) == At(s[1..], sep, i - 1);
      1 + rest
  }

  /** No two positions of the separator hold the same element, so an occurrence
      cannot straddle the end of a piece and the separator that follows it. */
  predicate Distinct<T(==)>(sep: seq<T>) {
    sep != [] && forall i, j :: 0 <= i < j < |sep| ==> sep[i] != sep[j]
  }

  lemma FindAfterPiece<T>(piece: seq<T>, sep: seq<T>, rest: seq<T>)
    requires Distinct(sep) && !Contains(piece, sep)
    ensures Find(piece + sep + rest, sep) == |piece|
  {
    var s := piece + sep + rest;
    assert At(s, sep, |piece|);
    forall i: nat | i < |piece|
      ensures !At(s, sep, i)
    {
      if i + |sep| <= |piece| {
        assert !At(piece, sep, i);
      } else {
        assert s[i + (|piece| - i)] == sep[0] != sep[|piece| - i];
      }
    }
  }

  /** What precedes the leftmost separator is free of it. */
  lemma BeforeFindFree<T>(s: seq<T>, sep: seq<T>)
    requires sep != []
    ensures !Contains(s[..Find(s, sep)], sep)
  {
    var before := s[..Find(s, sep)];
    forall k: nat | k <= |before|
      ensures !At(before, sep, k)
    {
      if k + |sep| <= |before| {
        assert !At(s, sep, k);
      }
    }
  }

  function Split<T(==)>(s: seq<T>, sep: seq<T>): (pieces: seq<seq<T>>)
    requires sep != []
    ensures pieces != []
    decreases |s|
  {
    var i := Find(s, sep);
    if i == |s| then [s] else [s[..i]] + Split(s[i + |sep|..], sep)
  }

  function Join<T>(pieces: seq<seq<T>>, sep: seq<T>): seq<T> {
    if pieces == [] then []
    else if |pieces| == 1 then pieces[0]
    else pieces[0] + sep + Join(pieces[1..], sep)
  }

  ghost predicate AllFree<T>(pieces: seq<seq<T>>, sep: seq<T>) {
    forall i :: 0 <= i < |pieces| ==> !Contains(pieces[i], sep)
  }

  /** A first piece free of the separator splits off. */
  lemma SplitFirst<T>(piece: seq<T>, sep: seq<T>, rest: seq<T>)
    requires Distinct(sep) && !Contains(piece, sep)
    ensures Split(piece + sep + rest, sep) == [piece] + Split(rest, sep)
  {
    FindAfterPiece(piece, sep, rest);
    CutsAfterPiece(piece, sep, rest);
  }

  lemma CutsAfterPiece<T>(piece: seq<T>, sep: seq<T>, rest: seq<T>)
    ensures (piece + sep + rest)[..|piece|] == piece
    ensures (piece + sep + rest)[|piece| + |sep|..] == rest
  {
  }

  lemma {:induction false} SplitOfJoin<T>(pieces: seq<seq<T>>, sep: seq<T>)
    requires Distinct(sep) && pieces != [] && AllFree(pieces, sep)
    ensures Split(Join(pieces, sep), sep) == pieces
  {
    if |pieces| > 1 {
      SplitFirst(pieces[0], sep, Join(pieces[1..], sep));
      SplitOfJoin(pieces[1..], sep);
    }
  }

  lemma {:induction false} JoinOfSplit<T>(s: seq<T>, sep: seq<T>)
    requires sep != []
    ensures Join(Split(s, sep), sep) == s && AllFree(Split(s, sep), sep)
    decreases |s|
  {
    var i := Find(s, sep);
    if i < |s| {
      var rest := s[i + |sep|..];
      JoinOfSplit(rest, sep);
      assert s == s[..i] + sep + rest;
      BeforeFindFree(s, sep);
    }
  }

  /** Joined pieces split back into themselves exactly when none holds the separator. */
  lemma SplitOfJoinExactly<T>(pieces: seq<seq<T>>, sep: seq<T>)
    requires Distinct(sep) && pieces != []
    ensures Split(Join(pieces, sep), sep) == pieces <==> AllFree(pieces, sep)
  {
    JoinOfSplit(Join(pieces, sep), sep);
    if AllFree(pieces, sep) {
      SplitOfJoin(pieces, sep);
    }
  }

  /** Python's whitespace, as `str.strip()` with no argument sees it. */
  predicate IsSpace(c: char) {
    || '\t' <= c <= '\r'
    || '\U{1C}' <= c <= ' '
    || c == '\U{85}' || c == '\U{A0}' || c == '\U{1680}'
    || '\U{2000}' <= c <= '\U{200A}'
    || c == '\U{2028}' || c == '\U{2029}' || c == '\U{202F}' || c == '\U{205F}' || c == '\U{3000}'
  }

  function StripLeft(s: string): string {
    if s != "" && IsSpace(s[0]) then StripLeft(s[1..]) else s
  }

  function StripRight(s: string): string {
    if s != "" && IsSpace(s[|s| - 1]) then StripRight(s[..|s| - 1]) else s
  }

  function Strip(s: string): string {
    StripRight(StripLeft(s))
  }

  predicate Trimmed(s: string) {
    s == "" || (!IsSpace(s[0]) && !IsSpace(s[|s| - 1]))
  }

  /** `r` is `s` with only whitespace taken off its two ends. */
  ghost predicate TrimOf(s: string, r: string) {
    exists i: nat, j: nat :: Cuts(s, r, i, j)
  }

  ghost predicate Cuts(s: string, r: string, i: nat, j: nat) {
    && i <= j <= |s| && r == s[i..j]
    && (forall k :: 0 <= k < i ==> IsSpace(s[k]))
    && (forall k :: j <= k < |s| ==> IsSpace(s[k]))
  }

  lemma {:induction false} StripLeftCuts(s: string) returns (i: nat)
    ensures i <= |s| && StripLeft(s) == s[i..]
    ensures forall k :: 0 <= k < i ==> IsSpace(s[k])
    ensures i < |s| ==> !IsSpace(s[i])
  {
    if s != "" && IsSpace(s[0]) {
      var n := StripLeftCuts(s[1..]);
      i := n + 1;
      forall k | 0 <= k < i
        ensures IsSpace(s[k])
      {
        if k > 0 { assert s[k] == s[1..][k - 1]; }
      }
    } else {
      i := 0;
    }
  }

  lemma {:induction false} StripRightCuts(s: string) returns (j: nat)
    ensures j <= |s| && StripRight(s) == s[..j]
    ensures forall k :: j <= k < |s| ==> IsSpace(s[k])
    ensures j > 0 ==> !IsSpace(s[j - 1])
  {
    if s != "" && IsSpace(s[|s| - 1]) {
      j := StripRightCuts(s[..|s| - 1]);
    } else {
      j := |s|;
    }
  }

  /** `strip` removes exactly the whitespace at both ends. */
  lemma StripMeaning(s: string)
    ensures Trimmed(Strip(s)) && TrimOf(s, Strip(s))
    ensures Trimmed(s) ==> Strip(s) == s
  {
    var i := StripLeftCuts(s);
    var m := s[i..];
    var n := StripRightCuts(m);
    assert m[..n] == s[i..i + n];
    if n > 0 {
      assert m[0] == s[i];
    }
    assert forall k :: i + n <= k < |s| ==> s[k] == m[k - i];
    assert Cuts(s, Strip(s), i, i + n);
  }

  /** A text of nothing but blanks, tabs and line ends. */
  predicate IsBlank(s: string) {
    forall i :: 0 <= i < |s| ==> s[i] in {' ', '\t', '\n', '\r'}
  }

  /** Blanks around a text that starts and ends with a visible ASCII character are
      stripped, and nothing of the text is. */
  lemma StripsBlanks(before: string, core: string, after: string)
    requires IsBlank(before) && IsBlank(after)
    requires core != "" ==> '!' <= core[0] <= '~' && '!' <= core[|core| - 1] <= '~'
    ensures Strip(before + core + after) == core
  {
    if core == "" {
      StripsAllBlank(before + core + after);
    } else {
      StripsLeft(before, core + after);
      assert before + (core + after) == before + core + after;
      StripsRight(core, after);
    }
  }

  lemma {:induction false} StripsLeft(before: string, rest: string)
    requires IsBlank(before) && (rest != "" ==> !IsSpace(rest[0]))
    ensures StripLeft(before + rest) == rest
  {
    if before == "" {
      assert before + rest == rest;
    } else {
      assert (before + rest)[1..] == before[1..] + rest;
      StripsLeft(before[1..], rest);
    }
  }

  lemma {:induction false} StripsRight(core: string, after: string)
    requires IsBlank(after) && (core != "" ==> !IsSpace(core[|core| - 1]))
    ensures StripRight(core + after) == core
  {
    if after == "" {
      assert core + after == core;
    } else {
      assert (core + after)[..|core + after| - 1] == core + after[..|after| - 1];
      StripsRight(core, after[..|after| - 1]);
    }
  }

  lemma StripsAllBlank(s: string)
    requires IsBlank(s)
    ensures Strip(s) == ""
  {
    StripsLeft(s, "");
    assert s + "" == s;
  }

  /** A piece of a text free of `sep` is free of `sep`. */
  lemma SliceFree<T>(s: seq<T>, sep: seq<T>, i: nat, j: nat)
    requires i <= j <= |s| && !Contains(s, sep)
    ensures !Contains(s[i..j], sep)
  {
    var piece := s[i..j];
    forall k: nat | k <= |piece|
      ensures !At(piece, sep, k)
    {
      if k + |sep| <= |piece| {
        assert !At(s, sep, i + k);
      }
    }
  }

  /** `str.removeprefix`. */
  function RemovePrefix(s: string, prefix: string): string {
    if prefix <= s then s[|prefix|..] else s
  }
}
