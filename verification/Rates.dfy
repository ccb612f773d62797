/** Events on a clock: a minimum gap between any two bounds how many a window holds. */
module Rates {

  /** In order of time, any two of them at least `gap` apart. */
  ghost predicate Spaced(times: seq<real>, gap: real) {
    forall i, j :: 0 <= i < j < |times| ==> times[j] - times[i] >= gap
  }

  /** One more event, at least `gap` after the last, keeps the spacing. */
  lemma SpacedAppend(times: seq<real>, gap: real, t: real)
    requires gap >= 0.0 && Spaced(times, gap) && (times != [] ==> t - times[|times| - 1] >= gap)
    ensures Spaced(times + [t], gap)
  {
    forall i | 0 <= i < |times|
      ensures t - times[i] >= gap
    {
      assert i < |times| - 1 ==> times[|times| - 1] - times[i] >= gap;
    }
  }

  /** The events from `lo` to `hi`, both included. */
  function Within(times: seq<real>, lo: real, hi: real): (ws: seq<real>)
    ensures forall i :: 0 <= i < |ws| ==> lo <= ws[i] <= hi && ws[i] in times
    ensures forall x | lo <= x <= hi :: multiset(ws)[x] == multiset(times)[x]
  {
    if times == [] then []
    else
      var last := times[|times| - 1];
      assert times == times[..|times| - 1] + [last];
      Within(times[..|times| - 1], lo, hi) + if lo <= last <= hi then [last] else []
  }

  lemma {:induction false} WithinSpaced(times: seq<real>, gap: real, lo: real, hi: real)
    requires Spaced(times, gap)
    ensures Spaced(Within(times, lo, hi), gap)
  {
    if times != [] {
      var init, last := times[..|times| - 1], times[|times| - 1];
      WithinSpaced(init, gap, lo, hi);
      forall x | x in Within(init, lo, hi)
        ensures last - x >= gap
      {
        var k :| 0 <= k < |init| && init[k] == x;
        assert times[k] == x;
      }
    }
  }

  lemma {:induction false} SpacedSpan(times: seq<real>, gap: real)
    requires Spaced(times, gap) && times != []
    ensures times[|times| - 1] - times[0] >= gap * (|times| - 1) as real
  {
    if |times| > 1 {
      var init := times[..|times| - 1];
      SpacedSpan(init, gap);
      assert times[|times| - 1] - times[|times| - 2] >= gap;
      assert gap * (|times| - 1) as real == gap * (|times| - 2) as real + gap;
    }
  }

  /** At most `(hi - lo) / gap + 1` of them fall between `lo` and `hi`. */
  lemma WindowBound(times: seq<real>, gap: real, lo: real, hi: real)
    requires gap > 0.0 && Spaced(times, gap) && lo <= hi
    ensures gap * (|Within(times, lo, hi)| - 1) as real <= hi - lo
  {
    WithinSpaced(times, gap, lo, hi);
    SpanFits(Within(times, lo, hi), gap, lo, hi);
  }

  lemma SpanFits(ws: seq<real>, gap: real, lo: real, hi: real)
    requires gap > 0.0 && lo <= hi && Spaced(ws, gap) && forall i :: 0 <= i < |ws| ==> lo <= ws[i] <= hi
    ensures gap * (|ws| - 1) as real <= hi - lo
  {
    if ws == [] {
      assert gap * -1.0 == -gap;
    } else {
      SpacedSpan(ws, gap);
      assert ws[|ws| - 1] - ws[0] <= hi - lo;
    }
  }
}
