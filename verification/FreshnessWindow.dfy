/** Selection of the ticks refreshed on every block: those within a price band around the current tick,
    its bounds snapped outward to the tick spacing. The two logarithmic deltas are parameters. */
module FreshnessWindow {
  import opened Arithmetic
  import opened TickLists

  function FloorToSpacing(v: int, spacing: int): int {
    if spacing <= 0 then v
    else
      var rem := Rem(v, spacing);
      if rem == 0 then v else if v >= 0 then v - rem else v - rem - spacing
  }

  function CeilToSpacing(v: int, spacing: int): int {
    if spacing <= 0 then v
    else
      var rem := Rem(v, spacing);
      if rem == 0 then v else if v >= 0 then v - rem + spacing else v - rem
  }

  /** The snapped bounds are the nearest multiples on either side, for negative ticks too. */
  lemma SnapsOutward(v: int, spacing: int)
    requires spacing > 0
    ensures var f := FloorToSpacing(v, spacing); f % spacing == 0 && v - spacing < f <= v
    ensures var c := CeilToSpacing(v, spacing); c % spacing == 0 && v <= c < v + spacing
  {
    hide Quo;
    QuoRange(v, spacing);
    var q := Quo(v, spacing);
    assert (q - 1) * spacing == q * spacing - spacing && (q + 1) * spacing == q * spacing + spacing;
    MultipleOf(q, spacing);
    MultipleOf(q - 1, spacing);
    MultipleOf(q + 1, spacing);
  }

  ghost predicate Within(t: Tick, lower: int, upper: int) {
    lower <= t.index <= upper
  }

  /** The indexes of the ticks within the bounds, in list order. */
  ghost function InBand(s: seq<Tick>, lower: int, upper: int): seq<int> {
    if s == [] then []
    else InBand(s[..|s| - 1], lower, upper) + if Within(s[|s| - 1], lower, upper) then [s[|s| - 1].index] else []
  }

  /** The ticks within the band whose bounds are snapped outward. */
  ghost function Window(s: seq<Tick>, currentTick: int, spacing: nat, lowerDelta: nat, upperDelta: nat): seq<int> {
    InBand(s, FloorToSpacing(currentTick - lowerDelta, spacing), CeilToSpacing(currentTick + upperDelta, spacing))
  }

  method Select(currentTick: int, spacing: nat, ticks: seq<Tick>, percent: nat, lowerDelta: nat, upperDelta: nat)
    returns (out: seq<int>)
    requires Ordered(ticks)
    ensures spacing == 0 ==> out == []
    ensures spacing > 0 && percent > 0 ==>
      out == Window(ticks, currentTick, spacing, lowerDelta, upperDelta)
    ensures spacing > 0 && percent == 0 ==> Neighbours(ticks, currentTick, out)
  {
    hide InBand, Position, FloorToSpacing, CeilToSpacing, Neighbours;
    if |ticks| == 0 || spacing == 0 {
      NothingToSelect(ticks, currentTick, spacing, lowerDelta, upperDelta);
      return [];
    }
    if percent == 0 {
      out := NearestTicks(ticks, currentTick);
      return;
    }
    var lower := FloorToSpacing(currentTick - lowerDelta, spacing);
    var upper := CeilToSpacing(currentTick + upperDelta, spacing);
    var left := SearchIndex(ticks, lower);
    var right := SearchIndex(ticks, upper + 1);
    BandIsSlice(ticks, lower, upper);
    if left >= right {
      return [];
    }
    out := [];
    for i := left to right
      invariant |out| == i - left
      invariant forall k :: 0 <= k < |out| ==> out[k] == ticks[left + k].index
    {
      out := out + [ticks[i].index];
    }
    assert out == Indexes(ticks, left, right);
  }

  lemma NothingToSelect(ticks: seq<Tick>, currentTick: int, spacing: nat, lowerDelta: nat, upperDelta: nat)
    requires ticks == [] || spacing == 0
    ensures spacing > 0 ==>
      Window(ticks, currentTick, spacing, lowerDelta, upperDelta) == []
    ensures spacing > 0 ==> Neighbours(ticks, currentTick, [])
  {
  }

  ghost function Indexes(s: seq<Tick>, from: int, to: int): (r: seq<int>)
    requires 0 <= from <= to <= |s|
    ensures |r| == to - from && forall k :: 0 <= k < |r| ==> r[k] == s[from + k].index
  {
    seq(to - from, k requires 0 <= k < to - from => s[from + k].index)
  }

  lemma {:induction false} BandBelow(s: seq<Tick>, lower: int, upper: int, n: nat)
    requires n <= |s| && forall i :: 0 <= i < n ==> s[i].index < lower
    ensures InBand(s[..n], lower, upper) == []
  {
    if n > 0 {
      BandBelow(s, lower, upper, n - 1);
      assert s[..n][..n - 1] == s[..n - 1];
    }
  }

  lemma {:induction false} BandInside(s: seq<Tick>, lower: int, upper: int, left: nat, n: nat)
    requires left <= n <= |s| && InBand(s[..left], lower, upper) == []
    requires forall i :: left <= i < n ==> Within(s[i], lower, upper)
    ensures InBand(s[..n], lower, upper) == Indexes(s, left, n)
  {
    if n > left {
      BandInside(s, lower, upper, left, n - 1);
      assert s[..n][..n - 1] == s[..n - 1];
    }
  }

  lemma {:induction false} BandAbove(s: seq<Tick>, lower: int, upper: int, m: nat, n: nat)
    requires m <= n <= |s| && forall i :: m <= i < n ==> s[i].index > upper
    ensures InBand(s[..n], lower, upper) == InBand(s[..m], lower, upper)
  {
    if n > m {
      BandAbove(s, lower, upper, m, n - 1);
      assert s[..n][..n - 1] == s[..n - 1];
    }
  }

  lemma PositionSplits(s: seq<Tick>, x: int)
    requires Ordered(s)
    ensures forall i :: 0 <= i < |s| ==> (s[i].index < x <==> i < Position(s, x))
  {
    hide Position;
    var k := Position(s, x);
    assert forall i :: k <= i < |s| ==> s[k].index <= s[i].index;
  }

  /** On a sorted list the band is one contiguous slice, cut by two binary searches. */
  lemma BandIsSlice(s: seq<Tick>, lower: int, upper: int)
    requires Ordered(s)
    ensures var left, right := Position(s, lower), Position(s, upper + 1);
            InBand(s, lower, upper) == if left >= right then [] else Indexes(s, left, right)
  {
    hide Position, InBand, Ordered;
    var left, right := Position(s, lower), Position(s, upper + 1);
    PositionSplits(s, lower);
    PositionSplits(s, upper + 1);
    assert s[..|s|] == s;
    BandBelow(s, lower, upper, left);
    if left < right {
      BandInside(s, lower, upper, left, right);
      BandAbove(s, lower, upper, right, |s|);
    } else {
      BandAbove(s, lower, upper, left, |s|);
    }
  }

  /** `y` is an initialized tick with no other strictly between it and the current one. */
  ghost predicate Nearest(ticks: seq<Tick>, currentTick: int, y: int) {
    && (exists i :: 0 <= i < |ticks| && ticks[i].index == y)
    && (forall i :: 0 <= i < |ticks| ==> !(y < ticks[i].index < currentTick) && !(currentTick < ticks[i].index < y))
  }

  /** The current tick alone if it is initialized; otherwise exactly the nearest tick on each side, ascending. */
  ghost predicate Neighbours(ticks: seq<Tick>, currentTick: int, out: seq<int>) {
    if exists i :: 0 <= i < |ticks| && ticks[i].index == currentTick then out == [currentTick]
    else
      && (forall y :: y in out <==> Nearest(ticks, currentTick, y))
      && (forall j, k :: 0 <= j < k < |out| ==> out[j] < out[k])
  }

  method NearestTicks(ticks: seq<Tick>, currentTick: int) returns (out: seq<int>)
    requires Ordered(ticks) && ticks != []
    ensures Neighbours(ticks, currentTick, out)
  {
    var idx := SearchIndex(ticks, currentTick);
    if idx == 0 {
      out := [ticks[0].index];
    } else if idx == |ticks| {
      out := [ticks[|ticks| - 1].index];
    } else if ticks[idx].index == currentTick {
      out := [ticks[idx].index];
    } else {
      out := [ticks[idx - 1].index, ticks[idx].index];
    }
    NearestAre(ticks, currentTick, idx, out);
  }

  lemma NearestAre(ticks: seq<Tick>, currentTick: int, idx: nat, out: seq<int>)
    requires Ordered(ticks) && ticks != [] && idx == Position(ticks, currentTick)
    requires out == if idx == 0 then [ticks[0].index] else if idx == |ticks| then [ticks[|ticks| - 1].index]
                    else if ticks[idx].index == currentTick then [currentTick]
                    else [ticks[idx - 1].index, ticks[idx].index]
    ensures Neighbours(ticks, currentTick, out)
  {
    hide Position;
    PositionSplits(ticks, currentTick);
    if i :| 0 <= i < |ticks| && ticks[i].index == currentTick {
      assert ticks[idx].index <= ticks[i].index;
    } else {
      forall y ensures y in out <==> Nearest(ticks, currentTick, y) {
        NearestIs(ticks, currentTick, idx, y);
      }
    }
  }

  /** Around a gap the nearest ticks are the ones next to it. */
  lemma NearestIs(ticks: seq<Tick>, currentTick: int, idx: nat, y: int)
    requires Ordered(ticks) && idx <= |ticks|
    requires forall i :: 0 <= i < |ticks| ==> ticks[i].index != currentTick
    requires forall i :: 0 <= i < |ticks| ==> (ticks[i].index < currentTick <==> i < idx)
    ensures Nearest(ticks, currentTick, y) <==>
            || (idx > 0 && y == ticks[idx - 1].index)
            || (idx < |ticks| && y == ticks[idx].index)
  {
    if idx > 0 { assert forall i :: 0 <= i < idx ==> ticks[i].index <= ticks[idx - 1].index; }
    if idx < |ticks| { assert forall i :: idx <= i < |ticks| ==> ticks[idx].index <= ticks[i].index; }
  }

  lemma {:induction false} InBandMembers(s: seq<Tick>, lower: int, upper: int, i: nat)
    requires i < |s| && Within(s[i], lower, upper)
    ensures s[i].index in InBand(s, lower, upper)
  {
    var n := |s| - 1;
    if i < n {
      InBandMembers(s[..n], lower, upper, i);
    } else {
      var r := InBand(s, lower, upper);
      assert r[|r| - 1] == s[n].index;
    }
  }

  lemma {:induction false} InBandBounded(s: seq<Tick>, lower: int, upper: int, x: int)
    requires x in InBand(s, lower, upper)
    ensures lower <= x <= upper && exists i :: 0 <= i < |s| && s[i].index == x
  {
    var n := |s| - 1;
    if !(Within(s[n], lower, upper) && s[n].index == x) {
      InBandBounded(s[..n], lower, upper, x);
    }
  }

  /** The snapped window holds every tick of the exact band and none a full spacing or more outside it. */
  lemma WindowCoversBand(ticks: seq<Tick>, currentTick: int, spacing: nat, lowerDelta: nat, upperDelta: nat)
    requires spacing > 0
    ensures var out := Window(ticks, currentTick, spacing, lowerDelta, upperDelta);
            var lower, upper := currentTick - lowerDelta, currentTick + upperDelta;
            && (forall i :: 0 <= i < |ticks| && Within(ticks[i], lower, upper) ==> ticks[i].index in out)
            && (forall x :: x in out ==> lower - spacing < x < upper + spacing)
  {
    var lower, upper := currentTick - lowerDelta, currentTick + upperDelta;
    SnapsOutward(lower, spacing);
    SnapsOutward(upper, spacing);
    var lo, hi := FloorToSpacing(lower, spacing), CeilToSpacing(upper, spacing);
    forall i: nat | i < |ticks| && Within(ticks[i], lower, upper) ensures ticks[i].index in InBand(ticks, lo, hi) {
      InBandMembers(ticks, lo, hi, i);
    }
    forall x | x in InBand(ticks, lo, hi) ensures lower - spacing < x < upper + spacing {
      InBandBounded(ticks, lo, hi, x);
    }
  }
}
