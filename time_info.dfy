/**
 * Frame time: the timestamp of the current frame and the time elapsed since
 * the previous one.
 */
module Timing {

  /** The sum of a series of time steps. */
  function Sum(s: seq<real>): real
  {
    if s == [] then 0.0 else Sum(s[..|s| - 1]) + s[|s| - 1]
  }

  /** The latest of a series of timestamps, `start` when there is none. */
  function Latest(start: real, vs: seq<real>): real
  {
    if vs == [] then start else vs[|vs| - 1]
  }

  /** The step each timestamp of `vs` makes from the one before it, the first from `start`. */
  function Deltas(start: real, vs: seq<real>): (r: seq<real>)
    ensures |r| == |vs|
  {
    if vs == [] then []
    else Deltas(start, vs[..|vs| - 1]) + [vs[|vs| - 1] - Latest(start, vs[..|vs| - 1])]
  }

  /** The steps telescope: together they span from `start` to the latest timestamp. */
  lemma {:induction false} DeltasTelescope(start: real, vs: seq<real>)
    ensures Sum(Deltas(start, vs)) == Latest(start, vs) - start
  {
    if vs != [] {
      var p := vs[..|vs| - 1];
      DeltasTelescope(start, p);
      var d := Deltas(start, vs);
      assert d[..|d| - 1] == Deltas(start, p);
    }
  }

  /** `TimeInfo`: `current` is the frame timestamp, `delta` the step that led to it. */
  class TimeInfo {
    var current: real
    var delta: real
    /** Every timestamp set so far, oldest first. */
    ghost var history: seq<real>

    /** `current` is the last timestamp set (0 at first) and `delta` the last step (0 at first). */
    ghost predicate Valid()
      reads this
    {
      && current == Latest(0.0, history)
      && delta == (if history == [] then 0.0 else Deltas(0.0, history)[|history| - 1])
    }

    constructor ()
      ensures Valid() && history == []
      ensures current == 0.0 && delta == 0.0
    {
      current := 0.0;
      delta := 0.0;
      history := [];
    }

    /** The `current` getter. */
    method GetCurrent() returns (r: real)
      requires Valid()
      ensures r == Latest(0.0, history)
    {
      r := current;
    }

    /** The `delta` getter. */
    method GetDelta() returns (r: real)
      requires Valid()
      ensures history == [] ==> r == 0.0
      ensures history != [] ==> r == history[|history| - 1] - Latest(0.0, history[..|history| - 1])
    {
      r := delta;
      if history != [] {
        assert Deltas(0.0, history)[|history| - 1] == history[|history| - 1] - Latest(0.0, history[..|history| - 1]);
      }
    }

    /** The `current` setter: the step from the previous timestamp is recorded, then the timestamp. */
    method SetCurrent(value: real)
      requires Valid()
      modifies this
      ensures Valid()
      ensures history == old(history) + [value]
      ensures delta == value - old(current) && current == value
    {
      delta := value - current;
      current := value;
      history := history + [value];
      assert history[..|history| - 1] == old(history);
    }
  }

  /** In every reachable state `current` is the sum of every `delta` produced so far. */
  lemma CurrentIsSumOfDeltas(t: TimeInfo)
    requires t.Valid()
    ensures t.current == Sum(Deltas(0.0, t.history))
  {
    DeltasTelescope(0.0, t.history);
  }
}
