/** The rolling energy-flow history of `update_history`: a fixed number of frames,
    oldest first, where each push drops the oldest frame and appends the new one. */
module History {
  import opened Grids

  /** The source's update: `np.roll(h, -1, axis=0)`, then `h[-1] = frame`. */
  function ShiftThenWrite(h: seq<Grid>, frame: Grid): (r: seq<Grid>)
    requires |h| > 0
    ensures |r| == |h|
  {
    Roll(h, -1)[|h| - 1 := frame]
  }

  /** The shift-then-write update is a FIFO step: the length stays the same, old
      frame k + 1 moves to position k and the new frame is last. */
  lemma ShiftThenWriteIsFifo(h: seq<Grid>, frame: Grid)
    requires |h| > 0
    ensures ShiftThenWrite(h, frame) == h[1..] + [frame]
  {
    RollLeftRotates(h);
  }

  /** The history after pushing `frames` in order. */
  function PushAll(h: seq<Grid>, frames: seq<Grid>): (r: seq<Grid>)
    requires |h| > 0
    ensures |r| == |h|
    decreases |frames|
  {
    if frames == [] then h else PushAll(ShiftThenWrite(h, frames[0]), frames[1..])
  }

  /** Pushing keeps the last `|h|` frames of the initial history followed by
      everything pushed. */
  lemma {:induction false} PushAllKeepsLatest(h: seq<Grid>, frames: seq<Grid>)
    requires |h| > 0
    ensures PushAll(h, frames) == (h + frames)[|frames|..]
    decreases |frames|
  {
    if frames != [] {
      var h', all := ShiftThenWrite(h, frames[0]), h + frames;
      ShiftThenWriteIsFifo(h, frames[0]);
      PushAllKeepsLatest(h', frames[1..]);
      assert h' + frames[1..] == all[1..];
      assert all[1..][|frames| - 1..] == all[|frames|..];
    }
  }

  /** After at least `|h|` pushes the history holds exactly the last `|h|` pushed
      frames, oldest first, so the oldest retained frame is push number
      `|frames| - |h| + 1` counting from one. */
  lemma {:induction false} HistoryHoldsLastPushes(h: seq<Grid>, frames: seq<Grid>)
    requires |h| > 0 && |frames| >= |h|
    ensures PushAll(h, frames) == frames[|frames| - |h|..]
    ensures PushAll(h, frames)[0] == frames[|frames| - |h|]
  {
    PushAllKeepsLatest(h, frames);
    assert (h + frames)[|frames|..] == frames[|frames| - |h|..];
  }

  /** The history as a ring buffer: `frames[oldest]` is the oldest frame and the
      rest follow cyclically, so a push overwrites one slot instead of moving all. */
  class FrameHistory {
    const depth: nat
    const size: nat
    const frames: array<Grid>
    var oldest: nat

    ghost predicate Valid()
      reads this, frames
    {
      && frames.Length == depth
      && (if depth == 0 then oldest == 0 else oldest < depth)
      && forall k :: 0 <= k < depth ==> IsGrid(frames[k], size)
    }

    /** The frames oldest first, as the source's `energy_flow_history` holds them. */
    ghost function Contents(): (s: seq<Grid>)
      reads this, frames
      requires Valid()
      ensures |s| == depth
    {
      frames[oldest..] + frames[..oldest]
    }

    /** `np.zeros((time_depth, size, size))`: `depth` all-zero frames. */
    constructor (depth: nat, size: nat)
      ensures Valid() && fresh(frames)
      ensures this.depth == depth && this.size == size
      ensures Contents() == seq(depth, _ => Zero(size))
    {
      this.depth, this.size := depth, size;
      frames := new Grid[depth](_ => Zero(size));
      oldest := 0;
      new;
      assert frames[..] == seq(depth, _ => Zero(size));
    }

    /** Drops the oldest frame and appends `frame`. With no slots the source fails
        with an IndexError at `h[-1]`: `ok` is false and nothing changes. */
    method Push(frame: Grid) returns (ok: bool)
      requires Valid() && IsGrid(frame, size)
      modifies this, frames
      ensures Valid()
      ensures ok == (depth > 0)
      ensures ok ==> Contents() == ShiftThenWrite(old(Contents()), frame)
      ensures !ok ==> Contents() == old(Contents())
    {
      if depth == 0 {
        return false;
      }
      ghost var before, a, o := Contents(), frames[..], oldest;
      assert before[1..] == a[o + 1..] + a[..o];
      frames[oldest] := frame;
      assert frames[..] == a[o := frame];
      assert frames[o + 1..] == a[o + 1..] && frames[..o + 1] == a[..o] + [frame];
      oldest := if oldest + 1 == depth then 0 else oldest + 1;
      ok := true;
      ShiftThenWriteIsFifo(before, frame);
      if o + 1 == depth {
        assert Contents() == frames[..o + 1];
      } else {
        assert Contents() == frames[o + 1..] + frames[..o + 1];
      }
    }

    /** The frames oldest first, read out of the ring in order. */
    method Snapshot() returns (volume: seq<Grid>)
      requires Valid()
      ensures volume == Contents()
      ensures forall t :: 0 <= t < |volume| ==> IsGrid(volume[t], size)
    {
      volume := [];
      var k := 0;
      while k < depth
        invariant 0 <= k <= depth
        invariant volume == Contents()[..k]
      {
        var slot := if oldest + k < depth then oldest + k else oldest + k - depth;
        volume := volume + [frames[slot]];
        k := k + 1;
      }
    }
  }
}
