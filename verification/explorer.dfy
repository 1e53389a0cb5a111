/** The `NeuralFieldExplorer` object: three n x n field grids that each step
    replaces, the fixed constants, and the rolling energy-flow history. */
module Explorer {
  import opened Grids
  import opened Integrator
  import opened History

  /** Why construction fails: numpy's `zeros` refuses a negative dimension
      (ValueError), and a 0 x 0 grid has no centre cell to set (IndexError). */
  datatype ConfigError = NegativeDimension | NoCentreCell

  class NeuralFieldExplorer {
    const size: nat
    const timeDepth: nat
    const dt: real := Dt
    const dx: real := Dx
    const dy: real := Dy
    const c: real := C
    const alpha: real := Alpha
    const beta: real := Beta
    var u: Grid
    var v: Grid
    var phi: Grid
    const history: FrameHistory

    /** The grids share the n x n shape, the history holds `timeDepth` frames of
        that shape, and `phi` is the displacement minus the initial impulse. */
    ghost predicate Valid()
      reads this, history, history.frames
    {
      && size > 0
      && Shaped(Fields(u, v, phi), size)
      && TracksImpulse(Fields(u, v, phi), size)
      && history.Valid() && history.depth == timeDepth && history.size == size
    }

    /** `__init__`: the central impulse, zero velocity and potential, and
        `timeDepth` all-zero history frames. */
    constructor (size: nat, timeDepth: nat)
      requires size > 0
      ensures Valid() && fresh(history) && fresh(history.frames)
      ensures this.size == size && this.timeDepth == timeDepth
      ensures dt == 0.1 && dx == 1.0 && dy == 1.0 && c == 1.0 && alpha == 0.05 && beta == 0.02
      ensures Fields(u, v, phi) == Initial(size)
      ensures history.Contents() == seq(timeDepth, _ => Zero(size))
    {
      this.size, this.timeDepth := size, timeDepth;
      history := new FrameHistory(timeDepth, size);
      u, v, phi := Impulse(size), Zero(size), Zero(size);
      new;
      InitialTracksImpulse(size);
    }

    /** Construction from arbitrary integer arguments, with the failures numpy raises:
        a negative dimension first, then a zero size at the centre assignment. */
    static method Create(size: int, timeDepth: int) returns (r: Result<NeuralFieldExplorer, ConfigError>)
      ensures r.Failure? <==> size <= 0 || timeDepth < 0
      ensures r.Failure? ==> r.error == if size < 0 || timeDepth < 0 then NegativeDimension else NoCentreCell
      ensures r.Success? ==> && fresh(r.value) && fresh(r.value.history) && fresh(r.value.history.frames) && r.value.Valid()
                             && r.value.size == size && r.value.timeDepth == timeDepth
                             && Fields(r.value.u, r.value.v, r.value.phi) == Initial(size)
                             && r.value.history.Contents() == seq(timeDepth, _ => Zero(size))
    {
      if size < 0 || timeDepth < 0 {
        return Failure(NegativeDimension);
      }
      if size == 0 {
        return Failure(NoCentreCell);
      }
      var e := new NeuralFieldExplorer(size, timeDepth);
      return Success(e);
    }

    /** `update_fields` with the noise draw passed in: all three grids are replaced
        by one step; the constants and the history stay as they were. */
    method UpdateFields(noise: Grid)
      requires Valid() && IsGrid(noise, size)
      modifies this
      ensures Valid()
      ensures Fields(u, v, phi) == Step(old(Fields(u, v, phi)), noise, size)
      ensures history.Contents() == old(history.Contents())
    {
      var f := Step(Fields(u, v, phi), noise, size);
      StepPreservesTracking(Fields(u, v, phi), noise, size);
      u, v, phi := f.u, f.v, f.phi;
    }

    /** `update_history`: the oldest frame is dropped and `frame` appended. With a
        zero time depth the source fails with an IndexError; `ok` is then false and
        nothing changes. The fields are untouched either way. */
    method UpdateHistory(frame: Grid) returns (ok: bool)
      requires Valid() && IsGrid(frame, size)
      modifies history, history.frames
      ensures Valid()
      ensures ok == (timeDepth > 0)
      ensures ok ==> history.Contents() == ShiftThenWrite(old(history.Contents()), frame)
      ensures !ok ==> history.Contents() == old(history.Contents())
      ensures u == old(u) && v == old(v) && phi == old(phi)
    {
      ok := history.Push(frame);
    }
  }
}
