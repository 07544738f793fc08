/**
  The chronometer that times a run, reduced to what the run session relies on.

  The device clock is an integer number of milliseconds that the caller passes to
  every operation. A chronometer has a base instant on that clock, a flag saying
  whether it is counting (and so delivering ticks), and the reading it shows while
  it is not counting. The model assumes two things about it: while counting, its
  reading at clock value `now` is `now - base`; while stopped, the reading stays
  where it was when it stopped (zero before it was ever started).
 */
module Chronometer {

  datatype Chrono = Chrono(base: int, ticking: bool, shown: int)

  /** A chronometer that has never been started: stopped, reading zero. */
  const Fresh: Chrono := Chrono(0, false, 0)

  /** The elapsed time, in ms, the chronometer reports at clock value `now`. */
  function Elapsed(c: Chrono, now: int): int
  {
    if c.ticking then now - c.base else c.shown
  }

  /** `setBase(base)` followed by `start()`: the reading is now measured from `base`. */
  function Started(c: Chrono, base: int): (r: Chrono)
    ensures r.ticking
    ensures forall now :: Elapsed(r, now) == now - base
  {
    c.(base := base, ticking := true)
  }

  /** `stop()` at clock value `now`: the base is kept and the reading freezes. */
  function Stopped(c: Chrono, now: int): (r: Chrono)
    ensures !r.ticking && r.base == c.base
    ensures forall t :: Elapsed(r, t) == Elapsed(c, now)
    ensures !c.ticking ==> r == c
  {
    if c.ticking then c.(ticking := false, shown := now - c.base) else c
  }
}
