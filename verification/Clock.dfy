/** The `timeval` arithmetic of the event loop: the three macros of ril_event.cpp and
    the conversion done by getNow, with their meaning as a count of microseconds. */
module Clock {

  const USEC_PER_SEC: int := 1000000

  datatype Timeval = Timeval(sec: int, usec: int)

  /** The form in which the kernel and getNow deliver a time. */
  predicate Normal(t: Timeval) {
    0 <= t.usec < USEC_PER_SEC
  }

  /** A normal time. */
  type Time = t: Timeval | Normal(t) witness Timeval(0, 0)

  function Micros(t: Timeval): int {
    t.sec * USEC_PER_SEC + t.usec
  }

  /** getNow: a monotonic timespec cut to microseconds. */
  function FromTimespec(sec: int, nsec: nat): (t: Timeval)
    requires nsec < 1000000000
    ensures Normal(t)
    ensures 0 <= sec * 1000000000 + nsec - 1000 * Micros(t) < 1000
  {
    Timeval(sec, nsec / 1000)
  }

  /** timeradd: one carry is enough when both operands are normal. */
  function TimerAdd(a: Timeval, b: Timeval): (r: Timeval)
    ensures Micros(r) == Micros(a) + Micros(b)
    ensures Normal(a) && Normal(b) ==> Normal(r)
  {
    var sec, usec := a.sec + b.sec, a.usec + b.usec;
    if usec >= USEC_PER_SEC then Timeval(sec + 1, usec - USEC_PER_SEC) else Timeval(sec, usec)
  }

  /** timersub: one borrow is enough when both operands are normal. */
  function TimerSub(a: Timeval, b: Timeval): (r: Timeval)
    ensures Micros(r) == Micros(a) - Micros(b)
    ensures Normal(a) && Normal(b) ==> Normal(r)
  {
    var sec, usec := a.sec - b.sec, a.usec - b.usec;
    if usec < 0 then Timeval(sec - 1, usec + USEC_PER_SEC) else Timeval(sec, usec)
  }

  /** timercmp with `<`: field by field, so it is the order of microseconds exactly on
      normal times. */
  predicate TimerLess(a: Timeval, b: Timeval)
    ensures Normal(a) && Normal(b) ==> (TimerLess(a, b) <==> Micros(a) < Micros(b))
  {
    if a.sec == b.sec then a.usec < b.usec else a.sec < b.sec
  }
}
