/** Schedules and one attempt to take the next firing of a device-job
    (model/schedule.go:10-14; controller/scheduler.go:82-102). Instants are nanoseconds. */
module Schedules {
  import opened Prelude

  const SECOND: int := 1_000_000_000

  /** What the scheduler uses of a schedule: the instant after a given one. */
  datatype Schedule = Schedule(next: int -> Option<int>)

  ghost predicate Fires(schedule: Schedule, t: int) {
    schedule.next(t - 1) == Some(t)
  }

  /** The "Exclusive" contract of Next: the least firing strictly after the start, if any. */
  ghost predicate Lawful(schedule: Schedule) {
    forall start :: NextIsLeast(schedule, start)
  }

  ghost predicate NextIsLeast(schedule: Schedule, start: int) {
    match schedule.next(start)
    case Some(t) => start < t && Fires(schedule, t) && forall u :: start < u < t ==> !Fires(schedule, u)
    case None => forall u :: start < u ==> !Fires(schedule, u)
  }

  ghost predicate WholeSeconds(schedule: Schedule) {
    forall t :: Fires(schedule, t) ==> t % SECOND == 0
  }

  /** A device and one of its jobs; the scheduler keeps one device-job for each. */
  datatype JobRef = JobRef(device: string, job: string)

  function Later(a: int, b: int): int {
    if a > b then a else b
  }

  /** nextRun's answer for a watermark and a clock reading; None is the zero time. */
  function NextRun(schedule: Schedule, lastRun: int, now: int, before: int): Option<int> {
    match schedule.next(Later(now, lastRun))
    case None => None
    case Some(t) => if t > Later(now, lastRun) && t < before then Some(t) else None
  }

  /** A taken firing is the first one past the watermark and the clock. */
  lemma TakenIsFirst(schedule: Schedule, lastRun: int, now: int, before: int)
    requires Lawful(schedule)
    ensures match NextRun(schedule, lastRun, now, before)
            case Some(t) =>
              && Later(now, lastRun) < t < before && Fires(schedule, t)
              && (forall u :: Later(now, lastRun) < u < t ==> !Fires(schedule, u))
            case None => forall u :: Later(now, lastRun) < u < before ==> !Fires(schedule, u)
  {
    assert NextIsLeast(schedule, Later(now, lastRun));
  }
}
