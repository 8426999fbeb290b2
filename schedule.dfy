/** The election window: the status chip of the admin dashboard, the
    `isActive` test of the election page, and the start-before-end check that
    the creation form and the edit dialog both apply. Timestamps are
    milliseconds since the epoch; the current time is a parameter. */
module Schedule {
  import Common

  datatype Status = Upcoming | Completed | Active
  datatype Color = Info | Success | Primary

  /** What `getElectionStatus` returns: the chip's label (here `status`, since
      `label` is a Dafny keyword) and colour. */
  datatype Chip = Chip(status: Status, color: Color)

  /** The one colour each label is shown in. */
  function ColorOf(s: Status): Color
  {
    match s
    case Upcoming => Info
    case Completed => Success
    case Active => Primary
  }

  /** `getElectionStatus`: before the start the election is upcoming, after the
      end it is completed, otherwise active. Exactly one label comes out, and
      an inverted window (start after end) is never active. */
  function GetElectionStatus(now: int, start: int, end: int): (c: Chip)
    ensures c.status == Upcoming <==> now < start
    ensures c.status == Completed <==> start <= now && end < now
    ensures c.status == Active <==> start <= now <= end
    ensures c.color == ColorOf(c.status)
    ensures start > end ==> c.status != Active
  {
    if now < start then Chip(Upcoming, Info)
    else if now > end then Chip(Completed, Success)
    else Chip(Active, Primary)
  }

  /** `isActive` on the election page: both bounds are inclusive, and it agrees
      with the dashboard's status being Active. */
  function IsActive(now: int, start: int, end: int): (b: bool)
    ensures b <==> GetElectionStatus(now, start, end).status == Active
    ensures b ==> start <= end
  {
    now >= start && now <= end
  }

  const ErrMissingDates := "Please select both start and end dates"
  const ErrEndNotAfterStart := "End date must be after start date"

  /** The date validation shared by the creation form and the edit dialog:
      a missing date is reported first, then an end that is not strictly after
      the start; None means both checks pass. */
  function CheckDates(start: Common.Option<int>, end: Common.Option<int>): (err: Common.Option<string>)
    ensures err.None? <==> start.Some? && end.Some? && start.value < end.value
    ensures start.None? || end.None? ==> err == Common.Some(ErrMissingDates)
    ensures start.Some? && end.Some? && start.value >= end.value ==> err == Common.Some(ErrEndNotAfterStart)
  {
    if start.None? || end.None? then Common.Some(ErrMissingDates)
    else if start.value >= end.value then Common.Some(ErrEndNotAfterStart)
    else Common.None
  }
}
