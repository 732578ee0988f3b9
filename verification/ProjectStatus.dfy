/** One project of a RenovateJob and the four guarded status transitions. */
module ProjectStatuses {
  import opened Options

  // A stored status is a string in the source; Unknown covers every value
  // outside the four constants.
  datatype Status = Scheduled | Running | Completed | Failed | Unknown(raw: string)

  datatype Entry = Entry(
    name: string,
    lastRun: int,
    duration: Option<string>,
    status: Status,
    priority: int,
    result: Option<string>)

  datatype StatusUpdate = StatusUpdate(
    status: Status,
    priority: int,
    result: Option<string>,
    duration: Option<string>)

  /** The moves a requested status may cause. Scheduled to Scheduled is the
      renewed request that can only raise the priority. */
  predicate MayMove(from: Status, to: Status) {
    match to
    case Scheduled => from != Running
    case Running => from == Scheduled
    case Completed => from == Running
    case Failed => from == Running
    case Unknown(_) => false
  }

  function Max(a: int, b: int): int { if a < b then b else a }

  function MovedPriority(e: Entry, u: StatusUpdate): int {
    if u.status.Scheduled? then Max(e.priority, u.priority) else 0
  }

  function ReportedDuration(e: Entry, u: StatusUpdate): Option<string> {
    match u.status
    case Scheduled => e.duration
    case Running => None
    case _ => u.duration
  }

  /** The entry that update u leaves behind at time now. */
  function Transition(e: Entry, u: StatusUpdate, now: int): (r: Entry)
    ensures r.name == e.name
    ensures r.status == e.status || (MayMove(e.status, u.status) && r.status == u.status)
    ensures e.status.Running? && !r.status.Running? ==> r.lastRun == now
    ensures r.lastRun != e.lastRun ==> e.status.Running? && !r.status.Running?
  {
    if u.status.Unknown? then e else
    var moves := MayMove(e.status, u.status);
    e.(status := if moves then u.status else e.status,
       priority := if moves then MovedPriority(e, u) else e.priority,
       lastRun := if moves && e.status.Running? then now else e.lastRun,
       duration := ReportedDuration(e, u),
       result := if u.result.Some? then u.result else e.result)
  }

  /** The mutable record the transitions write through. */
  class ProjectStatus {
    var name: string
    var lastRun: int
    var duration: Option<string>
    var status: Status
    var priority: int
    var result: Option<string>

    constructor (e: Entry)
      ensures Value() == e
    {
      name, lastRun, duration := e.name, e.lastRun, e.duration;
      status, priority, result := e.status, e.priority, e.result;
    }

    function Value(): Entry
      reads this
    {
      Entry(name, lastRun, duration, status, priority, result)
    }

    method GetUpdateStatusForProject(desired: StatusUpdate, now: int)
      modifies this
      ensures Value() == Transition(old(Value()), desired, now)
      ensures desired.status.Unknown? ==> Value() == old(Value())
    {
      match desired.status {
        case Scheduled => ValidateScheduled(desired, now);
        case Running => ValidateRunning(desired, now);
        case Completed => ValidateCompleted(desired, now);
        case Failed => ValidateFailed(desired, now);
        case Unknown(_) =>
      }
    }

    method ValidateScheduled(desired: StatusUpdate, ghost now: int)
      requires desired.status == Scheduled
      modifies this
      ensures Value() == Transition(old(Value()), desired, now)
      ensures status == if old(status) == Running then Running else Scheduled
      ensures priority ==
        if old(status) != Running && desired.priority > old(priority) then desired.priority else old(priority)
      ensures result == if desired.result.Some? then desired.result else old(result)
      ensures name == old(name) && lastRun == old(lastRun) && duration == old(duration)
    {
      if status != Running {
        status := Scheduled;
        if desired.priority > priority {
          priority := desired.priority;
        }
      }
      UpdateResult(desired.result);
    }

    method ValidateRunning(desired: StatusUpdate, ghost now: int)
      requires desired.status == Running
      modifies this
      ensures Value() == Transition(old(Value()), desired, now)
      ensures status == if old(status) == Scheduled then Running else old(status)
      ensures priority == if old(status) == Scheduled then 0 else old(priority)
      ensures result == if desired.result.Some? then desired.result else old(result)
      ensures name == old(name) && lastRun == old(lastRun) && duration == None
    {
      if status == Scheduled {
        status := Running;
        priority := 0;
      }
      duration := None;
      UpdateResult(desired.result);
    }

    method ValidateCompleted(desired: StatusUpdate, now: int)
      requires desired.status == Completed
      modifies this
      ensures Value() == Transition(old(Value()), desired, now)
      ensures status == if old(status) == Running then Completed else old(status)
      ensures priority == if old(status) == Running then 0 else old(priority)
      ensures lastRun == if old(status) == Running then now else old(lastRun)
      ensures result == if desired.result.Some? then desired.result else old(result)
      ensures name == old(name) && duration == desired.duration
    {
      if status == Running {
        status := Completed;
        priority := 0;
        lastRun := now;
      }
      duration := desired.duration;
      UpdateResult(desired.result);
    }

    method ValidateFailed(desired: StatusUpdate, now: int)
      requires desired.status == Failed
      modifies this
      ensures Value() == Transition(old(Value()), desired, now)
      ensures status == if old(status) == Running then Failed else old(status)
      ensures priority == if old(status) == Running then 0 else old(priority)
      ensures lastRun == if old(status) == Running then now else old(lastRun)
      ensures result == if desired.result.Some? then desired.result else old(result)
      ensures name == old(name) && duration == desired.duration
    {
      if status == Running {
        status := Failed;
        priority := 0;
        lastRun := now;
      }
      duration := desired.duration;
      UpdateResult(desired.result);
    }

    method UpdateResult(reported: Option<string>)
      modifies this`result
      ensures result == if reported.Some? then reported else old(result)
    {
      if reported.Some? {
        result := reported;
      }
    }
  }
}
