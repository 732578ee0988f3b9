/** The schedule registry: its entries, the cron manager's live jobs and the health map. */
module CronRegistry {

  datatype Entry = Entry(entryId: nat, schedule: string)
  datatype LiveJob = LiveJob(name: string, schedule: string)
  datatype Health = Health(schedule: string, isRunning: bool)

  datatype Registry = Registry(
    entries: map<string, Entry>,
    live: map<nat, LiveJob>,
    nextId: nat,
    health: map<string, Health>)

  datatype Command =
    | Add(expr: string, name: string)
    | Replace(expr: string, name: string)
    | Remove(name: string)
    | BeginRun(name: string, expr: string)
    | EndRun(name: string, expr: string)

  /** Entries and live jobs are in bijection, each under the registered name and expression. */
  ghost predicate Bijective(r: Registry) {
    && (forall n :: n in r.entries ==>
          r.entries[n].entryId in r.live && r.live[r.entries[n].entryId] == LiveJob(n, r.entries[n].schedule))
    && (forall id :: id in r.live ==>
          r.live[id].name in r.entries && r.entries[r.live[id].name].entryId == id)
  }

  ghost predicate Valid(r: Registry) {
    && Bijective(r)
    && (forall id :: id in r.live ==> id < r.nextId)
    && r.entries.Keys <= r.health.Keys
  }

  function Adding(r: Registry, expr: string, name: string, valid: bool): Registry {
    if !valid then r
    else Registry(r.entries[name := Entry(r.nextId, expr)], r.live[r.nextId := LiveJob(name, expr)], r.nextId + 1,
                  r.health[name := Health(expr, true)])
  }

  function Removing(r: Registry, name: string): Registry {
    r.(entries := r.entries - {name},
       live := if name in r.entries then r.live - {r.entries[name].entryId} else r.live,
       health := r.health - {name})
  }

  function Replacing(r: Registry, expr: string, name: string, valid: bool): Registry {
    if name in r.entries && r.entries[name].schedule == expr then r
    else Adding(if name in r.entries then Removing(r, name) else r, expr, name, valid)
  }

  function After(r: Registry, c: Command, parses: string -> bool): Registry {
    match c
    case Add(expr, name) => Adding(r, expr, name, parses(expr))
    case Replace(expr, name) => Replacing(r, expr, name, parses(expr))
    case Remove(name) => Removing(r, name)
    case BeginRun(name, expr) => r.(health := r.health[name := Health(expr, true)])
    case EndRun(name, expr) => r.(health := r.health[name := Health(expr, false)])
  }

  function AfterAll(r: Registry, cs: seq<Command>, parses: string -> bool): Registry {
    if cs == [] then r else After(AfterAll(r, cs[..|cs| - 1], parses), cs[|cs| - 1], parses)
  }

  lemma RemovingKeepsValid(r: Registry, name: string)
    requires Valid(r)
    ensures Valid(Removing(r, name)) && name !in Removing(r, name).entries
  {
  }

  lemma AddingKeepsValid(r: Registry, expr: string, name: string, valid: bool)
    requires Valid(r) && name !in r.entries
    ensures Valid(Adding(r, expr, name, valid))
  {
  }

  /** Any mix of replacements, removals and job executions keeps live jobs
      and entries in bijection, and every registered name among the health names. */
  lemma {:induction false} CommandsKeepValid(r: Registry, cs: seq<Command>, parses: string -> bool)
    requires Valid(r) && forall k :: 0 <= k < |cs| ==> !cs[k].Add?
    ensures Valid(AfterAll(r, cs, parses))
  {
    if cs != [] {
      var k := |cs| - 1;
      CommandsKeepValid(r, cs[..k], parses);
      var before := AfterAll(r, cs[..k], parses);
      match cs[k]
      case Replace(expr, name) =>
        if name in before.entries {
          RemovingKeepsValid(before, name);
          AddingKeepsValid(Removing(before, name), expr, name, parses(expr));
        } else {
          AddingKeepsValid(before, expr, name, parses(expr));
        }
      case Remove(name) => RemovingKeepsValid(before, name);
      case _ =>
    }
  }

  /** After a replacement the name is registered with exactly its expression,
      or, when the expression does not parse, absent from entries and live jobs. */
  lemma ReplaceRegistersOrClears(r: Registry, expr: string, name: string, valid: bool)
    requires Valid(r)
    ensures var t := Replacing(r, expr, name, valid);
            var same := name in r.entries && r.entries[name].schedule == expr;
            && (same || valid ==> name in t.entries && t.entries[name].schedule == expr)
            && (!same && !valid ==> name !in t.entries && forall id :: id in t.live ==> t.live[id].name != name)
            && (forall n :: n != name ==> (n in t.entries <==> n in r.entries) && (n in r.entries ==> t.entries[n] == r.entries[n]))
  {
  }

  /** A plain add keeps the bijection exactly when the name is new or the
      expression does not parse; otherwise the old cron job lives on without an entry. */
  lemma PlainAddKeepsValidIff(r: Registry, expr: string, name: string, valid: bool)
    requires Valid(r)
    ensures Valid(Adding(r, expr, name, valid)) <==> name !in r.entries || !valid
  {
    if name !in r.entries {
      AddingKeepsValid(r, expr, name, valid);
    } else if valid {
      var t, id := Adding(r, expr, name, valid), r.entries[name].entryId;
      assert id in t.live && t.live[id].name == name && t.entries[name].entryId != id;
    }
  }

  /** The scheduler object. `parses` stands for the cron library's verdict on an expression. */
  class Scheduler {
    var entries: map<string, Entry>
    var live: map<nat, LiveJob>
    var nextId: nat
    var health: map<string, Health>
    const parses: string -> bool

    function State(): Registry
      reads this
    {
      Registry(entries, live, nextId, health)
    }

    constructor (parses: string -> bool)
      ensures Valid(State()) && this.parses == parses && entries == map[]
    {
      entries, live, nextId, health := map[], map[], 0, map[];
      this.parses := parses;
    }

    method AddSchedule(expr: string, name: string) returns (ok: bool)
      modifies this
      ensures ok == parses(expr)
      ensures State() == After(old(State()), Add(expr, name), parses)
      ensures !ok ==> State() == old(State())
      ensures ok ==>
        && entries == old(entries)[name := Entry(old(nextId), expr)]
        && live == old(live)[old(nextId) := LiveJob(name, expr)]
        && nextId == old(nextId) + 1
        && health == old(health)[name := Health(expr, true)]
    {
      if !parses(expr) {
        return false;
      }
      var id := nextId;
      live := live[id := LiveJob(name, expr)];
      nextId := nextId + 1;
      entries := entries[name := Entry(id, expr)];
      health := health[name := Health(expr, true)];
      ok := true;
    }

    method AddScheduleReplaceExisting(expr: string, name: string) returns (ok: bool)
      modifies this
      ensures State() == After(old(State()), Replace(expr, name), parses)
      ensures ok == (parses(expr) || (name in old(entries) && old(entries)[name].schedule == expr))
      ensures name in old(entries) && old(entries)[name].schedule == expr ==> State() == old(State())
      ensures !(name in old(entries) && old(entries)[name].schedule == expr) ==>
        if parses(expr) then health == old(health)[name := Health(expr, true)]
        else health == if name in old(entries) then old(health) - {name} else old(health)
    {
      if name in entries {
        if entries[name].schedule == expr {
          return true;
        }
        RemoveSchedule(name);
      }
      ok := AddSchedule(expr, name);
    }

    method RemoveSchedule(name: string)
      modifies this
      ensures State() == After(old(State()), Remove(name), parses)
      ensures entries == old(entries) - {name} && health == old(health) - {name} && nextId == old(nextId)
      ensures live == if name in old(entries) then old(live) - {old(entries)[name].entryId} else old(live)
    {
      if name in entries {
        live := live - {entries[name].entryId};
        entries := entries - {name};
      }
      health := health - {name};
    }

    method BeginExecution(name: string, expr: string)
      modifies this
      ensures State() == After(old(State()), BeginRun(name, expr), parses)
      ensures health == old(health)[name := Health(expr, true)]
      ensures entries == old(entries) && live == old(live) && nextId == old(nextId)
    {
      health := health[name := Health(expr, true)];
    }

    method EndExecution(name: string, expr: string)
      modifies this
      ensures State() == After(old(State()), EndRun(name, expr), parses)
      ensures health == old(health)[name := Health(expr, false)]
      ensures entries == old(entries) && live == old(live) && nextId == old(nextId)
    {
      health := health[name := Health(expr, false)];
    }
  }
}
