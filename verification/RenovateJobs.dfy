/** A loaded RenovateJob object, and the closures the manager runs on it before writing it back. */
module RenovateJobs {
  import opened Options
  import opened Sequences
  import opened ProjectStatuses
  import opened ProjectLists

  /** The names whose metrics have been deleted. */
  class MetricStore {
    var deleted: set<string>

    constructor ()
      ensures deleted == {}
    {
      deleted := {};
    }

    method DeleteProjectMetrics(project: string)
      modifies this
      ensures deleted == old(deleted) + {project}
    {
      deleted := deleted + {project};
    }
  }

  function AllNames(ps: seq<Entry>): set<string> {
    set i | 0 <= i < |ps| :: ps[i].name
  }

  /** The metrics an attempt at op deletes: those of every stored name missing from the discovered list. */
  function DroppedNames(op: Op, ps: seq<Entry>): set<string> {
    if op.Reconcile? then AllNames(ps) - AsSet(op.discovered) else {}
  }

  class RenovateJob {
    var projects: seq<Entry>
    const version: nat

    constructor (projects: seq<Entry>, version: nat)
      ensures this.projects == projects && this.version == version
    {
      this.projects, this.version := projects, version;
    }

    method Transform(op: Op, now: int, metrics: MetricStore)
      modifies this, metrics
      ensures projects == Apply(op, old(projects), now)
      ensures metrics.deleted == old(metrics.deleted) + DroppedNames(op, old(projects))
      ensures !op.Reconcile? ==> metrics.deleted == old(metrics.deleted)
      ensures op.SetExecutionOptions? ==> projects == old(projects)
    {
      match op {
        case UpdateOne(project, update) => UpdateProject(project, update, now);
        case UpdateMatching(selects, update) => UpdateSelected(selects, update, now);
        case Reconcile(discovered) => ReconcileWith(discovered, now, metrics);
        case SetExecutionOptions =>
      }
    }

    method UpdateProject(project: string, update: StatusUpdate, now: int)
      modifies this
      ensures projects == Apply(UpdateOne(project, update), old(projects), now)
      ensures forall i :: 0 <= i < |old(projects)| && old(projects)[i].name == project ==>
        (forall j :: 0 <= j < i ==> old(projects)[j].name != project) ==>
          projects == old(projects)[i := Transition(old(projects)[i], update, now)]
      ensures (forall i :: 0 <= i < |old(projects)| ==> old(projects)[i].name != project) ==>
        projects == old(projects) + [Entry(project, 0, None, update.status, update.priority, None)]
    {
      var index := -1;
      for i := 0 to |projects|
        invariant index == -1
        invariant forall j :: 0 <= j < i ==> projects[j].name != project
        invariant projects == old(projects)
      {
        if projects[i].name == project {
          index := i;
          break;
        }
      }
      if index == -1 {
        projects := projects + [Entry(project, 0, None, update.status, update.priority, None)];
      } else {
        var projectStatus := new ProjectStatus(projects[index]);
        projectStatus.GetUpdateStatusForProject(update, now);
        projects := projects[index := projectStatus.Value()];
      }
    }

    method UpdateSelected(selects: Entry -> bool, update: StatusUpdate, now: int)
      modifies this
      ensures projects == Apply(UpdateMatching(selects, update), old(projects), now)
      ensures |projects| == |old(projects)|
      ensures forall i :: 0 <= i < |projects| ==>
        projects[i] == if selects(old(projects)[i]) then Transition(old(projects)[i], update, now) else old(projects)[i]
    {
      for i := 0 to |projects|
        invariant |projects| == |old(projects)|
        invariant forall j :: 0 <= j < i ==> projects[j] == ApplyToMatching(old(projects), selects, update, now)[j]
        invariant forall j :: i <= j < |projects| ==> projects[j] == old(projects)[j]
      {
        var p := projects[i];
        if selects(p) {
          var projectStatus := new ProjectStatus(p);
          projectStatus.GetUpdateStatusForProject(update, now);
          projects := projects[i := projectStatus.Value()];
        }
      }
    }

    method ReconcileWith(discovered: seq<string>, now: int, metrics: MetricStore)
      modifies this, metrics
      ensures projects == Apply(Reconcile(discovered), old(projects), now)
      ensures metrics.deleted == old(metrics.deleted) + DroppedNames(Reconcile(discovered), old(projects))
      ensures forall n :: n in metrics.deleted <==>
        n in old(metrics.deleted) || (n !in discovered && exists i :: 0 <= i < |old(projects)| && old(projects)[i].name == n)
    {
      var crdProjectSet: map<string, Entry> := map[];
      for i := 0 to |projects|
        invariant projects == old(projects)
        invariant metrics.deleted == old(metrics.deleted)
        invariant crdProjectSet.Keys == AllNames(projects[..i])
        invariant forall name :: MapAgrees(crdProjectSet, projects[..i], name)
      {
        ghost var seen := projects[..i + 1];
        assert seen[..i] == projects[..i] && seen[i] == projects[i];
        AllNamesSnoc(seen);
        ghost var before := crdProjectSet;
        crdProjectSet := crdProjectSet[projects[i].name := projects[i]];
        forall name ensures MapAgrees(crdProjectSet, seen, name) {
          assert MapAgrees(before, seen[..i], name);
        }
      }
      assert projects[..|projects|] == projects;

      var newProjectSet: set<string> := {};
      for i := 0 to |discovered|
        invariant projects == old(projects) && metrics.deleted == old(metrics.deleted)
        invariant newProjectSet == AsSet(discovered[..i])
      {
        assert discovered[..i + 1] == discovered[..i] + [discovered[i]];
        AsSetSnoc(discovered[..i], discovered[i]);
        newProjectSet := newProjectSet + {discovered[i]};
      }
      assert discovered[..|discovered|] == discovered;

      DeleteDroppedMetrics(crdProjectSet.Keys, newProjectSet, metrics);
      ghost var dropped := DroppedNames(Reconcile(discovered), projects);
      assert crdProjectSet.Keys - newProjectSet == dropped;

      var newProjects: seq<Entry> := [];
      for i := 0 to |discovered|
        invariant projects == old(projects)
        invariant metrics.deleted == old(metrics.deleted) + dropped
        invariant |newProjects| == i
        invariant forall k :: 0 <= k < i ==> newProjects[k] == Discovered(projects, discovered[k], now)
      {
        var project := discovered[i];
        if project in crdProjectSet {
          assert MapAgrees(crdProjectSet, projects, project);
          newProjects := newProjects + [crdProjectSet[project]];
        } else {
          assert MapAgrees(crdProjectSet, projects, project);
          newProjects := newProjects + [Entry(project, now, None, Scheduled, 0, None)];
        }
      }
      projects := newProjects;
    }
  }

  ghost predicate MapAgrees(m: map<string, Entry>, ps: seq<Entry>, name: string) {
    LastNamed(ps, name) == if name in m then Some(m[name]) else None
  }

  method DeleteDroppedMetrics(stored: set<string>, discovered: set<string>, metrics: MetricStore)
    modifies metrics
    ensures metrics.deleted == old(metrics.deleted) + (stored - discovered)
  {
    var todo := stored;
    while todo != {}
      invariant todo <= stored
      invariant metrics.deleted == old(metrics.deleted) + ((stored - todo) - discovered)
      decreases todo
    {
      var projectName :| projectName in todo;
      if projectName !in discovered {
        metrics.DeleteProjectMetrics(projectName);
      }
      todo := todo - {projectName};
    }
  }

  lemma AllNamesSnoc(ps: seq<Entry>)
    requires ps != []
    ensures AllNames(ps) == AllNames(ps[..|ps| - 1]) + {ps[|ps| - 1].name}
  {
  }
}
