/** The reconcile code of the update paths, call by call; every execution of it is a run of the machine. */
module UpdatePathReconciler {
  import opened UpdatePaths
  import opened Results

  datatype VersionDetail = VersionDetail(version: string, buildNumber: string, kind: string)

  class Cluster {
    var state: State
    ghost var actions: seq<Action>

    /** What everybody else does, and how much of the history the cache has, moment by moment. */
    const environment: nat -> seq<Action>
    const cached: nat -> nat
    var moment: nat

    ghost predicate Valid()
      reads this
    {
      Possible(EMPTY, actions) && After(EMPTY, actions) == state
    }

    /** From now on nobody else acts. */
    ghost predicate Quiet()
      reads this
    {
      forall m :: moment <= m ==> environment(m) == []
    }

    constructor (environment: nat -> seq<Action>, cached: nat -> nat)
      ensures Valid() && state == EMPTY
    {
      state := EMPTY;
      actions := [];
      moment := 0;
      this.environment := environment;
      this.cached := cached;
    }

    method Take(a: Action)
      requires Valid() && Enabled(state, a)
      modifies this`state, this`actions
      ensures Valid() && state == Apply(old(state), a) && actions == old(actions) + [a]
    {
      hide Enabled, Apply;
      StepLast(EMPTY, actions, a);
      actions := actions + [a];
      state := Apply(state, a);
    }

    method Others(me: nat)
      requires Valid() && me < |state.runs|
      modifies this
      ensures Valid() && me < |state.runs| && state.runs[me] == old(state.runs[me])
      ensures old(state.history) <= state.history
      ensures moment == old(moment) + 1 && (environment(old(moment)) == [] ==> state == old(state))
    {
      hide Possible, After;
      var batch := environment(moment);
      moment := moment + 1;
      for i := 0 to |batch|
        invariant Valid() && me < |state.runs| && state.runs[me] == old(state.runs[me])
        invariant old(state.history) <= state.history
        invariant moment == old(moment) + 1 && (batch == [] ==> state == old(state))
      {
        if Enabled(state, batch[i]) && !IsStepOf(batch[i], me) {
          Take(batch[i]);
        }
      }
    }
  }

  predicate IsStepOf(a: Action, me: nat) {
    (a.ListAll? || a.Write? || a.Stop?) && a.r == me
  }

  /** The comparison loop over all listed resources, in any order; a resource is not compared with the
      one of its own name. */
  method FindDuplicate(all: View, name: string, spec: Spec) returns (found: bool)
    ensures found <==> IsDuplicate(all, name, spec)
    ensures found <==>
            exists other :: other in all && other != name && all[other].spec.model == spec.model
                            && all[other].spec.startVersion == spec.startVersion
                            && all[other].spec.newVersion == spec.newVersion
  {
    var rest := all.Keys;
    while rest != {}
      invariant rest <= all.Keys
      invariant forall other :: other in all && other !in rest && other != name ==> all[other].spec != spec
    {
      var existing :| existing in rest;
      rest := rest - {existing};
      if existing == name {
        continue;
      }
      var other := all[existing].spec;
      if other.model == spec.model && other.startVersion == spec.startVersion && other.newVersion == spec.newVersion {
        return true;
      }
    }
    return false;
  }

  /** One step for each version of the path, in order, field by field. */
  predicate AreStepsOf(steps: seq<UpdateStep>, path: seq<VersionDetail>) {
    && |steps| == |path|
    && forall i :: 0 <= i < |path| ==> steps[i] == UpdateStep(path[i].version, path[i].buildNumber, path[i].kind)
  }

  method BuildSteps(path: seq<VersionDetail>) returns (steps: seq<UpdateStep>)
    ensures AreStepsOf(steps, path)
    ensures |steps| == |path|
    ensures forall i :: 0 <= i < |path| ==>
              && steps[i].version == path[i].version && steps[i].build == path[i].buildNumber
              && steps[i].releaseType == path[i].kind
  {
    steps := [];
    for i := 0 to |path|
      invariant |steps| == i
      invariant forall j :: 0 <= j < i ==> steps[j] == UpdateStep(path[j].version, path[j].buildNumber, path[j].kind)
    {
      steps := steps + [UpdateStep(path[i].version, path[i].buildNumber, path[i].kind)];
    }
  }

  /** The run has read the newest version of its resource. */
  ghost predicate IsCurrent(s: State, me: nat) {
    && me < |s.runs| && s.runs[me].name in Now(s)
    && Now(s)[s.runs[me].name].version == s.runs[me].got.version
  }

  /** `updateFortigateUpdatePathStatus`: refused when the resource has changed or gone since it was read. */
  method UpdateStatus(c: Cluster, me: nat, steps: seq<UpdateStep>) returns (written: bool)
    requires c.Valid() && me < |c.state.runs| && c.state.runs[me].pc.Checked?
    modifies c
    ensures c.Valid()
    ensures var run := old(c.state.runs[me]);
            written ==> run.name in Now(c.state) && Now(c.state)[run.name].valid
                        && Now(c.state)[run.name].steps == steps && Now(c.state)[run.name].spec == run.got.spec
    ensures old(c.Quiet() && IsCurrent(c.state, me)) ==> written
  {
    hide c.Valid, IsDuplicate;
    c.Others(me);
    var run := c.state.runs[me];
    var current := ViewAt(c.state.history, |c.state.history|);
    if run.name !in current || current[run.name].version != run.got.version {
      return false;
    }
    ValidState(c, me);
    ghost var before := c.state.history;
    c.Take(Write(me, steps));
    ViewOfPrefix(before, [Validated(run.name, steps)], |before|);
    return true;
  }

  /** `Reconcile`. `read` says how much of the history the first read sees; `lookup` is the upgrade tool.
      The resource becomes valid only when this run writes it, over a view of the cluster that had no
      duplicate. It does write it when it reads the newest version, nobody else acts and no other resource
      is for the same upgrade. */
  method Reconcile(c: Cluster, name: string, read: nat, lookup: Spec -> Option<seq<VersionDetail>>)
    returns (written: bool)
    requires c.Valid() && read <= |c.state.history|
    modifies c
    ensures c.Valid()
    ensures written ==> name in Now(c.state) && Now(c.state)[name].valid && lookup(Now(c.state)[name].spec).Some?
                        && AreStepsOf(Now(c.state)[name].steps, lookup(Now(c.state)[name].spec).value)
    ensures (&& old(c.Quiet()) && read == |old(c.state.history)| && Alone(old(Now(c.state)), name)
             && lookup(old(Now(c.state))[name].spec).Some?) ==> written
  {
    hide c.Valid, IsDuplicate, ViewAt, AreStepsOf;
    if name !in ViewAt(c.state.history, read) {
      return false;
    }
    var me := |c.state.runs|;
    c.Take(Get(name, read));
    var currentResource := c.state.runs[me].got;
    if currentResource.deleting {
      return false;
    }
    c.Others(me);
    var n := c.cached(c.moment);
    n := if n < read then read else if n > |c.state.history| then |c.state.history| else n;
    var duplicate := FindDuplicate(ViewAt(c.state.history, n), name, currentResource.spec);
    c.Take(ListAll(me, n));
    if duplicate || currentResource.valid {
      return false;
    }
    var path := lookup(currentResource.spec);
    if path.None? {
      return false;
    }
    var steps := BuildSteps(path.value);
    written := UpdateStatus(c, me, steps);
  }

  lemma ValidState(c: Cluster, me: nat)
    requires c.Valid() && me < |c.state.runs| && c.state.runs[me].name in Now(c.state)
    requires Now(c.state)[c.state.runs[me].name].version == c.state.runs[me].got.version
    ensures Now(c.state)[c.state.runs[me].name] == c.state.runs[me].got
  {
    InvAfter(EMPTY, c.actions);
    ReadIsCurrent(c.state.history, c.state.runs[me]);
  }
}
