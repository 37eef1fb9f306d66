/** The reconcile code of the firmware upgrade, call by call, in a world where any other step of the
    machine may happen between two calls. Every execution of it is a run of the machine. */
module UpgradeReconciler {
  import opened UpgradeProtocol

  class World {
    var state: State
    ghost const start: State
    ghost var actions: seq<Action>

    /** What everybody else does between two calls: one batch of actions for each moment. */
    const environment: nat -> seq<Action>

    /** The moments at which a call may fail, its reply may be lost, or a cache may be out of date. */
    const trouble: nat -> bool
    var moment: nat

    /** From now on nobody else acts and no call goes wrong. */
    ghost predicate Calm()
      reads this
    {
      forall m :: moment <= m ==> environment(m) == [] && !trouble(m)
    }

    /** The state is what the recorded actions lead to. */
    ghost predicate Valid()
      reads this
    {
      Init(start) && Possible(start, actions) && After(start, actions) == state
    }

    constructor (s: State, environment: nat -> seq<Action>, trouble: nat -> bool)
      requires Init(s)
      ensures Valid() && state == s
    {
      start := s;
      state := s;
      actions := [];
      this.environment := environment;
      this.trouble := trouble;
      moment := 0;
    }

    method Take(a: Action)
      requires Valid() && Enabled(state, a)
      modifies this`state, this`actions
      ensures Valid() && state == Apply(old(state), a) && actions == old(actions) + [a]
    {
      hide Init, Enabled, Apply;
      StepLast(start, actions, a);
      actions := actions + [a];
      state := Apply(state, a);
    }

    /** Other runs, other clients and lost snapshots: any number of steps that are not run `me`'s. */
    method Others(me: nat)
      requires Valid() && me < |state.runs|
      modifies this
      ensures Valid() && me < |state.runs| && state.runs[me] == old(state.runs[me])
      ensures moment == old(moment) + 1 && (environment(old(moment)) == [] ==> state == old(state))
    {
      hide Init, Possible, After;
      var batch := environment(moment);
      moment := moment + 1;
      for i := 0 to |batch|
        invariant Valid() && me < |state.runs| && state.runs[me] == old(state.runs[me])
        invariant moment == old(moment) + 1 && (batch == [] ==> state == old(state))
      {
        if Enabled(state, batch[i]) && !(batch[i].Step? && batch[i].r == me) {
          Take(batch[i]);
        }
      }
    }

    /** The step `op` of run `me`, or an error reply, with or without effect, or a crash. */
    method Try(me: nat, op: Op) returns (ok: bool)
      requires Valid() && me < |state.runs| && CanStep(state, state.runs[me], op) && !state.runs[me].pc.Done?
      modifies this
      ensures Valid() && me < |state.runs|
      ensures ok ==> state == Apply(old(state), Step(me, op))
      ensures ok ==> state.runs[me] == NextRun(old(state), old(state.runs[me]), op)
      ensures !ok ==> state.runs[me].pc.Failed?
      ensures old(Calm()) ==> ok && Calm()
      ensures moment == old(moment) && (!trouble(moment) ==> ok)
    {
      hide Valid, CanStep, NextRun;
      var broken: bool := *;
      if broken && trouble(moment) {
        Break(me);
        return false;
      }
      Take(Step(me, op));
      return true;
    }

    method Break(me: nat)
      requires Valid() && me < |state.runs| && !state.runs[me].pc.Done?
      modifies this
      ensures Valid() && me < |state.runs| && state.runs[me].pc.Failed? && moment == old(moment)
    {
      hide Valid;
      Take(Step(me, Fail));
    }
  }

  ghost predicate At(w: World, me: nat, pc: Pc)
    reads w
  {
    w.Valid() && me < |w.state.runs| && w.state.runs[me].pc == pc
  }

  /** The run holds the newest version of the resource. */
  ghost predicate Newest(w: World, me: nat)
    reads w
  {
    me < |w.state.runs| && w.state.runs[me].version + 1 == |w.state.history|
  }

  /** A reply that may be lost at this moment. */
  method MayBeLost(w: World) returns (lost: bool)
    ensures !w.trouble(w.moment) ==> !lost
  {
    lost := *;
    lost := lost && w.trouble(w.moment);
  }

  /** What the invariant of the machine says about run `me`. */
  lemma RunFacts(w: World, me: nat)
    requires w.Valid() && me < |w.state.runs|
    ensures Inv(w.state) && RunOk(w.state, w.state.runs[me]) && SentOk(w.state.runs[me])
  {
    InitOk(w.start);
    InvAfter(w.start, w.actions);
  }

  /** The run's backup is in the store, fetched from the firewall. */
  ghost predicate BackupIsStored(s: State, run: Run) {
    run.filename in s.store && s.store[run.filename].FromFirewall?
  }

  /** And its name is in the status. */
  ghost predicate BackupIsPersisted(s: State, run: Run) {
    BackupIsStored(s, run) && s.history != [] && Current(s) == run.filename && run.filename != ""
  }

  lemma StoredFacts(w: World, me: nat)
    requires w.Valid() && me < |w.state.runs|
    ensures w.state.runs[me].pc.Stored? ==> BackupIsStored(w.state, w.state.runs[me])
    ensures HasPersisted(w.state.runs[me].pc) ==> BackupIsPersisted(w.state, w.state.runs[me])
    ensures w.state.runs[me].confirmed ==> w.state.runs[me].snapshot in w.state.taken
  {
    RunFacts(w, me);
  }

  /** `writeS3Data` without overwriting: look first, write only when the object is missing. */
  method WriteS3Data(w: World, me: nat) returns (ok: bool)
    requires At(w, me, Fetched)
    modifies w
    ensures At(w, me, if ok then Stored else Failed)
    ensures ok ==> w.state.runs[me] == old(w.state.runs[me]).(pc := Stored) && BackupIsStored(w.state, w.state.runs[me])
    ensures old(w.Calm()) ==> ok && w.Calm()
    ensures old(w.Calm() && Newest(w, me)) ==> Newest(w, me)
  {
    hide w.Valid;
    w.Others(me);
    if w.state.runs[me].filename in w.state.store {
      ok := w.Try(me, HeadFound);
      StoredFacts(w, me);
      return;
    }
    ok := w.Try(me, HeadMissing);
    if !ok {
      return;
    }
    w.Others(me);
    var lost := MayBeLost(w);
    ok := w.Try(me, Put(lost));
    ok := ok && !lost;
    StoredFacts(w, me);
  }

  /** `backupFortigateConfig` and `saveBackupToS3`: with a name in the status there is nothing to fetch. */
  method GetFwBackup(w: World, me: nat) returns (ok: bool)
    requires At(w, me, Pathed)
    modifies w
    ensures At(w, me, if ok then Stored else Failed)
    ensures ok ==> w.state.runs[me].snapshot == old(w.state.runs[me].snapshot)
    ensures ok ==> w.state.runs[me].steps == old(w.state.runs[me].steps) && BackupIsStored(w.state, w.state.runs[me])
    ensures ok && old(w.state.runs[me].seen) == "" ==> w.state.runs[me].content.FromFirewall?
    ensures ok && old(w.state.runs[me].seen) != "" ==>
              w.state.runs[me].filename == old(w.state.runs[me].seen) && w.state.runs[me].content.Blank?
    ensures old(w.Calm()) ==> ok && w.Calm()
    ensures old(w.Calm() && Newest(w, me)) ==> Newest(w, me)
  {
    hide w.Valid;
    if w.state.runs[me].seen == "" {
      var firewallAndTime: string := *;
      var name := "upgrade-backup/" + firewallAndTime + ".conf";
      var text: string := *;
      ok := w.Try(me, Fetch(name, text));
    } else {
      ok := w.Try(me, KeepBackup);
    }
    if !ok {
      return;
    }
    ok := WriteS3Data(w, me);
  }

  /** `updateFortigateUpgradeStatus`: refused when the run's copy of the resource is out of date. */
  method UpdateStatus(w: World, me: nat) returns (ok: bool)
    requires w.Valid() && me < |w.state.runs|
    requires w.state.runs[me].pc in {Stored, Snapped, Finishing}
    modifies w
    ensures At(w, me, if ok then AfterUpdate(old(w.state.runs[me].pc)) else Failed)
    ensures ok ==> w.state.runs[me].snapshot == old(w.state.runs[me].snapshot)
    ensures ok ==> w.state.runs[me].steps == old(w.state.runs[me].steps)
    ensures ok ==> w.state.runs[me].next == old(w.state.runs[me].next)
    ensures ok ==> w.state.runs[me].filename == old(w.state.runs[me].filename) && w.state.runs[me].persisted
    ensures ok ==> w.state.runs[me].confirmed == old(w.state.runs[me].confirmed)
    ensures ok ==> w.state.runs[me].sent == old(w.state.runs[me].sent)
    ensures ok ==> w.state.history != [] && Current(w.state) == w.state.runs[me].filename
    ensures ok ==> Newest(w, me)
    ensures old(w.Calm() && Newest(w, me)) ==> ok && w.Calm()
  {
    hide w.Valid;
    w.Others(me);
    if w.state.runs[me].version + 1 != |w.state.history| {
      w.Break(me);
      return false;
    }
    var lost := MayBeLost(w);
    ok := w.Try(me, Op.UpdateStatus(lost));
    ok := ok && !lost;
  }

  /** `triggerKubeVirtVMSnapshot`: one that the cache shows will do. */
  method TriggerSnapshot(w: World, me: nat) returns (ok: bool)
    requires At(w, me, Persisted)
    modifies w
    ensures At(w, me, if ok then Snapped else Failed)
    ensures ok ==> w.state.runs[me].snapshot == old(w.state.runs[me].snapshot)
    ensures ok ==> w.state.runs[me].steps == old(w.state.runs[me].steps)
    ensures ok ==> w.state.runs[me].confirmed
    ensures ok ==> w.state.runs[me].snapshot in w.state.taken
    ensures old(w.Calm()) ==> ok && w.Calm()
    ensures old(w.Calm() && Newest(w, me)) ==> Newest(w, me)
  {
    hide w.Valid;
    w.Others(me);
    SnapshotsTaken(w);
    var found := w.state.runs[me].snapshot in w.state.snapshots;
    var stale := MayBeLost(w);
    if stale {
      found := *;
      found := found && w.state.runs[me].snapshot in w.state.taken;
    }
    if found {
      ok := w.Try(me, SnapshotFound);
      StoredFacts(w, me);
      return;
    }
    ok := w.Try(me, SnapshotMissing);
    if !ok {
      return;
    }
    w.Others(me);
    if w.state.runs[me].snapshot in w.state.snapshots {
      w.Break(me);
      return false;
    }
    var lost := MayBeLost(w);
    ok := w.Try(me, CreateSnapshot(lost));
    ok := ok && !lost;
    StoredFacts(w, me);
  }

  /** `backupForUpgradeFirewall`: save, persist the name, then the snapshot. */
  method BackupForUpgradeFirewall(w: World, me: nat) returns (ok: bool)
    requires At(w, me, Pathed)
    modifies w
    ensures At(w, me, if ok then Snapped else Failed)
    ensures ok ==> w.state.runs[me].snapshot == old(w.state.runs[me].snapshot)
    ensures ok ==> w.state.runs[me].steps == old(w.state.runs[me].steps)
    ensures ok ==> BackupIsPersisted(w.state, w.state.runs[me]) && w.state.runs[me].snapshot in w.state.taken
    ensures old(w.Calm() && Newest(w, me)) ==> ok && w.Calm() && Newest(w, me)
  {
    ok := GetFwBackup(w, me);
    if !ok {
      return;
    }
    ok := UpdateStatus(w, me);
    if !ok {
      return;
    }
    ok := TriggerSnapshot(w, me);
    StoredFacts(w, me);
  }

  /** One version: send it, then delete the snapshot. */
  method UpgradeOnce(w: World, me: nat) returns (ok: bool)
    requires At(w, me, Ready) && w.state.runs[me].next < |w.state.runs[me].steps|
    modifies w
    ensures At(w, me, if ok then Ready else Failed)
    ensures ok ==> w.state.runs[me].snapshot == old(w.state.runs[me].snapshot)
    ensures ok ==> w.state.runs[me].steps == old(w.state.runs[me].steps)
    ensures ok ==> w.state.runs[me].next == old(w.state.runs[me].next) + 1
    ensures ok ==> w.state.runs[me].sent ==
                   old(w.state.runs[me].sent) + [old(w.state.runs[me].steps[w.state.runs[me].next])]
    ensures ok ==> w.state.runs[me].snapshot !in w.state.snapshots
    ensures old(w.Calm()) ==> ok && w.Calm()
    ensures old(w.Calm() && Newest(w, me)) ==> Newest(w, me)
  {
    hide w.Valid;
    w.Others(me);
    var lost := MayBeLost(w);
    ok := w.Try(me, Send(lost));
    ok := ok && !lost;
    if !ok {
      return;
    }
    w.Others(me);
    var lostDelete := MayBeLost(w);
    ok := w.Try(me, DeleteSnapshot(lostDelete));
    ok := ok && !lostDelete;
  }

  /** The loop over the path, which skips the first version. */
  method UpgradeAlong(w: World, me: nat) returns (ok: bool)
    requires At(w, me, Ready) && w.state.runs[me].next == 1
    modifies w
    ensures At(w, me, if ok then Ready else Failed)
    ensures ok ==> w.state.runs[me].snapshot == old(w.state.runs[me].snapshot)
    ensures ok ==> w.state.runs[me].steps == old(w.state.runs[me].steps)
    ensures ok ==> w.state.runs[me].next >= |w.state.runs[me].steps|
    ensures old(w.Calm()) ==> ok && w.Calm()
    ensures old(w.Calm() && Newest(w, me)) ==> Newest(w, me)
  {
    hide w.Valid;
    ok := true;
    var steps := w.state.runs[me].steps;
    for vd := 0 to |steps|
      invariant ok && At(w, me, Ready) && w.state.runs[me].steps == steps
      invariant w.state.runs[me].snapshot == old(w.state.runs[me].snapshot)
      invariant w.state.runs[me].next == if vd == 0 then 1 else vd
      invariant old(w.Calm()) ==> w.Calm()
      invariant old(w.Calm() && Newest(w, me)) ==> Newest(w, me)
    {
      if vd > 0 {
        ok := UpgradeOnce(w, me);
        if !ok {
          return;
        }
      }
    }
  }

  /** What `doReconcile` does with a path: back up, write the status again, go along the path. */
  method UpgradeByPath(w: World, me: nat) returns (ok: bool)
    requires At(w, me, Pathed)
    modifies w
    ensures At(w, me, if ok then Finishing else Failed)
    ensures ok ==> w.state.runs[me].snapshot == old(w.state.runs[me].snapshot)
    ensures ok ==> w.state.runs[me].steps == old(w.state.runs[me].steps)
    ensures ok ==> w.state.runs[me].sent == Rest(w.state.runs[me].steps)
    ensures ok ==> w.state.runs[me].filename != "" && w.state.runs[me].confirmed
    ensures old(w.Calm() && Newest(w, me)) ==> ok && w.Calm() && Newest(w, me)
  {
    hide w.Valid, w.Calm, RunOk, Rest;
    ok := BackupForUpgradeFirewall(w, me);
    if !ok {
      return;
    }
    NothingSentYet(w, me);
    ok := UpdateStatus(w, me);
    if !ok {
      return;
    }
    ok := UpgradeAlong(w, me);
    if !ok {
      return;
    }
    RunFacts(w, me);
    StoredFacts(w, me);
    ok := w.Try(me, EndOfPath);
    RunFacts(w, me);
  }

  /** `doReconcile`. Whether the firewall already runs the version, and which path leads to it, are
      answers from outside. */
  method DoReconcile(w: World, me: nat, upToDate: bool, steps: seq<string>, snapshot: string) returns (ok: bool)
    requires At(w, me, Started) && w.state.runs[me].next == 1
    modifies w
    ensures At(w, me, if ok then Finishing else Failed)
    ensures ok ==> w.state.runs[me].sent == Rest(w.state.runs[me].steps)
    ensures ok ==> w.state.runs[me].steps == (if upToDate then [] else steps)
    ensures ok && !upToDate ==>
              w.state.runs[me].filename != "" && w.state.runs[me].confirmed && w.state.runs[me].snapshot == snapshot
    ensures old(w.Calm() && Newest(w, me)) ==> ok && w.Calm() && Newest(w, me)
  {
    hide w.Valid, w.Calm, RunOk, Rest;
    RunFacts(w, me);
    if upToDate {
      ok := w.Try(me, UpToDate);
      RunFacts(w, me);
      return;
    }
    ok := w.Try(me, FindPath(steps, snapshot));
    if !ok {
      return;
    }
    ok := UpgradeByPath(w, me);
  }

  lemma SnapshotsTaken(w: World)
    requires w.Valid()
    ensures w.state.snapshots <= w.state.taken
  {
    SnapshotsWereTaken(w.start, w.actions);
  }

  lemma NothingSentYet(w: World, me: nat)
    requires w.Valid() && me < |w.state.runs| && w.state.runs[me].pc in {Pathed, Snapped}
    ensures w.state.runs[me].next == 1
  {
    RunFacts(w, me);
  }

  /** `Reconcile`, from the read of the resource, which may be stale, to the last status write. When it
      ends well the whole path after its first version has been sent, in order, with the backup's name
      in the status and a snapshot confirmed before the first of them. It does end well when it reads the
      newest version and nothing disturbs it. */
  method Reconcile(w: World, version: nat, upToDate: bool, steps: seq<string>, snapshot: string)
    returns (me: nat, ok: bool)
    requires w.Valid() && version < |w.state.history|
    modifies w
    ensures At(w, me, if ok then Done else Failed)
    ensures old(w.Calm()) && version + 1 == old(|w.state.history|) ==> ok
    ensures ok ==> w.state.runs[me].sent == (if upToDate || steps == [] then [] else steps[1..])
    ensures ok && !upToDate ==> BackupIsPersisted(w.state, w.state.runs[me]) && snapshot in w.state.taken
    ensures w.state.runs[me].sent <= Rest(w.state.runs[me].steps)
    ensures w.state.runs[me].sent != [] ==> w.state.runs[me].persisted && w.state.runs[me].confirmed
  {
    hide w.Valid;
    me := |w.state.runs|;
    w.Take(Start(version));
    ok := DoReconcile(w, me, upToDate, steps, snapshot);
    if ok {
      ok := UpdateStatus(w, me);
    }
    SentIsSafe(w, me);
    PersistedFacts(w, me);
  }

  lemma PersistedFacts(w: World, me: nat)
    requires w.Valid() && me < |w.state.runs|
    ensures var run := w.state.runs[me];
            && (run.confirmed ==> run.snapshot in w.state.taken)
            && (run.persisted && run.filename != "" ==> BackupIsPersisted(w.state, run))
  {
    RunFacts(w, me);
    assert HistoryOk(w.state) && w.state.history[|w.state.history| - 1] == Current(w.state);
  }

  lemma SentIsSafe(w: World, me: nat)
    requires w.Valid() && me < |w.state.runs|
    ensures var run := w.state.runs[me];
            && run.sent <= Rest(run.steps)
            && (run.sent != [] ==> run.persisted && run.confirmed)
            && (run.pc.Done? ==> run.sent == Rest(run.steps))
  {
    UpgradesAreSafeAndInOrder(w.start, w.actions, me);
  }
}
