/** A run of the upgrade machine that nothing disturbs ends well, whatever happened before. */
module UpgradeProgress {
  import opened UpgradeProtocol

  /** After `actions`, run `r` stands at `pc`, holds the newest version and has this path and snapshot. */
  ghost predicate Stands(s: State, actions: seq<Action>, r: nat, pc: Pc, steps: seq<string>, snapshot: string) {
    && Possible(s, actions) && r < |After(s, actions).runs|
    && var t, run := After(s, actions), After(s, actions).runs[r];
       run.pc == pc && run.version + 1 == |t.history| && run.steps == steps && run.snapshot == snapshot
  }

  /** Up to the backup in hand: fetched, or named in the status. */
  lemma CanFetch(s: State, actions: seq<Action>, r: nat, steps: seq<string>, snapshot: string, name: string,
                 text: string) returns (all: seq<Action>)
    requires Init(s) && Possible(s, actions) && r < |After(s, actions).runs| && name != ""
    requires After(s, actions).runs[r].pc.Started?
    requires After(s, actions).runs[r].version + 1 == |After(s, actions).history|
    ensures actions <= all && Stands(s, all, r, Fetched, steps, snapshot)
  {
    hide Possible, After;
    all := actions + [Step(r, FindPath(steps, snapshot))];
    StepLast(s, actions, Step(r, FindPath(steps, snapshot)));
    var seen := After(s, all).runs[r].seen;
    var get := if seen == "" then Fetch(name, text) else KeepBackup;
    StepLast(s, all, Step(r, get));
    all := all + [Step(r, get)];
  }

  /** Up to the backup in the store: put there, or found there. */
  lemma CanStore(s: State, actions: seq<Action>, r: nat, steps: seq<string>, snapshot: string)
    returns (all: seq<Action>)
    requires Init(s) && Stands(s, actions, r, Fetched, steps, snapshot)
    ensures actions <= all && Stands(s, all, r, Stored, steps, snapshot)
  {
    hide Possible, After;
    all := actions;
    if After(s, all).runs[r].filename in After(s, all).store {
      StepLast(s, all, Step(r, HeadFound));
      all := all + [Step(r, HeadFound)];
    } else {
      StepLast(s, all, Step(r, HeadMissing));
      all := all + [Step(r, HeadMissing)];
      StepLast(s, all, Step(r, Put(false)));
      all := all + [Step(r, Put(false))];
    }
  }

  /** The name reaches the status. */
  lemma CanPersist(s: State, actions: seq<Action>, r: nat, pc: Pc, steps: seq<string>, snapshot: string)
    returns (all: seq<Action>)
    requires Init(s) && Stands(s, actions, r, pc, steps, snapshot) && (pc.Stored? || pc.Snapped?)
    ensures actions <= all && Stands(s, all, r, AfterUpdate(pc), steps, snapshot)
    ensures After(s, all).runs[r].next == After(s, actions).runs[r].next
  {
    hide Possible, After;
    StepLast(s, actions, Step(r, UpdateStatus(false)));
    all := actions + [Step(r, UpdateStatus(false))];
  }

  /** A snapshot is found or taken. */
  lemma CanSnapshot(s: State, actions: seq<Action>, r: nat, steps: seq<string>, snapshot: string)
    returns (all: seq<Action>)
    requires Init(s) && Stands(s, actions, r, Persisted, steps, snapshot)
    ensures actions <= all && Stands(s, all, r, Snapped, steps, snapshot)
  {
    hide Possible, After;
    all := actions;
    if snapshot in After(s, all).taken {
      StepLast(s, all, Step(r, SnapshotFound));
      all := all + [Step(r, SnapshotFound)];
    } else {
      SnapshotsWereTaken(s, all);
      StepLast(s, all, Step(r, SnapshotMissing));
      all := all + [Step(r, SnapshotMissing)];
      StepLast(s, all, Step(r, CreateSnapshot(false)));
      all := all + [Step(r, CreateSnapshot(false))];
    }
  }

  lemma FirstIsNext(s: State, actions: seq<Action>, r: nat)
    requires Init(s) && Possible(s, actions) && r < |After(s, actions).runs|
    requires After(s, actions).runs[r].pc in {Pathed, Snapped}
    ensures After(s, actions).runs[r].next == 1
  {
    InitOk(s);
    InvAfter(s, actions);
  }

  /** Every version that is left, one after the other. */
  lemma {:induction false} CanSendAll(s: State, actions: seq<Action>, r: nat, steps: seq<string>, snapshot: string)
    returns (all: seq<Action>)
    requires Init(s) && Stands(s, actions, r, Ready, steps, snapshot)
    ensures actions <= all && Stands(s, all, r, Ready, steps, snapshot) && After(s, all).runs[r].next >= |steps|
    decreases |steps| - After(s, actions).runs[r].next
  {
    hide Possible, After;
    all := actions;
    var next := After(s, actions).runs[r].next;
    if next < |steps| {
      StepLast(s, all, Step(r, Send(false)));
      all := all + [Step(r, Send(false))];
      StepLast(s, all, Step(r, DeleteSnapshot(false)));
      all := all + [Step(r, DeleteSnapshot(false))];
      all := CanSendAll(s, all, r, steps, snapshot);
    }
  }

  lemma CanFinish(s: State, actions: seq<Action>, r: nat, steps: seq<string>, snapshot: string)
    returns (all: seq<Action>)
    requires Init(s) && Stands(s, actions, r, Ready, steps, snapshot) && After(s, actions).runs[r].next >= |steps|
    ensures actions <= all && Stands(s, all, r, Done, steps, snapshot)
    ensures After(s, all).runs[r].filename != "" && After(s, all).runs[r].persisted && After(s, all).runs[r].confirmed
  {
    hide Possible, After;
    InitOk(s);
    InvAfter(s, actions);
    assert RunOk(After(s, actions), After(s, actions).runs[r]) && SentOk(After(s, actions).runs[r]);
    StepLast(s, actions, Step(r, EndOfPath));
    all := actions + [Step(r, EndOfPath)];
    StepLast(s, all, Step(r, UpdateStatus(false)));
    all := all + [Step(r, UpdateStatus(false))];
  }

  /** From every reachable state, a run that has just started from the newest version can end well with any
      path: every version after the first is sent, in order, its backup is in the store and named in the
      status, and a snapshot of its name has been taken. */
  lemma EveryRunCanEndWell(s: State, actions: seq<Action>, r: nat, steps: seq<string>, snapshot: string, name: string,
                           text: string) returns (more: seq<Action>)
    requires Init(s) && Possible(s, actions) && r < |After(s, actions).runs| && name != ""
    requires After(s, actions).runs[r].pc.Started?
    requires After(s, actions).runs[r].version + 1 == |After(s, actions).history|
    ensures Possible(s, actions + more) && r < |After(s, actions + more).runs|
    ensures After(s, actions + more).history != []
    ensures var t, run := After(s, actions + more), After(s, actions + more).runs[r];
            && run.pc.Done? && run.steps == steps && run.sent == (if steps == [] then [] else steps[1..])
            && run.filename != "" && Current(t) == run.filename && run.filename in t.store
            && run.snapshot == snapshot && snapshot in t.taken
  {
    hide Possible, After;
    var fetched := CanFetch(s, actions, r, steps, snapshot, name, text);
    var stored := CanStore(s, fetched, r, steps, snapshot);
    var persisted := CanPersist(s, stored, r, Stored, steps, snapshot);
    var snapped := CanSnapshot(s, persisted, r, steps, snapshot);
    FirstIsNext(s, snapped, r);
    var ready := CanPersist(s, snapped, r, Snapped, steps, snapshot);
    var sent := CanSendAll(s, ready, r, steps, snapshot);
    var all := CanFinish(s, sent, r, steps, snapshot);
    more := all[|actions|..];
    assert actions + more == all;
    InitOk(s);
    InvAfter(s, all);
    UpgradesAreSafeAndInOrder(s, all, r);
    var t := After(s, all);
    assert RunOk(t, t.runs[r]);
    assert t.history[|t.history| - 1] in t.store;
  }
}
