/** The firmware upgrade as a machine: every step of every reconcile run, with crashes, lost replies,
    stale reads and any number of runs interleaved. */
module UpgradeProtocol {

  /** What a run wants to store: a configuration fetched from the firewall, or the empty text it has in
      hand when the status already names a backup. */
  datatype Content = FromFirewall(text: string) | Blank

  /** Where a run stands in `Reconcile`. */
  datatype Pc =
    | Started     // the FortigateUpdate has been read
    | Pathed      // the upgrade path is known, nothing is backed up yet
    | Fetched     // the backup's name and content are in hand
    | Putting     // the store has no object of that name
    | Stored      // the store has an object of that name
    | Persisted   // the backup's name is in the status
    | Creating    // no snapshot of that name was found
    | Snapped     // a snapshot was found or created
    | Ready       // between two upgrade steps
    | Sending     // a version has been sent, the snapshot is to be deleted
    | Finishing   // only the last status write is left
    | Done
    | Failed      // returned an error, or crashed

  /** One run of `Reconcile`: the version and backup name it read, and what it has computed since. */
  datatype Run = Run(pc: Pc, version: nat, seen: string, filename: string, content: Content, snapshot: string,
                     steps: seq<string>, next: nat, sent: seq<string>, persisted: bool, confirmed: bool)

  /** `history[v]` is the backup name in the status at resource version `v`; `snapshots` are the snapshots
      there are, `taken` the names of all there have ever been. */
  datatype State = State(history: seq<string>, store: map<string, Content>, snapshots: set<string>, taken: set<string>,
                         runs: seq<Run>)

  /** What one run does next. With `lost`, the request takes effect but its reply does not arrive. */
  datatype Op =
    | UpToDate
    | FindPath(steps: seq<string>, snapshot: string)
    | Fetch(name: string, text: string)
    | KeepBackup
    | HeadFound
    | HeadMissing
    | Put(lost: bool)
    | UpdateStatus(lost: bool)
    | SnapshotFound
    | SnapshotMissing
    | CreateSnapshot(lost: bool)
    | Send(lost: bool)
    | DeleteSnapshot(lost: bool)
    | EndOfPath
    | Fail

  /** A step of run `r`, or of the world around the runs: a run starts from any version ever written
      (its cache may be stale), another client writes the resource without touching the backup name, a
      snapshot disappears. */
  datatype Action = Step(r: nat, op: Op) | Start(version: nat) | Touch | LoseSnapshot(name: string)

  function Current(s: State): string
    requires s.history != []
  {
    s.history[|s.history| - 1]
  }

  /** When a run can take a step. A status write needs the version the run holds to be the current one.
      Snapshots are looked up in a cache: one that is found was there at some time, and one that is not
      found may be there all the same. */
  predicate CanStep(s: State, run: Run, op: Op) {
    match op
    case UpToDate => run.pc.Started?
    case FindPath(_, _) => run.pc.Started?
    case Fetch(name, _) => run.pc.Pathed? && run.seen == "" && name != ""
    case KeepBackup => run.pc.Pathed? && run.seen != ""
    case HeadFound => run.pc.Fetched? && run.filename in s.store
    case HeadMissing => run.pc.Fetched? && run.filename !in s.store
    case Put(_) => run.pc.Putting?
    case UpdateStatus(_) => (run.pc.Stored? || run.pc.Snapped? || run.pc.Finishing?) && run.version + 1 == |s.history|
    case SnapshotFound => run.pc.Persisted? && run.snapshot in s.taken
    case SnapshotMissing => run.pc.Persisted?
    case CreateSnapshot(_) => run.pc.Creating? && run.snapshot !in s.snapshots
    case Send(_) => run.pc.Ready? && run.next < |run.steps|
    case DeleteSnapshot(_) => run.pc.Sending?
    case EndOfPath => run.pc.Ready? && run.next >= |run.steps|
    case Fail => !run.pc.Done?
  }

  function Unless(lost: bool, pc: Pc): Pc {
    if lost then Failed else pc
  }

  function AfterUpdate(pc: Pc): Pc {
    if pc.Stored? then Persisted else if pc.Snapped? then Ready else Done
  }

  function NextRun(s: State, run: Run, op: Op): Run
    requires CanStep(s, run, op)
  {
    match op
    case UpToDate => run.(pc := Finishing, filename := run.seen)
    case FindPath(steps, snapshot) => run.(pc := Pathed, steps := steps, snapshot := snapshot)
    case Fetch(name, text) => run.(pc := Fetched, filename := name, content := FromFirewall(text))
    case KeepBackup => run.(pc := Fetched, filename := run.seen, content := Blank)
    case HeadFound => run.(pc := Stored)
    case HeadMissing => run.(pc := Putting)
    case Put(lost) => run.(pc := Unless(lost, Stored))
    case UpdateStatus(lost) =>
      run.(pc := Unless(lost, AfterUpdate(run.pc)), version := |s.history|, seen := run.filename, persisted := true)
    case SnapshotFound => run.(pc := Snapped, confirmed := true)
    case SnapshotMissing => run.(pc := Creating)
    case CreateSnapshot(lost) => run.(pc := Unless(lost, Snapped), confirmed := true)
    case Send(lost) => run.(pc := Unless(lost, Sending), sent := run.sent + [run.steps[run.next]])
    case DeleteSnapshot(lost) => run.(pc := Unless(lost, Ready), next := run.next + 1)
    case EndOfPath => run.(pc := Finishing)
    case Fail => run.(pc := Failed)
  }

  function NextHistory(s: State, run: Run, op: Op): seq<string> {
    if op.UpdateStatus? then s.history + [run.filename] else s.history
  }

  function NextStore(s: State, run: Run, op: Op): map<string, Content> {
    if op.Put? then s.store[run.filename := run.content] else s.store
  }

  function NextSnapshots(s: State, run: Run, op: Op): set<string> {
    if op.CreateSnapshot? then s.snapshots + {run.snapshot}
    else if op.DeleteSnapshot? then s.snapshots - {run.snapshot}
    else s.snapshots
  }

  function NextTaken(s: State, run: Run, op: Op): set<string> {
    if op.CreateSnapshot? then s.taken + {run.snapshot} else s.taken
  }

  predicate Enabled(s: State, a: Action) {
    match a
    case Step(r, op) => r < |s.runs| && CanStep(s, s.runs[r], op)
    case Start(v) => v < |s.history|
    case Touch => s.history != []
    case LoseSnapshot(_) => true
  }

  function NewRun(s: State, v: nat): Run
    requires v < |s.history|
  {
    Run(Started, v, s.history[v], "", Blank, "", [], 1, [], false, false)
  }

  function Apply(s: State, a: Action): State
    requires Enabled(s, a)
  {
    match a
    case Step(r, op) =>
      var run := s.runs[r];
      State(NextHistory(s, run, op), NextStore(s, run, op), NextSnapshots(s, run, op), NextTaken(s, run, op),
            s.runs[r := NextRun(s, run, op)])
    case Start(v) => s.(runs := s.runs + [NewRun(s, v)])
    case Touch => s.(history := s.history + [Current(s)])
    case LoseSnapshot(name) => s.(snapshots := s.snapshots - {name})
  }

  // ---- Runs of the machine ---------------------------------------------------------------------

  /** A fresh resource, no run started, and in the backup folder only what backups put there. */
  ghost predicate Init(s: State) {
    s.history == [""] && s.runs == [] && s.snapshots <= s.taken && forall n :: n in s.store ==> s.store[n].FromFirewall?
  }

  ghost predicate Possible(s: State, actions: seq<Action>)
    decreases |actions|
  {
    actions == [] || (Enabled(s, actions[0]) && Possible(Apply(s, actions[0]), actions[1..]))
  }

  ghost function After(s: State, actions: seq<Action>): State
    requires Possible(s, actions)
    decreases |actions|
  {
    if actions == [] then s else After(Apply(s, actions[0]), actions[1..])
  }

  // ---- The invariant ---------------------------------------------------------------------------

  /** A name that a status version holds names a stored object, and every later version holds it too. */
  ghost predicate HistoryOk(s: State) {
    && s.history != []
    && (forall v :: 0 <= v < |s.history| && s.history[v] != "" ==> s.history[v] in s.store)
    && (forall v, w :: 0 <= v <= w < |s.history| && s.history[v] != "" ==> s.history[w] == s.history[v])
  }

  ghost predicate StoreOk(s: State) {
    s.snapshots <= s.taken && forall n :: n in s.store ==> s.store[n].FromFirewall?
  }

  /** Has the run, at `pc`, the name of its backup in hand? */
  predicate HasName(pc: Pc) {
    pc.Fetched? || pc.Putting? || pc.Stored? || HasPersisted(pc)
  }

  predicate HasPersisted(pc: Pc) {
    pc.Persisted? || pc.Creating? || pc.Snapped? || pc.Ready? || pc.Sending?
  }

  ghost predicate RunOk(s: State, run: Run)
    requires s.history != []
  {
    && run.version < |s.history| && run.seen == s.history[run.version]
    && (HasName(run.pc) ==> run.filename != "" && (run.seen != "" ==> run.filename == run.seen))
    && (HasName(run.pc) && run.content.Blank? ==> run.seen != "")
    && (run.pc.Putting? ==> run.content.FromFirewall?)
    && (run.pc.Stored? || HasPersisted(run.pc) ==> run.filename in s.store)
    && (HasPersisted(run.pc) ==> Current(s) == run.filename == run.seen)
    && (run.pc.Finishing? ==> run.filename == run.seen)
    && (run.sent != [] ==> run.filename != "" && Current(s) == run.filename)
    && (run.confirmed ==> run.snapshot in s.taken)
    && (run.persisted && run.filename != "" ==> Current(s) == run.filename)
  }

  /** The versions of the path after the first, which is the one the firewall runs. */
  function Rest(steps: seq<string>): seq<string> {
    if steps == [] then [] else steps[1..]
  }

  /** What has been sent is the versions of the path after the first, in order, none skipped, and
      nothing was sent before the name was persisted and the snapshot was there. */
  ghost predicate SentOk(run: Run) {
    && run.sent <= Rest(run.steps) && run.next >= 1
    && (run.sent != [] ==> run.persisted && run.confirmed)
    && (HasPersisted(run.pc) ==> run.persisted)
    && match run.pc
       case Snapped => run.confirmed && run.sent == [] && run.next == 1
       case Ready => run.confirmed && |run.sent| == run.next - 1
       case Sending => run.confirmed && |run.sent| == run.next && run.next < |run.steps|
       case Finishing => run.sent == Rest(run.steps)
       case Done => run.sent == Rest(run.steps)
       case Failed => true
       case Started => run.sent == [] && run.next == 1 && run.steps == [] && !run.confirmed && !run.persisted
       case Pathed => run.sent == [] && run.next == 1 && !run.persisted
       case _ => run.sent == [] && run.next == 1
  }

  ghost predicate RunsOk(s: State)
    requires s.history != []
  {
    forall r :: 0 <= r < |s.runs| ==> RunOk(s, s.runs[r]) && SentOk(s.runs[r])
  }

  ghost predicate Inv(s: State) {
    HistoryOk(s) && StoreOk(s) && RunsOk(s)
  }

  /** What no step undoes. */
  ghost predicate Extends(s: State, t: State)
    requires s.history != [] && t.history != []
  {
    && s.history <= t.history
    && s.store.Keys <= t.store.Keys
    && s.taken <= t.taken
    && (Current(s) != "" ==> Current(t) == Current(s))
  }

  lemma RunOkCarriesOver(s: State, t: State, run: Run)
    requires s.history != [] && t.history != [] && Extends(s, t) && HistoryOk(s) && RunOk(s, run)
    ensures RunOk(t, run)
  {
  }

  lemma StepSent(s: State, run: Run, op: Op)
    requires SentOk(run) && CanStep(s, run, op)
    ensures SentOk(NextRun(s, run, op))
  {
    if op.Send? {
      assert run.steps[run.next] == Rest(run.steps)[|run.sent|];
    }
  }

  /** A status write that goes through keeps a name that is already there: a run that holds the current
      version holds the current name, and a run that was given a name saved no other. */
  lemma StepExtends(s: State, run: Run, op: Op, t: State)
    requires HistoryOk(s) && StoreOk(s) && RunOk(s, run) && CanStep(s, run, op)
    requires t.history == NextHistory(s, run, op) && t.store == NextStore(s, run, op)
    requires t.taken == NextTaken(s, run, op) && t.snapshots == NextSnapshots(s, run, op)
    ensures HistoryOk(t) && StoreOk(t) && Extends(s, t)
  {
    hide NextRun;
  }

  lemma StepRunOk(s: State, run: Run, op: Op, t: State)
    requires HistoryOk(s) && RunOk(s, run) && SentOk(run) && CanStep(s, run, op)
    requires t.history == NextHistory(s, run, op) && t.store == NextStore(s, run, op)
    requires t.taken == NextTaken(s, run, op)
    requires t.history != [] && Extends(s, t)
    ensures RunOk(t, NextRun(s, run, op))
  {
    hide Rest;
  }

  lemma InvStep(s: State, a: Action)
    requires Inv(s) && Enabled(s, a)
    ensures Inv(Apply(s, a)) && Extends(s, Apply(s, a))
  {
    hide RunOk, SentOk, CanStep, NextRun, NextHistory, NextStore, NextSnapshots, NextTaken;
    var t := Apply(s, a);
    match a {
      case Step(r, op) =>
        StepExtends(s, s.runs[r], op, t);
        StepRunOk(s, s.runs[r], op, t);
        StepSent(s, s.runs[r], op);
      case Start(v) => StartIsOk(s, v);
      case Touch => TouchIsOk(s, t);
      case LoseSnapshot(_) =>
    }
    forall i | 0 <= i < |s.runs|
      ensures RunOk(t, s.runs[i])
    {
      RunOkCarriesOver(s, t, s.runs[i]);
    }
  }

  lemma StartIsOk(s: State, v: nat)
    requires HistoryOk(s) && v < |s.history|
    ensures RunOk(s, NewRun(s, v)) && SentOk(NewRun(s, v))
    ensures RunOk(Apply(s, Start(v)), NewRun(s, v))
  {
  }

  lemma TouchIsOk(s: State, t: State)
    requires HistoryOk(s) && t == s.(history := s.history + [Current(s)])
    ensures HistoryOk(t) && Extends(s, t)
  {
  }

  // ---- Over every run of the machine -----------------------------------------------------------

  lemma {:induction false} InvAfter(s: State, actions: seq<Action>)
    requires Inv(s) && Possible(s, actions)
    ensures Inv(After(s, actions)) && Extends(s, After(s, actions))
    decreases |actions|
  {
    hide StoreOk, RunsOk, Apply, Enabled, Extends;
    if actions == [] {
      ExtendsItself(s);
    } else {
      var t := Apply(s, actions[0]);
      InvStep(s, actions[0]);
      InvAfter(t, actions[1..]);
      ExtendsFurther(s, t, After(t, actions[1..]));
    }
  }

  lemma ExtendsItself(s: State)
    requires HistoryOk(s)
    ensures s.history != [] && Extends(s, s)
  {
  }

  lemma ExtendsFurther(s: State, t: State, u: State)
    requires s.history != [] && t.history != [] && u.history != [] && Extends(s, t) && Extends(t, u)
    ensures Extends(s, u)
  {
  }

  lemma InitOk(s: State)
    requires Init(s)
    ensures Inv(s)
  {
  }

  lemma {:induction false} AfterConcat(s: State, a: seq<Action>, b: seq<Action>)
    requires Possible(s, a) && Possible(After(s, a), b)
    ensures Possible(s, a + b) && After(s, a + b) == After(After(s, a), b)
    decreases |a|
  {
    hide Apply, Enabled;
    if a == [] {
      assert a + b == b;
    } else {
      assert (a + b)[1..] == a[1..] + b;
      AfterConcat(Apply(s, a[0]), a[1..], b);
    }
  }

  /** A backup name that has reached the status stays there, through every crash, retry, stale read and
      interleaving, and names a stored object whose content was fetched from the firewall. */
  lemma BackupNameIsForever(s: State, earlier: seq<Action>, later: seq<Action>)
    requires Init(s) && Possible(s, earlier) && Possible(After(s, earlier), later)
    ensures After(s, earlier).history != [] && After(After(s, earlier), later).history != []
    ensures var x, y := After(s, earlier), After(After(s, earlier), later);
            var name := Current(x);
            && x.history <= y.history
            && (name != "" ==> Current(y) == name && name in y.store && y.store[name].FromFirewall?)
  {
    InitOk(s);
    InvAfter(s, earlier);
    InvAfter(After(s, earlier), later);
  }

  /** A run that re-saves a backup with empty content always finds the object there: it never creates
      or overwrites one. */
  lemma EmptyContentIsNeverWritten(s: State, actions: seq<Action>, r: nat)
    requires Init(s) && Possible(s, actions) && r < |After(s, actions).runs|
    ensures var t := After(s, actions);
            var run := t.runs[r];
            && (run.pc.Putting? ==> run.content.FromFirewall?)
            && (run.pc.Fetched? && run.content.Blank? ==> CanStep(t, run, HeadFound) && !CanStep(t, run, HeadMissing))
  {
    InitOk(s);
    InvAfter(s, actions);
  }

  /** No version is sent before the backup's name is in the status and the snapshot was created or found, so
      that the stored backup is there and the snapshot has really been taken. What is sent is an in-order
      prefix of the path after its first version, and all of it when the run ends well. */
  lemma UpgradesAreSafeAndInOrder(s: State, actions: seq<Action>, r: nat)
    requires Init(s) && Possible(s, actions) && r < |After(s, actions).runs|
    ensures After(s, actions).history != []
    ensures var t := After(s, actions);
            var run := t.runs[r];
            && run.sent <= Rest(run.steps)
            && (run.sent != [] ==>
                  && run.persisted && run.confirmed
                  && run.filename != "" && Current(t) == run.filename && run.filename in t.store
                  && run.snapshot in t.taken)
            && (run.pc.Done? ==> run.sent == Rest(run.steps))
  {
    InitOk(s);
    InvAfter(s, actions);
  }

  /** A run that ends well has sent nothing exactly when its path has at most one version: the firewall was up
      to date, or the path found for it had no steps. */
  lemma NothingSentIff(s: State, actions: seq<Action>, r: nat)
    requires Init(s) && Possible(s, actions) && r < |After(s, actions).runs|
    requires After(s, actions).runs[r].pc.Done?
    ensures var run := After(s, actions).runs[r];
            run.sent == [] <==> |run.steps| <= 1
  {
    UpgradesAreSafeAndInOrder(s, actions, r);
  }

  /** One more step in front of a run that is possible. */
  lemma StepFirst(s: State, a: Action, rest: seq<Action>)
    requires Enabled(s, a) && Possible(Apply(s, a), rest)
    ensures Possible(s, [a] + rest) && After(s, [a] + rest) == After(Apply(s, a), rest)
  {
    hide Enabled, Apply;
    assert ([a] + rest)[1..] == rest;
  }

  /** A run that is given a path without steps fetches the firewall's configuration. */
  lemma EmptyPathFetches(s: State) returns (actions: seq<Action>)
    requires s == State([""], map[], {}, {}, [])
    ensures Possible(s, actions)
    ensures After(s, actions) == State([""], map[], {}, {}, [
                Run(Fetched, 0, "", "b", FromFirewall("c"), "snapshot", [], 1, [], false, false)])
  {
    var s1 := Apply(s, Start(0));
    var s2 := Apply(s1, Step(0, FindPath([], "snapshot")));
    var s3 := Apply(s2, Step(0, Fetch("b", "c")));
    hide Apply;
    actions := [];
    StepFirst(s2, Step(0, Fetch("b", "c")), actions);
    actions := [Step(0, Fetch("b", "c"))] + actions;
    StepFirst(s1, Step(0, FindPath([], "snapshot")), actions);
    actions := [Step(0, FindPath([], "snapshot"))] + actions;
    StepFirst(s, Start(0), actions);
    actions := [Start(0)] + actions;
  }

  /** It stores the configuration and persists its name. */
  lemma EmptyPathBacksUp(s: State) returns (actions: seq<Action>)
    requires s == State([""], map[], {}, {}, [])
    ensures Possible(s, actions)
    ensures After(s, actions) == State(["", "b"], map["b" := FromFirewall("c")], {}, {}, [
                Run(Persisted, 1, "b", "b", FromFirewall("c"), "snapshot", [], 1, [], true, false)])
  {
    var first := EmptyPathFetches(s);
    var t := After(s, first);
    var t1 := Apply(t, Step(0, HeadMissing));
    var t2 := Apply(t1, Step(0, Put(false)));
    var t3 := Apply(t2, Step(0, UpdateStatus(false)));
    hide Apply;
    var rest: seq<Action> := [];
    StepFirst(t2, Step(0, UpdateStatus(false)), rest);
    rest := [Step(0, UpdateStatus(false))] + rest;
    StepFirst(t1, Step(0, Put(false)), rest);
    rest := [Step(0, Put(false))] + rest;
    StepFirst(t, Step(0, HeadMissing), rest);
    rest := [Step(0, HeadMissing)] + rest;
    actions := first + rest;
    AfterConcat(s, first, rest);
  }

  /** And it ends well, with a snapshot taken and nothing sent. */
  lemma EmptyPathEndsWell(s: State) returns (actions: seq<Action>)
    requires s == State([""], map[], {}, {}, [])
    ensures Init(s) && Possible(s, actions) && |After(s, actions).runs| == 1
    ensures var run := After(s, actions).runs[0];
            run.pc.Done? && run.persisted && run.confirmed && run.steps == [] && run.sent == []
  {
    var first := EmptyPathBacksUp(s);
    var t := After(s, first);
    var t1 := Apply(t, Step(0, SnapshotMissing));
    var t2 := Apply(t1, Step(0, CreateSnapshot(false)));
    var t3 := Apply(t2, Step(0, UpdateStatus(false)));
    var t4 := Apply(t3, Step(0, EndOfPath));
    var t5 := Apply(t4, Step(0, UpdateStatus(false)));
    assert t5.runs[0].pc.Done? && t5.runs[0].confirmed && t5.runs[0].persisted;
    hide Apply;
    var rest: seq<Action> := [];
    StepFirst(t4, Step(0, UpdateStatus(false)), rest);
    rest := [Step(0, UpdateStatus(false))] + rest;
    StepFirst(t3, Step(0, EndOfPath), rest);
    rest := [Step(0, EndOfPath)] + rest;
    StepFirst(t2, Step(0, UpdateStatus(false)), rest);
    rest := [Step(0, UpdateStatus(false))] + rest;
    StepFirst(t1, Step(0, CreateSnapshot(false)), rest);
    rest := [Step(0, CreateSnapshot(false))] + rest;
    StepFirst(t, Step(0, SnapshotMissing), rest);
    rest := [Step(0, SnapshotMissing)] + rest;
    actions := first + rest;
    AfterConcat(s, first, rest);
  }

  /** One more step at the end of a run of the machine. */
  lemma StepLast(s: State, actions: seq<Action>, a: Action)
    requires Possible(s, actions) && Enabled(After(s, actions), a)
    ensures Possible(s, actions + [a]) && After(s, actions + [a]) == Apply(After(s, actions), a)
  {
    hide Enabled, Apply;
    assert [a][1..] == [];
    assert Possible(After(s, actions), [a]);
    AfterConcat(s, actions, [a]);
  }

  lemma SnapshotsWereTaken(s: State, actions: seq<Action>)
    requires Init(s) && Possible(s, actions)
    ensures After(s, actions).snapshots <= After(s, actions).taken
  {
    InitOk(s);
    InvAfter(s, actions);
  }

  // ---- What a failure leaves in the status -----------------------------------------------------

  /** A status write of a run that had the name `n` in hand went through. */
  ghost predicate NameWritten(s: State, n: string) {
    exists r :: 0 <= r < |s.runs| && s.runs[r].persisted && s.runs[r].filename == n
  }

  lemma NameWrittenStep(s: State, a: Action)
    requires Inv(s) && Enabled(s, a) && (Current(s) != "" ==> NameWritten(s, Current(s)))
    ensures var t := Apply(s, a);
            t.history != [] && (Current(t) != "" ==> NameWritten(t, Current(t)))
  {
    hide RunOk;
    var t := Apply(s, a);
    if a.Step? && a.op.UpdateStatus? {
      assert t.runs[a.r].persisted && t.runs[a.r].filename == Current(t);
    } else if Current(s) != "" {
      var r :| 0 <= r < |s.runs| && s.runs[r].persisted && s.runs[r].filename == Current(s);
      PersistedStays(s, r, a);
      assert t.runs[r].persisted && t.runs[r].filename == Current(t);
    }
  }

  lemma PersistedStays(s: State, r: nat, a: Action)
    requires Inv(s) && Enabled(s, a) && r < |s.runs| && s.runs[r].persisted && s.runs[r].filename != ""
    requires !(a.Step? && a.op.UpdateStatus?)
    ensures r < |Apply(s, a).runs| && Apply(s, a).runs[r].persisted
    ensures Apply(s, a).runs[r].filename == s.runs[r].filename
  {
    hide RunOk, HistoryOk;
    assert SentOk(s.runs[r]);
  }

  lemma {:induction false} NameWrittenAfter(s: State, actions: seq<Action>)
    requires Inv(s) && Possible(s, actions) && (Current(s) != "" ==> NameWritten(s, Current(s)))
    ensures var t := After(s, actions);
            Inv(t) && (Current(t) != "" ==> NameWritten(t, Current(t)))
    decreases |actions|
  {
    hide Inv, Apply, Enabled, NameWritten;
    if actions != [] {
      InvStep(s, actions[0]);
      NameWrittenStep(s, actions[0]);
      NameWrittenAfter(Apply(s, actions[0]), actions[1..]);
    }
  }

  /** The status names the backup `n` exactly when a status write of a run that had that name went through. */
  lemma StatusNamesBackupIff(s: State, actions: seq<Action>, n: string)
    requires Init(s) && Possible(s, actions) && n != ""
    ensures After(s, actions).history != []
    ensures Current(After(s, actions)) == n <==> NameWritten(After(s, actions), n)
  {
    hide Possible, After;
    InitOk(s);
    NameWrittenAfter(s, actions);
    var t := After(s, actions);
    if NameWritten(t, n) {
      var r :| 0 <= r < |t.runs| && t.runs[r].persisted && t.runs[r].filename == n;
      assert RunOk(t, t.runs[r]);
    }
  }

  /** So the name a failed run had in hand is kept exactly when it, or another run with the same name, got
      it written; what the run has stored makes no difference. */
  lemma NameIsKeptOnErrorIff(s: State, actions: seq<Action>, r: nat)
    requires Init(s) && Possible(s, actions) && r < |After(s, actions).runs|
    requires After(s, actions).runs[r].pc.Failed? && After(s, actions).runs[r].filename != ""
    ensures After(s, actions).history != []
    ensures var t := After(s, actions);
            Current(t) == t.runs[r].filename <==> NameWritten(t, t.runs[r].filename)
  {
    hide Possible, After;
    StatusNamesBackupIff(s, actions, After(s, actions).runs[r].filename);
  }

  /** An input at which a stored backup's name is lost: the run fails right after it has stored it. */
  lemma NameIsLostOnError(s: State) returns (actions: seq<Action>)
    requires s == State([""], map[], {}, {}, [])
    ensures Init(s) && Possible(s, actions)
    ensures After(s, actions) == State([""], map["b" := FromFirewall("c")], {}, {}, [
                Run(Failed, 0, "", "b", FromFirewall("c"), "snapshot", [], 1, [], false, false)])
  {
    var first := EmptyPathFetches(s);
    var t := After(s, first);
    var t1 := Apply(t, Step(0, HeadMissing));
    var t2 := Apply(t1, Step(0, Put(false)));
    var t3 := Apply(t2, Step(0, Fail));
    hide Apply;
    var rest: seq<Action> := [];
    StepFirst(t2, Step(0, Fail), rest);
    rest := [Step(0, Fail)] + rest;
    StepFirst(t1, Step(0, Put(false)), rest);
    rest := [Step(0, Put(false))] + rest;
    StepFirst(t, Step(0, HeadMissing), rest);
    rest := [Step(0, HeadMissing)] + rest;
    actions := first + rest;
    AfterConcat(s, first, rest);
  }

  /** The retry fetches under a name of its own. */
  lemma RetryFetches(s: State) returns (actions: seq<Action>)
    requires s == State([""], map[], {}, {}, [])
    ensures Init(s) && Possible(s, actions)
    ensures After(s, actions) == State([""], map["b" := FromFirewall("c")], {}, {}, [
                Run(Failed, 0, "", "b", FromFirewall("c"), "snapshot", [], 1, [], false, false),
                Run(Fetched, 0, "", "d", FromFirewall("e"), "snapshot", [], 1, [], false, false)])
  {
    var first := NameIsLostOnError(s);
    var t := After(s, first);
    var t1 := Apply(t, Start(0));
    var t2 := Apply(t1, Step(1, FindPath([], "snapshot")));
    var t3 := Apply(t2, Step(1, Fetch("d", "e")));
    hide Apply;
    var rest: seq<Action> := [];
    StepFirst(t2, Step(1, Fetch("d", "e")), rest);
    rest := [Step(1, Fetch("d", "e"))] + rest;
    StepFirst(t1, Step(1, FindPath([], "snapshot")), rest);
    rest := [Step(1, FindPath([], "snapshot"))] + rest;
    StepFirst(t, Start(0), rest);
    rest := [Start(0)] + rest;
    actions := first + rest;
    AfterConcat(s, first, rest);
  }

  /** From then on the status names the retry's backup, and the one stored first is named by nothing. */
  lemma RetryNamesAnotherBackup(s: State) returns (actions: seq<Action>)
    requires s == State([""], map[], {}, {}, [])
    ensures Init(s) && Possible(s, actions) && |After(s, actions).runs| == 2 && After(s, actions).history != []
    ensures var t := After(s, actions);
            && t.runs[0].pc.Failed? && t.runs[0].filename in t.store
            && Current(t) != "" && Current(t) != t.runs[0].filename
  {
    var first := RetryFetches(s);
    var t := After(s, first);
    var t1 := Apply(t, Step(1, HeadMissing));
    var t2 := Apply(t1, Step(1, Put(false)));
    var t3 := Apply(t2, Step(1, UpdateStatus(false)));
    assert t3.history == ["", "d"] && t3.runs[0] == t.runs[0] && |t3.runs| == 2 && "b" in t3.store;
    hide Apply;
    var rest: seq<Action> := [];
    StepFirst(t2, Step(1, UpdateStatus(false)), rest);
    rest := [Step(1, UpdateStatus(false))] + rest;
    StepFirst(t1, Step(1, Put(false)), rest);
    rest := [Step(1, Put(false))] + rest;
    StepFirst(t, Step(1, HeadMissing), rest);
    rest := [Step(1, HeadMissing)] + rest;
    actions := first + rest;
    AfterConcat(s, first, rest);
  }

  // ---- One run at a time -----------------------------------------------------------------------

  predicate Active(run: Run) {
    !run.pc.Done? && !run.pc.Failed?
  }

  /** No run starts while another is active, as the controller's work queue sees to. */
  ghost predicate Serial(s: State, actions: seq<Action>)
    requires Possible(s, actions)
    decreases |actions|
  {
    actions != [] ==>
      && (actions[0].Start? ==> forall r :: 0 <= r < |s.runs| ==> !Active(s.runs[r]))
      && (actions[0].Step? ==> Active(s.runs[actions[0].r]))
      && Serial(Apply(s, actions[0]), actions[1..])
  }

  ghost predicate OneActive(s: State) {
    && (forall i, j :: 0 <= i < j < |s.runs| ==> !Active(s.runs[i]) || !Active(s.runs[j]))
    && (forall i :: 0 <= i < |s.runs| && s.runs[i].pc.Putting? ==> s.runs[i].filename !in s.store)
  }

  lemma OneActiveStep(s: State, a: Action)
    requires OneActive(s) && Enabled(s, a)
    requires a.Start? ==> forall r :: 0 <= r < |s.runs| ==> !Active(s.runs[r])
    requires a.Step? ==> Active(s.runs[a.r])
    ensures OneActive(Apply(s, a))
    ensures forall n :: n in s.store ==> n in Apply(s, a).store && Apply(s, a).store[n] == s.store[n]
  {
    hide CanStep, NextRun, NextHistory, NextSnapshots, NextTaken;
    if a.Step? {
      StepWhileOneActive(s, a.r, a.op);
    }
  }

  /** The run that steps is the active one; it comes to put an object only where there is none. */
  lemma StepWhileOneActive(s: State, r: nat, op: Op)
    requires r < |s.runs| && Active(s.runs[r]) && CanStep(s, s.runs[r], op)
    requires s.runs[r].pc.Putting? ==> s.runs[r].filename !in s.store
    ensures op.Put? ==> s.runs[r].pc.Putting? && s.runs[r].filename !in s.store
    ensures NextRun(s, s.runs[r], op).pc.Putting? ==>
              !op.Put? && NextRun(s, s.runs[r], op).filename !in s.store
  {
  }

  /** With one run at a time, the store only grows: no stored backup is ever overwritten. */
  lemma {:induction false} StoreIsAppendOnly(s: State, actions: seq<Action>)
    requires OneActive(s) && Possible(s, actions) && Serial(s, actions)
    ensures OneActive(After(s, actions))
    ensures forall n :: n in s.store ==> n in After(s, actions).store && After(s, actions).store[n] == s.store[n]
    decreases |actions|
  {
    hide OneActive, Apply, Enabled;
    if actions != [] {
      OneActiveStep(s, actions[0]);
      StoreIsAppendOnly(Apply(s, actions[0]), actions[1..]);
    }
  }
}
