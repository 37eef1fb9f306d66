/** The update-path resources: no two live ones for the same model, start and target become valid. */
module UpdatePaths {

  datatype Spec = Spec(model: string, startVersion: string, newVersion: string)

  datatype UpdateStep = UpdateStep(version: string, build: string, releaseType: string)

  /** A resource as some version of the cluster shows it. `created` and `version` are the positions in
      the watch history of the event that created it and of the last event about it. */
  datatype Resource = Resource(spec: Spec, valid: bool, steps: seq<UpdateStep>, created: nat, version: nat,
                               deleting: bool)

  /** The watch history. A spec is never edited. */
  datatype Event =
    | Created(name: string, spec: Spec)
    | Validated(name: string, steps: seq<UpdateStep>)
    | Touched(name: string)
    | Marked(name: string)
    | Removed(name: string)

  type View = map<string, Resource>

  function ApplyEvent(view: View, e: Event, at: nat): View {
    match e
    case Created(name, spec) => view[name := Resource(spec, false, [], at, at, false)]
    case Removed(name) => view - {name}
    case _ =>
      if e.name !in view then view
      else
        var r := view[e.name];
        match e
        case Validated(name, steps) => view[name := r.(valid := true, steps := steps, version := at)]
        case Marked(name) => view[name := r.(deleting := true, version := at)]
        case _ => view[e.name := r.(version := at)]
  }

  /** What the cluster holds after the first `n` events; a cache holds such a view for some `n`. */
  function ViewAt(h: seq<Event>, n: nat): View
    requires n <= |h|
  {
    if n == 0 then map[] else ApplyEvent(ViewAt(h, n - 1), h[n - 1], n - 1)
  }

  /** A name is created only while no live resource has it. */
  predicate Admissible(view: View, e: Event) {
    e.Created? <==> e.name !in view
  }

  ghost predicate Wellformed(h: seq<Event>) {
    forall n :: 0 <= n < |h| ==> Admissible(ViewAt(h, n), h[n])
  }

  predicate IsDuplicate(view: View, name: string, spec: Spec) {
    exists other :: other in view && other != name && view[other].spec == spec
  }

  // ---- Histories -------------------------------------------------------------------------------

  lemma {:induction false} ViewOfPrefix(h: seq<Event>, more: seq<Event>, n: nat)
    requires n <= |h|
    ensures ViewAt(h + more, n) == ViewAt(h, n)
  {
    if n > 0 {
      ViewOfPrefix(h, more, n - 1);
    }
  }

  /** An event either does not concern a resource it leaves in place, or is the last one about it. */
  lemma EventEffect(view: View, e: Event, at: nat, name: string)
    requires Admissible(view, e) && name in ApplyEvent(view, e, at)
    ensures var r := ApplyEvent(view, e, at)[name];
            || (name in view && r == view[name])
            || (name in view && r.version == at && r.created == view[name].created && r.spec == view[name].spec)
            || (name !in view && r.version == r.created == at && e == Created(name, r.spec))
  {
  }

  /** A resource is what the event that last concerned it made of it. */
  lemma {:induction false} ViewAtVersion(h: seq<Event>, n: nat, name: string)
    requires n <= |h| && Wellformed(h) && name in ViewAt(h, n)
    ensures var r := ViewAt(h, n)[name];
            && r.created <= r.version < n
            && name in ViewAt(h, r.version + 1) && ViewAt(h, r.version + 1)[name] == r
            && h[r.created] == Created(name, r.spec)
  {
    hide ApplyEvent, Admissible;
    if n > 0 {
      assert Admissible(ViewAt(h, n - 1), h[n - 1]);
      EventEffect(ViewAt(h, n - 1), h[n - 1], n - 1, name);
      if name in ViewAt(h, n - 1) {
        ViewAtVersion(h, n - 1, name);
      }
    }
  }

  /** A resource that is live at `n` was there, with the same spec, in every view since its creation. */
  lemma {:induction false} LiveSinceCreated(h: seq<Event>, n: nat, name: string, m: nat)
    requires m <= n <= |h| && Wellformed(h) && name in ViewAt(h, n) && ViewAt(h, n)[name].created < m
    ensures name in ViewAt(h, m)
    ensures ViewAt(h, m)[name].created == ViewAt(h, n)[name].created
    ensures ViewAt(h, m)[name].spec == ViewAt(h, n)[name].spec
    decreases n
  {
    hide ApplyEvent, Admissible;
    if m < n {
      assert Admissible(ViewAt(h, n - 1), h[n - 1]);
      EventEffect(ViewAt(h, n - 1), h[n - 1], n - 1, name);
      LiveSinceCreated(h, n - 1, name, m);
    }
  }

  // ---- The machine -----------------------------------------------------------------------------

  /** A run of `Reconcile`: the resource it read, and the view in which it found no duplicate. */
  datatype Run = Run(pc: Pc, name: string, got: Resource, readAt: nat, listedAt: nat)

  datatype Pc = Read | Checked | Done | Stopped

  datatype State = State(history: seq<Event>, runs: seq<Run>)

  datatype Action =
    | Get(name: string, n: nat)
    | ListAll(r: nat, n: nat)
    | Write(r: nat, steps: seq<UpdateStep>)
    | Stop(r: nat)
    | Other(e: Event)

  function Now(s: State): View {
    ViewAt(s.history, |s.history|)
  }

  /** A read sees any prefix of the history; the second read of a run sees no less than the first. A
      write is refused unless the resource is still as the run read it. */
  predicate Enabled(s: State, a: Action) {
    match a
    case Get(name, n) => n <= |s.history| && name in ViewAt(s.history, n)
    case ListAll(r, n) => r < |s.runs| && s.runs[r].pc.Read? && s.runs[r].readAt <= n <= |s.history|
    case Write(r, _) =>
      && r < |s.runs| && s.runs[r].pc.Checked?
      && s.runs[r].name in Now(s) && Now(s)[s.runs[r].name].version == s.runs[r].got.version
    case Stop(r) => r < |s.runs|
    case Other(e) => !e.Validated? && Admissible(Now(s), e)
  }

  /** Does a run that has listed the resources at `n` go on to write? */
  predicate GoesOn(s: State, run: Run, n: nat)
    requires n <= |s.history|
  {
    !run.got.deleting && !run.got.valid && !IsDuplicate(ViewAt(s.history, n), run.name, run.got.spec)
  }

  function Apply(s: State, a: Action): State
    requires Enabled(s, a)
  {
    match a
    case Get(name, n) => s.(runs := s.runs + [Run(Read, name, ViewAt(s.history, n)[name], n, n)])
    case ListAll(r, n) =>
      var run := s.runs[r];
      s.(runs := s.runs[r := run.(pc := if GoesOn(s, run, n) then Checked else Stopped, listedAt := n)])
    case Write(r, steps) =>
      State(s.history + [Validated(s.runs[r].name, steps)], s.runs[r := s.runs[r].(pc := Done)])
    case Stop(r) => s.(runs := s.runs[r := s.runs[r].(pc := Stopped)])
    case Other(e) => s.(history := s.history + [e])
  }

  // ---- The invariant ---------------------------------------------------------------------------

  ghost predicate RunOk(h: seq<Event>, run: Run) {
    && run.readAt <= |h| && run.name in ViewAt(h, run.readAt) && ViewAt(h, run.readAt)[run.name] == run.got
    && (run.pc.Checked? ==>
          && run.readAt <= run.listedAt <= |h| && !IsDuplicate(ViewAt(h, run.listedAt), run.name, run.got.spec)
          && !run.got.valid && !run.got.deleting)
  }

  /** Of two live resources for the same upgrade, the later one is not valid. */
  ghost predicate LaterIsBlocked(view: View) {
    forall a, b :: a in view && b in view && a != b && view[a].spec == view[b].spec
                   && view[a].created < view[b].created ==>
      !view[b].valid
  }

  ghost predicate Inv(s: State) {
    && Wellformed(s.history)
    && LaterIsBlocked(Now(s))
    && forall r :: 0 <= r < |s.runs| ==> RunOk(s.history, s.runs[r])
  }

  lemma WellformedAppend(h: seq<Event>, e: Event)
    requires Wellformed(h) && Admissible(ViewAt(h, |h|), e)
    ensures Wellformed(h + [e])
    ensures ViewAt(h + [e], |h| + 1) == ApplyEvent(ViewAt(h, |h|), e, |h|)
  {
    hide Admissible, ApplyEvent;
    var g := h + [e];
    assert g[|h|] == e;
    ViewOfPrefix(h, [e], |h|);
    forall n | 0 <= n < |g|
      ensures Admissible(ViewAt(g, n), g[n])
    {
      ViewBefore(h, e, n);
    }
  }

  lemma ViewBefore(h: seq<Event>, e: Event, n: nat)
    requires n <= |h|
    ensures ViewAt(h + [e], n) == ViewAt(h, n)
    ensures n < |h| ==> (h + [e])[n] == h[n]
  {
    ViewOfPrefix(h, [e], n);
  }

  lemma RunOkAppend(h: seq<Event>, e: Event, run: Run)
    requires RunOk(h, run)
    ensures RunOk(h + [e], run)
  {
    ViewOfPrefix(h, [e], run.readAt);
    if run.pc.Checked? {
      ViewOfPrefix(h, [e], run.listedAt);
    }
  }

  lemma ReadIsCurrent(h: seq<Event>, run: Run)
    requires Wellformed(h) && RunOk(h, run)
    requires run.name in ViewAt(h, |h|) && ViewAt(h, |h|)[run.name].version == run.got.version
    ensures ViewAt(h, |h|)[run.name] == run.got
  {
    hide ViewAt, Wellformed;
    ViewAtVersion(h, run.readAt, run.name);
    ViewAtVersion(h, |h|, run.name);
  }

  lemma SeesDuplicate(view: View, name: string, spec: Spec, other: string)
    requires other in view && other != name && view[other].spec == spec
    ensures IsDuplicate(view, name, spec)
  {
  }

  /** The later-created resource of two always finds the earlier one when it lists, however stale its
      cache, as long as the earlier one is still there when it writes. */
  lemma LaterSeesEarlier(h: seq<Event>, run: Run, a: string)
    requires Wellformed(h) && RunOk(h, run) && run.pc.Checked?
    requires run.name in ViewAt(h, |h|) && ViewAt(h, |h|)[run.name].version == run.got.version
    requires a in ViewAt(h, |h|) && a != run.name && ViewAt(h, |h|)[a].spec == run.got.spec
    ensures ViewAt(h, |h|)[run.name] == run.got
    ensures run.got.created <= ViewAt(h, |h|)[a].created
  {
    hide ViewAt, IsDuplicate, Wellformed;
    ReadIsCurrent(h, run);
    ViewAtVersion(h, run.readAt, run.name);
    if ViewAt(h, |h|)[a].created < run.got.created {
      LiveSinceCreated(h, |h|, a, run.listedAt);
      SeesDuplicate(ViewAt(h, run.listedAt), run.name, run.got.spec, a);
    }
  }

  lemma WriteKeepsInv(s: State, r: nat, steps: seq<UpdateStep>)
    requires Inv(s) && Enabled(s, Write(r, steps))
    ensures LaterIsBlocked(ApplyEvent(Now(s), Validated(s.runs[r].name, steps), |s.history|))
  {
    hide Wellformed, RunOk;
    var view, run := Now(s), s.runs[r];
    var next := ApplyEvent(view, Validated(run.name, steps), |s.history|);
    forall a, b | a in next && b in next && a != b && next[a].spec == next[b].spec && next[a].created < next[b].created
      ensures !next[b].valid
    {
      ReadIsCurrent(s.history, run);
      if b == run.name {
        LaterSeesEarlier(s.history, run, a);
      }
    }
  }

  lemma OtherKeepsInv(s: State, e: Event)
    requires Inv(s) && Enabled(s, Other(e))
    ensures LaterIsBlocked(ApplyEvent(Now(s), e, |s.history|))
  {
    forall name | name in Now(s)
      ensures Now(s)[name].created < |s.history|
    {
      ViewAtVersion(s.history, |s.history|, name);
    }
  }

  lemma InvStep(s: State, a: Action)
    requires Inv(s) && Enabled(s, a)
    ensures Inv(Apply(s, a))
  {
    hide Wellformed, LaterIsBlocked, RunOk, Admissible, ApplyEvent;
    match a
    case Get(name, n) => GetIsOk(s, name, n);
    case ListAll(r, n) => ListIsOk(s, r, n);
    case Stop(r) => StopIsOk(s, r);
    case Write(r, steps) =>
      var e := Validated(s.runs[r].name, steps);
      ValidatedIsAdmissible(s, r, steps);
      WellformedAppend(s.history, e);
      WriteKeepsInv(s, r, steps);
      StopIsOk(s, r);
      forall i | 0 <= i < |s.runs| {
        RunOkAppend(s.history, e, s.runs[i]);
      }
      RunOkAppend(s.history, e, s.runs[r].(pc := Done));
    case Other(e) =>
      WellformedAppend(s.history, e);
      OtherKeepsInv(s, e);
      forall i | 0 <= i < |s.runs| {
        RunOkAppend(s.history, e, s.runs[i]);
      }
  }

  lemma ValidatedIsAdmissible(s: State, r: nat, steps: seq<UpdateStep>)
    requires Enabled(s, Write(r, steps))
    ensures Admissible(Now(s), Validated(s.runs[r].name, steps))
  {
  }

  lemma GetIsOk(s: State, name: string, n: nat)
    requires n <= |s.history| && name in ViewAt(s.history, n)
    ensures RunOk(s.history, Run(Read, name, ViewAt(s.history, n)[name], n, n))
  {
  }

  lemma ListIsOk(s: State, r: nat, n: nat)
    requires Enabled(s, ListAll(r, n)) && RunOk(s.history, s.runs[r])
    ensures RunOk(s.history, s.runs[r].(pc := if GoesOn(s, s.runs[r], n) then Checked else Stopped, listedAt := n))
  {
  }

  lemma StopIsOk(s: State, r: nat)
    requires r < |s.runs| && RunOk(s.history, s.runs[r])
    ensures RunOk(s.history, s.runs[r].(pc := Stopped)) && RunOk(s.history, s.runs[r].(pc := Done))
  {
  }

  // ---- Over every run of the machine -----------------------------------------------------------

  const EMPTY := State([], [])

  ghost predicate Possible(s: State, actions: seq<Action>)
    decreases |actions|
  {
    actions == [] || (Enabled(s, actions[0]) && Possible(Apply(s, actions[0]), actions[1..]))
  }

  ghost function After(s: State, actions: seq<Action>): State
    requires Possible(s, actions)
    decreases |actions|
  {
    if actions == [] then s else After(Apply(s, actions[0]), actions[1..])
  }

  lemma {:induction false} InvAfter(s: State, actions: seq<Action>)
    requires Inv(s) && Possible(s, actions)
    ensures Inv(After(s, actions))
    decreases |actions|
  {
    hide Inv, Enabled, Apply;
    if actions != [] {
      InvStep(s, actions[0]);
      InvAfter(Apply(s, actions[0]), actions[1..]);
    }
  }

  lemma {:induction false} AfterConcat(s: State, a: seq<Action>, b: seq<Action>)
    requires Possible(s, a) && Possible(After(s, a), b)
    ensures Possible(s, a + b) && After(s, a + b) == After(After(s, a), b)
    decreases |a|
  {
    hide Apply, Enabled;
    if a == [] {
      assert a + b == b;
    } else {
      assert (a + b)[1..] == a[1..] + b;
      AfterConcat(Apply(s, a[0]), a[1..], b);
    }
  }

  /** In every interleaving of creations, deletions and reconcile runs with stale caches, no two live
      resources for the same model, start and target are both valid. */
  lemma NoTwoAreValid(actions: seq<Action>, a: string, b: string)
    requires Possible(EMPTY, actions)
    requires a in Now(After(EMPTY, actions)) && b in Now(After(EMPTY, actions)) && a != b
    requires Now(After(EMPTY, actions))[a].spec == Now(After(EMPTY, actions))[b].spec
    ensures !(Now(After(EMPTY, actions))[a].valid && Now(After(EMPTY, actions))[b].valid)
  {
    hide Possible, After;
    InvAfter(EMPTY, actions);
    var s := After(EMPTY, actions);
    ViewAtVersion(s.history, |s.history|, a);
    ViewAtVersion(s.history, |s.history|, b);
  }

  /** A valid resource keeps its steps for as long as it lives. */
  lemma ValidIsForever(actions: seq<Action>, a: Action, name: string)
    requires Possible(EMPTY, actions) && Enabled(After(EMPTY, actions), a)
    requires name in Now(After(EMPTY, actions)) && Now(After(EMPTY, actions))[name].valid
    requires name in Now(Apply(After(EMPTY, actions), a))
    ensures var before, after := Now(After(EMPTY, actions))[name], Now(Apply(After(EMPTY, actions), a))[name];
            after.valid && after.steps == before.steps && after.spec == before.spec && after.created == before.created
  {
    hide Possible, After, ApplyEvent, Wellformed, LaterIsBlocked, RunOk;
    EmptyIsOk();
    InvAfter(EMPTY, actions);
    var s := After(EMPTY, actions);
    if a.Write? || a.Other? {
      var e := if a.Write? then Validated(s.runs[a.r].name, a.steps) else a.e;
      if a.Write? {
        WritesInvalidOnly(s, a.r, a.steps);
      }
      ViewOfPrefix(s.history, [e], |s.history|);
      assert Now(Apply(s, a)) == ApplyEvent(Now(s), e, |s.history|);
      EventKeepsValid(Now(s), e, |s.history|, name);
    }
  }

  lemma EmptyIsOk()
    ensures Inv(EMPTY)
  {
  }

  lemma WritesInvalidOnly(s: State, r: nat, steps: seq<UpdateStep>)
    requires Inv(s) && Enabled(s, Write(r, steps))
    ensures s.runs[r].name in Now(s) && !Now(s)[s.runs[r].name].valid && !Now(s)[s.runs[r].name].deleting
  {
    hide Wellformed, LaterIsBlocked;
    assert RunOk(s.history, s.runs[r]);
    ReadIsCurrent(s.history, s.runs[r]);
  }

  /** A resource that is being deleted is not made valid any more, whatever the runs have read before. */
  lemma DeletingIsLeftAlone(actions: seq<Action>, name: string, r: nat, steps: seq<UpdateStep>)
    requires Possible(EMPTY, actions) && name in Now(After(EMPTY, actions))
    requires Enabled(After(EMPTY, actions), Other(Marked(name)))
    ensures var t := Apply(After(EMPTY, actions), Other(Marked(name)));
            && name in Now(t) && Now(t)[name].deleting && Now(t)[name].spec == Now(After(EMPTY, actions))[name].spec
            && (r < |t.runs| && t.runs[r].name == name ==> !Enabled(t, Write(r, steps)))
  {
    hide Possible, After, Wellformed, LaterIsBlocked, RunOk, Admissible;
    EmptyIsOk();
    InvAfter(EMPTY, actions);
    var s := After(EMPTY, actions);
    var t := Apply(s, Other(Marked(name)));
    InvStep(s, Other(Marked(name)));
    ViewOfPrefix(s.history, [Marked(name)], |s.history|);
    assert Now(t) == ApplyEvent(Now(s), Marked(name), |s.history|);
    if r < |t.runs| && t.runs[r].name == name && Enabled(t, Write(r, steps)) {
      WritesInvalidOnly(t, r, steps);
    }
  }

  lemma EventKeepsValid(view: View, e: Event, at: nat, name: string)
    requires name in view && view[name].valid && name in ApplyEvent(view, e, at) && (e.Created? ==> e.name !in view)
    requires e.Validated? ==> e.name in view && !view[e.name].valid
    ensures var before, after := view[name], ApplyEvent(view, e, at)[name];
            after.valid && after.steps == before.steps && after.spec == before.spec && after.created == before.created
  {
  }

  // ---- Getting valid ---------------------------------------------------------------------------

  /** The resource `name` is live, not being deleted and not valid, and no other live one is for the same
      upgrade. */
  ghost predicate Alone(view: View, name: string) {
    && name in view && !view[name].valid && !view[name].deleting
    && forall other :: other in view && other != name ==>
         || view[other].spec.model != view[name].spec.model
         || view[other].spec.startVersion != view[name].spec.startVersion
         || view[other].spec.newVersion != view[name].spec.newVersion
  }

  /** One more step at the end of a run of the machine. */
  lemma StepLast(s: State, actions: seq<Action>, a: Action)
    requires Possible(s, actions) && Enabled(After(s, actions), a)
    ensures Possible(s, actions + [a]) && After(s, actions + [a]) == Apply(After(s, actions), a)
  {
    hide Enabled, Apply;
    assert [a][1..] == [];
    assert Possible(After(s, actions), [a]);
    AfterConcat(s, actions, [a]);
  }

  /** From every reachable state a resource that is alone can become valid with any steps: a run that reads
      and lists the newest view goes on and writes them. */
  lemma AloneBecomesValid(actions: seq<Action>, name: string, steps: seq<UpdateStep>) returns (more: seq<Action>)
    requires Possible(EMPTY, actions) && Alone(Now(After(EMPTY, actions)), name)
    ensures Possible(EMPTY, actions + more)
    ensures var before, view := Now(After(EMPTY, actions)), Now(After(EMPTY, actions + more));
            && name in view && view[name].valid && view[name].steps == steps && view[name].spec == before[name].spec
            && view - {name} == before - {name}
  {
    var s := After(EMPTY, actions);
    var n, r := |s.history|, |s.runs|;
    var got := Now(s)[name];
    assert !IsDuplicate(Now(s), name, got.spec);
    var s1 := Apply(s, Get(name, n));
    var s2 := Apply(s1, ListAll(r, n));
    assert s2.history == s.history && s2.runs[r].pc.Checked? && s2.runs[r].got == got && s2.runs[r].name == name;
    var s3 := Apply(s2, Write(r, steps));
    ViewOfPrefix(s.history, [Validated(name, steps)], n);
    assert Now(s3) == ApplyEvent(Now(s), Validated(name, steps), n);
    hide Apply, Possible, After;
    StepLast(EMPTY, actions, Get(name, n));
    StepLast(EMPTY, actions + [Get(name, n)], ListAll(r, n));
    StepLast(EMPTY, actions + [Get(name, n)] + [ListAll(r, n)], Write(r, steps));
    more := [Get(name, n)] + [ListAll(r, n)] + [Write(r, steps)];
    assert actions + more == actions + [Get(name, n)] + [ListAll(r, n)] + [Write(r, steps)];
  }

  /** The whole life of a first resource: created, it becomes valid. */
  lemma FirstResourceBecomesValid(name: string, spec: Spec, steps: seq<UpdateStep>) returns (actions: seq<Action>)
    ensures Possible(EMPTY, actions)
    ensures var view := Now(After(EMPTY, actions));
            view.Keys == {name} && view[name].valid && view[name].steps == steps && view[name].spec == spec
  {
    var create := Other(Created(name, spec));
    assert Now(EMPTY) == map[];
    StepLast(EMPTY, [], create);
    assert [] + [create] == [create];
    var s := Apply(EMPTY, create);
    assert Now(s) == ApplyEvent(Now(EMPTY), Created(name, spec), 0) by {
      ViewOfPrefix([], [Created(name, spec)], 0);
    }
    var more := AloneBecomesValid([create], name, steps);
    actions := [create] + more;
    var view := Now(After(EMPTY, actions));
    assert view - {name} == map[];
    forall other | other in view
      ensures other == name
    {
      assert other != name ==> other in view - {name};
    }
  }
}
