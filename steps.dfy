// The one execution discipline shared by link, unlink and reinstall: a plan
// of steps is worked through in order; a step may be skipped by its guard
// (with a warning where the script prints one); every command it runs is
// awaited, and the first command that fails ends the whole run.
module Steps {
  import opened Sequences
  import opened Shell

  /** The two non-fatal warnings printed while unlinking a workspace. */
  datatype Warning =
    | ModuleMissing(name: string, projectPath: Path)    // "... does not exist."
    | ModuleNotLinked(name: string, projectPath: Path)  // "... is not linked."

  /** What one step did. */
  datatype Event =
    | Ran(cmd: Command)
    | Warned(warning: Warning)
    | Skipped

  datatype Outcome = Done | Failed(cmd: Command)

  /** The outcome of a run and the events of the steps it reached. */
  datatype Run = Run(outcome: Outcome, log: seq<Event>)

  /** One step of a plan, with the guard under which it runs its command. */
  datatype Step =
    | Always(cmd: Command)
    | IfLinked(name: string, projectPath: Path, cmd: Command)
    | IfAnyMissing(names: seq<string>, projectPath: Path, cmd: Command)

  /** The commands a log issued, in order. */
  function Issued(log: seq<Event>): seq<Command> {
    if log == [] then []
    else Issued(log[..|log| - 1]) + (if log[|log| - 1].Ran? then [log[|log| - 1].cmd] else [])
  }

  function Prepend(pre: seq<Event>, r: Run): Run {
    Run(r.outcome, pre + r.log)
  }

  /** The commands of a plan, guards ignored. */
  function Commands(steps: seq<Step>): seq<Command> {
    seq(|steps|, j requires 0 <= j < |steps| => steps[j].cmd)
  }

  /** The names whose module directory is absent under projectPath. */
  function MissingModules(w: World, history: seq<Command>, names: seq<string>, projectPath: Path): (r: seq<string>)
    ensures forall n :: n in r <==> n in names && !w.hasModule(history, ResolveModulePath(w, n, projectPath))
  {
    if names == [] then []
    else
      var rest := MissingModules(w, history, names[1..], projectPath);
      assert names == [names[0]] + names[1..];
      if w.hasModule(history, ResolveModulePath(w, names[0], projectPath)) then rest
      else [names[0]] + rest
  }

  /** What a step does when it is reached with the given history. */
  function StepEvent(w: World, history: seq<Command>, s: Step): (e: Event)
    ensures e.Ran? ==> e.cmd == s.cmd
    ensures s.Always? ==> e.Ran?
  {
    match s
    case Always(c) => Ran(c)
    case IfLinked(name, projectPath, c) =>
      var modulePath := ResolveModulePath(w, name, projectPath);
      if !w.hasModule(history, modulePath) then Warned(ModuleMissing(name, projectPath))
      else if !w.isLinked(history, modulePath) then Warned(ModuleNotLinked(name, projectPath))
      else Ran(c)
    case IfAnyMissing(names, projectPath, c) =>
      if |MissingModules(w, history, names, projectPath)| == 0 then Skipped else Ran(c)
  }

  /** Work through steps, stopping at the first command that fails. */
  function RunSteps(w: World, history: seq<Command>, steps: seq<Step>): Run
    decreases |steps|
  {
    if steps == [] then Run(Done, [])
    else
      var e := StepEvent(w, history, steps[0]);
      if e.Ran? && !w.exec(history, e.cmd) then Run(Failed(e.cmd), [e])
      else Prepend([e], RunSteps(w, history + Issued([e]), steps[1..]))
  }

  /** Each event in log is the event of the step at its position, under
      the history of the commands issued before it. */
  ghost predicate EventsMatch(w: World, h: seq<Command>, steps: seq<Step>, log: seq<Event>)
    requires |log| <= |steps|
  {
    forall j :: 0 <= j < |log| ==> log[j] == StepEvent(w, h + Issued(log[..j]), steps[j])
  }

  /** Every command in log succeeded, except the last one when the run did
      not finish. */
  ghost predicate ExecsMatch(w: World, h: seq<Command>, log: seq<Event>, done: bool) {
    forall j :: 0 <= j < |log| && log[j].Ran? ==>
      (w.exec(h + Issued(log[..j]), log[j].cmd) <==> done || j < |log| - 1)
  }

  /** r is what working through steps from history h can produce: one event
      per step reached, each the step's own event under the history of the
      commands before it; every command issued succeeded except, in a failed
      run, the last event, which is the failing command. */
  ghost predicate FollowsSteps(w: World, h: seq<Command>, steps: seq<Step>, r: Run) {
    && |r.log| <= |steps|
    && (r.outcome.Done? ==> |r.log| == |steps|)
    && (r.outcome.Failed? ==> |r.log| > 0 && r.log[|r.log| - 1] == Ran(r.outcome.cmd))
    && EventsMatch(w, h, steps, r.log)
    && ExecsMatch(w, h, r.log, r.outcome.Done?)
  }

  lemma IssuedSnoc(log: seq<Event>, e: Event)
    ensures Issued(log + [e]) == Issued(log) + (if e.Ran? then [e.cmd] else [])
  {
    assert (log + [e])[..|log|] == log;
  }

  /** The history after one more event that ran command c. */
  lemma HistoryRan(h: seq<Command>, log: seq<Event>, c: Command)
    ensures h + Issued(log + [Ran(c)]) == (h + Issued(log)) + [c]
  {
    IssuedSnoc(log, Ran(c));
  }

  /** The history after one more event that ran nothing. */
  lemma HistoryPassed(h: seq<Command>, log: seq<Event>, e: Event)
    requires !e.Ran?
    ensures h + Issued(log + [e]) == h + Issued(log)
  {
    IssuedSnoc(log, e);
  }

  lemma PrependPrepend(a: seq<Event>, b: seq<Event>, r: Run)
    ensures Prepend(a, Prepend(b, r)) == Prepend(a + b, r)
  {
    assert a + (b + r.log) == (a + b) + r.log;
  }

  lemma IssuedSingle(e: Event)
    ensures Issued([e]) == if e.Ran? then [e.cmd] else []
  {
    assert [e][..0] == [];
  }

  /** A run whose next step runs its command and succeeds. */
  lemma RunStepsRan(w: World, h: seq<Command>, steps: seq<Step>, log: seq<Event>, c: Command)
    requires steps != [] && StepEvent(w, h, steps[0]) == Ran(c) && w.exec(h, c)
    ensures Prepend(log, RunSteps(w, h, steps)) == Prepend(log + [Ran(c)], RunSteps(w, h + [c], steps[1..]))
  {
    IssuedSingle(Ran(c));
    var rest := RunSteps(w, h + [c], steps[1..]);
    assert RunSteps(w, h, steps) == Prepend([Ran(c)], rest);
    PrependPrepend(log, [Ran(c)], rest);
  }

  /** A run whose next step only produces event e, issuing nothing. */
  lemma RunStepsPassed(w: World, h: seq<Command>, steps: seq<Step>, log: seq<Event>, e: Event)
    requires steps != [] && StepEvent(w, h, steps[0]) == e && !e.Ran?
    ensures Prepend(log, RunSteps(w, h, steps)) == Prepend(log + [e], RunSteps(w, h, steps[1..]))
  {
    IssuedSingle(e);
    assert h + Issued([e]) == h;
    var rest := RunSteps(w, h, steps[1..]);
    assert RunSteps(w, h, steps) == Prepend([e], rest);
    PrependPrepend(log, [e], rest);
  }

  lemma {:induction false} IssuedAppend(a: seq<Event>, b: seq<Event>)
    ensures Issued(a + b) == Issued(a) + Issued(b)
    decreases |b|
  {
    if b == [] {
      assert a + b == a;
    } else {
      var b' := b[..|b| - 1];
      IssuedAppend(a, b');
      assert a + b == (a + b') + [b[|b| - 1]];
      IssuedSnoc(a + b', b[|b| - 1]);
      IssuedSnoc(b', b[|b| - 1]);
      assert b == b' + [b[|b| - 1]];
    }
  }

  /** A log of commands that all ran issues exactly those commands. */
  lemma {:induction false} IssuedAllRan(log: seq<Event>, cs: seq<Command>)
    requires |log| <= |cs|
    requires forall j :: 0 <= j < |log| ==> log[j] == Ran(cs[j])
    ensures Issued(log) == cs[..|log|]
  {
    if log != [] {
      IssuedAllRan(log[..|log| - 1], cs);
    }
  }

  /** Running two plans back to back is running their concatenation: the
      second starts only if the first succeeded, with its history extended
      by the first one's commands. */
  lemma {:induction false} RunStepsAppend(w: World, h: seq<Command>, s1: seq<Step>, s2: seq<Step>)
    ensures RunSteps(w, h, s1 + s2) ==
      var r1 := RunSteps(w, h, s1);
      if r1.outcome.Failed? then r1
      else Prepend(r1.log, RunSteps(w, h + Issued(r1.log), s2))
    decreases |s1|
  {
    if s1 == [] {
      assert s1 + s2 == s2;
      assert h + Issued([]) == h;
    } else {
      assert (s1 + s2)[0] == s1[0];
      assert (s1 + s2)[1..] == s1[1..] + s2;
      var e := StepEvent(w, h, s1[0]);
      if !(e.Ran? && !w.exec(h, e.cmd)) {
        var h' := h + Issued([e]);
        RunStepsAppend(w, h', s1[1..], s2);
        var r1' := RunSteps(w, h', s1[1..]);
        if r1'.outcome.Done? {
          IssuedAppend([e], r1'.log);
          assert h' + Issued(r1'.log) == h + Issued([e] + r1'.log);
          PrependPrepend([e], r1'.log, RunSteps(w, h' + Issued(r1'.log), s2));
        }
      }
    }
  }

  /** A plan that fails within its first part fails as that part does. */
  lemma RunStepsBlockFailed(w: World, h: seq<Command>, s1: seq<Step>, s2: seq<Step>)
    requires RunSteps(w, h, s1).outcome.Failed?
    ensures RunSteps(w, h, s1 + s2) == RunSteps(w, h, s1)
  {
    RunStepsAppend(w, h, s1, s2);
  }

  /** After a first part that completes, with the events in log before it,
      the run goes on with the rest of the plan from the history it left. */
  lemma RunStepsBlockDone(w: World, h0: seq<Command>, log: seq<Event>, s1: seq<Step>, s2: seq<Step>)
    requires RunSteps(w, h0 + Issued(log), s1).outcome.Done?
    ensures var h := h0 + Issued(log); var r1 := RunSteps(w, h, s1);
      && Prepend(log, RunSteps(w, h, s1 + s2)) == Prepend(log + r1.log, RunSteps(w, h + Issued(r1.log), s2))
      && h + Issued(r1.log) == h0 + Issued(log + r1.log)
  {
    var h := h0 + Issued(log);
    var r1 := RunSteps(w, h, s1);
    RunStepsAppend(w, h, s1, s2);
    PrependPrepend(log, r1.log, RunSteps(w, h + Issued(r1.log), s2));
    IssuedAppend(log, r1.log);
  }

  /** The history before position j of [e] + log'. */
  lemma ConsHistory(h: seq<Command>, e: Event, log': seq<Event>, j: nat)
    requires 1 <= j <= |log'|
    ensures h + Issued(([e] + log')[..j]) == (h + Issued([e])) + Issued(log'[..j - 1])
  {
    assert ([e] + log')[..j] == [e] + log'[..j - 1];
    IssuedAppend([e], log'[..j - 1]);
  }

  lemma EventsMatchCons(w: World, h: seq<Command>, steps: seq<Step>, log': seq<Event>)
    requires steps != [] && |log'| < |steps|
    requires EventsMatch(w, h + Issued([StepEvent(w, h, steps[0])]), steps[1..], log')
    ensures EventsMatch(w, h, steps, [StepEvent(w, h, steps[0])] + log')
  {
    var e := StepEvent(w, h, steps[0]);
    var log := [e] + log';
    assert log[..0] == [] && h + Issued([]) == h;
    forall j | 1 <= j < |log|
      ensures log[j] == StepEvent(w, h + Issued(log[..j]), steps[j])
    {
      ConsHistory(h, e, log', j);
      assert log[j] == log'[j - 1] && steps[j] == steps[1..][j - 1];
    }
  }

  lemma ExecsMatchCons(w: World, h: seq<Command>, e: Event, log': seq<Event>, done: bool)
    requires e.Ran? ==> w.exec(h, e.cmd)
    requires !done ==> |log'| > 0
    requires ExecsMatch(w, h + Issued([e]), log', done)
    ensures ExecsMatch(w, h, [e] + log', done)
  {
    var log := [e] + log';
    assert log[..0] == [] && h + Issued([]) == h;
    forall j | 1 <= j < |log| && log[j].Ran?
      ensures w.exec(h + Issued(log[..j]), log[j].cmd) <==> done || j < |log| - 1
    {
      ConsHistory(h, e, log', j);
      assert log[j] == log'[j - 1];
    }
  }

  /** The run semantics keeps the discipline FollowsSteps describes. */
  lemma {:induction false} RunFollowsSteps(w: World, h: seq<Command>, steps: seq<Step>)
    ensures FollowsSteps(w, h, steps, RunSteps(w, h, steps))
    decreases |steps|
  {
    if steps != [] {
      var e := StepEvent(w, h, steps[0]);
      assert [e][..0] == [] && h + Issued([]) == h;
      if !(e.Ran? && !w.exec(h, e.cmd)) {
        var h' := h + Issued([e]);
        var r' := RunSteps(w, h', steps[1..]);
        RunFollowsSteps(w, h', steps[1..]);
        EventsMatchCons(w, h, steps, r'.log);
        ExecsMatchCons(w, h, e, r'.log, r'.outcome.Done?);
      }
    }
  }

  /** The tail of a log that follows steps follows the rest of the plan,
      from the history its first event left. */
  lemma EventsMatchTail(w: World, h: seq<Command>, steps: seq<Step>, e: Event, log': seq<Event>)
    requires steps != [] && |[e] + log'| <= |steps|
    requires EventsMatch(w, h, steps, [e] + log')
    ensures EventsMatch(w, h + Issued([e]), steps[1..], log')
  {
    var log := [e] + log';
    forall j | 0 <= j < |log'|
      ensures log'[j] == StepEvent(w, (h + Issued([e])) + Issued(log'[..j]), steps[1..][j])
    {
      ConsHistory(h, e, log', j + 1);
      assert log[j + 1] == log'[j] && steps[j + 1] == steps[1..][j];
    }
  }

  lemma ExecsMatchTail(w: World, h: seq<Command>, e: Event, log': seq<Event>, done: bool)
    requires ExecsMatch(w, h, [e] + log', done)
    ensures ExecsMatch(w, h + Issued([e]), log', done)
  {
    var log := [e] + log';
    forall j | 0 <= j < |log'| && log'[j].Ran?
      ensures w.exec((h + Issued([e])) + Issued(log'[..j]), log'[j].cmd) <==> done || j < |log'| - 1
    {
      ConsHistory(h, e, log', j + 1);
      assert log[j + 1] == log'[j];
    }
  }

  /** FollowsSteps fixes the run: the run semantics is the only run that
      keeps its discipline. */
  lemma {:induction false} FollowsStepsOnlyRun(w: World, h: seq<Command>, steps: seq<Step>, r: Run)
    requires FollowsSteps(w, h, steps, r)
    ensures r == RunSteps(w, h, steps)
    decreases |steps|
  {
    if steps != [] {
      assert r.log != [];
      var e := StepEvent(w, h, steps[0]);
      assert r.log[..0] == [] && h + Issued([]) == h;
      assert r.log[0] == e;
      var log' := r.log[1..];
      assert r.log == [e] + log';
      if e.Ran? && !w.exec(h, e.cmd) {
        assert r.log == [e];
      } else {
        var r' := Run(r.outcome, log');
        EventsMatchTail(w, h, steps, e, log');
        ExecsMatchTail(w, h, e, log', r.outcome.Done?);
        FollowsStepsOnlyRun(w, h + Issued([e]), steps[1..], r');
      }
    }
  }

  /** A plan without guards issues a prefix of its commands, all of them
      when it succeeds. */
  lemma AlwaysPlanIssuesPrefix(w: World, h: seq<Command>, steps: seq<Step>)
    requires forall s :: s in steps ==> s.Always?
    ensures var r := RunSteps(w, h, steps);
      && |r.log| <= |steps|
      && Issued(r.log) == Commands(steps)[..|r.log|]
      && (r.outcome.Done? ==> Issued(r.log) == Commands(steps))
  {
    var r := RunSteps(w, h, steps);
    RunFollowsSteps(w, h, steps);
    forall j | 0 <= j < |r.log|
      ensures r.log[j] == Ran(Commands(steps)[j])
    {
      assert steps[j] in steps;
    }
    IssuedAllRan(r.log, Commands(steps));
  }

  /** The reinstall guard fires exactly when some listed module is absent. */
  lemma AnyMissingFires(w: World, history: seq<Command>, names: seq<string>, projectPath: Path, c: Command)
    ensures StepEvent(w, history, IfAnyMissing(names, projectPath, c)).Ran?
      <==> exists n :: n in names && !w.hasModule(history, ResolveModulePath(w, n, projectPath))
  {
    var missing := MissingModules(w, history, names, projectPath);
    if |missing| > 0 {
      assert missing[0] in missing;
    }
  }

  /** Every command a log issued comes from one of its Ran events. */
  lemma {:induction false} IssuedFrom(log: seq<Event>)
    ensures forall x :: x in Issued(log) ==> exists j :: 0 <= j < |log| && log[j] == Ran(x)
  {
    if log != [] {
      var p := log[..|log| - 1];
      IssuedFrom(p);
      forall x | x in Issued(p)
        ensures exists j :: 0 <= j < |log| && log[j] == Ran(x)
      {
        var j :| 0 <= j < |p| && p[j] == Ran(x);
        assert log[j] == p[j];
      }
    }
  }

  /** A log whose Ran events carry pairwise distinct commands issues no
      command twice. */
  lemma {:induction false} IssuedNoDups(log: seq<Event>)
    requires forall j, k :: 0 <= j < k < |log| && log[j].Ran? && log[k].Ran? ==> log[j].cmd != log[k].cmd
    ensures NoDups(Issued(log))
  {
    if log != [] {
      var p, e := log[..|log| - 1], log[|log| - 1];
      IssuedNoDups(p);
      if e.Ran? {
        IssuedFrom(p);
        assert e.cmd !in Issued(p);
        var s := Issued(p);
        assert Issued(log) == s + [e.cmd];
        forall i, j | 0 <= i < j < |s| + 1
          ensures (s + [e.cmd])[i] != (s + [e.cmd])[j]
        {
          if j == |s| {
            assert s[i] in s;
          }
        }
      }
    }
  }

  /** A run issues only commands of its plan's steps. */
  lemma IssuedFromPlan(w: World, h: seq<Command>, steps: seq<Step>)
    ensures forall x :: x in Issued(RunSteps(w, h, steps).log) ==> exists s :: s in steps && s.cmd == x
  {
    var r := RunSteps(w, h, steps);
    RunFollowsSteps(w, h, steps);
    IssuedFrom(r.log);
    forall x | x in Issued(r.log)
      ensures exists s :: s in steps && s.cmd == x
    {
      var j :| 0 <= j < |r.log| && r.log[j] == Ran(x);
      assert steps[j] in steps;
    }
  }

  /** In a run that completes, every unguarded step ran its command. */
  lemma AlwaysStepRan(w: World, h: seq<Command>, steps: seq<Step>, k: nat)
    requires k < |steps| && steps[k].Always?
    requires RunSteps(w, h, steps).outcome.Done?
    ensures k < |RunSteps(w, h, steps).log| && RunSteps(w, h, steps).log[k] == Ran(steps[k].cmd)
  {
    var r := RunSteps(w, h, steps);
    RunFollowsSteps(w, h, steps);
    assert r.log[k] == StepEvent(w, h + Issued(r.log[..k]), steps[k]);
  }
}

