// `unlink`, `unlinkModule` and `reinstall`: remove the links that are really
// links, unregister every package, then reinstall each workspace that lost a
// module.
module Unlinking {
  import opened Sequences
  import opened Shell
  import opened Steps
  import opened LinkConfig
  import opened WorkspaceMap

  /** The steps of `unlinkModule` for one package: one guarded unlink per
      workspace entry, then the unconditional unregistration. */
  function ModuleUnlinkPlan(w: World, p: Package): seq<Step> {
    var ws := Workspaces(p);
    seq(|ws|, j requires 0 <= j < |ws| =>
      var projectPath := FormatPrjPath(w, ws[j]);
      IfLinked(p.name, projectPath, UnlinkFrom(p.name, projectPath)))
      + [Always(Unregister(p.localPath))]
  }

  /** The package loop of `unlink`, in key order. */
  function UnlinkModulesPlan(w: World, c: Config): seq<Step> {
    if c == [] then [] else ModuleUnlinkPlan(w, c[0]) + UnlinkModulesPlan(w, c[1..])
  }

  /** The steps of `reinstall`: one per key of workspaceModuleMap, in key
      order, probing under the resolved path and installing in the raw key. */
  function ReinstallPlan(w: World, c: Config): seq<Step> {
    ReinstallSteps(w, ConfigModuleMap(c))
  }

  /** One reinstall step per key of m, in key order. */
  function ReinstallSteps(w: World, m: ModuleMap): seq<Step>
    requires Valid(m)
  {
    seq(|m.keys|, i requires 0 <= i < |m.keys| =>
      var projectPath := m.keys[i];
      IfAnyMissing(m.lists[projectPath], FormatPrjPath(w, projectPath), Install(projectPath)))
  }

  /** Everything `unlink` does. */
  function UnlinkPlan(w: World, c: Config): seq<Step> {
    UnlinkModulesPlan(w, c) + ReinstallPlan(w, c)
  }

  /** What the step for workspace entry i of package p does after the
      events in log. */
  lemma ModuleUnlinkPlanStep(w: World, p: Package, i: nat, history: seq<Command>, log: seq<Event>)
    requires i < |Workspaces(p)|
    ensures var plan := ModuleUnlinkPlan(w, p);
      var projectPath := FormatPrjPath(w, Workspaces(p)[i]);
      var modulePath := ResolveModulePath(w, p.name, projectPath);
      var unlink := UnlinkFrom(p.name, projectPath);
      Prepend(log, RunSteps(w, history, plan[i..])) ==
        if !w.hasModule(history, modulePath) then
          Prepend(log + [Warned(ModuleMissing(p.name, projectPath))], RunSteps(w, history, plan[i + 1..]))
        else if !w.isLinked(history, modulePath) then
          Prepend(log + [Warned(ModuleNotLinked(p.name, projectPath))], RunSteps(w, history, plan[i + 1..]))
        else if w.exec(history, unlink) then
          Prepend(log + [Ran(unlink)], RunSteps(w, history + [unlink], plan[i + 1..]))
        else Run(Failed(unlink), log + [Ran(unlink)])
  {
    var plan := ModuleUnlinkPlan(w, p);
    var projectPath := FormatPrjPath(w, Workspaces(p)[i]);
    var modulePath := ResolveModulePath(w, p.name, projectPath);
    var unlink := UnlinkFrom(p.name, projectPath);
    assert plan[i..][0] == IfLinked(p.name, projectPath, unlink) && plan[i..][1..] == plan[i + 1..];
    var e := StepEvent(w, history, plan[i..][0]);
    if e.Ran? {
      if w.exec(history, unlink) {
        RunStepsRan(w, history, plan[i..], log, unlink);
      }
    } else {
      RunStepsPassed(w, history, plan[i..], log, e);
    }
  }

  method UnlinkModule(w: World, h: seq<Command>, p: Package) returns (r: Run)
    ensures r == RunSteps(w, h, ModuleUnlinkPlan(w, p))
  {
    ghost var plan := ModuleUnlinkPlan(w, p);
    var log := [];
    var history := h;
    var workspace := Workspaces(p);
    for i := 0 to |workspace|
      invariant history == h + Issued(log)
      invariant RunSteps(w, h, plan) == Prepend(log, RunSteps(w, history, plan[i..]))
    {
      var projectPath := FormatPrjPath(w, workspace[i]);
      var modulePath := ResolveModulePath(w, p.name, projectPath);
      var unlink := UnlinkFrom(p.name, projectPath);
      ModuleUnlinkPlanStep(w, p, i, history, log);
      if !w.hasModule(history, modulePath) {
        var warning := Warned(ModuleMissing(p.name, projectPath));
        HistoryPassed(h, log, warning);
        log := log + [warning];
        continue;
      }
      if !w.isLinked(history, modulePath) {
        var warning := Warned(ModuleNotLinked(p.name, projectPath));
        HistoryPassed(h, log, warning);
        log := log + [warning];
        continue;
      }
      if !w.exec(history, unlink) {
        return Run(Failed(unlink), log + [Ran(unlink)]);
      }
      HistoryRan(h, log, unlink);
      log := log + [Ran(unlink)];
      history := history + [unlink];
    }
    var unregister := Unregister(p.localPath);
    ModuleUnlinkPlanShape(w, p);
    assert plan[|workspace|..] == [Always(unregister)];
    if !w.exec(history, unregister) {
      return Run(Failed(unregister), log + [Ran(unregister)]);
    }
    RunStepsRan(w, history, plan[|workspace|..], log, unregister);
    r := Run(Done, log + [Ran(unregister)]);
  }

  /** What the reinstall step for key i does after the events in log. */
  lemma ReinstallStepsStep(w: World, m: ModuleMap, i: nat, history: seq<Command>, log: seq<Event>)
    requires Valid(m) && i < |m.keys|
    ensures var plan := ReinstallSteps(w, m); var k := m.keys[i]; var install := Install(k);
      Prepend(log, RunSteps(w, history, plan[i..])) ==
        if |MissingModules(w, history, m.lists[k], FormatPrjPath(w, k))| == 0 then
          Prepend(log + [Skipped], RunSteps(w, history, plan[i + 1..]))
        else if w.exec(history, install) then
          Prepend(log + [Ran(install)], RunSteps(w, history + [install], plan[i + 1..]))
        else Run(Failed(install), log + [Ran(install)])
  {
    var plan := ReinstallSteps(w, m);
    var k := m.keys[i];
    assert plan[i..][0] == IfAnyMissing(m.lists[k], FormatPrjPath(w, k), Install(k));
    assert plan[i..][1..] == plan[i + 1..];
    if |MissingModules(w, history, m.lists[k], FormatPrjPath(w, k))| == 0 {
      RunStepsPassed(w, history, plan[i..], log, Skipped);
    } else if w.exec(history, Install(k)) {
      RunStepsRan(w, history, plan[i..], log, Install(k));
    }
  }

  method Reinstall(w: World, h: seq<Command>, c: Config) returns (r: Run)
    ensures r == RunSteps(w, h, ReinstallPlan(w, c))
  {
    var workspaceModuleMap := BuildModuleMap(c);
    ghost var plan := ReinstallSteps(w, workspaceModuleMap);
    var workspace := workspaceModuleMap.keys;
    var log := [];
    var history := h;
    for i := 0 to |workspace|
      invariant history == h + Issued(log)
      invariant RunSteps(w, h, plan) == Prepend(log, RunSteps(w, history, plan[i..]))
    {
      var projectPath := workspace[i];
      var formattedPath := FormatPrjPath(w, projectPath);
      var modulesInProject := workspaceModuleMap.lists[projectPath];
      var install := Install(projectPath);
      ReinstallStepsStep(w, workspaceModuleMap, i, history, log);
      var notInstalledModules := MissingModules(w, history, modulesInProject, formattedPath);
      if |notInstalledModules| == 0 {
        HistoryPassed(h, log, Skipped);
        log := log + [Skipped];
        continue;
      }
      if !w.exec(history, install) {
        return Run(Failed(install), log + [Ran(install)]);
      }
      HistoryRan(h, log, install);
      log := log + [Ran(install)];
      history := history + [install];
    }
    assert plan[|workspace|..] == [];
    r := Run(Done, log);
  }

  lemma UnlinkModulesPlanUnfold(w: World, c: Config, i: nat)
    requires i < |c|
    ensures UnlinkModulesPlan(w, c[i..]) == ModuleUnlinkPlan(w, c[i]) + UnlinkModulesPlan(w, c[i + 1..])
  {
    assert c[i..][0] == c[i] && c[i..][1..] == c[i + 1..];
  }

  method Unlink(w: World, h: seq<Command>, c: Config) returns (r: Run)
    ensures r == RunSteps(w, h, UnlinkPlan(w, c))
  {
    var log := [];
    var history := h;
    for i := 0 to |c|
      invariant history == h + Issued(log)
      invariant RunSteps(w, h, UnlinkModulesPlan(w, c)) == Prepend(log, RunSteps(w, history, UnlinkModulesPlan(w, c[i..])))
    {
      UnlinkModulesPlanUnfold(w, c, i);
      var m := UnlinkModule(w, history, c[i]);
      if m.outcome.Failed? {
        RunStepsBlockFailed(w, history, ModuleUnlinkPlan(w, c[i]), UnlinkModulesPlan(w, c[i + 1..]));
        RunStepsBlockFailed(w, h, UnlinkModulesPlan(w, c), ReinstallPlan(w, c));
        return Run(m.outcome, log + m.log);
      }
      RunStepsBlockDone(w, h, log, ModuleUnlinkPlan(w, c[i]), UnlinkModulesPlan(w, c[i + 1..]));
      log := log + m.log;
      history := history + Issued(m.log);
    }
    assert c[|c|..] == [];
    assert RunSteps(w, h, UnlinkModulesPlan(w, c)) == Run(Done, log);
    RunStepsAppend(w, h, UnlinkModulesPlan(w, c), ReinstallPlan(w, c));
    var reinstalled := Reinstall(w, history, c);
    r := Prepend(log, reinstalled);
  }

  /** The three ways `unlinkModule` treats one workspace entry, each exactly
      when its condition holds under history H: warn that the module is
      missing, warn that it is not a symbolic link, or run `yarn unlink`. */
  ghost predicate UnlinkDecision(w: World, H: seq<Command>, name: string, projectPath: Path, e: Event) {
    var modulePath := ResolveModulePath(w, name, projectPath);
    && (e == Warned(ModuleMissing(name, projectPath)) <==> !w.hasModule(H, modulePath))
    && (e == Warned(ModuleNotLinked(name, projectPath)) <==> w.hasModule(H, modulePath) && !w.isLinked(H, modulePath))
    && (e == Ran(UnlinkFrom(name, projectPath)) <==> w.hasModule(H, modulePath) && w.isLinked(H, modulePath))
  }

  /** Each workspace entry reached gets its warning or its unlink, decided on
      the filesystem as the earlier commands left it; a warning never ends
      the run. */
  lemma UnlinkModuleWarnsOrUnlinks(w: World, h: seq<Command>, p: Package)
    ensures var r := RunSteps(w, h, ModuleUnlinkPlan(w, p)); var ws := Workspaces(p);
      forall j :: 0 <= j < |r.log| && j < |ws| ==>
        UnlinkDecision(w, h + Issued(r.log[..j]), p.name, FormatPrjPath(w, ws[j]), r.log[j])
    ensures var r := RunSteps(w, h, ModuleUnlinkPlan(w, p));
      forall j :: 0 <= j < |r.log| && r.log[j].Warned? ==> j + 1 < |r.log|
  {
    var plan := ModuleUnlinkPlan(w, p);
    var ws := Workspaces(p);
    var r := RunSteps(w, h, plan);
    RunFollowsSteps(w, h, plan);
    forall j | 0 <= j < |r.log| && j < |ws|
      ensures UnlinkDecision(w, h + Issued(r.log[..j]), p.name, FormatPrjPath(w, ws[j]), r.log[j])
    {
      assert plan[j] == IfLinked(p.name, FormatPrjPath(w, ws[j]), UnlinkFrom(p.name, FormatPrjPath(w, ws[j])));
    }
    assert plan[|ws|] == Always(Unregister(p.localPath));
  }

  /** `yarn unlink` runs in the package's own directory once, after every
      workspace entry, and is reached exactly when no `yarn unlink <name>`
      failed. */
  lemma UnlinkModuleUnregistersLast(w: World, h: seq<Command>, p: Package)
    ensures var r := RunSteps(w, h, ModuleUnlinkPlan(w, p)); var n := |Workspaces(p)|;
      r.outcome.Done? ==> |r.log| == n + 1 && r.log[n] == Ran(Unregister(p.localPath))
    ensures var r := RunSteps(w, h, ModuleUnlinkPlan(w, p)); var n := |Workspaces(p)|;
      forall j :: 0 <= j < |r.log| && r.log[j].Ran? ==>
        if j == n then r.log[j].cmd == Unregister(p.localPath) else r.log[j].cmd.UnlinkFrom?
    ensures var r := RunSteps(w, h, ModuleUnlinkPlan(w, p)); var n := |Workspaces(p)|;
      r.outcome.Failed? ==> (r.outcome.cmd.UnlinkFrom? <==> |r.log| <= n)
  {
    var plan := ModuleUnlinkPlan(w, p);
    var ws := Workspaces(p);
    var r := RunSteps(w, h, plan);
    RunFollowsSteps(w, h, plan);
    assert plan[|ws|] == Always(Unregister(p.localPath));
    forall j | 0 <= j < |r.log| && j < |ws|
      ensures plan[j].cmd.UnlinkFrom?
    {
      assert plan[j] == IfLinked(p.name, FormatPrjPath(w, ws[j]), UnlinkFrom(p.name, FormatPrjPath(w, ws[j])));
    }
  }

  /** One package's block: an unlink per workspace entry, then its
      unregistration. */
  lemma ModuleUnlinkPlanShape(w: World, p: Package)
    ensures |ModuleUnlinkPlan(w, p)| == |Workspaces(p)| + 1
    ensures ModuleUnlinkPlan(w, p)[|Workspaces(p)|] == Always(Unregister(p.localPath))
  {
  }

  /** N packages with M_i workspace entries give N + sum M_i steps. */
  lemma {:induction false} UnlinkModulesPlanLength(w: World, c: Config)
    ensures |UnlinkModulesPlan(w, c)| == |c| + TotalWorkspaces(c)
  {
    if c != [] {
      UnlinkModulesPlanLength(w, c[1..]);
    }
  }

  /** The package loop only unlinks and unregisters: it never installs. */
  lemma {:induction false} UnlinkModulesPlanKinds(w: World, c: Config)
    ensures forall s :: s in UnlinkModulesPlan(w, c) ==>
      (s.IfLinked? && s.cmd.UnlinkFrom?) || (s.Always? && s.cmd.Unregister?)
  {
    if c != [] {
      UnlinkModulesPlanKinds(w, c[1..]);
    }
  }

  /** The package loop over a + b is the loop over a, then the loop over b. */
  lemma {:induction false} UnlinkModulesPlanAppend(w: World, a: Config, b: Config)
    ensures UnlinkModulesPlan(w, a + b) == UnlinkModulesPlan(w, a) + UnlinkModulesPlan(w, b)
  {
    if a == [] {
      assert a + b == b;
    } else {
      assert (a + b)[0] == a[0] && (a + b)[1..] == a[1..] + b;
      UnlinkModulesPlanAppend(w, a[1..], b);
      var head := ModuleUnlinkPlan(w, a[0]);
      assert head + (UnlinkModulesPlan(w, a[1..]) + UnlinkModulesPlan(w, b))
        == (head + UnlinkModulesPlan(w, a[1..])) + UnlinkModulesPlan(w, b);
    }
  }

  /** Package i's block of `unlinkModule` steps sits at Offset(c, i), after
      the blocks of the packages before it; it ends with its unregistration. */
  lemma UnlinkModulesPlanAt(w: World, c: Config, i: nat)
    requires i < |c|
    ensures Offset(c, i) + |Workspaces(c[i])| < |UnlinkModulesPlan(w, c)|
    ensures UnlinkModulesPlan(w, c)[Offset(c, i)..Offset(c, i) + |Workspaces(c[i])| + 1] == ModuleUnlinkPlan(w, c[i])
  {
    var pre, block, post := UnlinkModulesPlan(w, c[..i]), ModuleUnlinkPlan(w, c[i]), UnlinkModulesPlan(w, c[i + 1..]);
    assert c == c[..i] + c[i..];
    UnlinkModulesPlanAppend(w, c[..i], c[i..]);
    UnlinkModulesPlanUnfold(w, c, i);
    UnlinkModulesPlanLength(w, c[..i]);
    ModuleUnlinkPlanShape(w, c[i]);
    assert UnlinkModulesPlan(w, c) == pre + block + post;
    assert (pre + block + post)[|pre|..|pre| + |block|] == block;
  }

  /** Nothing is installed until every package has been unlinked and
      unregistered: a failure in the package loop ends `unlink` before
      `reinstall`, and otherwise the reinstall events follow the
      N + sum M_i events of the package loop. */
  lemma UnlinkReinstallsAfterModules(w: World, h: seq<Command>, c: Config)
    ensures var r := RunSteps(w, h, UnlinkPlan(w, c)); var r1 := RunSteps(w, h, UnlinkModulesPlan(w, c));
      r1.outcome.Failed? ==> r == r1
    ensures var r := RunSteps(w, h, UnlinkPlan(w, c)); var r1 := RunSteps(w, h, UnlinkModulesPlan(w, c));
      r1.outcome.Done? ==>
        && |r1.log| == |c| + TotalWorkspaces(c)
        && r == Prepend(r1.log, RunSteps(w, h + Issued(r1.log), ReinstallPlan(w, c)))
    ensures var r := RunSteps(w, h, UnlinkPlan(w, c));
      forall j :: 0 <= j < |r.log| && r.log[j].Ran? && r.log[j].cmd.Install? ==>
        && |c| + TotalWorkspaces(c) <= j
        && RunSteps(w, h, UnlinkModulesPlan(w, c)).outcome.Done?
  {
    var plan := UnlinkModulesPlan(w, c);
    var r1 := RunSteps(w, h, plan);
    RunStepsAppend(w, h, plan, ReinstallPlan(w, c));
    RunFollowsSteps(w, h, plan);
    UnlinkModulesPlanLength(w, c);
    UnlinkModulesPlanKinds(w, c);
    forall j | 0 <= j < |r1.log| && r1.log[j].Ran?
      ensures !r1.log[j].cmd.Install?
    {
      assert plan[j] in plan;
    }
  }

  /** In a completed package loop, package i's `yarn unlink` is the event at
      Offset(c, i) + M_i. */
  lemma UnregisterEventAt(w: World, h: seq<Command>, c: Config, i: nat)
    requires i < |c|
    requires RunSteps(w, h, UnlinkModulesPlan(w, c)).outcome.Done?
    ensures var r1 := RunSteps(w, h, UnlinkModulesPlan(w, c)); var o := Offset(c, i) + |Workspaces(c[i])|;
      o < |r1.log| && r1.log[o] == Ran(Unregister(c[i].localPath))
  {
    UnregisterStepAt(w, c, i);
    AlwaysStepRan(w, h, UnlinkModulesPlan(w, c), Offset(c, i) + |Workspaces(c[i])|);
  }

  /** Package i's unregistration is the step at Offset(c, i) + M_i. */
  lemma UnregisterStepAt(w: World, c: Config, i: nat)
    requires i < |c|
    ensures var o := Offset(c, i) + |Workspaces(c[i])|;
      o < |UnlinkModulesPlan(w, c)| && UnlinkModulesPlan(w, c)[o] == Always(Unregister(c[i].localPath))
  {
    var plan := UnlinkModulesPlan(w, c);
    UnlinkModulesPlanAt(w, c, i);
    ModuleUnlinkPlanShape(w, c[i]);
    var o := Offset(c, i) + |Workspaces(c[i])|;
    assert plan[o] == plan[Offset(c, i)..o + 1][|Workspaces(c[i])|];
  }

  /** When the package loop completes, every package's `yarn unlink` has run,
      package i's as the event at Offset(c, i) + M_i, before any reinstall
      event. */
  lemma UnlinkUnregistersEveryPackage(w: World, h: seq<Command>, c: Config)
    ensures var r := RunSteps(w, h, UnlinkPlan(w, c));
      RunSteps(w, h, UnlinkModulesPlan(w, c)).outcome.Done? ==>
        forall i :: 0 <= i < |c| ==>
          Offset(c, i) + |Workspaces(c[i])| < |r.log| &&
          r.log[Offset(c, i) + |Workspaces(c[i])|] == Ran(Unregister(c[i].localPath))
  {
    var r1 := RunSteps(w, h, UnlinkModulesPlan(w, c));
    if r1.outcome.Done? {
      UnlinkReinstallsAfterModules(w, h, c);
      forall i | 0 <= i < |c|
        ensures Offset(c, i) + |Workspaces(c[i])| < |r1.log|
        ensures r1.log[Offset(c, i) + |Workspaces(c[i])|] == Ran(Unregister(c[i].localPath))
      {
        UnregisterEventAt(w, h, c, i);
      }
    }
  }

  /** How `reinstall` treats the workspace key projectPath under history H:
      it runs `yarn` in the raw key exactly when some listed module is absent
      under the resolved path, and otherwise skips the key. */
  ghost predicate ReinstallDecision(w: World, H: seq<Command>, projectPath: Path, names: seq<string>, e: Event) {
    && (e.Ran? <==> exists n :: n in names && !w.hasModule(H, ResolveModulePath(w, n, FormatPrjPath(w, projectPath))))
    && (e.Ran? ==> e.cmd == Install(projectPath))
    && (!e.Ran? ==> e == Skipped)
  }

  /** Reinstall visits the keys of workspaceModuleMap in order, each once,
      deciding on the filesystem as the earlier installs left it. */
  lemma ReinstallSkipRule(w: World, h: seq<Command>, c: Config)
    ensures var m := ConfigModuleMap(c); var r := RunSteps(w, h, ReinstallPlan(w, c));
      && |r.log| <= |m.keys|
      && (r.outcome.Done? ==> |r.log| == |m.keys|)
      && forall j :: 0 <= j < |r.log| ==>
           ReinstallDecision(w, h + Issued(r.log[..j]), m.keys[j], m.lists[m.keys[j]], r.log[j])
  {
    var m := ConfigModuleMap(c);
    var plan := ReinstallPlan(w, c);
    var r := RunSteps(w, h, plan);
    RunFollowsSteps(w, h, plan);
    forall j | 0 <= j < |r.log|
      ensures ReinstallDecision(w, h + Issued(r.log[..j]), m.keys[j], m.lists[m.keys[j]], r.log[j])
    {
      var k := m.keys[j];
      assert plan[j] == IfAnyMissing(m.lists[k], FormatPrjPath(w, k), Install(k));
      AnyMissingFires(w, h + Issued(r.log[..j]), m.lists[k], FormatPrjPath(w, k), Install(k));
    }
  }

  /** `yarn` runs at most once per workspace key, and only in a key of
      workspaceModuleMap. */
  lemma ReinstallOncePerKey(w: World, h: seq<Command>, c: Config)
    ensures var m := ConfigModuleMap(c); var r := RunSteps(w, h, ReinstallPlan(w, c));
      && NoDups(Issued(r.log))
      && forall x :: x in Issued(r.log) ==> x.Install? && x.cwd in m.keys
  {
    var m := ConfigModuleMap(c);
    var plan := ReinstallPlan(w, c);
    var r := RunSteps(w, h, plan);
    RunFollowsSteps(w, h, plan);
    forall j | 0 <= j < |r.log| && r.log[j].Ran?
      ensures r.log[j].cmd == Install(m.keys[j])
    {
      assert plan[j].cmd == Install(m.keys[j]);
    }
    IssuedNoDups(r.log);
    IssuedFrom(r.log);
  }

  /** Unlinking only unlinks, unregisters and installs. */
  lemma UnlinkPlanKinds(w: World, c: Config)
    ensures forall s :: s in UnlinkPlan(w, c) ==> s.cmd.UnlinkFrom? || s.cmd.Unregister? || s.cmd.Install?
  {
    UnlinkModulesPlanKinds(w, c);
  }
}

