// `link` and `linkModule`: register every package, then link it into each of
// its workspaces, stopping at the first command that fails.
module Linking {
  import opened Shell
  import opened Steps
  import opened LinkConfig

  /** The commands `linkModule` issues for one package, in order. */
  function ModuleLinkPlan(w: World, p: Package): seq<Step> {
    var ws := Workspaces(p);
    [Always(Register(p.localPath))]
      + seq(|ws|, j requires 0 <= j < |ws| => Always(LinkInto(p.name, FormatPrjPath(w, ws[j]))))
  }

  /** The commands `link` issues, package by package in key order. */
  function LinkPlan(w: World, c: Config): seq<Step> {
    if c == [] then [] else ModuleLinkPlan(w, c[0]) + LinkPlan(w, c[1..])
  }

  method LinkModule(w: World, h: seq<Command>, p: Package) returns (r: Run)
    ensures r == RunSteps(w, h, ModuleLinkPlan(w, p))
  {
    ghost var plan := ModuleLinkPlan(w, p);
    var register := Register(p.localPath);
    if !w.exec(h, register) {
      return Run(Failed(register), [Ran(register)]);
    }
    var log := [Ran(register)];
    var history := h + [register];
    var workspace := Workspaces(p);
    IssuedSingle(Ran(register));
    RunStepsRan(w, h, plan, [], register);
    assert plan[1..] == plan[0 + 1..];
    for i := 0 to |workspace|
      invariant history == h + Issued(log)
      invariant RunSteps(w, h, plan) == Prepend(log, RunSteps(w, history, plan[i + 1..]))
    {
      var projectPath := FormatPrjPath(w, workspace[i]);
      var link := LinkInto(p.name, projectPath);
      assert plan[i + 1..][0] == Always(link) && plan[i + 1..][1..] == plan[i + 2..];
      if !w.exec(history, link) {
        return Run(Failed(link), log + [Ran(link)]);
      }
      HistoryRan(h, log, link);
      RunStepsRan(w, history, plan[i + 1..], log, link);
      log := log + [Ran(link)];
      history := history + [link];
    }
    r := Run(Done, log);
  }

  lemma LinkPlanUnfold(w: World, c: Config, i: nat)
    requires i < |c|
    ensures LinkPlan(w, c[i..]) == ModuleLinkPlan(w, c[i]) + LinkPlan(w, c[i + 1..])
  {
    assert c[i..][0] == c[i] && c[i..][1..] == c[i + 1..];
  }

  method Link(w: World, h: seq<Command>, c: Config) returns (r: Run)
    ensures r == RunSteps(w, h, LinkPlan(w, c))
  {
    var log := [];
    var history := h;
    for i := 0 to |c|
      invariant history == h + Issued(log)
      invariant RunSteps(w, h, LinkPlan(w, c)) == Prepend(log, RunSteps(w, history, LinkPlan(w, c[i..])))
    {
      LinkPlanUnfold(w, c, i);
      var m := LinkModule(w, history, c[i]);
      if m.outcome.Failed? {
        RunStepsBlockFailed(w, history, ModuleLinkPlan(w, c[i]), LinkPlan(w, c[i + 1..]));
        return Run(m.outcome, log + m.log);
      }
      RunStepsBlockDone(w, h, log, ModuleLinkPlan(w, c[i]), LinkPlan(w, c[i + 1..]));
      log := log + m.log;
      history := history + Issued(m.log);
    }
    assert c[|c|..] == [];
    r := Run(Done, log);
  }

  /** N packages with M_i workspace entries give N + sum M_i unguarded steps. */
  lemma {:induction false} LinkPlanSize(w: World, c: Config)
    ensures |LinkPlan(w, c)| == |c| + TotalWorkspaces(c)
    ensures forall s :: s in LinkPlan(w, c) ==> s.Always?
  {
    if c != [] {
      LinkPlanSize(w, c[1..]);
    }
  }

  /** Linking a + b is linking a, then linking b. */
  lemma {:induction false} LinkPlanAppend(w: World, a: Config, b: Config)
    ensures LinkPlan(w, a + b) == LinkPlan(w, a) + LinkPlan(w, b)
  {
    if a == [] {
      assert a + b == b;
    } else {
      assert (a + b)[0] == a[0] && (a + b)[1..] == a[1..] + b;
      LinkPlanAppend(w, a[1..], b);
      var head := ModuleLinkPlan(w, a[0]);
      assert head + (LinkPlan(w, a[1..]) + LinkPlan(w, b)) == (head + LinkPlan(w, a[1..])) + LinkPlan(w, b);
    }
  }

  /** Package i's block of `linkModule` steps sits at Offset(c, i), after
      the blocks of the packages before it: its registration, then its links
      in workspace-list order. */
  lemma LinkPlanAt(w: World, c: Config, i: nat)
    requires i < |c|
    ensures Offset(c, i) + |Workspaces(c[i])| < |LinkPlan(w, c)|
    ensures LinkPlan(w, c)[Offset(c, i)..Offset(c, i) + |Workspaces(c[i])| + 1] == ModuleLinkPlan(w, c[i])
  {
    var pre, block, post := LinkPlan(w, c[..i]), ModuleLinkPlan(w, c[i]), LinkPlan(w, c[i + 1..]);
    assert c == c[..i] + c[i..];
    LinkPlanAppend(w, c[..i], c[i..]);
    LinkPlanUnfold(w, c, i);
    LinkPlanSize(w, c[..i]);
    assert |block| == |Workspaces(c[i])| + 1;
    assert LinkPlan(w, c) == pre + block + post;
    assert (pre + block + post)[|pre|..|pre| + |block|] == block;
  }

  /** What a link run issues: a prefix of the plan's commands, ending with
      the failing command if one failed; when every command succeeds, all of
      them, N + sum M_i in total, in plan order. */
  lemma LinkIssuesPlanPrefix(w: World, h: seq<Command>, c: Config)
    ensures var r := RunSteps(w, h, LinkPlan(w, c));
      && |r.log| <= |LinkPlan(w, c)|
      && Issued(r.log) == Commands(LinkPlan(w, c))[..|r.log|]
      && (r.outcome.Failed? ==> Issued(r.log)[|r.log| - 1] == r.outcome.cmd)
      && (r.outcome.Done? ==> Issued(r.log) == Commands(LinkPlan(w, c)) && |Issued(r.log)| == |c| + TotalWorkspaces(c))
  {
    LinkPlanSize(w, c);
    AlwaysPlanIssuesPrefix(w, h, LinkPlan(w, c));
    RunFollowsSteps(w, h, LinkPlan(w, c));
  }

  /** Linking only registers packages and links them into workspaces. */
  lemma {:induction false} LinkPlanKinds(w: World, c: Config)
    ensures forall s :: s in LinkPlan(w, c) ==> s.cmd.Register? || s.cmd.LinkInto?
  {
    if c != [] {
      LinkPlanKinds(w, c[1..]);
    }
  }

  /** Every command line a link run hands to the shell starts with
      "yarn link". */
  lemma LinkIssuesYarnLinkLines(w: World, h: seq<Command>, c: Config)
    ensures forall x :: x in Issued(RunSteps(w, h, LinkPlan(w, c)).log) ==> "yarn link" <= x.Line()
  {
    IssuedFromPlan(w, h, LinkPlan(w, c));
    LinkPlanKinds(w, c);
    forall x: Command | x.Register? || x.LinkInto?
      ensures "yarn link" <= x.Line()
    {
      YarnLinkLine(x);
    }
  }
}

