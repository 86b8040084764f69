// The entry point of bin/link.js: `--reset` (alias `-r`) unlinks, anything
// else links.
module Cli {
  import opened Shell
  import opened Steps
  import opened LinkConfig
  import opened Linking
  import opened Unlinking

  /** Run the mode the `reset` flag selects on the loaded configuration. */
  method Dispatch(w: World, h: seq<Command>, c: Config, reset: bool) returns (r: Run)
    ensures r == RunSteps(w, h, if reset then UnlinkPlan(w, c) else LinkPlan(w, c))
  {
    if reset {
      r := Unlink(w, h, c);
      return;
    }
    r := Link(w, h, c);
  }

  /** The two modes never mix: a reset run issues no `yarn link`, and a link
      run issues nothing but `yarn link`. */
  lemma DispatchModesDisjoint(w: World, h: seq<Command>, c: Config, reset: bool)
    ensures var r := RunSteps(w, h, if reset then UnlinkPlan(w, c) else LinkPlan(w, c));
      forall x :: x in Issued(r.log) ==> (x.Register? || x.LinkInto? <==> !reset)
  {
    var plan := if reset then UnlinkPlan(w, c) else LinkPlan(w, c);
    IssuedFromPlan(w, h, plan);
    if reset {
      UnlinkPlanKinds(w, c);
    } else {
      LinkPlanKinds(w, c);
    }
  }

  /** On the command lines handed to the shell: a line starts with
      "yarn link" exactly when the run was not a reset. */
  lemma DispatchCommandLines(w: World, h: seq<Command>, c: Config, reset: bool)
    ensures var r := RunSteps(w, h, if reset then UnlinkPlan(w, c) else LinkPlan(w, c));
      forall x :: x in Issued(r.log) ==> ("yarn link" <= x.Line() <==> !reset)
  {
    DispatchModesDisjoint(w, h, c, reset);
    forall x: Command
      ensures "yarn link" <= x.Line() <==> x.Register? || x.LinkInto?
    {
      YarnLinkLine(x);
    }
  }
}
