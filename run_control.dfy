/**
 * The confirm-then-run protocol of the `fassembler` command: every project's
 * settings are confirmed and the errors collected; nothing runs if there
 * were any; then the projects run in the requested order, a failure clears
 * the success flag and the operator decides whether the next project runs;
 * the environment's configuration is saved only when everything succeeded.
 *
 * What a project's `confirm_settings`, `run` and `make_description` do, the
 * settings its tasks write into the environment's configuration while it
 * runs, and what the operator answers when asked about an exception, are
 * given with each project.
 */
module RunControl {
  import opened Wrappers
  import Configs

  /** The outcome of one project's `confirm_settings`. */
  datatype Confirmation =
    | Reported(errors: seq<string>)                   // returned a list of errors (maybe empty)
    | Raised(error: string, operatorContinues: bool)  // raised; the operator's answer to the exception
    | Interrupted                                     // keyboard interrupt
    | Refused(message: string)                        // command error

  /** The outcome of one project's `run`. */
  datatype Execution =
    | Completed(writes: seq<Configs.Write>)           // returned; the settings its tasks wrote, in order
    | Failed(error: string, operatorContinues: bool)  // raised; the operator's answer to the exception
    | RunInterrupted                                  // keyboard interrupt
    | RunRefused(message: string)                     // command error

  /** The outcome of one project's `make_description`. */
  datatype Describing =
    | Described
    | DescriptionRaised(error: string)      // raised; nothing in the command catches it
    | DescriptionInterrupted                // keyboard interrupt
    | DescriptionRefused(message: string)   // command error

  datatype Project = Project(name: string, confirmation: Confirmation, execution: Execution, description: Describing)

  /**
   * How the command ends: normally, with a command error, by a keyboard
   * interrupt, or by an exception nothing in the command catches.
   */
  datatype Exit = Returned | CommandError(message: string) | KeyboardInterrupt | Uncaught(error: string)

  /**
   * Which projects were confirmed, run and described (in order), the settings
   * the completed runs wrote, whether the environment's configuration was
   * saved, and how the command ended.
   */
  datatype Report = Report(exit: Exit, confirmed: seq<string>, ran: seq<string>, described: seq<string>,
                           written: seq<Configs.Write>, saved: bool)

  function Names(ps: seq<Project>): (names: seq<string>)
    ensures |names| == |ps|
    ensures forall i :: 0 <= i < |ps| ==> names[i] == ps[i].name
  {
    seq(|ps|, i requires 0 <= i < |ps| => ps[i].name)
  }

  // ---------------------------------------------------------------------
  // Confirmation phase

  /** A confirmation that ends the command on the spot. */
  predicate ConfirmStops(c: Confirmation) {
    c.Interrupted? || c.Refused? || (c.Raised? && !c.operatorContinues)
  }

  /** A confirmation that leaves nothing to complain about. */
  predicate Clean(c: Confirmation) {
    c == Reported([])
  }

  datatype Confirming = Confirming(errors: seq<string>, confirmed: seq<string>, stop: Option<Exit>)

  function ConfirmStep(st: Confirming, p: Project): Confirming {
    if st.stop.Some? then st
    else
      var st' := st.(confirmed := st.confirmed + [p.name]);
      match p.confirmation
      case Reported(es) => st'.(errors := st.errors + es)
      case Raised(e, cont) =>
        if cont then st'.(errors := st.errors + [e]) else st'.(stop := Some(CommandError("Aborted")))
      case Interrupted => st'.(stop := Some(KeyboardInterrupt))
      case Refused(m) => st'.(stop := Some(CommandError(m)))
  }

  /** The confirmation loop over the projects, first to last. */
  function ConfirmAll(ps: seq<Project>): Confirming {
    if ps == [] then Confirming([], [], None)
    else ConfirmStep(ConfirmAll(ps[..|ps| - 1]), ps[|ps| - 1])
  }

  // ---------------------------------------------------------------------
  // Run phase

  /** An execution after which the next project is not run. */
  predicate RunStops(e: Execution) {
    e.RunInterrupted? || e.RunRefused? || (e.Failed? && !e.operatorContinues)
  }

  /** How a description ends the command, if it does. */
  function DescriptionStop(d: Describing): Option<Exit> {
    match d
    case Described => None
    case DescriptionRaised(e) => Some(Uncaught(e))
    case DescriptionInterrupted => Some(KeyboardInterrupt)
    case DescriptionRefused(m) => Some(CommandError(m))
  }

  /** A project after which the loop goes no further, in either mode. */
  predicate Stops(p: Project, projectHelp: bool) {
    if projectHelp then DescriptionStop(p.description).Some? else RunStops(p.execution)
  }

  datatype Running = Running(ran: seq<string>, described: seq<string>, written: seq<Configs.Write>,
                             success: bool, halted: bool, stop: Option<Exit>)

  function RunStep(st: Running, p: Project, projectHelp: bool): Running {
    if st.halted then st
    else if projectHelp then
      var s := DescriptionStop(p.description);
      if s.None? then st.(described := st.described + [p.name]) else st.(halted := true, stop := s)
    else
      var st' := st.(ran := st.ran + [p.name]);
      match p.execution
      case Completed(ws) => st'.(written := st.written + ws)
      case Failed(_, cont) => st'.(success := false, halted := !cont)
      case RunInterrupted => st'.(halted := true, stop := Some(CommandError("^C")))
      case RunRefused(m) => st'.(halted := true, stop := Some(CommandError(m)))
  }

  /** The run loop over the projects, first to last. */
  function RunAll(ps: seq<Project>, projectHelp: bool): Running {
    if ps == [] then Running([], [], [], true, false, None)
    else RunStep(RunAll(ps[..|ps| - 1], projectHelp), ps[|ps| - 1], projectHelp)
  }

  /** The settings written by those of the projects whose run completes, in order. */
  function WritesOf(ps: seq<Project>): seq<Configs.Write> {
    if ps == [] then []
    else
      var e := ps[|ps| - 1].execution;
      WritesOf(ps[..|ps| - 1]) + (if e.Completed? then e.writes else [])
  }

  /** The whole protocol. */
  function Controller(ps: seq<Project>, projectHelp: bool): Report {
    var c := ConfirmAll(ps);
    if c.stop.Some? then Report(c.stop.value, c.confirmed, [], [], [], false)
    else if c.errors != [] then Report(CommandError("Errors in configuration"), c.confirmed, [], [], [], false)
    else
      var r := RunAll(ps, projectHelp);
      if r.stop.Some? then Report(r.stop.value, c.confirmed, r.ran, r.described, r.written, false)
      else Report(Returned, c.confirmed, r.ran, r.described, r.written, !projectHelp && r.success)
  }

  // ---------------------------------------------------------------------
  // Once a loop has stopped, the remaining projects change nothing

  lemma {:induction false} ConfirmHalts(ps: seq<Project>, k: nat)
    requires k <= |ps| && ConfirmAll(ps[..k]).stop.Some?
    ensures ConfirmAll(ps) == ConfirmAll(ps[..k])
  {
    if k < |ps| {
      var init := ps[..|ps| - 1];
      assert init[..k] == ps[..k];
      ConfirmHalts(init, k);
    } else {
      assert ps[..k] == ps;
    }
  }

  lemma {:induction false} RunHalts(ps: seq<Project>, projectHelp: bool, k: nat)
    requires k <= |ps| && RunAll(ps[..k], projectHelp).halted
    ensures RunAll(ps, projectHelp) == RunAll(ps[..k], projectHelp)
  {
    if k < |ps| {
      var init := ps[..|ps| - 1];
      assert init[..k] == ps[..k];
      RunHalts(init, projectHelp, k);
    } else {
      assert ps[..k] == ps;
    }
  }

  // ---------------------------------------------------------------------
  // Shape of each phase

  /**
   * The confirmation phase stops early exactly when some project stops it,
   * and otherwise confirms every project in order; it ends with neither a
   * stop nor an error exactly when every project reported no error.
   */
  lemma {:induction false} ConfirmShape(ps: seq<Project>)
    ensures ConfirmAll(ps).stop.None? <==> forall i :: 0 <= i < |ps| ==> !ConfirmStops(ps[i].confirmation)
    ensures ConfirmAll(ps).stop.None? ==> ConfirmAll(ps).confirmed == Names(ps)
    ensures ConfirmAll(ps).stop != Some(Returned)
    ensures (ConfirmAll(ps).stop.None? && ConfirmAll(ps).errors == [])
      <==> forall i :: 0 <= i < |ps| ==> Clean(ps[i].confirmation)
  {
    if ps != [] {
      var init, last := ps[..|ps| - 1], ps[|ps| - 1];
      ConfirmShape(init);
      assert ConfirmAll(ps) == ConfirmStep(ConfirmAll(init), last);
      assert forall i :: 0 <= i < |init| ==> init[i] == ps[i];
      assert Names(ps) == Names(init) + [last.name];
    }
  }

  /** Index of the first project that stops the loop, or the number of projects. */
  function FirstStop(ps: seq<Project>, projectHelp: bool): (k: nat)
    ensures k <= |ps|
    ensures forall i :: 0 <= i < k ==> !Stops(ps[i], projectHelp)
    ensures k < |ps| ==> Stops(ps[k], projectHelp)
  {
    if ps == [] then 0
    else
      var f := FirstStop(ps[..|ps| - 1], projectHelp);
      if f < |ps| - 1 then f
      else if Stops(ps[|ps| - 1], projectHelp) then |ps| - 1
      else |ps|
  }

  /**
   * Without --project-help, the run loop runs the projects up to and
   * including the first one that stops it; the settings written are those of
   * the completed ones among them; success survives exactly when none of
   * those failed; the command errors out exactly when the stopping
   * project was interrupted or raised a command error; and the loop only
   * stops early after a failure or such an error.
   */
  predicate RunShaped(ps: seq<Project>) {
    var r := RunAll(ps, false);
    var k := FirstStop(ps, false);
    var n := if k < |ps| then k + 1 else |ps|;
    r.ran == Names(ps[..n]) && r.described == [] && r.halted == (k < |ps|)
    && (r.success <==> forall i :: 0 <= i < n ==> !ps[i].execution.Failed?)
    && (r.stop.Some? <==> k < |ps| && !ps[k].execution.Failed?)
    && r.stop != Some(Returned)
    && (r.halted ==> !r.success || r.stop.Some?)
  }

  lemma {:induction false} RunShape(ps: seq<Project>)
    ensures RunShaped(ps)
    ensures RunAll(ps, false).written == WritesOf(ps[..|RunAll(ps, false).ran|])
  {
    RunWritten(ps);
    if ps != [] {
      RunShape(ps[..|ps| - 1]);
      if FirstStop(ps[..|ps| - 1], false) < |ps| - 1 {
        RunShapeAfterStop(ps);
      } else {
        RunShapeNoStop(ps);
      }
    }
  }

  lemma {:induction false} RunShapeAfterStop(ps: seq<Project>)
    requires ps != [] && RunShaped(ps[..|ps| - 1]) && FirstStop(ps[..|ps| - 1], false) < |ps| - 1
    ensures RunShaped(ps)
  {
    var init := ps[..|ps| - 1];
    var k := FirstStop(init, false);
    assert RunAll(ps, false) == RunAll(init, false);
    assert FirstStop(ps, false) == k;
    assert ps[..k + 1] == init[..k + 1];
    assert forall i :: 0 <= i <= k ==> init[i] == ps[i];
  }

  lemma {:induction false} RunShapeNoStop(ps: seq<Project>)
    requires ps != [] && RunShaped(ps[..|ps| - 1]) && FirstStop(ps[..|ps| - 1], false) == |ps| - 1
    ensures RunShaped(ps)
  {
    var init, last := ps[..|ps| - 1], ps[|ps| - 1];
    assert forall i :: 0 <= i < |init| ==> init[i] == ps[i];
    assert FirstStop(ps, false) == if RunStops(last.execution) then |init| else |ps|;
    assert init[..|init|] == init && ps[..|ps|] == ps;
    assert Names(ps) == Names(init) + [last.name];
  }

  /** The loop has been through every project unless it halted. */
  lemma {:induction false} RunCount(ps: seq<Project>, projectHelp: bool)
    ensures var r := RunAll(ps, projectHelp);
      |r.ran| <= |ps| && (!projectHelp && !r.halted ==> |r.ran| == |ps|)
  {
    if ps != [] {
      RunCount(ps[..|ps| - 1], projectHelp);
    }
  }

  /** The settings written are those of the completed projects among the ones that ran. */
  lemma {:induction false} RunWritten(ps: seq<Project>)
    ensures var r := RunAll(ps, false);
      |r.ran| <= |ps| && r.written == WritesOf(ps[..|r.ran|])
  {
    RunCount(ps, false);
    if ps != [] {
      var init, last := ps[..|ps| - 1], ps[|ps| - 1];
      RunWritten(init);
      RunCount(init, false);
      var r0 := RunAll(init, false);
      if r0.halted {
        assert ps[..|r0.ran|] == init[..|r0.ran|];
      } else {
        assert init[..|init|] == init && ps[..|ps|] == ps;
        assert ps[..|ps|][..|ps| - 1] == init;
      }
    }
  }

  /**
   * With --project-help, no project is run and nothing is written; the projects are described in
   * order up to the first description that raises or is interrupted, which
   * ends the command.
   */
  predicate HelpShaped(ps: seq<Project>) {
    var r := RunAll(ps, true);
    var k := FirstStop(ps, true);
    r.ran == [] && r.described == Names(ps[..k]) && r.written == [] && r.success && r.halted == (k < |ps|)
    && (if k < |ps| then r.stop == DescriptionStop(ps[k].description) else r.stop.None?)
  }

  lemma {:induction false} HelpShape(ps: seq<Project>)
    ensures HelpShaped(ps)
  {
    if ps != [] {
      var init, last := ps[..|ps| - 1], ps[|ps| - 1];
      HelpShape(init);
      var k := FirstStop(init, true);
      assert forall i :: 0 <= i < |init| ==> init[i] == ps[i];
      if k < |init| {
        assert ps[..k] == init[..k];
      } else {
        assert init[..|init|] == init && ps[..|ps|] == ps;
        assert Names(ps) == Names(init) + [last.name];
      }
    }
  }

  // ---------------------------------------------------------------------
  // The protocol

  /**
   * All projects are confirmed before anything runs: if any project's
   * confirmation reports an error, raises or is interrupted, no project is
   * run or described, nothing is saved and the command fails. Unless a
   * confirmation ends the command, every project is confirmed.
   */
  lemma {:induction false} ConfirmationGate(ps: seq<Project>, projectHelp: bool)
    ensures (exists i :: 0 <= i < |ps| && !Clean(ps[i].confirmation)) ==>
      var r := Controller(ps, projectHelp);
      r.ran == [] && r.described == [] && !r.saved && !r.exit.Returned?
    ensures (forall i :: 0 <= i < |ps| ==> !ConfirmStops(ps[i].confirmation)) ==>
      Controller(ps, projectHelp).confirmed == Names(ps)
  {
    ConfirmShape(ps);
  }

  /** The projects that ran are the first ones requested, in the requested order. */
  lemma {:induction false} RunsInOrder(ps: seq<Project>, projectHelp: bool)
    ensures var r := Controller(ps, projectHelp);
      |r.ran| <= |ps| && r.ran == Names(ps)[..|r.ran|]
  {
    if projectHelp {
      HelpShape(ps);
    } else {
      RunShape(ps);
      var k := FirstStop(ps, false);
      var n := if k < |ps| then k + 1 else |ps|;
      assert Names(ps[..n]) == Names(ps)[..n];
    }
  }

  /**
   * After project `i` has run, project `i + 1` runs exactly when project `i`
   * completed, or failed and the operator chose to continue.
   */
  lemma {:induction false} RunContinuation(ps: seq<Project>, projectHelp: bool, i: nat)
    requires i < |Controller(ps, projectHelp).ran| && i + 1 < |ps|
    ensures i + 1 < |Controller(ps, projectHelp).ran| <==> !RunStops(ps[i].execution)
  {
    if projectHelp {
      HelpShape(ps);
    }
    RunShape(ps);
  }

  /**
   * The environment's configuration is saved exactly when help was not
   * asked for, every project confirmed without error, and every project
   * completed; the command then returned normally after running them all,
   * and the settings written are those of every project, in order.
   */
  lemma {:induction false} SavedIffAllSucceeded(ps: seq<Project>, projectHelp: bool)
    ensures Controller(ps, projectHelp).saved <==>
      !projectHelp
      && (forall i :: 0 <= i < |ps| ==> Clean(ps[i].confirmation))
      && (forall i :: 0 <= i < |ps| ==> ps[i].execution.Completed?)
    ensures Controller(ps, projectHelp).saved ==>
      Controller(ps, projectHelp).exit == Returned && Controller(ps, projectHelp).ran == Names(ps)
      && Controller(ps, projectHelp).written == WritesOf(ps)
  {
    ConfirmShape(ps);
    RunShape(ps);
    var k := FirstStop(ps, false);
    if (forall i :: 0 <= i < |ps| ==> ps[i].execution.Completed?) {
      assert k == |ps|;
      assert ps[..|ps|] == ps;
    }
    var r := RunAll(ps, false);
    if r.success && r.stop.None? {
      assert k == |ps|;
      assert ps[..|ps|] == ps;
    }
  }

  /**
   * With --project-help nothing runs or is saved. Once confirmation is
   * clean, the projects are described in order; the command returns
   * normally exactly when every description succeeds, and then every
   * project is described; otherwise the first description that fails ends
   * the command with its exception.
   */
  lemma {:induction false} ProjectHelpRunsNothing(ps: seq<Project>)
    ensures Controller(ps, true).ran == [] && !Controller(ps, true).saved
    ensures (forall i :: 0 <= i < |ps| ==> Clean(ps[i].confirmation)) ==>
      var r := Controller(ps, true);
      |r.described| <= |ps| && r.described == Names(ps)[..|r.described|]
      && (r.exit == Returned <==> forall i :: 0 <= i < |ps| ==> ps[i].description.Described?)
      && (r.exit == Returned ==> r.described == Names(ps))
      && (|r.described| < |ps| ==> Some(r.exit) == DescriptionStop(ps[|r.described|].description))
  {
    ConfirmShape(ps);
    HelpShape(ps);
    var k := FirstStop(ps, true);
    assert Names(ps[..k]) == Names(ps)[..k];
    if k == |ps| {
      assert ps[..k] == ps;
    }
  }

  // ---------------------------------------------------------------------
  // The controller

  /** The confirm, run and save steps of `main`, over projects already found. */
  method RunProjects(projects: seq<Project>, projectHelp: bool) returns (report: Report)
    ensures report == Controller(projects, projectHelp)
  {
    var c := ConfirmProjects(projects);
    if c.stop.Some? {
      return Report(c.stop.value, c.confirmed, [], [], [], false);
    }
    if c.errors != [] {
      return Report(CommandError("Errors in configuration"), c.confirmed, [], [], [], false);
    }
    var r := RunEach(projects, projectHelp);
    if r.stop.Some? {
      return Report(r.stop.value, c.confirmed, r.ran, r.described, r.written, false);
    }
    var saved := false;
    if !projectHelp {
      if r.success {
        saved := true;
      }
    }
    return Report(Returned, c.confirmed, r.ran, r.described, r.written, saved);
  }

  /** The confirmation loop: collect every project's errors, unless one ends the command. */
  method ConfirmProjects(projects: seq<Project>) returns (c: Confirming)
    ensures c == ConfirmAll(projects)
  {
    var errors: seq<string> := [];
    var confirmed: seq<string> := [];
    var i := 0;
    while i < |projects|
      invariant 0 <= i <= |projects|
      invariant ConfirmAll(projects[..i]) == Confirming(errors, confirmed, None)
    {
      var p := projects[i];
      assert projects[..i + 1][..i] == projects[..i];
      confirmed := confirmed + [p.name];
      match p.confirmation {
        case Reported(es) =>
          errors := errors + es;
        case Raised(e, cont) =>
          if !cont {
            ConfirmHalts(projects, i + 1);
            return Confirming(errors, confirmed, Some(CommandError("Aborted")));
          }
          errors := errors + [e];
        case Interrupted =>
          ConfirmHalts(projects, i + 1);
          return Confirming(errors, confirmed, Some(KeyboardInterrupt));
        case Refused(m) =>
          ConfirmHalts(projects, i + 1);
          return Confirming(errors, confirmed, Some(CommandError(m)));
      }
      i := i + 1;
    }
    assert projects[..i] == projects;
    return Confirming(errors, confirmed, None);
  }

  /**
   * The run loop: describe or run each project in turn; a failure clears the
   * success flag and the loop goes on only if the operator says so.
   */
  method RunEach(projects: seq<Project>, projectHelp: bool) returns (r: Running)
    ensures r == RunAll(projects, projectHelp)
  {
    var ran: seq<string> := [];
    var described: seq<string> := [];
    var written: seq<Configs.Write> := [];
    var success := true;
    var j := 0;
    while j < |projects|
      invariant 0 <= j <= |projects|
      invariant RunAll(projects[..j], projectHelp) == Running(ran, described, written, success, false, None)
    {
      var p := projects[j];
      assert projects[..j + 1][..j] == projects[..j];
      if projectHelp {
        match p.description {
          case Described =>
            described := described + [p.name];
          case DescriptionRaised(e) =>
            RunHalts(projects, projectHelp, j + 1);
            return Running(ran, described, written, success, true, Some(Uncaught(e)));
          case DescriptionInterrupted =>
            RunHalts(projects, projectHelp, j + 1);
            return Running(ran, described, written, success, true, Some(KeyboardInterrupt));
          case DescriptionRefused(m) =>
            RunHalts(projects, projectHelp, j + 1);
            return Running(ran, described, written, success, true, Some(CommandError(m)));
        }
      } else {
        ran := ran + [p.name];
        match p.execution {
          case Completed(ws) =>
            written := written + ws;
          case Failed(_, cont) =>
            success := false;
            if !cont {
              RunHalts(projects, projectHelp, j + 1);
              return Running(ran, described, written, success, true, None);
            }
          case RunInterrupted =>
            RunHalts(projects, projectHelp, j + 1);
            return Running(ran, described, written, success, true, Some(CommandError("^C")));
          case RunRefused(m) =>
            RunHalts(projects, projectHelp, j + 1);
            return Running(ran, described, written, success, true, Some(CommandError(m)));
        }
      }
      j := j + 1;
    }
    assert projects[..j] == projects;
    return Running(ran, described, written, success, false, None);
  }
}
