/**
 * The `fassembler` command: argument checks, the split of the positional
 * arguments, the command-line assignments, the reconciliation with the
 * environment's configuration, finding the requested projects, and the
 * confirm/run/save protocol.
 */
module Command {
  import opened Wrappers
  import opened VarPatterns
  import opened Positional
  import opened Configs
  import opened EntryPoints
  import opened RunControl

  /** The options that matter to the command's control flow. */
  datatype Flags = Flags(listProjects: bool, projectHelp: bool, basePath: Option<string>)

  /** A `-base DIR` typed for `--base DIR` arrives as base path `ase` or `ase=DIR`. */
  predicate LooksLikeShortBase(basePath: Option<string>) {
    basePath.Some? && (basePath.value == "ase" || (|basePath.value| >= 4 && basePath.value[..4] == "ase="))
  }

  datatype Checked = ListOnly | Refuse(message: string) | Proceed(basePath: string)

  /**
   * The checks made before anything else. `discovered` is the build base
   * found from the script's location or the working directory, if any.
   */
  function CheckArguments(flags: Flags, args: seq<string>, discovered: Option<string>): (r: Checked)
    ensures r.ListOnly? <==> flags.listProjects && args == []
    ensures r.Proceed? ==> !flags.listProjects && |args| >= 1 && !LooksLikeShortBase(flags.basePath)
    ensures r.Proceed? ==> discovered.Some? || (flags.basePath.Some? && flags.basePath.value != "")
    ensures r.Proceed? && flags.basePath.Some? && flags.basePath.value != "" ==> r.basePath == flags.basePath.value
    ensures r.Proceed? && !(flags.basePath.Some? && flags.basePath.value != "") ==> r.basePath == discovered.value
    ensures (!flags.listProjects && |args| >= 1 && !LooksLikeShortBase(flags.basePath)
             && (discovered.Some? || (flags.basePath.Some? && flags.basePath.value != ""))) ==> r.Proceed?
  {
    if flags.listProjects then
      if args != [] then Refuse("You cannot use arguments with --list-projects") else ListOnly
    else if |args| < 1 then
      Refuse("You must provide at least one project")
    else if LooksLikeShortBase(flags.basePath) then
      Refuse("You gave -b" + flags.basePath.value + "; did you mean --base?")
    else if flags.basePath.Some? && flags.basePath.value != "" then
      Proceed(flags.basePath.value)
    else if discovered.Some? then
      Proceed(discovered.value)
    else
      Refuse("you must provide the --base value or run fassembler from a build base path")
  }

  /** What one registered project does when confirmed, run and described. */
  datatype Behaviour = Behaviour(confirmation: Confirmation, execution: Execution, description: Describing)

  /** Registered entry points, by distribution and entry-point name. */
  type Registry = map<(string, string), Behaviour>

  /** The project an identifier requests: the entry point its split names, when registered. */
  function FindProject(registry: Registry, id: string): (p: Option<Project>)
    ensures p.Some? ==> p.value.name == id
    ensures p.Some? <==> SplitProjectName(id) in registry
    ensures p.Some? ==> Behaviour(p.value.confirmation, p.value.execution, p.value.description)
                        == registry[SplitProjectName(id)]
  {
    var parts := SplitProjectName(id);
    if parts in registry then
      Some(Project(id, registry[parts].confirmation, registry[parts].execution, registry[parts].description))
    else
      None
  }

  datatype Resolution = Found(projects: seq<Project>) | Missing(name: string)

  /** Finding every requested project in order; the first one not found ends the command. */
  function Resolve(registry: Registry, names: seq<string>): Resolution {
    if names == [] then Found([])
    else
      match Resolve(registry, names[..|names| - 1])
      case Missing(n) => Missing(n)
      case Found(ps) =>
        var p := FindProject(registry, names[|names| - 1]);
        if p.Some? then Found(ps + [p.value]) else Missing(names[|names| - 1])
  }

  /**
   * Either every requested project is found, in the requested order, or the
   * command names the first requested identifier that is not registered.
   */
  lemma {:induction false} ResolveShape(registry: Registry, names: seq<string>)
    ensures Resolve(registry, names).Found? ==> Names(Resolve(registry, names).projects) == names
    ensures Resolve(registry, names).Found? <==> forall i :: 0 <= i < |names| ==> FindProject(registry, names[i]).Some?
    ensures Resolve(registry, names).Missing? ==>
      exists i :: 0 <= i < |names| && names[i] == Resolve(registry, names).name && FindProject(registry, names[i]).None?
              && forall j :: 0 <= j < i ==> FindProject(registry, names[j]).Some?
  {
    ResolveFound(registry, names);
    ResolveMissing(registry, names);
  }

  lemma {:induction false} ResolveFound(registry: Registry, names: seq<string>)
    ensures Resolve(registry, names).Found? ==> Names(Resolve(registry, names).projects) == names
    ensures Resolve(registry, names).Found? <==> forall i :: 0 <= i < |names| ==> FindProject(registry, names[i]).Some?
  {
    ResolveNames(registry, names);
    ResolveFoundAll(registry, names);
  }

  lemma {:induction false} ResolveNames(registry: Registry, names: seq<string>)
    ensures Resolve(registry, names).Found? ==> Names(Resolve(registry, names).projects) == names
  {
    if names != [] && Resolve(registry, names).Found? {
      var init, last := names[..|names| - 1], names[|names| - 1];
      ResolveNames(registry, init);
      var ps := Resolve(registry, init).projects;
      var p := FindProject(registry, last).value;
      assert Resolve(registry, names).projects == ps + [p];
      assert Names(ps + [p]) == Names(ps) + [p.name];
      assert names == init + [last];
    }
  }

  lemma {:induction false} ResolveFoundAll(registry: Registry, names: seq<string>)
    ensures Resolve(registry, names).Found? <==> forall i :: 0 <= i < |names| ==> FindProject(registry, names[i]).Some?
  {
    if names != [] {
      var init := names[..|names| - 1];
      ResolveFoundAll(registry, init);
      assert forall i :: 0 <= i < |init| ==> init[i] == names[i];
    }
  }

  lemma {:induction false} ResolveMissing(registry: Registry, names: seq<string>)
    ensures Resolve(registry, names).Missing? ==>
      exists i :: 0 <= i < |names| && names[i] == Resolve(registry, names).name && FindProject(registry, names[i]).None?
              && forall j :: 0 <= j < i ==> FindProject(registry, names[j]).Some?
  {
    if names != [] {
      var init := names[..|names| - 1];
      assert forall i :: 0 <= i < |init| ==> init[i] == names[i];
      if Resolve(registry, init).Missing? {
        ResolveMissing(registry, init);
      } else {
        ResolveFound(registry, init);
      }
    }
  }

  /** One more requested project, after all earlier ones were found. */
  lemma {:induction false} ResolveStep(registry: Registry, names: seq<string>, i: nat)
    requires i < |names| && Resolve(registry, names[..i]).Found?
    ensures var p := FindProject(registry, names[i]);
      Resolve(registry, names[..i + 1])
      == if p.Some? then Found(Resolve(registry, names[..i]).projects + [p.value]) else Missing(names[i])
  {
    assert names[..i + 1][..i] == names[..i];
  }

  lemma {:induction false} ResolveHalts(registry: Registry, names: seq<string>, k: nat)
    requires k <= |names| && Resolve(registry, names[..k]).Missing?
    ensures Resolve(registry, names) == Resolve(registry, names[..k])
  {
    if k < |names| {
      var init := names[..|names| - 1];
      assert init[..k] == names[..k];
      ResolveHalts(registry, init, k);
    } else {
      assert names[..k] == names;
    }
  }

  /** The lookup loop of `main`: each requested project in turn, stopping at the first one not found. */
  method FindProjects(registry: Registry, names: seq<string>) returns (resolution: Resolution)
    ensures resolution == Resolve(registry, names)
  {
    var projects: seq<Project> := [];
    var i := 0;
    while i < |names|
      invariant 0 <= i <= |names|
      invariant Resolve(registry, names[..i]) == Found(projects)
    {
      ResolveStep(registry, names, i);
      var found := FindProject(registry, names[i]);
      if found.None? {
        ResolveHalts(registry, names, i + 1);
        return Missing(names[i]);
      }
      projects := projects + [found.value];
      i := i + 1;
    }
    assert names[..i] == names;
    return Found(projects);
  }

  datatype Outcome = Listed | Rejected(message: string) | Finished(report: Report, saved: Option<Sections>)

  /**
   * The whole command once the configurations are reconciled, `env` being the
   * environment's: what the completed runs write lands in it before it is saved.
   */
  function Expected(registry: Registry, flags: Flags, args: seq<string>, env: Sections): Outcome
  {
    match Resolve(registry, ProjectsOf(args))
    case Missing(n) => Rejected("Could not find project " + n)
    case Found(ps) =>
      var r := Controller(ps, flags.projectHelp);
      Finished(r, if r.saved then Some(Written(env, r.written)) else None)
  }

  /**
   * `main`: check the arguments, split them, write the assignments into the
   * file configuration, reconcile it with the environment's configuration,
   * find the projects, then confirm, run and save. The settings the projects'
   * tasks write go into the environment's configuration.
   */
  method RunCommand(flags: Flags, args: seq<string>, discovered: Option<string>, registry: Registry,
              config: Config, env: Config) returns (outcome: Outcome)
    requires config != env
    modifies config, env
    ensures CheckArguments(flags, args, discovered).ListOnly? ==>
      outcome == Listed && unchanged(config, env)
    ensures CheckArguments(flags, args, discovered).Refuse? ==>
      outcome == Rejected(CheckArguments(flags, args, discovered).message) && unchanged(config, env)
    ensures CheckArguments(flags, args, discovered).Proceed? ==>
      var commandLine := Overridden(old(config.sections), VariablesOf(args));
      var reconciled := EnvironmentSide(old(env.sections), commandLine);
      config.sections == CommandSide(old(env.sections), commandLine)
      && outcome == Expected(registry, flags, args, reconciled)
      && env.sections == if outcome.Finished? then Written(reconciled, outcome.report.written) else reconciled
  {
    var checked := CheckArguments(flags, args, discovered);
    match checked {
      case ListOnly => return Listed;
      case Refuse(m) => return Rejected(m);
      case Proceed(_) =>
    }
    var projectNames, variables := ParsePositional(args);
    ApplyCommandLine(config, variables);
    Reconcile(env, config);

    var resolution := FindProjects(registry, projectNames);
    if resolution.Missing? {
      return Rejected("Could not find project " + resolution.name);
    }

    var report := RunProjects(resolution.projects, flags.projectHelp);
    env.sections := Written(env.sections, report.written);
    outcome := Finished(report, if report.saved then Some(env.sections) else None);
  }

  /**
   * When the command saves, the saved configuration holds every option's
   * value from the last setting a project's task wrote to it, else its last
   * command-line value, else the file's value, else the environment's; the
   * settings are those of every requested project, in request order.
   */
  lemma {:induction false} SavedConfiguration(registry: Registry, flags: Flags, args: seq<string>,
                           env0: Sections, file0: Sections, s: string, o: string)
    requires var out := Expected(registry, flags, args, EnvironmentSide(env0, Overridden(file0, VariablesOf(args))));
      out.Finished? && out.saved.Some?
    ensures var out := Expected(registry, flags, args, EnvironmentSide(env0, Overridden(file0, VariablesOf(args))));
      Lookup(out.saved.value, s, o)
      == Prefer(LastWritten(out.report.written, s, o),
                Prefer(LastAssigned(VariablesOf(args), s, o), Prefer(Lookup(file0, s, o), Lookup(env0, s, o))))
    ensures var out := Expected(registry, flags, args, EnvironmentSide(env0, Overridden(file0, VariablesOf(args))));
      Resolve(registry, ProjectsOf(args)).Found?
      && out.report.written == WritesOf(Resolve(registry, ProjectsOf(args)).projects)
  {
    var reconciled := EnvironmentSide(env0, Overridden(file0, VariablesOf(args)));
    var out := Expected(registry, flags, args, reconciled);
    var ps := Resolve(registry, ProjectsOf(args)).projects;
    SavedIffAllSucceeded(ps, flags.projectHelp);
    WriteLookup(reconciled, out.report.written, s, o);
    CommandLinePrecedence(env0, file0, VariablesOf(args), s, o);
  }
}
