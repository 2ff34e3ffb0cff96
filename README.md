# fassembler command layer, in Dafny

This project models the entry point of the `fassembler` script
(`fassembler/command.py`). It covers three parts:

- **Argument split.** The positional arguments are split into project names
  and configuration assignments. Three forms are recognised: `NAME=VALUE`,
  `[SECTION]NAME=VALUE` and `SECTION.NAME=VALUE`.
- **Configuration handling.** This covers `merge_config`, the loop that writes
  the command line's assignments into the configuration, and the two-way
  reconciliation of that configuration with the environment's.
- **Run controller.** All projects are confirmed and their errors collected.
  Nothing runs if there were errors. Then the projects run in order; after a
  failure the operator decides whether to go on. The environment's
  configuration is saved only on full success. By then it also holds the
  settings the projects' tasks wrote while they ran.

Modules, one per concern:

| file | module | what it holds |
|---|---|---|
| wrappers.dfy | Wrappers | `Option`, `Prefer` |
| spans.dfy | Spans | the character classes `\w`, `\s` and "not `:`", and the longest prefix of a string inside one class, used by both recognisers and the entry-point split |
| patterns.dfy | VarPatterns | the two assignment patterns as character-level recognisers, their reference forms, and soundness/completeness lemmas |
| positional.dfy | Positional | `parse_positional` as a loop, specified by two filter functions, and partition lemmas |
| configs.dfy | Configs | configurations as maps of maps; the `Config` class, updated in place; `merge_config`, the command-line loop and the reconciliation as methods; merge laws |
| entry_points.dfy | EntryPoints | `ep_name` and the `name:variant` split of `find_project_class` |
| run_control.dfy | RunControl | the confirm/run/save loops of `main` as a method, specified by a fold over the projects, and protocol lemmas |
| command.dfy | Command | argument checks, project lookup and `RunCommand`, which composes everything |

Decisions worth knowing:

- **Character classes.** The patterns are compiled on byte strings without
  flags. So `\w` is `[A-Za-z0-9_]`, `\s` is space, tab, newline, carriage
  return, vertical tab and form feed, and `.` is any character except newline.
- **Bracket form.** An argument that starts with `[` can only match through
  the bracketed group. If the group fails, the pattern without it cannot start
  at a `[` either.
- **Which pattern goes first.** The two patterns never both match
  (`FormsDisjoint`), so trying them in either order gives the same result.
- **Empty source sections.** `merge_config` creates a destination section only
  inside its option loop. So a source section with no options does not create
  that section in the destination (`MergeSkipsEmptySection`).
- **Precedence.** After the command-line loop and the two merges, an option's
  last command-line value wins, then the configuration file's value, then the
  environment's (`CommandLinePrecedence`).
- **Dotted form.** The usage text (`fassembler/command.py:25-27`) offers
  `SECTION.VARIABLE=VALUE` without restriction. The pattern at
  `fassembler/command.py:199` accepts it only when VALUE is non-empty and does
  not start with `=` or `>`. The model follows the pattern.
- **Outside the model.** Project behaviour is abstract. Each requested
  project carries the outcome of its `confirm_settings`, `run` and
  `make_description`, plus the operator's answer to `maker.handle_exception`
  where one is asked. A completed run also carries the settings its tasks
  wrote into the environment's configuration, as (section, option, value)
  in order. Examples are `SaveSetting` at `fassembler/topp_brainpower.py:128-140`
  and `SaveURI` at `fassembler/topp_products.py:52`. A description that raises
  ends the command with its exception, since nothing in `main` catches it. A
  description that raises a command error ends it with that error. The registry of
  entry points is a map keyed by (distribution, entry-point name). The base
  directory found by searching for `etc/build.ini` is a parameter of `RunCommand`.

## Model

| member | source | states |
|---|---|---|
| VarPatterns.AssignComplete | fassembler/command.py:198 | every `[SEC]` (optional) + white space + `NAME=VALUE` with word-character SEC and NAME and a newline-free VALUE is recognised as exactly (SEC or none, NAME, VALUE); VALUE may itself contain `=` |
| VarPatterns.AssignSound | fassembler/command.py:198 | whatever the assignment pattern recognises is such a text, split at the first `=`, with the parts it returns |
| VarPatterns.DottedComplete | fassembler/command.py:199 | every `SEC.NAME=VALUE` whose VALUE is non-empty, does not start with `=` or `>` and has no newline after its first character is recognised as (SEC, NAME, VALUE) |
| VarPatterns.DottedSound | fassembler/command.py:199 | whatever the dotted pattern recognises has exactly that shape |
| VarPatterns.FormsDisjoint | fassembler/command.py:209-215 | no argument matches both patterns |
| Positional.ParsePositional | fassembler/command.py:201-218 | the loop returns exactly the project-name arguments and the parsed assignments, each list in argument order |
| Positional.PartitionSizes | fassembler/command.py:206-218 | every argument lands in exactly one list: the lengths add up to the number of arguments |
| Positional.SplitConcat | fassembler/command.py:208-217 | both lists keep the arguments' relative order: splitting `a + b` gives the splits of `a` followed by those of `b` |
| Positional.ProjectsAreArguments | fassembler/command.py:212-217 | a string is among the project names if and only if it is an argument that neither pattern matches |
| Positional.VariablesAreArguments | fassembler/command.py:209-215 | an assignment is listed if and only if some argument parses to it |
| Positional.NoEqualsIsProject | fassembler/command.py:208-217 | an argument without `=` is always a project name |
| Positional.Example | fassembler/command.py:201-218 | `demo greeting=Hello [demo]name=World` gives `[demo]` and `[(None, greeting, Hello), (demo, name, World)]` |
| Configs.MergeConfig | fassembler/command.py:264-277 | the nested loops leave `dest` equal to the merge of the old source into the old destination |
| Configs.MergeLookup | fassembler/command.py:271-277 | after the merge each option holds the source's value if it has one and `overwrite` is set, the destination's if it has one and `overwrite` is not set, and otherwise whichever side has it |
| Configs.MergeKeepsExisting | fassembler/command.py:273-274 | without overwrite, a value the destination already had is unchanged |
| Configs.MergeOverwrites | fassembler/command.py:271-277 | with overwrite, the destination equals the source on every option of the source |
| Configs.MergeCoversSource | fassembler/command.py:271-277 | in either mode, every (section, option) of the source exists in the destination afterwards |
| Configs.MergeFrame | fassembler/command.py:271-277 | options the source does not have are left as they were |
| Configs.MergeRemovesNothing | fassembler/command.py:271-277 | every section and option of the destination survives |
| Configs.MergeSkipsEmptySection | fassembler/command.py:272-276 | a source section without options does not create that section in the destination |
| Configs.MergeSection | fassembler/command.py:272-277 | the inner loop leaves the section equal to the old section with every option of the source section merged in, and no other section changes |
| Configs.MergeIdempotent | fassembler/command.py:264-277 | in either mode, merging the same source twice equals merging it once |
| Configs.Config.AddSection | fassembler/command.py:119-120 | a missing section is added, empty |
| Configs.Config.Set | fassembler/command.py:121 | one option of an existing section is set and nothing else changes |
| Configs.ApplyCommandLine | fassembler/command.py:117-121 | the loop writes each assignment in turn into its section (DEFAULT when none or an empty one is named), creating the section when missing |
| Configs.OverrideLookup | fassembler/command.py:117-121 | afterwards an option holds its last command-line value, and options never assigned are unchanged |
| Configs.Reconcile | fassembler/command.py:123-125 | the file configuration takes the environment's missing options; then the environment's configuration takes all of the file configuration's |
| Configs.ReconcileAgrees | fassembler/command.py:123-125 | afterwards both configurations hold the same options with the same values, and the file/command-line value wins wherever it had one |
| Configs.CommandLinePrecedence | fassembler/command.py:117-125 | the final value of an option is its last command-line value, else the file's, else the environment's |
| EntryPoints.SplitProjectName | fassembler/command.py:225-228 | the split is at the first `:`, with no `:` in the distribution part; without a `:` the entry point is `main` |
| EntryPoints.SplitJoin | fassembler/command.py:304-312 | splitting the identifier `ep_name` gives back the same distribution and entry point, for a distribution name without `:` |
| EntryPoints.JoinSplit | fassembler/command.py:225-228 | an identifier comes back from its split unchanged, unless it is `DIST:main`, which comes back as plain `DIST` |
| RunControl.RunProjects | fassembler/command.py:139-195 | confirmation, the errors check, the run loop and the save decision compute exactly the protocol `Controller` |
| RunControl.ConfirmProjects | fassembler/command.py:139-155 | the confirmation loop (errors list, the operator's abort, the re-raised interrupts and command errors) computes exactly the fold `ConfirmAll` |
| RunControl.RunEach | fassembler/command.py:161-186 | the run loop (descriptions, success flag, `continue`/`break`, raises) computes exactly the fold `RunAll` |
| RunControl.ConfirmShape | fassembler/command.py:141-155 | confirmation stops early exactly when a project is interrupted, raises a command error, or raises and the operator aborts; otherwise every project is confirmed in order; nothing is collected exactly when every project reports no error |
| RunControl.RunShape | fassembler/command.py:161-186 | the run loop runs the projects up to and including the first one that stops it; the settings written are those of the completed ones among them, in order; success survives exactly when none of those failed |
| RunControl.ConfirmationGate | fassembler/command.py:141-160 | if any confirmation reports errors, raises or is interrupted, then no project is run or described, nothing is saved and the command fails; unless a confirmation ends the command, every project is confirmed first |
| RunControl.RunsInOrder | fassembler/command.py:161-186 | the projects that ran are the first ones requested, in the requested order |
| RunControl.RunContinuation | fassembler/command.py:176-186 | after a project ran, the next one runs exactly when that project completed, or failed and the operator chose to continue |
| RunControl.SavedIffAllSucceeded | fassembler/command.py:161-190 | the configuration is saved exactly when help mode is off, every confirmation was clean and every project completed; the command then ran them all, returned normally, and the settings written are every project's, in order |
| RunControl.HelpShape | fassembler/command.py:161-164 | in `--project-help` mode nothing runs and nothing is written; the projects are described in order up to the first description that raises or is interrupted, whose exception ends the loop |
| RunControl.ProjectHelpRunsNothing | fassembler/command.py:161-187 | in `--project-help` mode nothing is run or saved; once confirmation is clean the descriptions follow the requested order, the command returns normally exactly when every description succeeds (and then every project is described), and otherwise the first failing description's exception ends it |
| Command.CheckArguments | fassembler/command.py:90-113 | listing happens only with no arguments; the command proceeds exactly when there is at least one argument, no `-base` typo, and a base path either given or found; a non-empty base path given on the command line is the one used, and otherwise the one found |
| Command.FindProject | fassembler/command.py:225-252 | a project is found exactly when the entry point named by the identifier's split is registered; it carries the requested identifier and that entry point's confirmation, run and description behaviour |
| Command.FindProjects | fassembler/command.py:131-138 | the lookup loop returns exactly `Resolve`: all projects in request order, or the first identifier not found |
| Command.ResolveShape | fassembler/command.py:131-138 | either every requested project is found, in request order, or the command fails naming the first identifier that is not registered |
| Command.RunCommand | fassembler/command.py:86-195 | the checks, the split, the command-line loop, the two merges, the project lookup and the protocol, composed; the environment's configuration ends with the completed runs' settings written into it; configurations are untouched when the checks refuse |
| Command.SavedConfiguration | fassembler/command.py:114-190 | a saved configuration holds each option's value from the last setting a project's task wrote to it, else its last command-line value, else the file's, else the environment's; the settings written are those of every requested project, in request order |

## Left out

- `list_projects` and `ep.load()`: they list and load entry points through `pkg_resources`. `RunCommand` returns `Listed` without modelling the listing.
- Command.FindProject: models only the path where the distribution is found. The registry stands for `dist.get_entry_info`. The fallback through `iter_entry_points` when the distribution is missing is a foreign library call. That fallback accepts a `main` identifier with exactly one match and rejects one with none or several.
- The `OptionParser` set-up and `main_func`'s handling of a `CommandError`: command-line plumbing. The relevant options arrive as `Flags`.
- Logging, indentation, colours and the printed project descriptions. One consequence: the "Done with project" notice interpolates `project_name`, the loop variable left over from the lookup loop. So it names the last requested project rather than the current one. Log text is not part of the model.
- The search for `etc/build.ini` above the script and in the working directory is file-system I/O. Its result is the `discovered` parameter of `RunCommand`.
- Reading configuration files (`load_configs`): the loaded configuration is the initial state of the `Config` object.
- The behaviour of the configuration parser. `fassembler/config.py` is not part of this model. Configurations are plain maps of maps, and `DEFAULT` is an ordinary section. That leaves out the parser's fallback to `DEFAULT` inside `has_option` and `options`, any case-folding of names, and the recorded provenance (`<cmdline>`). `Config.AddSection` requires the section to be absent, as the parser does; every caller checks first.
- `Environment` and `Maker` construction, and the file write done by `environ.save()`. The `saved` value is the environment's configuration at that point: reconciled, then updated by the completed runs' settings.
- Command.SavedConfiguration: a run's settings are taken to go straight into the environment's configuration, as a plain option write that creates its section when missing. The task classes are in a module that is not part of this model. Settings written by a run that then fails or is interrupted are not modelled, so they are left out of `RunCommand`'s final state. Such runs never lead to a save, because the configuration is saved only when every project completed.
- `confirm_settings`, `run`, `make_description` and `maker.handle_exception` belong to modules that are not part of this model. Each project carries their outcomes, and the exceptions are represented by their messages.
- Command.FindProject: the outcomes are fixed per registered entry point. `main` builds a fresh project instance for every request (`fassembler/command.py:137`), and two instances of the same class could behave differently. In the model, the same identifier requested twice, or `DIST` together with `DIST:main`, behaves identically.
- Arguments containing newlines. `$` also matches just before one trailing newline, so Python accepts `a=b` followed by a newline as an assignment. The model requires the value to be newline-free and treats such an argument as a project name.
- `fassembler/topp.py`, `fassembler/topp_brainpower.py` and `fassembler/topp_products.py` are not part of this model. They are declarative catalogues of settings and tasks, built from classes in modules that are not part of this model.
