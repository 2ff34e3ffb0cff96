/**
 * The configuration as the command layer uses it: a map from section name
 * to a map from option name to raw value. `merge_config` copies one
 * configuration into another in place; the command line's assignments are
 * written into the file configuration; the file configuration and the
 * environment's configuration are then reconciled by two merges.
 */
module Configs {
  import opened Wrappers
  import opened VarPatterns

  type Options = map<string, string>
  type Sections = map<string, Options>

  function SectionAt(c: Sections, s: string): Option<Options> {
    if s in c then Some(c[s]) else None
  }

  function Lookup(c: Sections, s: string, o: string): Option<string> {
    if s in c && o in c[s] then Some(c[s][o]) else None
  }

  function OptionsOf(sec: Option<Options>): Options {
    if sec.Some? then sec.value else map[]
  }

  /** Two configurations are equal when every section agrees. */
  lemma {:induction false} SectionsExt(a: Sections, b: Sections)
    requires forall s :: SectionAt(a, s) == SectionAt(b, s)
    ensures a == b
  {
    assert a.Keys == b.Keys by {
      forall s | s in a ensures s in b { assert SectionAt(a, s).Some?; }
      forall s | s in b ensures s in a { assert SectionAt(b, s).Some?; }
    }
    forall s | s in a ensures a[s] == b[s] { assert SectionAt(a, s) == SectionAt(b, s); }
  }

  // ---------------------------------------------------------------------
  // What merge_config computes

  /** Options of `src` laid over `dst`: with `overwrite` the source wins, otherwise the destination does. */
  function Combine(src: Options, dst: Options, overwrite: bool): Options {
    if overwrite then dst + src else src + dst
  }

  /** The options of `so` whose names are in `done`. */
  function Restrict(so: Options, done: set<string>): Options {
    map o | o in so && o in done :: so[o]
  }

  /**
   * Section `cur` of the destination once the options `done` of the source
   * section `so` have been merged into it. The section is only created when
   * an option is actually copied into it.
   */
  function PartialMerge(so: Options, cur: Option<Options>, overwrite: bool, done: set<string>): Option<Options> {
    var copied := Restrict(so, done);
    if cur.None? && copied == map[] then None else Some(Combine(copied, OptionsOf(cur), overwrite))
  }

  /** Section `s` of the destination after the whole merge. */
  function MergedAt(src: Sections, dst: Sections, overwrite: bool, s: string): Option<Options> {
    if s in src then PartialMerge(src[s], SectionAt(dst, s), overwrite, src[s].Keys) else SectionAt(dst, s)
  }

  /** The destination after `merge_config(src, dst, overwrite)`. */
  function Merged(src: Sections, dst: Sections, overwrite: bool): (r: Sections)
    ensures forall s :: SectionAt(r, s) == MergedAt(src, dst, overwrite, s)
  {
    map s | s in src.Keys + dst.Keys && MergedAt(src, dst, overwrite, s).Some? :: MergedAt(src, dst, overwrite, s).value
  }

  /** Before any option is merged, the destination section is as it was. */
  lemma {:induction false} PartialMergeStart(so: Options, cur: Option<Options>, overwrite: bool)
    ensures PartialMerge(so, cur, overwrite, {}) == cur
  {
    assert Restrict(so, {}) == map[];
    if cur.Some? {
      assert Combine(map[], cur.value, overwrite) == cur.value;
    }
  }

  /** Merging one more option of a source section into the destination section. */
  lemma {:induction false} PartialMergeStep(so: Options, cur: Option<Options>, overwrite: bool, done: set<string>, o: string)
    requires o in so && o !in done
    ensures var p := PartialMerge(so, cur, overwrite, done);
      var q := PartialMerge(so, cur, overwrite, done + {o});
      if !overwrite && p.Some? && o in p.value then q == p else q == Some(OptionsOf(p)[o := so[o]])
  {
    var p := PartialMerge(so, cur, overwrite, done);
    var copied := Restrict(so, done);
    var copied' := Restrict(so, done + {o});
    assert copied' == copied[o := so[o]];
    assert o in copied';
    var base := OptionsOf(cur);
    if overwrite {
      assert Combine(copied', base, true) == OptionsOf(p)[o := so[o]];
    } else if p.Some? && o in p.value {
      assert o !in copied;
      assert o in base;
      assert Combine(copied', base, false) == Combine(copied, base, false);
    } else {
      assert Combine(copied', base, false) == OptionsOf(p)[o := so[o]];
    }
  }

  // ---------------------------------------------------------------------
  // Properties of the merge

  /**
   * Every (section, option) of the merge: with `overwrite` the source's
   * value if it has one, otherwise the destination's; without it the other
   * way round.
   */
  lemma {:induction false} MergeLookup(src: Sections, dst: Sections, overwrite: bool, s: string, o: string)
    ensures Lookup(Merged(src, dst, overwrite), s, o)
      == if overwrite then Prefer(Lookup(src, s, o), Lookup(dst, s, o))
         else Prefer(Lookup(dst, s, o), Lookup(src, s, o))
  {
    var m := Merged(src, dst, overwrite);
    assert SectionAt(m, s) == MergedAt(src, dst, overwrite, s);
    if s in src {
      var so := src[s];
      assert Restrict(so, so.Keys) == so;
    }
  }

  /** Without overwrite, a value the destination already had is kept. */
  lemma {:induction false} MergeKeepsExisting(src: Sections, dst: Sections, s: string, o: string)
    requires Lookup(dst, s, o).Some?
    ensures Lookup(Merged(src, dst, false), s, o) == Lookup(dst, s, o)
  {
    MergeLookup(src, dst, false, s, o);
  }

  /** With overwrite, the destination takes the source's value. */
  lemma {:induction false} MergeOverwrites(src: Sections, dst: Sections, s: string, o: string)
    requires Lookup(src, s, o).Some?
    ensures Lookup(Merged(src, dst, true), s, o) == Lookup(src, s, o)
  {
    MergeLookup(src, dst, true, s, o);
  }

  /** In either mode every option of the source is present afterwards. */
  lemma {:induction false} MergeCoversSource(src: Sections, dst: Sections, overwrite: bool, s: string, o: string)
    requires Lookup(src, s, o).Some?
    ensures Lookup(Merged(src, dst, overwrite), s, o).Some?
  {
    MergeLookup(src, dst, overwrite, s, o);
  }

  /** In either mode an option the source does not have is left as it was. */
  lemma {:induction false} MergeFrame(src: Sections, dst: Sections, overwrite: bool, s: string, o: string)
    requires Lookup(src, s, o).None?
    ensures Lookup(Merged(src, dst, overwrite), s, o) == Lookup(dst, s, o)
  {
    MergeLookup(src, dst, overwrite, s, o);
  }

  /** Nothing is removed: every section and option of the destination survives. */
  lemma {:induction false} MergeRemovesNothing(src: Sections, dst: Sections, overwrite: bool, s: string, o: string)
    requires s in dst
    ensures s in Merged(src, dst, overwrite)
    ensures o in dst[s] ==> o in Merged(src, dst, overwrite)[s]
  {
    var m := Merged(src, dst, overwrite);
    assert SectionAt(m, s) == MergedAt(src, dst, overwrite, s);
    MergeLookup(src, dst, overwrite, s, o);
  }

  /** A source section without options does not create that section in the destination. */
  lemma {:induction false} MergeSkipsEmptySection(src: Sections, dst: Sections, overwrite: bool, s: string)
    requires s in src && src[s] == map[] && s !in dst
    ensures s !in Merged(src, dst, overwrite)
  {
    var m := Merged(src, dst, overwrite);
    assert SectionAt(m, s) == MergedAt(src, dst, overwrite, s);
    assert Restrict(src[s], src[s].Keys) == map[];
  }

  /** Laying the same options over a section twice is laying them once. */
  lemma {:induction false} CombineTwice(so: Options, base: Options, overwrite: bool)
    ensures Combine(so, Combine(so, base, overwrite), overwrite) == Combine(so, base, overwrite)
  {
  }

  /** Merging the same source a second time changes nothing, in either mode. */
  lemma {:induction false} MergeIdempotent(src: Sections, dst: Sections, overwrite: bool)
    ensures Merged(src, Merged(src, dst, overwrite), overwrite) == Merged(src, dst, overwrite)
  {
    var once := Merged(src, dst, overwrite);
    var twice := Merged(src, once, overwrite);
    forall s ensures SectionAt(twice, s) == SectionAt(once, s) {
      MergedAtIdempotent(src, dst, overwrite, once, s);
    }
    SectionsExt(twice, once);
  }

  lemma {:induction false} MergedAtIdempotent(src: Sections, dst: Sections, overwrite: bool, once: Sections, s: string)
    requires once == Merged(src, dst, overwrite)
    ensures MergedAt(src, once, overwrite, s) == SectionAt(once, s)
  {
    assert SectionAt(once, s) == MergedAt(src, dst, overwrite, s);
    if s in src {
      var so := src[s];
      assert Restrict(so, so.Keys) == so;
      var p := SectionAt(once, s);
      if p.Some? {
        CombineTwice(so, OptionsOf(SectionAt(dst, s)), overwrite);
      }
    }
  }

  // ---------------------------------------------------------------------
  // Settings written into a configuration, one after another

  /** One option set to a value in a section: a command-line assignment, or a setting a project's task saves. */
  datatype Write = Write(section: string, option: string, value: string)

  function SetOption(c: Sections, s: string, o: string, value: string): Sections {
    c[s := OptionsOf(SectionAt(c, s))[o := value]]
  }

  /** The configuration after the writes, first to last, each creating its section when missing. */
  function Written(c: Sections, ws: seq<Write>): Sections
  {
    if ws == [] then c
    else
      var w := ws[|ws| - 1];
      SetOption(Written(c, ws[..|ws| - 1]), w.section, w.option, w.value)
  }

  /** The value of the last write to option `o` of section `s`, if any. */
  function LastWritten(ws: seq<Write>, s: string, o: string): Option<string>
  {
    if ws == [] then None
    else
      var w := ws[|ws| - 1];
      if w.section == s && w.option == o then Some(w.value) else LastWritten(ws[..|ws| - 1], s, o)
  }

  /** After the writes, each option holds its last written value, and every other option is unchanged. */
  lemma {:induction false} WriteLookup(c: Sections, ws: seq<Write>, s: string, o: string)
    ensures Lookup(Written(c, ws), s, o) == Prefer(LastWritten(ws, s, o), Lookup(c, s, o))
  {
    if ws != [] {
      WriteLookup(c, ws[..|ws| - 1], s, o);
    }
  }

  // ---------------------------------------------------------------------
  // Command-line assignments

  /** The section an assignment targets: its own, or DEFAULT when it names none or an empty one. */
  function TargetSection(v: Var): string {
    if v.section.Some? && v.section.value != "" then v.section.value else "DEFAULT"
  }

  /** The write each command-line assignment makes, in argument order. */
  function Assignments(vars: seq<Var>): (ws: seq<Write>)
    ensures |ws| == |vars|
    ensures forall i :: 0 <= i < |vars| ==> ws[i] == Write(TargetSection(vars[i]), vars[i].name, vars[i].value)
  {
    seq(|vars|, i requires 0 <= i < |vars| => Write(TargetSection(vars[i]), vars[i].name, vars[i].value))
  }

  /** The configuration after the assignments have been written into it, first to last. */
  function Overridden(c: Sections, vars: seq<Var>): Sections {
    Written(c, Assignments(vars))
  }

  /** The value of the last assignment to option `o` of section `s`, if any. */
  function LastAssigned(vars: seq<Var>, s: string, o: string): Option<string> {
    LastWritten(Assignments(vars), s, o)
  }

  /** After the assignments, each option holds its last assigned value, and every other option is unchanged. */
  lemma {:induction false} OverrideLookup(c: Sections, vars: seq<Var>, s: string, o: string)
    ensures Lookup(Overridden(c, vars), s, o) == Prefer(LastAssigned(vars, s, o), Lookup(c, s, o))
  {
    WriteLookup(c, Assignments(vars), s, o);
  }

  /** One more assignment written into the configuration. */
  lemma {:induction false} OverriddenStep(c: Sections, vars: seq<Var>, i: nat)
    requires i < |vars|
    ensures Overridden(c, vars[..i + 1])
      == SetOption(Overridden(c, vars[..i]), TargetSection(vars[i]), vars[i].name, vars[i].value)
  {
    var ws := Assignments(vars[..i + 1]);
    assert ws[..i] == Assignments(vars[..i]);
  }

  // ---------------------------------------------------------------------
  // The two-way reconciliation

  /** The file configuration after `merge_config(environ.config, config)`. */
  function CommandSide(env: Sections, conf: Sections): Sections {
    Merged(env, conf, false)
  }

  /** The environment's configuration after `merge_config(config, environ.config, overwrite=True)`. */
  function EnvironmentSide(env: Sections, conf: Sections): Sections {
    Merged(CommandSide(env, conf), env, true)
  }

  /**
   * After reconciling, both configurations hold the same options with the
   * same values; the file/command-line configuration wins where both had one.
   */
  lemma {:induction false} ReconcileAgrees(env: Sections, conf: Sections, s: string, o: string)
    ensures Lookup(EnvironmentSide(env, conf), s, o) == Lookup(CommandSide(env, conf), s, o)
    ensures Lookup(CommandSide(env, conf), s, o) == Prefer(Lookup(conf, s, o), Lookup(env, s, o))
  {
    MergeLookup(env, conf, false, s, o);
    MergeLookup(CommandSide(env, conf), env, true, s, o);
  }

  /**
   * The precedence the command ends with: an option's last command-line
   * assignment wins, then the configuration file's value, then the
   * environment's.
   */
  lemma {:induction false} CommandLinePrecedence(env: Sections, file: Sections, vars: seq<Var>, s: string, o: string)
    ensures Lookup(EnvironmentSide(env, Overridden(file, vars)), s, o)
      == Prefer(LastAssigned(vars, s, o), Prefer(Lookup(file, s, o), Lookup(env, s, o)))
  {
    OverrideLookup(file, vars, s, o);
    ReconcileAgrees(env, Overridden(file, vars), s, o);
  }

  // ---------------------------------------------------------------------
  // The mutable configuration object

  /** A configuration object whose sections are updated in place. */
  class Config {
    var sections: Sections

    constructor (initial: Sections)
      ensures sections == initial
    {
      sections := initial;
    }

    function HasSection(s: string): bool
      reads this
    {
      s in sections
    }

    function HasOption(s: string, o: string): bool
      reads this
    {
      Lookup(sections, s, o).Some?
    }

    /** Adding a section that exists is an error of the configuration parser. */
    method AddSection(s: string)
      requires !HasSection(s)
      modifies this
      ensures sections == old(sections)[s := map[]]
    {
      sections := sections[s := map[]];
    }

    method Set(s: string, o: string, value: string)
      requires HasSection(s)
      modifies this
      ensures sections == old(sections)[s := old(sections)[s][o := value]]
    {
      sections := sections[s := sections[s][o := value]];
    }
  }

  /** `merge_config`: copy every option of `source` into `dest`, keeping `dest`'s values unless `overwrite`. */
  method MergeConfig(source: Config, dest: Config, overwrite: bool)
    modifies dest
    ensures dest.sections == Merged(old(source.sections), old(dest.sections), overwrite)
  {
    var src := source.sections;
    ghost var d0 := dest.sections;
    var todo := src.Keys;
    while todo != {}
      invariant todo <= src.Keys
      invariant forall t :: t in src && t !in todo ==> SectionAt(dest.sections, t) == MergedAt(src, d0, overwrite, t)
      invariant forall t :: !(t in src && t !in todo) ==> SectionAt(dest.sections, t) == SectionAt(d0, t)
      decreases todo
    {
      var section :| section in todo;
      MergeSection(section, src[section], dest, overwrite);
      todo := todo - {section};
    }
    SectionsExt(dest.sections, Merged(src, d0, overwrite));
  }

  /** The inner loop of `merge_config`: every option of one source section. */
  method MergeSection(section: string, opts: Options, dest: Config, overwrite: bool)
    modifies dest
    ensures SectionAt(dest.sections, section) == PartialMerge(opts, SectionAt(old(dest.sections), section), overwrite, opts.Keys)
    ensures forall t :: t != section ==> SectionAt(dest.sections, t) == SectionAt(old(dest.sections), t)
  {
    ghost var before := dest.sections;
    var pending := opts.Keys;
    ghost var done: set<string> := {};
    PartialMergeStart(opts, SectionAt(before, section), overwrite);
    while pending != {}
      invariant pending <= opts.Keys && done == opts.Keys - pending
      invariant SectionAt(dest.sections, section) == PartialMerge(opts, SectionAt(before, section), overwrite, done)
      invariant forall t :: t != section ==> SectionAt(dest.sections, t) == SectionAt(before, t)
      decreases pending
    {
      var option :| option in pending;
      PartialMergeStep(opts, SectionAt(before, section), overwrite, done, option);
      pending, done := pending - {option}, done + {option};
      if !overwrite && dest.HasOption(section, option) {
        continue;
      }
      if !dest.HasSection(section) {
        dest.AddSection(section);
      }
      dest.Set(section, option, opts[option]);
    }
    assert done == opts.Keys;
  }

  /** The command-line loop: each assignment is written into its section, which is created if missing. */
  method ApplyCommandLine(config: Config, variables: seq<Var>)
    modifies config
    ensures config.sections == Overridden(old(config.sections), variables)
  {
    ghost var c0 := config.sections;
    var i := 0;
    assert Assignments(variables[..0]) == [];
    while i < |variables|
      invariant 0 <= i <= |variables|
      invariant config.sections == Overridden(c0, variables[..i])
    {
      var v := variables[i];
      OverriddenStep(c0, variables, i);
      var section := TargetSection(v);
      if !config.HasSection(section) {
        config.AddSection(section);
      }
      config.Set(section, v.name, v.value);
      i := i + 1;
    }
    assert variables[..i] == variables;
  }

  /** Merge both ways: the environment fills gaps in `config`, then `config` overwrites the environment. */
  method Reconcile(env: Config, config: Config)
    requires env != config
    modifies env, config
    ensures config.sections == CommandSide(old(env.sections), old(config.sections))
    ensures env.sections == EnvironmentSide(old(env.sections), old(config.sections))
  {
    MergeConfig(env, config, false);
    MergeConfig(config, env, true);
  }
}
