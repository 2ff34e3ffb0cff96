/**
 * Splitting the positional command-line arguments into the names of the
 * projects to build and the configuration assignments.
 */
module Positional {
  import opened Wrappers
  import opened VarPatterns
  import opened Spans

  /** What one positional argument turns out to be. */
  datatype Arg = ProjectName(name: string) | Assignment(v: Var)

  /** The assignment pattern is tried first, then the dotted one; anything else names a project. */
  function Classify(arg: string): Arg
  {
    match MatchAssign(arg)
    case Some(v) => Assignment(v)
    case None =>
      match MatchDotted(arg)
      case Some(v) => Assignment(v)
      case None => ProjectName(arg)
  }

  /** The project names among `args`, in their order. */
  function ProjectsOf(args: seq<string>): seq<string>
  {
    if args == [] then []
    else
      var last := args[|args| - 1];
      ProjectsOf(args[..|args| - 1]) + (if Classify(last).ProjectName? then [last] else [])
  }

  /** The assignments among `args`, in their order. */
  function VariablesOf(args: seq<string>): seq<Var>
  {
    if args == [] then []
    else
      var c := Classify(args[|args| - 1]);
      VariablesOf(args[..|args| - 1]) + (if c.Assignment? then [c.v] else [])
  }

  /** `parse_positional`: one pass over the arguments, appending each to one of two lists. */
  method ParsePositional(args: seq<string>) returns (projectNames: seq<string>, variables: seq<Var>)
    ensures projectNames == ProjectsOf(args)
    ensures variables == VariablesOf(args)
  {
    projectNames, variables := [], [];
    var i := 0;
    while i < |args|
      invariant 0 <= i <= |args|
      invariant projectNames == ProjectsOf(args[..i])
      invariant variables == VariablesOf(args[..i])
    {
      var arg := args[i];
      assert args[..i + 1][..i] == args[..i];
      var m := MatchAssign(arg);
      if m.Some? {
        variables := variables + [m.value];
      } else {
        m := MatchDotted(arg);
        if m.Some? {
          variables := variables + [m.value];
        } else {
          projectNames := projectNames + [arg];
        }
      }
      i := i + 1;
    }
    assert args[..i] == args;
  }

  // ---------------------------------------------------------------------
  // The split is a partition that keeps the arguments' order

  /** Every argument lands in exactly one of the two lists. */
  lemma {:induction false} PartitionSizes(args: seq<string>)
    ensures |ProjectsOf(args)| + |VariablesOf(args)| == |args|
  {
    if args != [] {
      PartitionSizes(args[..|args| - 1]);
    }
  }

  /** Both lists are built left to right: splitting a concatenation concatenates the splits. */
  lemma {:induction false} SplitConcat(a: seq<string>, b: seq<string>)
    ensures ProjectsOf(a + b) == ProjectsOf(a) + ProjectsOf(b)
    ensures VariablesOf(a + b) == VariablesOf(a) + VariablesOf(b)
  {
    if b != [] {
      var b' := b[..|b| - 1];
      assert (a + b)[..|a + b| - 1] == a + b';
      assert (a + b)[|a + b| - 1] == b[|b| - 1];
      SplitConcat(a, b');
    } else {
      assert a + b == a;
    }
  }

  /** A string is listed as a project exactly when it is an argument that is no assignment. */
  lemma {:induction false} ProjectsAreArguments(args: seq<string>, p: string)
    ensures p in ProjectsOf(args) <==> p in args && Classify(p).ProjectName?
  {
    if args != [] {
      var init := args[..|args| - 1];
      ProjectsAreArguments(init, p);
      assert args == init + [args[|args| - 1]];
    }
  }

  /** Every listed assignment comes from an argument that parses to it. */
  lemma {:induction false} VariablesAreArguments(args: seq<string>, v: Var)
    ensures v in VariablesOf(args) <==> exists arg :: arg in args && Classify(arg) == Assignment(v)
  {
    if args != [] {
      var init := args[..|args| - 1];
      VariablesAreArguments(init, v);
      assert args == init + [args[|args| - 1]];
    }
  }

  lemma {:induction false} AssignHasEquals(arg: string)
    requires MatchAssign(arg).Some?
    ensures '=' in arg
  {
    AssignSound(arg);
    var v := MatchAssign(arg).value;
    var ws :| AssignShape(v, ws) && arg == AssignText(v, ws);
    AssignTextSplit(v, ws);
    var pre := if v.section.Some? then "[" + v.section.value + "]" else "";
    assert arg[|pre| + |ws| + |v.name|] == '=';
  }

  lemma {:induction false} DottedHasEquals(arg: string)
    requires MatchDotted(arg).Some?
    ensures '=' in arg
  {
    DottedSound(arg);
    var v := MatchDotted(arg).value;
    assert arg[|v.section.value| + 1 + |v.name|] == '=';
  }

  /** An argument with no `=` always names a project. */
  lemma {:induction false} NoEqualsIsProject(arg: string)
    requires '=' !in arg
    ensures Classify(arg) == ProjectName(arg)
  {
    if MatchAssign(arg).Some? {
      AssignHasEquals(arg);
    } else if MatchDotted(arg).Some? {
      DottedHasEquals(arg);
    }
  }

  lemma {:induction false} ExampleGreeting()
    ensures Classify("greeting=Hello") == Assignment(Var(None, "greeting", "Hello"))
  {
    var g := Var(None, "greeting", "Hello");
    assert IsWord("greeting") by {
      forall i | 0 <= i < |"greeting"| ensures IsWordChar("greeting"[i]) { }
    }
    AssignComplete(g, "");
    assert AssignText(g, "") == "greeting=Hello";
  }

  lemma {:induction false} SectionNameShape()
    ensures AssignShape(Var(Some("demo"), "name", "World"), "")
  {
    assert IsWord("demo") by {
      forall i | 0 <= i < |"demo"| ensures IsWordChar("demo"[i]) { }
    }
    assert IsWord("name") by {
      forall i | 0 <= i < |"name"| ensures IsWordChar("name"[i]) { }
    }
    assert NoNewline("World") by {
      forall i | 0 <= i < |"World"| ensures "World"[i] != '\n' { }
    }
  }

  lemma {:induction false} SectionNameText()
    ensures AssignText(Var(Some("demo"), "name", "World"), "") == "[demo]name=World"
  {
    AssignTextSplit(Var(Some("demo"), "name", "World"), "");
    assert "[" + "demo" + "]" == "[demo]";
    assert "" + "name" + "=" + "World" == "name=World";
    assert "[demo]" + "name=World" == "[demo]name=World";
  }

  /** Classifying an argument the assignment pattern recognises. */
  lemma {:induction false} ClassifyRecognised(arg: string, v: Var)
    requires MatchAssign(arg) == Some(v)
    ensures Classify(arg) == Assignment(v)
  {
  }

  lemma {:induction false} ExampleSectionName()
    ensures Classify("[demo]name=World") == Assignment(Var(Some("demo"), "name", "World"))
  {
    var w := Var(Some("demo"), "name", "World");
    SectionNameShape();
    AssignComplete(w, "");
    SectionNameText();
    ClassifyRecognised("[demo]name=World", w);
  }

  /** The split of three arguments, from how each one is classified. */
  lemma {:induction false} SplitThree(x: string, y: string, z: string)
    ensures ProjectsOf([x, y, z]) == ProjectsOf([x]) + ProjectsOf([y]) + ProjectsOf([z])
    ensures VariablesOf([x, y, z]) == VariablesOf([x]) + VariablesOf([y]) + VariablesOf([z])
  {
    SplitConcat([x], [y]);
    SplitConcat([x, y], [z]);
    assert [x] + [y] == [x, y] && [x, y] + [z] == [x, y, z];
  }

  /** `demo greeting=Hello [demo]name=World` */
  lemma {:induction false} Example()
    ensures ProjectsOf(["demo", "greeting=Hello", "[demo]name=World"]) == ["demo"]
    ensures VariablesOf(["demo", "greeting=Hello", "[demo]name=World"])
      == [Var(None, "greeting", "Hello"), Var(Some("demo"), "name", "World")]
  {
    NoEqualsIsProject("demo");
    ExampleGreeting();
    ExampleSectionName();
    SplitThree("demo", "greeting=Hello", "[demo]name=World");
  }
}
