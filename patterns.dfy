/**
 * The two patterns that recognise configuration assignments among the
 * positional command-line arguments of `fassembler`:
 *
 *   assignment form:  ^(?:\[(\w+)\])?\s*(\w+)=(.*)$    NAME=VALUE or [SECTION]NAME=VALUE
 *   dotted form:      ^(\w+)\.(\w+)=([^=>].*)$          SECTION.NAME=VALUE
 *
 * Both are hand-coded as character-level recognisers. The patterns are
 * compiled on byte strings without flags, so `\w` is [A-Za-z0-9_], `\s` is
 * the six ASCII white-space characters and `.` is any character but a newline.
 */
module VarPatterns {
  import opened Wrappers
  import opened Spans

  /** A recognised assignment: optional section, option name, value. */
  datatype Var = Var(section: Option<string>, name: string, value: string)

  /** A `\w+` match. */
  predicate IsWord(s: string) {
    |s| > 0 && AllIn(s, Word)
  }

  /** A `\s*` match. */
  predicate AllSpace(s: string) {
    AllIn(s, Space)
  }

  /** A `.*` match. */
  predicate NoNewline(s: string) {
    forall i :: 0 <= i < |s| ==> s[i] != '\n'
  }

  // ---------------------------------------------------------------------
  // The recognisers

  /**
   * `^(?:\[(\w+)\])?\s*(\w+)=(.*)$`. When the argument starts with `[`, only
   * the bracketed alternative can match: without the group, `\s*(\w+)` would
   * have to start at the `[`.
   */
  function MatchAssign(s: string): Option<Var>
  {
    if |s| > 0 && s[0] == '[' then
      var n := Span(s[1..], Word);
      if 0 < n && n + 1 < |s| && s[n + 1] == ']' then
        MatchUnbracketed(Some(s[1..n + 1]), s[n + 2..])
      else
        None
    else
      MatchUnbracketed(None, s)
  }

  /** `\s*(\w+)=(.*)$` at the start of `t`. */
  function MatchUnbracketed(section: Option<string>, t: string): Option<Var>
  {
    var k := Span(t, Space);
    var n := Span(t[k..], Word);
    if 0 < n && k + n < |t| && t[k + n] == '=' && NoNewline(t[k + n + 1..]) then
      Some(Var(section, t[k..k + n], t[k + n + 1..]))
    else
      None
  }

  /** `^(\w+)\.(\w+)=([^=>].*)$`. */
  function MatchDotted(s: string): Option<Var>
  {
    var a := Span(s, Word);
    if 0 < a && a < |s| && s[a] == '.' then
      var t := s[a + 1..];
      var b := Span(t, Word);
      if 0 < b && b + 1 < |t| && t[b] == '=' && t[b + 1] != '=' && t[b + 1] != '>'
         && NoNewline(t[b + 2..]) then
        Some(Var(Some(s[..a]), t[..b], t[b + 1..]))
      else
        None
    else
      None
  }

  // ---------------------------------------------------------------------
  // Reference forms: the texts each pattern is meant to accept

  /** `[SECTION]` (when there is a section), white space, `NAME=VALUE`. */
  function AssignText(v: Var, ws: string): string {
    (if v.section.Some? then "[" + v.section.value + "]" else "") + ws + v.name + "=" + v.value
  }

  predicate AssignShape(v: Var, ws: string) {
    AllSpace(ws) && IsWord(v.name) && NoNewline(v.value)
    && (v.section.Some? ==> IsWord(v.section.value))
  }

  /** `SECTION.NAME=VALUE`. */
  function DottedText(v: Var): string
    requires v.section.Some?
  {
    v.section.value + "." + v.name + "=" + v.value
  }

  predicate DottedShape(v: Var) {
    v.section.Some? && IsWord(v.section.value) && IsWord(v.name)
    && |v.value| > 0 && v.value[0] != '=' && v.value[0] != '>' && NoNewline(v.value[1..])
  }

  // ---------------------------------------------------------------------
  // Each recogniser accepts exactly its reference form

  lemma {:induction false} UnbracketedComplete(section: Option<string>, ws: string, name: string, value: string)
    requires AllSpace(ws) && IsWord(name) && NoNewline(value)
    ensures MatchUnbracketed(section, ws + name + "=" + value) == Some(Var(section, name, value))
  {
    var tail := "=" + value;
    var rest := name + tail;
    Regroup(ws, name, "=", value);
    var t := ws + rest;
    assert rest[0] == name[0];
    SpanPrefix(ws, rest, Space);
    SpanPrefix(name, tail, Word);
    assert t[|ws|..|ws| + |name|] == rest[..|name|];
    assert t[|ws| + |name| + 1..] == value by {
      assert t[|ws| + |name| + 1..] == rest[|name| + 1..] == tail[1..];
    }
  }

  lemma {:induction false} Regroup(a: string, b: string, c: string, d: string)
    ensures a + b + c + d == a + (b + (c + d))
  {
  }

  /** Every well-shaped `[SECTION]NAME=VALUE` or `NAME=VALUE` is recognised, with its parts. */
  lemma {:induction false} AssignComplete(v: Var, ws: string)
    requires AssignShape(v, ws)
    ensures MatchAssign(AssignText(v, ws)) == Some(v)
  {
    AssignTextSplit(v, ws);
    UnbracketedComplete(v.section, ws, v.name, v.value);
    if v.section.Some? {
      BracketedComplete(v.section.value, ws + v.name + "=" + v.value);
    } else {
      var s := AssignText(v, ws);
      if |ws| > 0 {
        assert s[0] == ws[0];
      } else {
        assert s[0] == v.name[0];
      }
    }
  }

  /** `[SECTION]` followed by any text: the pattern goes on after the bracket. */
  lemma {:induction false} BracketedComplete(sec: string, tail: string)
    requires IsWord(sec)
    ensures MatchAssign("[" + sec + "]" + tail) == MatchUnbracketed(Some(sec), tail)
  {
    var s := "[" + sec + "]" + tail;
    var x := sec + ("]" + tail);
    Regroup("[", sec, "]", tail);
    assert s == "[" + x;
    assert s[1..] == x;
    SpanPrefix(sec, "]" + tail, Word);
    assert s[|sec| + 1] == x[|sec|] == ']';
    assert s[1..|sec| + 1] == x[..|sec|];
    assert s[|sec| + 2..] == tail by {
      assert s[|sec| + 2..] == x[|sec| + 1..] == ("]" + tail)[1..];
    }
  }

  lemma {:induction false} UnbracketedSound(section: Option<string>, t: string)
    requires MatchUnbracketed(section, t).Some?
    ensures var v := MatchUnbracketed(section, t).value;
      var ws := t[..Span(t, Space)];
      v.section == section && AllSpace(ws) && IsWord(v.name) && NoNewline(v.value)
      && t == ws + v.name + "=" + v.value
  {
    var k := Span(t, Space);
    var rest := t[k..];
    var n := Span(rest, Word);
    SpanAllIn(t, Space);
    SpanAllIn(rest, Word);
    assert t[k..k + n] == rest[..n];
    AssignParts(t, k, n);
  }

  lemma {:induction false} AssignParts(t: string, k: nat, n: nat)
    requires k + n < |t| && t[k + n] == '='
    ensures t == t[..k] + t[k..k + n] + "=" + t[k + n + 1..]
  {
  }

  /** Whatever the assignment pattern recognises has the reference shape. */
  lemma {:induction false} AssignSound(s: string)
    requires MatchAssign(s).Some?
    ensures exists ws :: AssignShape(MatchAssign(s).value, ws) && s == AssignText(MatchAssign(s).value, ws)
  {
    var v := MatchAssign(s).value;
    var ws: string;
    if |s| > 0 && s[0] == '[' {
      ws := BracketedSound(s);
    } else {
      UnbracketedSound(None, s);
      ws := s[..Span(s, Space)];
      AssignTextSplit(v, ws);
    }
    assert AssignShape(v, ws) && s == AssignText(v, ws);
  }

  /** The bracketed alternative of `AssignSound`, with its white space as witness. */
  lemma {:induction false} BracketedSound(s: string) returns (ws: string)
    requires |s| > 0 && s[0] == '[' && MatchAssign(s).Some?
    ensures AssignShape(MatchAssign(s).value, ws) && s == AssignText(MatchAssign(s).value, ws)
  {
    var x := s[1..];
    var n := Span(x, Word);
    var sec, t := s[1..n + 1], s[n + 2..];
    assert MatchAssign(s) == MatchUnbracketed(Some(sec), t);
    UnbracketedSound(Some(sec), t);
    SpanAllIn(x, Word);
    assert sec == x[..n];
    ws := t[..Span(t, Space)];
    BracketSplit(s, n);
    AssignTextSplit(MatchAssign(s).value, ws);
  }

  lemma {:induction false} BracketSplit(s: string, n: nat)
    requires n + 1 < |s| && s[0] == '[' && s[n + 1] == ']'
    ensures s == "[" + s[1..n + 1] + "]" + s[n + 2..]
  {
  }

  lemma {:induction false} AssignTextSplit(v: Var, ws: string)
    ensures v.section.Some? ==> AssignText(v, ws) == "[" + v.section.value + "]" + (ws + v.name + "=" + v.value)
    ensures v.section.None? ==> AssignText(v, ws) == ws + v.name + "=" + v.value
  {
  }

  /** Every well-shaped `SECTION.NAME=VALUE` is recognised, with its parts. */
  lemma {:induction false} DottedComplete(v: Var)
    requires DottedShape(v)
    ensures MatchDotted(DottedText(v)) == Some(v)
  {
    var sec := v.section.value;
    var tail := "=" + v.value;
    var t := v.name + tail;
    var s := sec + ("." + t);
    DottedTextSplit(v);
    SpanPrefix(sec, "." + t, Word);
    assert s[|sec|] == '.';
    assert s[|sec| + 1..] == t;
    SpanPrefix(v.name, tail, Word);
    assert t[|v.name|] == '=' && t[|v.name| + 1] == v.value[0];
    assert t[|v.name| + 1..] == v.value;
    assert t[|v.name| + 2..] == v.value[1..];
  }

  lemma {:induction false} DottedTextSplit(v: Var)
    requires v.section.Some?
    ensures DottedText(v) == v.section.value + ("." + (v.name + ("=" + v.value)))
  {
  }

  /** Whatever the dotted pattern recognises has the reference shape. */
  lemma {:induction false} DottedSound(s: string)
    requires MatchDotted(s).Some?
    ensures DottedShape(MatchDotted(s).value) && s == DottedText(MatchDotted(s).value)
  {
    var v := MatchDotted(s).value;
    var a := Span(s, Word);
    var t := s[a + 1..];
    var b := Span(t, Word);
    assert v.value[1..] == t[b + 2..];
    assert t == t[..b] + "=" + t[b + 1..];
    assert s == s[..a] + "." + t;
  }

  /** No argument matches both patterns, so the order in which they are tried never matters. */
  lemma {:induction false} FormsDisjoint(s: string)
    ensures MatchAssign(s).Some? ==> MatchDotted(s).None?
  {
    if MatchAssign(s).Some? && s[0] != '[' {
      var k := Span(s, Space);
      if k > 0 {
        assert !IsWordChar(s[0]);
      } else {
        assert s[k..] == s;
        assert s[Span(s, Word)] == '=';
      }
    }
  }
}
