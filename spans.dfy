/**
 * The character classes the command line is scanned with, and the longest
 * prefix of a string whose characters all belong to one class.
 */
module Spans {
  /** `\w`, `\s`, and any character but `:`. */
  datatype CharClass = Word | Space | NotColon

  predicate IsWordChar(c: char) {
    'a' <= c <= 'z' || 'A' <= c <= 'Z' || '0' <= c <= '9' || c == '_'
  }

  /** Space, tab, newline, carriage return, vertical tab, form feed. */
  predicate IsSpaceChar(c: char) {
    c == ' ' || c == '\t' || c == '\n' || c == '\r' || c as int == 11 || c as int == 12
  }

  predicate InClass(c: char, cls: CharClass) {
    match cls
    case Word => IsWordChar(c)
    case Space => IsSpaceChar(c)
    case NotColon => c != ':'
  }

  /** Every character of `s` belongs to `cls`. */
  predicate AllIn(s: string, cls: CharClass) {
    forall i :: 0 <= i < |s| ==> InClass(s[i], cls)
  }

  /** Length of the longest prefix of `s` whose characters all belong to `cls`. */
  function Span(s: string, cls: CharClass): (n: nat)
    ensures n <= |s|
    ensures forall i :: 0 <= i < n ==> InClass(s[i], cls)
    ensures n < |s| ==> !InClass(s[n], cls)
  {
    if s == [] || !InClass(s[0], cls) then 0 else 1 + Span(s[1..], cls)
  }

  /** The span is determined by its defining properties. */
  lemma {:induction false} SpanOf(s: string, cls: CharClass, n: nat)
    requires n <= |s|
    requires forall i :: 0 <= i < n ==> InClass(s[i], cls)
    requires n < |s| ==> !InClass(s[n], cls)
    ensures Span(s, cls) == n
  {
    if n > 0 {
      assert InClass(s[0], cls);
      SpanOf(s[1..], cls, n - 1);
    }
  }

  /** A string that starts with a run of class `cls` ended by a character outside it: the span is that run. */
  lemma {:induction false} SpanPrefix(w: string, rest: string, cls: CharClass)
    requires AllIn(w, cls)
    requires rest != [] ==> !InClass(rest[0], cls)
    ensures Span(w + rest, cls) == |w|
    ensures (w + rest)[..|w|] == w && (w + rest)[|w|..] == rest
  {
    var x := w + rest;
    assert forall i :: 0 <= i < |w| ==> x[i] == w[i];
    if rest != [] {
      assert x[|w|] == rest[0];
    }
    SpanOf(x, cls, |w|);
  }

  /** The prefix a span measures lies entirely in the class. */
  lemma {:induction false} SpanAllIn(s: string, cls: CharClass)
    ensures AllIn(s[..Span(s, cls)], cls)
  {
    var n := Span(s, cls);
    assert forall i :: 0 <= i < n ==> s[..n][i] == s[i];
  }
}
