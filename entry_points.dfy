/**
 * How a requested project identifier names an entry point: `ep_name` gives
 * the identifier of an entry point, and `find_project_class` splits an
 * identifier back into distribution and entry-point name.
 */
module EntryPoints {
  import opened Spans

  /** `ep_name`: the distribution alone for the `main` entry point, else `DIST:NAME`. */
  function EntryPointName(dist: string, name: string): string {
    if name == "main" then dist else dist + ":" + name
  }

  /** The split of `find_project_class`: at the first `:`, and entry point `main` when there is none. */
  function SplitProjectName(id: string): (parts: (string, string))
    ensures ':' !in parts.0
    ensures ':' in id ==> id == parts.0 + ":" + parts.1
    ensures ':' !in id ==> parts == (id, "main")
  {
    var k := Span(id, NotColon);
    if k < |id| then
      assert id == id[..k] + ":" + id[k + 1..];
      (id[..k], id[k + 1..])
    else
      assert forall i :: 0 <= i < |id| ==> InClass(id[i], NotColon);
      (id, "main")
  }

  /** Every entry point of a distribution without `:` in its name is found again from its identifier. */
  lemma {:induction false} SplitJoin(dist: string, name: string)
    requires ':' !in dist
    ensures SplitProjectName(EntryPointName(dist, name)) == (dist, name)
  {
    var id := EntryPointName(dist, name);
    if name != "main" {
      assert id[|dist|] == ':';
      SpanOf(id, NotColon, |dist|);
      assert id[..|dist|] == dist && id[|dist| + 1..] == name;
    }
  }

  /**
   * An identifier names itself back, except `DIST:main`, which is found as
   * the plain `DIST`.
   */
  lemma {:induction false} JoinSplit(id: string)
    ensures var (dist, name) := SplitProjectName(id);
      EntryPointName(dist, name) == id <==> !(':' in id && name == "main")
  {
    var (dist, name) := SplitProjectName(id);
    if ':' in id && name == "main" {
      assert |EntryPointName(dist, name)| == |dist| < |id|;
    }
  }
}
