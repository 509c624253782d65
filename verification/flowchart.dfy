/** The repair applied to the mermaid flowchart of an explanation
    (app/api/explain/route.ts lines 74-85): prefix the top-down directive when
    the trimmed text lacks it, then discard the diagram for a fixed one when it
    has no edge. */
module Flowchart {
  import opened Text

  /** The mermaid directive for a top-down directed graph. */
  const Directive: string := "graph TD"
  /** The mermaid edge token. */
  const Edge: string := "-->"

  /** The four-node diagram substituted for one without an edge; the
      indentation is that of the source's template literal. */
  const Fallback: string :=
    Directive + "\n        A[Code Analysis] " + Edge + " B[Function Start]"
    + "\n        B " + Edge + " C[Process Data]"
    + "\n        C " + Edge + " D[Function End]"

  /** What the diagram renderer needs: the trimmed text opens with the
      directive and there is at least one edge. */
  predicate Renderable(f: string) {
    StartsWith(Trim(f), Directive) && Contains(f, Edge)
  }

  /** The repair. The result is always renderable; a renderable diagram is
      left alone; a diagram with an edge is kept, behind the directive when it
      lacked one; a diagram without an edge is replaced by the fallback. */
  function Repair(f: string): (r: string)
    ensures Renderable(r)
    ensures Renderable(f) ==> r == f
    ensures Contains(f, Edge) && !StartsWith(Trim(f), Directive) ==> r == Directive + "\n" + f
    ensures !Contains(f, Edge) ==> r == Fallback
  {
    var prefixed := if StartsWith(Trim(f), Directive) then f else Directive + "\n" + f;
    PrefixKeepsEdges(f);
    PrefixedStartsWithDirective(f);
    FallbackRenderable();
    if Contains(prefixed, Edge) then prefixed else Fallback
  }

  /** No character of the prefix "graph TD\n" is the '-' an edge starts with,
      so prefixing neither creates nor removes an edge. */
  lemma PrefixKeepsEdges(f: string)
    ensures Contains(Directive + "\n" + f, Edge) <==> Contains(f, Edge)
  {
    if Contains(f, Edge) {
      PrefixKeepsEdge(f);
    }
    if Contains(Directive + "\n" + f, Edge) {
      PrefixAddsNoEdge(f);
    }
  }

  lemma PrefixKeepsEdge(f: string)
    requires Contains(f, Edge)
    ensures Contains(Directive + "\n" + f, Edge)
  {
    var h := Directive + "\n";
    var g := h + f;
    var k :| OccursAt(f, Edge, k);
    assert g[|h| + k..|h| + k + |Edge|] == f[k..k + |Edge|];
    assert OccursAt(g, Edge, |h| + k);
  }

  lemma PrefixAddsNoEdge(f: string)
    requires Contains(Directive + "\n" + f, Edge)
    ensures Contains(f, Edge)
  {
    var h := Directive + "\n";
    var g := h + f;
    var k :| OccursAt(g, Edge, k);
    assert g[k] == Edge[0] == '-';
    assert forall m :: 0 <= m < |h| ==> g[m] == h[m] != '-';
    assert |h| <= k;
    forall m | 0 <= m < |Edge|
      ensures f[k - |h| + m] == Edge[m]
    {
      assert g[k..k + |Edge|][m] == Edge[m];
    }
    assert OccursAt(f, Edge, k - |h|);
  }

  lemma PrefixedStartsWithDirective(f: string)
    ensures StartsWith(Trim(Directive + "\n" + f), Directive)
  {
    var g := Directive + "\n" + f;
    assert g[..|Directive|] == Directive;
    TrimKeepsPrefix(g, Directive);
  }

  lemma FallbackRenderable()
    ensures Renderable(Fallback)
  {
    assert Fallback[..|Directive|] == Directive;
    TrimKeepsPrefix(Fallback, Directive);
    var n := |Directive + "\n        A[Code Analysis] "|;
    assert Fallback[n..n + |Edge|] == Edge;
    assert OccursAt(Fallback, Edge, n);
  }

  /** Repairing twice is repairing once. */
  lemma RepairIdempotent(f: string)
    ensures Repair(Repair(f)) == Repair(f)
  {
  }

  /** An edge-bearing diagram without the directive gets it prepended. */
  lemma RepairPrefixExample()
    ensures Repair("B[x]-->C[y]") == "graph TD" + "\n" + "B[x]-->C[y]"
  {
    var f := "B[x]-->C[y]";
    ExampleHasEdge(f);
    ExampleLacksDirective(f);
  }

  lemma ExampleHasEdge(f: string)
    requires f == "B[x]-->C[y]"
    ensures Contains(f, Edge)
  {
    assert f[4..7] == Edge;
    assert OccursAt(f, Edge, 4);
  }

  lemma ExampleLacksDirective(f: string)
    requires f == "B[x]-->C[y]"
    ensures !StartsWith(Trim(f), Directive)
  {
    assert PaddedAt(f, f, 0);
    TrimUnique(f, f);
    assert f[0] != Directive[0];
  }

  /** A diagram with the directive but no edge is discarded. */
  lemma RepairFallbackExample()
    ensures Repair("graph TD\nNothing here") == Fallback
  {
    var f := "graph TD\nNothing here";
    assert forall m :: 0 <= m < |f| ==> f[m] != '-';
    assert forall k :: OccursAt(f, Edge, k) ==> f[k] == Edge[0];
  }
}
