/** `generate_rdeps_graph` (rdeps.py:23-95): a depth-bounded walk over the
    reverse dependencies of one binary package. A LIFO worklist of
    (name, level) pairs is drained; a popped name is visited at most once,
    and only when it is a current binary of the archive and its level is
    within the bound, and a visited name is expanded when it is in the apt
    cache. Expanding a name adds a coloured node and a labelled
    edge for each runtime reverse dependency (which is pushed one level
    deeper) and for each source that build-depends on it or triggers its
    test suite (which is not pushed). */
module Rdeps {
  import opened Results
  import opened PyStr
  import opened SourceTable
  import opened ReverseIndex
  import opened Classify

  /** The relationships followed at run time (rdeps.py:16). */
  const Rels: seq<string> := ["Depends", "Recommends"]

  /** One entry of `rev_depends_list`: the depending package, the kind of
      relationship and the depending package's section. */
  datatype RevDep = RevDep(parent: string, depType: string, section: string)

  /** The apt cache, reduced to what the walk reads: a package present in it
      and its reverse dependencies. */
  type Cache = map<string, seq<RevDep>>

  /** The arguments of `generate_rdeps_graph` besides the start name.
      `testingSources` holds the source names of the testing table and
      `testingBins` its binaries; an omitted (`None`) argument is the empty
      set, since the code only tests them for truth and membership. */
  datatype Inputs = Inputs(
    latestBins: set<string>,
    indexes: Indexes,
    maxLevel: int,
    testingSources: set<string>,
    testingBins: set<string>,
    unstableSources: Option<Table>,
    cache: Cache)

  /** A `(name, level)` pair of the worklist. */
  datatype Visit = Visit(name: string, level: int)

  /** `pydot.Node(name)` or `pydot.Node(name, color=...)`. */
  datatype Node = Node(name: string, colour: Option<Colour>)

  /** `pydot.Edge(src, dst, label=...)`; the label text is `Label`. */
  datatype Edge = Edge(src: string, dst: string, kind: string, level: nat)

  /** The graph with `simplify=False`: every addition is kept, duplicates
      included, in order. */
  datatype Graph = Graph(nodes: seq<Node>, edges: seq<Edge>)

  /** Why the walk raises. `NoSourceTable`: `unstable_sources` is `None` at
      rdeps.py:44. `NoOwningSource(b)`: no kept source lists binary `b`, so
      the `[0]` of rdeps.py:44 or rdeps.py:49 is out of range. */
  datatype TraversalError = NoSourceTable | NoOwningSource(binary: string)

  // ---------------------------------------------------------------------
  // Edge labels (rdeps.py:60, 69, 77, 85, 93)

  const LevelPrefix: string := " (lvl="

  /** `f"{kind} (lvl={level})"` */
  function Label(e: Edge): string {
    e.kind + LevelPrefix + Decimal(e.level) + ")"
  }

  /** Reads the kind and level back from a label. */
  function ParseLabel(text: string): Option<(string, nat)> {
    if |text| == 0 || text[|text| - 1] != ')' then None
    else
      var body := text[..|text| - 1];
      var n := TrailingDigits(body);
      var head := body[..|body| - n];
      if n == 0 || !EndsWith(head, LevelPrefix) then None
      else Some((head[..|head| - |LevelPrefix|], DecimalValue(body[|body| - n..])))
  }

  /** Parsing a label built from any kind and any non-empty digit string. */
  lemma {:induction false} ParseLabelOf(kind: string, d: string)
    requires |d| > 0 && IsDigits(d)
    ensures ParseLabel(kind + LevelPrefix + d + ")") == Some((kind, DecimalValue(d)))
  {
    var text := kind + LevelPrefix + d + ")";
    var a := kind + LevelPrefix;
    var body := text[..|text| - 1];
    assert body == a + d;
    assert a[|a| - 1] == '=';
    TrailingDigitsOfAppend(a, d);
    var n := TrailingDigits(body);
    assert n == |d|;
    var head := body[..|body| - n];
    assert head == a;
    assert body[|body| - n..] == d;
    assert a[|a| - |LevelPrefix|..] == LevelPrefix;
    assert EndsWith(head, LevelPrefix);
    assert head[..|head| - |LevelPrefix|] == kind;
  }

  /** A label determines the edge's kind and level. */
  lemma {:induction false} LabelRoundTrip(e: Edge)
    ensures ParseLabel(Label(e)) == Some((e.kind, e.level))
  {
    ParseLabelOf(e.kind, Decimal(e.level));
    DecimalRoundTrip(e.level);
  }

  /** The label of a build or test edge names its own relationship and no
      other one, and never a followed runtime relationship: the kinds of
      rdeps.py:60 and rdeps.py:62-93 can be told apart from the drawing. */
  lemma {:induction false} BuildLabelNamesRelation(e: Edge, rel: Relation)
    requires e.kind == KindName(rel)
    ensures ParseLabel(Label(e)).Some?
    ensures forall other: Relation :: ParseLabel(Label(e)).value.0 == KindName(other) <==> other == rel
    ensures ParseLabel(Label(e)).value.0 !in Rels
  {
    LabelRoundTrip(e);
    forall other: Relation
      ensures KindName(rel) == KindName(other) <==> other == rel
    {
      KindNamesDistinct(rel, other);
    }
  }

  // ---------------------------------------------------------------------
  // Expanding one name

  /** The runtime reverse dependencies that get an edge: the depending
      package is a current binary and the relationship is followed
      (rdeps.py:46-48). */
  function Qualifying(latestBins: set<string>, rdeps: seq<RevDep>): (q: seq<RevDep>)
    ensures forall d :: d in q <==> d in rdeps && d.parent in latestBins && d.depType in Rels
    ensures |q| <= |rdeps|
  {
    if |rdeps| == 0 then []
    else
      var rest := Qualifying(latestBins, rdeps[1..]);
      assert forall d :: d in rdeps <==> d == rdeps[0] || d in rdeps[1..] by {
        assert rdeps == [rdeps[0]] + rdeps[1..];
      }
      var d := rdeps[0];
      if d.parent in latestBins && d.depType in Rels then [d] + rest else rest
  }

  /** `idx` picks the elements of `q` out of `s` at increasing positions,
      so `q` is a subsequence of `s`. */
  ghost predicate Embeds(q: seq<RevDep>, s: seq<RevDep>, idx: seq<nat>) {
    && |idx| == |q|
    && (forall k | 0 <= k < |q| :: idx[k] < |s| && s[idx[k]] == q[k])
    && (forall k, l | 0 <= k < l < |q| :: idx[k] < idx[l])
  }

  /** `Qualifying` keeps every qualifying occurrence, duplicates included,
      and drops every other one. */
  lemma {:induction false} QualifyingCounts(latestBins: set<string>, rdeps: seq<RevDep>)
    ensures forall d :: multiset(Qualifying(latestBins, rdeps))[d]
                     == if d.parent in latestBins && d.depType in Rels then multiset(rdeps)[d] else 0
    decreases |rdeps|
  {
    if |rdeps| > 0 {
      var q := Qualifying(latestBins, rdeps);
      var tail := rdeps[1..];
      var rest := Qualifying(latestBins, tail);
      var d := rdeps[0];
      QualifyingCounts(latestBins, tail);
      assert multiset(rdeps) == multiset{d} + multiset(tail) by {
        assert rdeps == [d] + tail;
      }
      var kept := d.parent in latestBins && d.depType in Rels;
      assert multiset(q) == (if kept then multiset{d} else multiset{}) + multiset(rest) by {
        if kept {
          assert q == [d] + rest;
        }
      }
    }
  }

  /** Positions shifted past a new head element. */
  function Shift(idx: seq<nat>): (r: seq<nat>)
    ensures |r| == |idx| && forall k | 0 <= k < |idx| :: r[k] == idx[k] + 1
  {
    seq(|idx|, k requires 0 <= k < |idx| => idx[k] + 1)
  }

  lemma {:induction false} EmbedsUnderHead(q: seq<RevDep>, d: RevDep, s: seq<RevDep>, idx: seq<nat>)
    requires Embeds(q, s, idx)
    ensures Embeds(q, [d] + s, Shift(idx))
    ensures Embeds([d] + q, [d] + s, [0] + Shift(idx))
  {
    var e := [0] + Shift(idx);
    forall k | 0 <= k < |q| + 1
      ensures e[k] < |s| + 1 && ([d] + s)[e[k]] == ([d] + q)[k]
    {
      if k > 0 {
        assert e[k] == idx[k - 1] + 1;
      }
    }
  }

  /** `Qualifying` keeps the cache's order: its result is a subsequence of
      the cached reverse dependencies. */
  lemma {:induction false} QualifyingInOrder(latestBins: set<string>, rdeps: seq<RevDep>)
    ensures exists idx :: Embeds(Qualifying(latestBins, rdeps), rdeps, idx)
    decreases |rdeps|
  {
    var q := Qualifying(latestBins, rdeps);
    if |rdeps| == 0 {
      assert Embeds(q, rdeps, []);
    } else {
      var d, tail := rdeps[0], rdeps[1..];
      var rest := Qualifying(latestBins, tail);
      QualifyingInOrder(latestBins, tail);
      var idx :| Embeds(rest, tail, idx);
      EmbedsUnderHead(rest, d, tail, idx);
      assert rdeps == [d] + tail;
      if d.parent in latestBins && d.depType in Rels {
        assert q == [d] + rest;
        assert Embeds(q, rdeps, [0] + Shift(idx));
      } else {
        assert q == rest;
        assert Embeds(q, rdeps, Shift(idx));
      }
    }
  }

  /** The binaries built by the source that first lists `b` in the table:
      `same_source_bins` of rdeps.py:44. */
  function SameSourceBins(t: Table, b: string): (r: Option<seq<string>>)
    ensures r.Some? <==> b in LatestBinaries(t)
    ensures r.Some? ==> b in r.value
    ensures r.Some? ==> exists i | 0 <= i < |t| :: r.value == Split(t[i].rec.binary)
                          && forall j | 0 <= j < i :: b !in Split(t[j].rec.binary)
  {
    var owner := FirstProducer(t, b);
    if owner.None? then None else Some(Split(owner.value.rec.binary))
  }

  /** What expanding one name adds: nodes and edges in order, and the items
      pushed on the worklist. */
  datatype Expansion = Expansion(nodes: seq<Node>, edges: seq<Edge>, pushes: seq<Visit>)

  /** One expansion followed by another. */
  function Append(a: Expansion, b: Expansion): Expansion {
    Expansion(a.nodes + b.nodes, a.edges + b.edges, a.pushes + b.pushes)
  }

  /** Node `i` is the coloured source of edge `i`, and every edge points at
      the name of `v` and carries its level. */
  ghost predicate Shaped(x: Expansion, v: Visit) {
    && |x.nodes| == |x.edges|
    && forall i | 0 <= i < |x.edges| ::
         x.nodes[i].name == x.edges[i].src && x.nodes[i].colour.Some? && x.edges[i].dst == v.name && x.edges[i].level == v.level
  }

  lemma {:induction false} ShapedAppend(a: Expansion, b: Expansion, v: Visit)
    requires Shaped(a, v) && Shaped(b, v)
    ensures Shaped(Append(a, b), v)
  {
    var x := Append(a, b);
    forall i | |a.edges| <= i < |x.edges|
      ensures x.nodes[i].name == x.edges[i].src && x.nodes[i].colour.Some? && x.edges[i].dst == v.name && x.edges[i].level == v.level
    {
      assert x.nodes[i] == b.nodes[i - |a.nodes|] && x.edges[i] == b.edges[i - |a.edges|];
    }
  }

  /** The edge for a runtime reverse dependency of the name expanded at
      `v`. */
  function RuntimeEdge(v: Visit, d: RevDep): Edge
    requires v.level >= 0
  {
    Edge(d.parent, v.name, d.depType, v.level)
  }

  /** The runtime loop of rdeps.py:45-61 over the qualifying entries `q`.
      Each must be in `owned`, the binaries some source lists (else the
      `[0]` of rdeps.py:49 is out of range); otherwise the first one that is
      not is reported. */
  function RuntimeStep(inp: Inputs, owned: set<string>, v: Visit, same: seq<string>, q: seq<RevDep>): (r: Result<Expansion, TraversalError>)
    requires v.level >= 0
    ensures r.Success? ==> |r.value.nodes| == |r.value.edges| == |r.value.pushes| == |q|
  {
    if |q| == 0 then Success(Expansion([], [], []))
    else
      var d := q[0];
      if d.parent !in owned then Failure(NoOwningSource(d.parent))
      else
        var rest := RuntimeStep(inp, owned, v, same, q[1..]);
        if rest.Failure? then rest
        else
          var c := RuntimeColour(d.parent, d.section, inp.testingBins, same);
          Success(Expansion([Node(d.parent, Some(c))] + rest.value.nodes,
                            [RuntimeEdge(v, d)] + rest.value.edges,
                            [Visit(d.parent, v.level + 1)] + rest.value.pushes))
  }

  /** The runtime loop succeeds exactly when every qualifying parent has an
      owning source; otherwise it reports one that has none. */
  lemma {:induction false} RuntimeStepOutcome(inp: Inputs, owned: set<string>, v: Visit, same: seq<string>, q: seq<RevDep>)
    requires v.level >= 0
    ensures var r := RuntimeStep(inp, owned, v, same, q);
      && (r.Success? <==> forall i | 0 <= i < |q| :: q[i].parent in owned)
      && (r.Failure? ==> exists i | 0 <= i < |q| :: q[i].parent !in owned && r.error == NoOwningSource(q[i].parent))
  {
    if |q| > 0 {
      RuntimeStepOutcome(inp, owned, v, same, q[1..]);
      assert forall i | 1 <= i < |q| :: q[1..][i - 1] == q[i];
      var r := RuntimeStep(inp, owned, v, same, q);
      if r.Failure? && q[0].parent in owned {
        var j :| 0 <= j < |q[1..]| && q[1..][j].parent !in owned && r.error == NoOwningSource(q[1..][j].parent);
        assert q[j + 1] == q[1..][j];
      }
    }
  }

  /** Entry `i` of `q` gives the `i`-th node, edge and push: the parent,
      coloured by the runtime rules, an edge from it to the expanded name,
      and the parent one level deeper on the worklist. */
  lemma {:induction false} RuntimeStepContents(inp: Inputs, owned: set<string>, v: Visit, same: seq<string>, q: seq<RevDep>, i: int)
    requires v.level >= 0 && RuntimeStep(inp, owned, v, same, q).Success? && 0 <= i < |q|
    ensures var x := RuntimeStep(inp, owned, v, same, q).value;
      && x.edges[i] == RuntimeEdge(v, q[i])
      && x.pushes[i] == Visit(q[i].parent, v.level + 1)
      && x.nodes[i] == Node(q[i].parent, Some(RuntimeColour(q[i].parent, q[i].section, inp.testingBins, same)))
  {
    var x := RuntimeStep(inp, owned, v, same, q).value;
    if i > 0 {
      var rest := RuntimeStep(inp, owned, v, same, q[1..]).value;
      RuntimeStepContents(inp, owned, v, same, q[1..], i - 1);
      assert x.edges[i] == rest.edges[i - 1] && x.pushes[i] == rest.pushes[i - 1] && x.nodes[i] == rest.nodes[i - 1];
      assert q[1..][i - 1] == q[i];
    }
  }

  /** The loop of one build/test map (rdeps.py:62-69 and its three copies):
      one coloured node and one edge per source in the bucket of the
      expanded name. */
  function BuildStep(inp: Inputs, v: Visit, same: seq<string>, rel: Relation, srcs: seq<string>): (x: Expansion)
    requires v.level >= 0
    ensures |x.nodes| == |x.edges| == |srcs| && x.pushes == []
    ensures forall i | 0 <= i < |srcs| :: x.edges[i] == Edge(srcs[i], v.name, KindName(rel), v.level)
    ensures forall i | 0 <= i < |srcs| :: x.nodes[i] == Node(srcs[i], Some(BuildColour(srcs[i], inp.testingSources, same)))
  {
    if |srcs| == 0 then Expansion([], [], [])
    else
      var rest := BuildStep(inp, v, same, rel, srcs[1..]);
      var s := srcs[0];
      Expansion([Node(s, Some(BuildColour(s, inp.testingSources, same)))] + rest.nodes,
                [Edge(s, v.name, KindName(rel), v.level)] + rest.edges, [])
  }

  /** The build/test edges of the expanded name in the order of
      rdeps.py:62-93: Build-Depends, -Indep, -Arch, then Testsuite-Triggers. */
  function BuildTimeStep(inp: Inputs, v: Visit, same: seq<string>): (x: Expansion)
    requires v.level >= 0
    ensures x.pushes == []
    ensures |x.nodes| == |x.edges|
  {
    var a := BuildStep(inp, v, same, BuildDepends, Bucket(IndexFor(inp.indexes, BuildDepends), v.name));
    var b := BuildStep(inp, v, same, BuildDependsIndep, Bucket(IndexFor(inp.indexes, BuildDependsIndep), v.name));
    var c := BuildStep(inp, v, same, BuildDependsArch, Bucket(IndexFor(inp.indexes, BuildDependsArch), v.name));
    var d := BuildStep(inp, v, same, TestsuiteTriggers, Bucket(IndexFor(inp.indexes, TestsuiteTriggers), v.name));
    Append(Append(Append(a, b), c), d)
  }

  /** The build-time edges of one map are exactly one edge per source in the
      bucket of the expanded name. */
  lemma {:induction false} BuildStepEdges(inp: Inputs, v: Visit, same: seq<string>, rel: Relation, srcs: seq<string>, e: Edge)
    requires v.level >= 0
    ensures e in BuildStep(inp, v, same, rel, srcs).edges <==>
      e.src in srcs && e.dst == v.name && e.kind == KindName(rel) && e.level == v.level
  {
    var x := BuildStep(inp, v, same, rel, srcs);
    if e.src in srcs && e.dst == v.name && e.kind == KindName(rel) && e.level == v.level {
      var i :| 0 <= i < |srcs| && srcs[i] == e.src;
      assert x.edges[i] == e;
    }
  }

  /** Every build-time edge of a name comes from one of the four maps, and
      every source in one of its buckets gives an edge. */
  lemma {:induction false} BuildTimeEdges(inp: Inputs, v: Visit, same: seq<string>, e: Edge)
    requires v.level >= 0
    ensures e in BuildTimeStep(inp, v, same).edges <==>
      && e.dst == v.name && e.level == v.level
      && exists rel: Relation :: e.kind == KindName(rel) && e.src in Bucket(IndexFor(inp.indexes, rel), v.name)
  {
    BuildStepEdges(inp, v, same, BuildDepends, Bucket(IndexFor(inp.indexes, BuildDepends), v.name), e);
    BuildStepEdges(inp, v, same, BuildDependsIndep, Bucket(IndexFor(inp.indexes, BuildDependsIndep), v.name), e);
    BuildStepEdges(inp, v, same, BuildDependsArch, Bucket(IndexFor(inp.indexes, BuildDependsArch), v.name), e);
    BuildStepEdges(inp, v, same, TestsuiteTriggers, Bucket(IndexFor(inp.indexes, TestsuiteTriggers), v.name), e);
    if exists rel: Relation :: e.kind == KindName(rel) && e.src in Bucket(IndexFor(inp.indexes, rel), v.name) {
      var rel: Relation :| e.kind == KindName(rel) && e.src in Bucket(IndexFor(inp.indexes, rel), v.name);
      match rel
      case BuildDepends =>
      case BuildDependsIndep =>
      case BuildDependsArch =>
      case TestsuiteTriggers =>
    }
  }

  /** Each build-time node is the coloured source of the edge at the same
      position, and each edge points at the expanded name. */
  lemma {:induction false} BuildTimeShape(inp: Inputs, v: Visit, same: seq<string>)
    requires v.level >= 0
    ensures Shaped(BuildTimeStep(inp, v, same), v)
  {
    var a := BuildStep(inp, v, same, BuildDepends, Bucket(IndexFor(inp.indexes, BuildDepends), v.name));
    var b := BuildStep(inp, v, same, BuildDependsIndep, Bucket(IndexFor(inp.indexes, BuildDependsIndep), v.name));
    var c := BuildStep(inp, v, same, BuildDependsArch, Bucket(IndexFor(inp.indexes, BuildDependsArch), v.name));
    var d := BuildStep(inp, v, same, TestsuiteTriggers, Bucket(IndexFor(inp.indexes, TestsuiteTriggers), v.name));
    ShapedAppend(a, b, v);
    ShapedAppend(Append(a, b), c, v);
    ShapedAppend(Append(Append(a, b), c), d, v);
  }

  /** Every node of `x` carries the build-time colour of its own name. */
  ghost predicate BuildColoured(x: Expansion, testingSources: set<string>, same: seq<string>) {
    forall i | 0 <= i < |x.nodes| :: x.nodes[i].colour == Some(BuildColour(x.nodes[i].name, testingSources, same))
  }

  lemma {:induction false} BuildColouredAppend(a: Expansion, b: Expansion, testingSources: set<string>, same: seq<string>)
    requires BuildColoured(a, testingSources, same) && BuildColoured(b, testingSources, same)
    ensures BuildColoured(Append(a, b), testingSources, same)
  {
    var x := Append(a, b);
    forall i | |a.nodes| <= i < |x.nodes|
      ensures x.nodes[i].colour == Some(BuildColour(x.nodes[i].name, testingSources, same))
    {
      assert x.nodes[i] == b.nodes[i - |a.nodes|];
    }
  }

  /** Every build-time node is coloured by `BuildColour` (rdeps.py:63-91). */
  lemma {:induction false} BuildTimeColours(inp: Inputs, v: Visit, same: seq<string>)
    requires v.level >= 0
    ensures BuildColoured(BuildTimeStep(inp, v, same), inp.testingSources, same)
  {
    var a := BuildStep(inp, v, same, BuildDepends, Bucket(IndexFor(inp.indexes, BuildDepends), v.name));
    var b := BuildStep(inp, v, same, BuildDependsIndep, Bucket(IndexFor(inp.indexes, BuildDependsIndep), v.name));
    var c := BuildStep(inp, v, same, BuildDependsArch, Bucket(IndexFor(inp.indexes, BuildDependsArch), v.name));
    var d := BuildStep(inp, v, same, TestsuiteTriggers, Bucket(IndexFor(inp.indexes, TestsuiteTriggers), v.name));
    BuildColouredAppend(a, b, inp.testingSources, same);
    BuildColouredAppend(Append(a, b), c, inp.testingSources, same);
    BuildColouredAppend(Append(Append(a, b), c), d, inp.testingSources, same);
  }

  /** When expanding a cached name succeeds: there is a source table, some
      source lists the name, and every qualifying parent is listed by some
      source. */
  predicate Expandable(inp: Inputs, v: Visit)
    requires v.name in inp.cache
  {
    && inp.unstableSources.Some?
    && v.name in LatestBinaries(inp.unstableSources.value)
    && forall d | d in Qualifying(inp.latestBins, inp.cache[v.name]) :: d.parent in LatestBinaries(inp.unstableSources.value)
  }

  /** Expanding a name that is in the cache (rdeps.py:42-93). It fails
      when there is no source table, when no source lists the name, or when
      a qualifying parent has no owning source. */
  function Expand(inp: Inputs, v: Visit): (r: Result<Expansion, TraversalError>)
    requires v.name in inp.cache && v.level >= 0
    ensures r.Success? ==> |r.value.nodes| == |r.value.edges|
    ensures r.Success? ==> |r.value.pushes| == |Qualifying(inp.latestBins, inp.cache[v.name])|
  {
    if inp.unstableSources.None? then Failure(NoSourceTable)
    else
      var t := inp.unstableSources.value;
      var owned := LatestBinaries(t);
      var same := SameSourceBins(t, v.name);
      if same.None? then Failure(NoOwningSource(v.name))
      else
        var q := Qualifying(inp.latestBins, inp.cache[v.name]);
        var rt := RuntimeStep(inp, owned, v, same.value, q);
        if rt.Failure? then Failure(rt.error)
        else
          var bt := BuildTimeStep(inp, v, same.value);
          Success(Append(rt.value, bt))
  }
  /** Expanding a cached name succeeds exactly when it is `Expandable`. */
  lemma {:induction false} ExpandOutcome(inp: Inputs, v: Visit)
    requires v.name in inp.cache && v.level >= 0
    ensures Expand(inp, v).Success? <==> Expandable(inp, v)
  {
    if inp.unstableSources.Some? && v.name in LatestBinaries(inp.unstableSources.value) {
      var t := inp.unstableSources.value;
      var owned := LatestBinaries(t);
      var q := Qualifying(inp.latestBins, inp.cache[v.name]);
      RuntimeStepOutcome(inp, owned, v, SameSourceBins(t, v.name).value, q);
      assert forall d | d in q :: exists i | 0 <= i < |q| :: q[i] == d;
    }
  }


  /** The depending packages that expanding `n` pushes. */
  predicate IsParent(inp: Inputs, n: string, p: string) {
    n in inp.cache && exists d | d in Qualifying(inp.latestBins, inp.cache[n]) :: d.parent == p
  }

  /** `pushes` are the qualifying parents of `v`, one level deeper. */
  ghost predicate PushesParents(inp: Inputs, v: Visit, pushes: seq<Visit>) {
    && (forall w | w in pushes :: w.level == v.level + 1 && IsParent(inp, v.name, w.name))
    && (forall p | IsParent(inp, v.name, p) :: Visit(p, v.level + 1) in pushes)
  }

  /** The shape of an expansion: node `i` is the coloured source of edge
      `i`, and every edge points at the expanded name and carries its
      level. */
  lemma {:induction false} ExpandShape(inp: Inputs, v: Visit)
    requires v.name in inp.cache && v.level >= 0 && Expand(inp, v).Success?
    ensures Shaped(Expand(inp, v).value, v)
  {
    var t := inp.unstableSources.value;
    var owned := LatestBinaries(t);
    var same := SameSourceBins(t, v.name).value;
    var q := Qualifying(inp.latestBins, inp.cache[v.name]);
    var rt := RuntimeStep(inp, owned, v, same, q).value;
    forall i | 0 <= i < |rt.edges|
      ensures rt.nodes[i].name == rt.edges[i].src && rt.nodes[i].colour.Some? && rt.edges[i].dst == v.name && rt.edges[i].level == v.level
    {
      RuntimeStepContents(inp, owned, v, same, q, i);
    }
    BuildTimeShape(inp, v, same);
    ShapedAppend(rt, BuildTimeStep(inp, v, same), v);
  }

  /** The colours of an expansion: the first `|q|` nodes are the
      qualifying parents with their runtime colour (rdeps.py:50-58), the
      rest the build-time colour of their own name (rdeps.py:63-91); both
      judge "same source" against the binaries of the source that first
      lists the expanded name (rdeps.py:44). */
  lemma {:induction false} ExpandColours(inp: Inputs, v: Visit, i: int)
    requires v.name in inp.cache && v.level >= 0 && Expand(inp, v).Success?
    requires 0 <= i < |Expand(inp, v).value.nodes|
    ensures var q := Qualifying(inp.latestBins, inp.cache[v.name]);
      var same := SameSourceBins(inp.unstableSources.value, v.name).value;
      var node := Expand(inp, v).value.nodes[i];
      && (i < |q| ==> node == Node(q[i].parent, Some(RuntimeColour(q[i].parent, q[i].section, inp.testingBins, same))))
      && (i >= |q| ==> node.colour == Some(BuildColour(node.name, inp.testingSources, same)))
  {
    var t := inp.unstableSources.value;
    var owned := LatestBinaries(t);
    var same := SameSourceBins(t, v.name).value;
    var q := Qualifying(inp.latestBins, inp.cache[v.name]);
    var rt := RuntimeStep(inp, owned, v, same, q).value;
    var bt := BuildTimeStep(inp, v, same);
    var nodes := Expand(inp, v).value.nodes;
    assert nodes == rt.nodes + bt.nodes;
    assert |rt.nodes| == |q|;
    if i < |q| {
      RuntimeStepContents(inp, owned, v, same, q, i);
    } else {
      BuildTimeColours(inp, v, same);
      assert nodes[i] == bt.nodes[i - |q|];
    }
  }

  /** Expanding a name pushes exactly its qualifying parents, one level
      deeper. */
  lemma {:induction false} ExpandPushes(inp: Inputs, v: Visit)
    requires v.name in inp.cache && v.level >= 0 && Expand(inp, v).Success?
    ensures PushesParents(inp, v, Expand(inp, v).value.pushes)
  {
    ExpandPushesInOrder(inp, v);
    ParentsInOrder(inp, v, Expand(inp, v).value.pushes);
  }

  /** Push `i` of an expansion is qualifying parent `i`, one level deeper. */
  lemma {:induction false} ExpandPushesInOrder(inp: Inputs, v: Visit)
    requires v.name in inp.cache && v.level >= 0 && Expand(inp, v).Success?
    ensures var q := Qualifying(inp.latestBins, inp.cache[v.name]);
      var pushes := Expand(inp, v).value.pushes;
      |pushes| == |q| && forall i | 0 <= i < |q| :: pushes[i] == Visit(q[i].parent, v.level + 1)
  {
    var t := inp.unstableSources.value;
    var owned := LatestBinaries(t);
    var same := SameSourceBins(t, v.name).value;
    var q := Qualifying(inp.latestBins, inp.cache[v.name]);
    var pushes := Expand(inp, v).value.pushes;
    var rt := RuntimeStep(inp, owned, v, same, q).value;
    assert pushes == rt.pushes + BuildTimeStep(inp, v, same).pushes;
    assert pushes == rt.pushes;
    forall i | 0 <= i < |q| ensures pushes[i] == Visit(q[i].parent, v.level + 1) {
      RuntimeStepContents(inp, owned, v, same, q, i);
    }
  }

  /** The qualifying parents in order, one level deeper, are exactly the
      parents to push. */
  lemma {:induction false} ParentsInOrder(inp: Inputs, v: Visit, pushes: seq<Visit>)
    requires v.name in inp.cache
    requires var q := Qualifying(inp.latestBins, inp.cache[v.name]);
      |pushes| == |q| && forall i | 0 <= i < |q| :: pushes[i] == Visit(q[i].parent, v.level + 1)
    ensures PushesParents(inp, v, pushes)
  {
    var q := Qualifying(inp.latestBins, inp.cache[v.name]);
    forall w | w in pushes ensures w.level == v.level + 1 && IsParent(inp, v.name, w.name) {
      var i :| 0 <= i < |pushes| && pushes[i] == w;
      assert q[i] in q;
    }
    forall p | IsParent(inp, v.name, p) ensures Visit(p, v.level + 1) in pushes {
      var d :| d in q && d.parent == p;
      var i :| 0 <= i < |q| && q[i] == d;
      assert pushes[i] == Visit(p, v.level + 1);
    }
  }


  /** A name outside the cache has no parents to push (rdeps.py:40-41). */
  lemma {:induction false} UncachedPushesNothing(inp: Inputs, v: Visit)
    requires v.name !in inp.cache
    ensures PushesParents(inp, v, [])
  {
  }

  /** The edges an expansion adds: a runtime edge from each qualifying
      parent, labelled with its relationship, and a build-time edge from
      each source in one of the four buckets of the name, all at the name's
      level. */
  lemma {:induction false} ExpandEdges(inp: Inputs, v: Visit, e: Edge)
    requires v.name in inp.cache && v.level >= 0 && Expand(inp, v).Success?
    ensures e in Expand(inp, v).value.edges <==>
      && e.dst == v.name && e.level == v.level
      && ((exists d | d in Qualifying(inp.latestBins, inp.cache[v.name]) :: e.src == d.parent && e.kind == d.depType)
          || exists rel: Relation :: e.kind == KindName(rel) && e.src in Bucket(IndexFor(inp.indexes, rel), v.name))
  {
    var same := SameSourceBins(inp.unstableSources.value, v.name).value;
    ExpandEdgesInOrder(inp, v);
    BuildTimeEdges(inp, v, same, e);
    RuntimeThenBuild(v, Qualifying(inp.latestBins, inp.cache[v.name]), Expand(inp, v).value.edges,
                     BuildTimeStep(inp, v, same).edges, e);
  }

  /** An expansion's edges are the runtime edges of the qualifying parents,
      in order, then the build-time edges. */
  lemma {:induction false} ExpandEdgesInOrder(inp: Inputs, v: Visit)
    requires v.name in inp.cache && v.level >= 0 && Expand(inp, v).Success?
    ensures var q := Qualifying(inp.latestBins, inp.cache[v.name]);
      var edges := Expand(inp, v).value.edges;
      var same := SameSourceBins(inp.unstableSources.value, v.name).value;
      && |q| <= |edges|
      && (forall i | 0 <= i < |q| :: edges[i] == RuntimeEdge(v, q[i]))
      && edges[|q|..] == BuildTimeStep(inp, v, same).edges
  {
    var t := inp.unstableSources.value;
    var owned := LatestBinaries(t);
    var same := SameSourceBins(t, v.name).value;
    var q := Qualifying(inp.latestBins, inp.cache[v.name]);
    var rt := RuntimeStep(inp, owned, v, same, q).value;
    var edges := Expand(inp, v).value.edges;
    assert edges == rt.edges + BuildTimeStep(inp, v, same).edges;
    forall i | 0 <= i < |q| ensures edges[i] == RuntimeEdge(v, q[i]) {
      RuntimeStepContents(inp, owned, v, same, q, i);
    }
  }

  /** Membership in runtime edges followed by build-time edges. */
  lemma {:induction false} RuntimeThenBuild(v: Visit, q: seq<RevDep>, edges: seq<Edge>, bt: seq<Edge>, e: Edge)
    requires v.level >= 0
    requires |q| <= |edges| && (forall i | 0 <= i < |q| :: edges[i] == RuntimeEdge(v, q[i])) && edges[|q|..] == bt
    ensures e in edges <==> e in bt || (e.dst == v.name && e.level == v.level && exists d | d in q :: e.src == d.parent && e.kind == d.depType)
  {
    assert edges == edges[..|q|] + bt;
    if e in edges[..|q|] {
      var i :| 0 <= i < |q| && edges[i] == e;
      assert q[i] in q;
    }
    if e.dst == v.name && e.level == v.level && exists d | d in q :: e.src == d.parent && e.kind == d.depType {
      var d :| d in q && e.src == d.parent && e.kind == d.depType;
      var i :| 0 <= i < |q| && q[i] == d;
      assert edges[i] == e;
    }
  }


  /** The edges of expanding `v`, or none when it is not expanded. */
  function EdgesOf(inp: Inputs, v: Visit): seq<Edge> {
    if v.name in inp.cache && v.level >= 0 then
      var x := Expand(inp, v);
      if x.Success? then x.value.edges else []
    else []
  }

  /** `f` applied to each visit, concatenated in order. */
  function ConcatMap<T>(f: Visit -> seq<T>, visits: seq<Visit>): seq<T> {
    if |visits| == 0 then []
    else ConcatMap(f, visits[..|visits| - 1]) + f(visits[|visits| - 1])
  }

  lemma {:induction false} ConcatMapMembers<T>(f: Visit -> seq<T>, visits: seq<Visit>, e: T)
    ensures e in ConcatMap(f, visits) <==> exists i | 0 <= i < |visits| :: e in f(visits[i])
  {
    if |visits| > 0 {
      var n := |visits| - 1;
      var init := visits[..n];
      ConcatMapMembers(f, init, e);
      if e in ConcatMap(f, init) {
        var i :| 0 <= i < |init| && e in f(init[i]);
        assert visits[i] == init[i];
      }
      if exists i | 0 <= i < |visits| :: e in f(visits[i]) {
        var i :| 0 <= i < |visits| && e in f(visits[i]);
        if i < n {
          assert init[i] == visits[i];
        }
      }
    }
  }

  /** The reference edge list: the expansions of `visits`, in order. */
  function AllEdges(inp: Inputs, visits: seq<Visit>): seq<Edge> {
    ConcatMap(v => EdgesOf(inp, v), visits)
  }

  /** An edge is in the reference list exactly when one visit's expansion
      adds it. */
  lemma {:induction false} AllEdgesMembers(inp: Inputs, visits: seq<Visit>, e: Edge)
    ensures e in AllEdges(inp, visits) <==> exists i | 0 <= i < |visits| :: e in EdgesOf(inp, visits[i])
  {
    ConcatMapMembers(v => EdgesOf(inp, v), visits, e);
  }

  // ---------------------------------------------------------------------
  // The walk (rdeps.py:23-95)

  /** Every edge points at a visited name that is in the cache and carries
      that visit's level; so a name missing from the cache gets no edge, and
      when the visits stay within the bound so do the levels in the labels. */
  lemma {:induction false} EdgesComeFromCachedVisits(inp: Inputs, visits: seq<Visit>, e: Edge)
    requires e in AllEdges(inp, visits)
    ensures exists i | 0 <= i < |visits| ::
      visits[i].name in inp.cache && e.dst == visits[i].name && e.level == visits[i].level
    ensures (forall i | 0 <= i < |visits| :: 1 <= visits[i].level <= inp.maxLevel) ==> 1 <= e.level <= inp.maxLevel
  {
    AllEdgesMembers(inp, visits, e);
    var i :| 0 <= i < |visits| && e in EdgesOf(inp, visits[i]);
    var v := visits[i];
    assert v.name in inp.cache && v.level >= 0 && Expand(inp, v).Success?;
    ExpandShape(inp, v);
    var x := Expand(inp, v).value;
    var j :| 0 <= j < |x.edges| && x.edges[j] == e;
  }

  /** The names of `visits`: the `visited` set of the source. */
  function VisitedNames(visits: seq<Visit>): set<string> {
    set i | 0 <= i < |visits| :: visits[i].name
  }

  lemma {:induction false} VisitedNamesAppend(visits: seq<Visit>, v: Visit)
    ensures VisitedNames(visits + [v]) == VisitedNames(visits) + {v.name}
  {
    var w := visits + [v];
    assert w[|visits|] == v;
    forall n | n in VisitedNames(visits) ensures n in VisitedNames(w) {
      var i :| 0 <= i < |visits| && visits[i].name == n;
      assert w[i] == visits[i];
    }
  }

  /** No name is visited twice. */
  ghost predicate DistinctNames(visits: seq<Visit>) {
    forall i, j | 0 <= i < j < |visits| :: visits[i].name != visits[j].name
  }

  /** `w` was pushed by expanding one of `visits`: its name is a qualifying
      parent of that visit and its level is one deeper. */
  ghost predicate FromEarlier(inp: Inputs, visits: seq<Visit>, w: Visit) {
    exists i | 0 <= i < |visits| :: w.level == visits[i].level + 1 && IsParent(inp, visits[i].name, w.name)
  }

  /** Every visit after the first was pushed by an earlier one. */
  ghost predicate Provenance(inp: Inputs, visits: seq<Visit>) {
    forall j | 0 < j < |visits| :: FromEarlier(inp, visits[..j], visits[j])
  }

  /** Every worklist item is the start item or was pushed by a visit. */
  ghost predicate TodoFrom(inp: Inputs, target: string, visits: seq<Visit>, todo: seq<Visit>) {
    forall w | w in todo :: w == Visit(target, 1) || FromEarlier(inp, visits, w)
  }

  /** Every qualifying parent of a visit below the bound is visited or still
      waits on the worklist one level deeper. */
  ghost predicate ParentsReached(inp: Inputs, visits: seq<Visit>, visited: set<string>, todo: seq<Visit>) {
    forall i, p | 0 <= i < |visits| && visits[i].level < inp.maxLevel && IsParent(inp, visits[i].name, p) ::
      p in visited || Visit(p, visits[i].level + 1) in todo
  }

  /** A qualifying parent is a current binary. */
  lemma {:induction false} ParentIsCurrent(inp: Inputs, n: string, p: string)
    requires IsParent(inp, n, p)
    ensures p in inp.latestBins
  {
  }

  lemma {:induction false} FromEarlierGrows(inp: Inputs, visits: seq<Visit>, v: Visit, w: Visit)
    requires FromEarlier(inp, visits, w)
    ensures FromEarlier(inp, visits + [v], w)
  {
    var i :| 0 <= i < |visits| && w.level == visits[i].level + 1 && IsParent(inp, visits[i].name, w.name);
    assert (visits + [v])[i] == visits[i];
  }

  lemma {:induction false} ProvenanceAppend(inp: Inputs, visits: seq<Visit>, v: Visit)
    requires Provenance(inp, visits)
    requires |visits| > 0 ==> FromEarlier(inp, visits, v)
    ensures Provenance(inp, visits + [v])
  {
    var w := visits + [v];
    forall j | 0 < j < |w| ensures FromEarlier(inp, w[..j], w[j]) {
      if j < |visits| {
        assert w[..j] == visits[..j] && w[j] == visits[j];
      } else {
        assert w[..j] == visits;
      }
    }
  }

  lemma {:induction false} TodoFromVisit(inp: Inputs, target: string, visits: seq<Visit>, todo: seq<Visit>, v: Visit)
    requires TodoFrom(inp, target, visits, todo)
    ensures TodoFrom(inp, target, visits + [v], todo)
  {
    forall w | w in todo && w != Visit(target, 1) ensures FromEarlier(inp, visits + [v], w) {
      FromEarlierGrows(inp, visits, v, w);
    }
  }

  /** Popping the last item keeps every parent reached, provided the item is
      visited whenever it is a current binary within the bound. */
  lemma {:induction false} ReachedAfterPop(inp: Inputs, visits: seq<Visit>, visited: set<string>, todo: seq<Visit>, visited': set<string>)
    requires ParentsReached(inp, visits, visited, todo) && |todo| > 0 && visited <= visited'
    requires var x := todo[|todo| - 1]; x.name in inp.latestBins && x.level <= inp.maxLevel ==> x.name in visited'
    ensures ParentsReached(inp, visits, visited', todo[..|todo| - 1])
  {
    var rest := todo[..|todo| - 1];
    assert todo == rest + [todo[|todo| - 1]];
    forall i, p | 0 <= i < |visits| && visits[i].level < inp.maxLevel && IsParent(inp, visits[i].name, p)
      ensures p in visited' || Visit(p, visits[i].level + 1) in rest
    {
      ParentIsCurrent(inp, visits[i].name, p);
    }
  }

  /** Adding a visit whose parents are all reached keeps every parent
      reached; growing the worklist never loses one. */
  lemma {:induction false} ReachedAfterVisit(inp: Inputs, visits: seq<Visit>, visited: set<string>, todo: seq<Visit>, v: Visit, pushes: seq<Visit>)
    requires ParentsReached(inp, visits, visited, todo)
    requires v.level < inp.maxLevel ==> forall p | IsParent(inp, v.name, p) :: p in visited || Visit(p, v.level + 1) in pushes
    ensures ParentsReached(inp, visits + [v], visited, todo + pushes)
  {
    var w := visits + [v];
    forall i, p | 0 <= i < |w| && w[i].level < inp.maxLevel && IsParent(inp, w[i].name, p)
      ensures p in visited || Visit(p, w[i].level + 1) in todo + pushes
    {
      if i < |visits| {
        assert w[i] == visits[i];
      }
    }
  }

  /** Some node of the graph is `n` with a colour. */
  ghost predicate Coloured(nodes: seq<Node>, n: string) {
    exists x | x in nodes :: x.name == n && x.colour.Some?
  }

  /** Both ends of every edge are nodes of the graph: the expanded name as
      an uncoloured node, the dependent as a coloured one. */
  ghost predicate EdgesHaveNodes(nodes: seq<Node>, edges: seq<Edge>) {
    forall e | e in edges :: Node(e.dst, None) in nodes && Coloured(nodes, e.src)
  }

  /** Owning a source for every current binary is enough for every
      expansion to succeed. */
  lemma {:induction false} OwnedIsExpandable(inp: Inputs, v: Visit)
    requires v.name in inp.cache
    ensures v.name in inp.latestBins && inp.unstableSources.Some? && inp.latestBins <= LatestBinaries(inp.unstableSources.value)
            ==> Expandable(inp, v)
  {
  }

  /** What holds of the visits at any point of the walk: distinct
      current binaries, within the bound, starting with the target, each
      pushed by an earlier one. */
  ghost predicate VisitsOk(inp: Inputs, target: string, visits: seq<Visit>) {
    && DistinctNames(visits)
    && (forall i | 0 <= i < |visits| :: visits[i].name in inp.latestBins && 1 <= visits[i].level <= inp.maxLevel)
    && (|visits| > 0 ==> visits[0] == Visit(target, 1))
    && Provenance(inp, visits)
  }

  /** The worklist, the visited set and the first node. */
  ghost predicate Bookkeeping(inp: Inputs, target: string, todo: seq<Visit>, visited: set<string>, visits: seq<Visit>,
                              nodes: seq<Node>, edges: seq<Edge>) {
    && visited == VisitedNames(visits) && |visited| == |visits|
    && (forall w | w in todo :: w.level >= 1)
    && (|nodes| == 0 ==> todo == [Visit(target, 1)] && visits == [] && edges == [])
    && (|nodes| > 0 ==> nodes[0] == Node(target, None))
    && (|nodes| > 0 && (target !in inp.latestBins || inp.maxLevel < 1) ==> nodes == [Node(target, None)] && todo == [])
    && (|nodes| > 0 && target in inp.latestBins && inp.maxLevel >= 1 ==> |visits| > 0)
  }

  /** The graph so far: the edges of every expansion, in order, with both
      ends among the nodes. */
  ghost predicate GraphOk(inp: Inputs, visits: seq<Visit>, nodes: seq<Node>, edges: seq<Edge>) {
    && (forall i | 0 <= i < |visits| :: visits[i].name in inp.cache ==> Expandable(inp, visits[i]))
    && edges == AllEdges(inp, visits)
    && (forall i | 0 <= i < |visits| :: Node(visits[i].name, None) in nodes)
    && EdgesHaveNodes(nodes, edges)
  }

  /** The loop invariant of the walk, over the worklist, the visited set,
      the visits and the graph built so far. */
  ghost predicate Walking(inp: Inputs, target: string, todo: seq<Visit>, visited: set<string>, visits: seq<Visit>,
                          nodes: seq<Node>, edges: seq<Edge>) {
    && VisitsOk(inp, target, visits)
    && Bookkeeping(inp, target, todo, visited, visits, nodes, edges)
    && GraphOk(inp, visits, nodes, edges)
    && TodoFrom(inp, target, visits, todo)
    && ParentsReached(inp, visits, visited, todo)
  }

  /** Whether the popped item is visited (rdeps.py:33-39); it is then
      expanded when it is in the cache (rdeps.py:40-41). */
  predicate VisitNow(inp: Inputs, visited: set<string>, v: Visit) {
    v.name in inp.latestBins && v.name !in visited && v.level <= inp.maxLevel
  }

  /** Every worklist item has a level of at least 1. */
  ghost predicate LevelsPositive(todo: seq<Visit>) {
    forall w | w in todo :: w.level >= 1
  }

  /** An expansion pushes only items one level deeper than the expanded one. */
  lemma {:induction false} PushesDeeper(inp: Inputs, v: Visit)
    requires v.name in inp.cache && v.level >= 0 && Expand(inp, v).Success?
    ensures forall w | w in Expand(inp, v).value.pushes :: w.level == v.level + 1
  {
    ExpandPushesInOrder(inp, v);
  }

  /** The visits of the walk from worklist `todo` with the names `visited`
      already visited, in the order rdeps.py:31-41 makes them: `todo.pop()`
      takes the most recently pushed item, an item that is not `VisitNow` is
      dropped, and a visited item's parents are pushed after the rest of the
      worklist. A failing expansion ends the walk at that visit. */
  ghost function VisitOrder(inp: Inputs, todo: seq<Visit>, visited: set<string>): seq<Visit>
    requires LevelsPositive(todo)
    decreases |inp.latestBins - visited|, |todo|
  {
    if |todo| == 0 then []
    else
      var v := todo[|todo| - 1];
      var rest := todo[..|todo| - 1];
      assert v in todo && forall w | w in rest :: w in todo;
      if !VisitNow(inp, visited, v) then VisitOrder(inp, rest, visited)
      else if v.name in inp.cache && Expand(inp, v).Failure? then [v]
      else
        var pushes := if v.name in inp.cache then Expand(inp, v).value.pushes else [];
        assert v.name in inp.cache ==> forall w | w in pushes :: w.level == v.level + 1 by {
          if v.name in inp.cache {
            PushesDeeper(inp, v);
          }
        }
        VisitShrinks(inp.latestBins, visited, v.name);
        [v] + VisitOrder(inp, rest + pushes, visited + {v.name})
  }

  /** The visits made so far followed by those still to come from `todo`
      are the visits of the whole walk. */
  ghost predicate OnOrder(inp: Inputs, target: string, todo: seq<Visit>, visited: set<string>, visits: seq<Visit>) {
    && LevelsPositive(todo)
    && visits + VisitOrder(inp, todo, visited) == VisitOrder(inp, [Visit(target, 1)], {})
  }

  lemma {:induction false} OrderSkip(inp: Inputs, target: string, todo: seq<Visit>, visited: set<string>, visits: seq<Visit>)
    requires OnOrder(inp, target, todo, visited, visits) && |todo| > 0
    requires !VisitNow(inp, visited, todo[|todo| - 1])
    ensures OnOrder(inp, target, todo[..|todo| - 1], visited, visits)
  {
    assert forall w | w in todo[..|todo| - 1] :: w in todo;
  }

  /** What visiting the popped item does to the order: it comes next, and
      the walk goes on from the rest of the worklist plus `pushes`. */
  lemma {:induction false} OrderStep(inp: Inputs, todo: seq<Visit>, visited: set<string>, pushes: seq<Visit>)
    requires LevelsPositive(todo) && |todo| > 0 && VisitNow(inp, visited, todo[|todo| - 1])
    requires var v := todo[|todo| - 1];
      && (v.name in inp.cache ==> Expand(inp, v).Success? && pushes == Expand(inp, v).value.pushes)
      && (v.name !in inp.cache ==> pushes == [])
    ensures LevelsPositive(todo[..|todo| - 1] + pushes)
    ensures var v := todo[|todo| - 1];
      VisitOrder(inp, todo, visited) == [v] + VisitOrder(inp, todo[..|todo| - 1] + pushes, visited + {v.name})
  {
    var v := todo[|todo| - 1];
    assert v in todo && forall w | w in todo[..|todo| - 1] :: w in todo;
    if v.name in inp.cache {
      PushesDeeper(inp, v);
    }
  }

  lemma {:induction false} OrderVisit(inp: Inputs, target: string, todo: seq<Visit>, visited: set<string>, visits: seq<Visit>,
                                      pushes: seq<Visit>)
    requires OnOrder(inp, target, todo, visited, visits) && |todo| > 0 && VisitNow(inp, visited, todo[|todo| - 1])
    requires var v := todo[|todo| - 1];
      && (v.name in inp.cache ==> Expand(inp, v).Success? && pushes == Expand(inp, v).value.pushes)
      && (v.name !in inp.cache ==> pushes == [])
    ensures var v := todo[|todo| - 1];
      OnOrder(inp, target, todo[..|todo| - 1] + pushes, visited + {v.name}, visits + [v])
  {
    var v := todo[|todo| - 1];
    OrderStep(inp, todo, visited, pushes);
    var tail := VisitOrder(inp, todo[..|todo| - 1] + pushes, visited + {v.name});
    assert visits + [v] + tail == visits + ([v] + tail);
  }

  lemma {:induction false} OrderFails(inp: Inputs, target: string, todo: seq<Visit>, visited: set<string>, visits: seq<Visit>)
    requires OnOrder(inp, target, todo, visited, visits) && |todo| > 0
    requires VisitNow(inp, visited, todo[|todo| - 1]) && todo[|todo| - 1].name in inp.cache
    requires Expand(inp, todo[|todo| - 1]).Failure?
    ensures visits + [todo[|todo| - 1]] == VisitOrder(inp, [Visit(target, 1)], {})
  {
  }

  lemma {:induction false} WalkStart(inp: Inputs, target: string)
    ensures Walking(inp, target, [Visit(target, 1)], {}, [], [], [])
  {
  }

  /** Adding a name to the expanded ones keeps them well formed. */
  lemma {:induction false} VisitsOkAppend(inp: Inputs, target: string, todo: seq<Visit>, visited: set<string>, visits: seq<Visit>,
                       nodes: seq<Node>, edges: seq<Edge>)
    requires VisitsOk(inp, target, visits) && TodoFrom(inp, target, visits, todo)
    requires Bookkeeping(inp, target, todo, visited, visits, nodes, edges) && |todo| > 0
    requires VisitNow(inp, visited, todo[|todo| - 1])
    ensures var v := todo[|todo| - 1];
      && VisitsOk(inp, target, visits + [v])
      && VisitedNames(visits + [v]) == visited + {v.name} && |visited + {v.name}| == |visits + [v]|
      && (|visits| > 0 || v == Visit(target, 1))
  {
    var v := todo[|todo| - 1];
    assert v in todo;
    var w := visits + [v];
    if |visits| > 0 {
      assert visits[0].name in visited;
    }
    ProvenanceAppend(inp, visits, v);
    VisitedNamesAppend(visits, v);
    DistinctAppend(visits, v);
    LevelsAppend(inp, visits, v);
  }

  lemma {:induction false} DistinctAppend(visits: seq<Visit>, v: Visit)
    requires DistinctNames(visits) && v.name !in VisitedNames(visits)
    ensures DistinctNames(visits + [v])
  {
    var w := visits + [v];
    forall i, j | 0 <= i < j < |w| ensures w[i].name != w[j].name {
      if j == |visits| {
        assert w[i] == visits[i];
      } else {
        assert w[i] == visits[i] && w[j] == visits[j];
      }
    }
  }

  lemma {:induction false} LevelsAppend(inp: Inputs, visits: seq<Visit>, v: Visit)
    requires forall i | 0 <= i < |visits| :: visits[i].name in inp.latestBins && 1 <= visits[i].level <= inp.maxLevel
    requires v.name in inp.latestBins && 1 <= v.level <= inp.maxLevel
    ensures forall i | 0 <= i < |visits + [v]| ::
      (visits + [v])[i].name in inp.latestBins && 1 <= (visits + [v])[i].level <= inp.maxLevel
  {
    assert forall i | 0 <= i < |visits| :: (visits + [v])[i] == visits[i];
  }

  /** The popped item is skipped. */
  lemma {:induction false} WalkSkip(inp: Inputs, target: string, todo: seq<Visit>, visited: set<string>, visits: seq<Visit>,
                 nodes: seq<Node>, edges: seq<Edge>)
    requires Walking(inp, target, todo, visited, visits, nodes, edges) && |todo| > 0
    requires !VisitNow(inp, visited, todo[|todo| - 1])
    ensures var v := todo[|todo| - 1];
      Walking(inp, target, todo[..|todo| - 1], visited, visits, nodes + [Node(v.name, None)], edges)
  {
    var v := todo[|todo| - 1];
    assert v in todo;
    ReachedAfterPop(inp, visits, visited, todo, visited);
    var rest := todo[..|todo| - 1];
    assert forall w | w in rest :: w in todo;
  }

  /** What visiting `v` adds to the graph and the worklist: nothing when the
      name is not in the cache (rdeps.py:40-41), its expansion otherwise. */
  ghost predicate Added(inp: Inputs, v: Visit, x: Expansion) {
    && (v.name !in inp.cache ==> x == Expansion([], [], []))
    && (v.name in inp.cache ==> v.level >= 0 && Expand(inp, v) == Success(x))
  }

  /** Bookkeeping after the popped item is visited. */
  lemma {:induction false} BookkeepingAfterVisit(inp: Inputs, target: string, todo: seq<Visit>, visited: set<string>, visits: seq<Visit>,
                              nodes: seq<Node>, edges: seq<Edge>, x: Expansion)
    requires Walking(inp, target, todo, visited, visits, nodes, edges) && |todo| > 0
    requires VisitNow(inp, visited, todo[|todo| - 1])
    requires forall w | w in x.pushes :: w.level >= 1
    ensures var v := todo[|todo| - 1];
      Bookkeeping(inp, target, todo[..|todo| - 1] + x.pushes, visited + {v.name}, visits + [v],
                  nodes + [Node(v.name, None)] + x.nodes, edges + x.edges)
  {
    var v := todo[|todo| - 1];
    assert v in todo;
    VisitsOkAppend(inp, target, todo, visited, visits, nodes, edges);
    var rest := todo[..|todo| - 1];
    assert forall w | w in rest :: w in todo;
    var nodes' := nodes + [Node(v.name, None)] + x.nodes;
    if |nodes| == 0 {
      assert nodes'[0] == Node(target, None);
    } else {
      assert nodes'[0] == nodes[0];
    }
  }

  /** Reaching after the popped item is visited and `pushes` (its
      qualifying parents one level deeper) are pushed. */
  lemma {:induction false} ReachAfterVisit(inp: Inputs, target: string, todo: seq<Visit>, visited: set<string>, visits: seq<Visit>,
                        pushes: seq<Visit>)
    requires TodoFrom(inp, target, visits, todo) && ParentsReached(inp, visits, visited, todo) && |todo| > 0
    requires VisitNow(inp, visited, todo[|todo| - 1]) && PushesParents(inp, todo[|todo| - 1], pushes)
    ensures var v := todo[|todo| - 1];
      && TodoFrom(inp, target, visits + [v], todo[..|todo| - 1] + pushes)
      && ParentsReached(inp, visits + [v], visited + {v.name}, todo[..|todo| - 1] + pushes)
  {
    var v := todo[|todo| - 1];
    var rest := todo[..|todo| - 1];
    var w := visits + [v];
    ReachedAfterPop(inp, visits, visited, todo, visited + {v.name});
    ReachedAfterVisit(inp, visits, visited + {v.name}, rest, v, pushes);
    TodoFromVisit(inp, target, visits, rest, v);
    forall u | u in rest + pushes ensures u == Visit(target, 1) || FromEarlier(inp, w, u) {
      if u !in rest {
        assert w[|visits|] == v;
      } else {
        assert u in todo;
      }
    }
  }

  /** The graph after `v` is visited. */
  lemma {:induction false} GraphAfterVisit(inp: Inputs, visits: seq<Visit>, nodes: seq<Node>, edges: seq<Edge>, v: Visit, x: Expansion)
    requires GraphOk(inp, visits, nodes, edges) && v.level >= 0 && Added(inp, v, x)
    ensures GraphOk(inp, visits + [v], nodes + [Node(v.name, None)] + x.nodes, edges + x.edges)
  {
    ExpandableAfterVisit(inp, visits, v, x);
    AllEdgesAppend(inp, visits, v);
    EdgesOfAdded(inp, v, x);
    VisitNodesAfterVisit(visits, nodes, v, x.nodes);
    AddedShape(inp, v, x);
    EdgesHaveNodesAfterVisit(nodes, edges, v, x);
  }

  lemma {:induction false} ExpandableAfterVisit(inp: Inputs, visits: seq<Visit>, v: Visit, x: Expansion)
    requires forall i | 0 <= i < |visits| :: visits[i].name in inp.cache ==> Expandable(inp, visits[i])
    requires v.level >= 0 && Added(inp, v, x)
    ensures forall i | 0 <= i < |visits + [v]| :: (visits + [v])[i].name in inp.cache ==> Expandable(inp, (visits + [v])[i])
  {
    if v.name in inp.cache {
      ExpandOutcome(inp, v);
    }
    assert forall i | 0 <= i < |visits| :: (visits + [v])[i] == visits[i];
  }

  lemma {:induction false} AllEdgesAppend(inp: Inputs, visits: seq<Visit>, v: Visit)
    ensures AllEdges(inp, visits + [v]) == AllEdges(inp, visits) + EdgesOf(inp, v)
  {
    assert (visits + [v])[..|visits|] == visits;
  }

  lemma {:induction false} EdgesOfAdded(inp: Inputs, v: Visit, x: Expansion)
    requires v.level >= 0 && Added(inp, v, x)
    ensures EdgesOf(inp, v) == x.edges
  {
  }

  lemma {:induction false} VisitNodesAfterVisit(visits: seq<Visit>, nodes: seq<Node>, v: Visit, more: seq<Node>)
    requires forall i | 0 <= i < |visits| :: Node(visits[i].name, None) in nodes
    ensures forall i | 0 <= i < |visits + [v]| :: Node((visits + [v])[i].name, None) in nodes + [Node(v.name, None)] + more
  {
    assert forall i | 0 <= i < |visits| :: (visits + [v])[i] == visits[i];
  }

  /** Appending a shaped expansion of `v` after `v`'s own node keeps both
      ends of every edge among the nodes. */
  lemma {:induction false} EdgesHaveNodesAfterVisit(nodes: seq<Node>, edges: seq<Edge>, v: Visit, x: Expansion)
    requires EdgesHaveNodes(nodes, edges) && Shaped(x, v)
    ensures EdgesHaveNodes(nodes + [Node(v.name, None)] + x.nodes, edges + x.edges)
  {
    var nodes' := nodes + [Node(v.name, None)] + x.nodes;
    forall e | e in edges + x.edges ensures Node(e.dst, None) in nodes' && Coloured(nodes', e.src) {
      if e !in edges {
        var i :| 0 <= i < |x.edges| && x.edges[i] == e;
        assert x.nodes[i] in nodes';
      }
    }
  }

  /** What a visit adds is shaped and pushes exactly the qualifying
      parents. */
  lemma {:induction false} AddedShape(inp: Inputs, v: Visit, x: Expansion)
    requires Added(inp, v, x) && v.level >= 0
    ensures Shaped(x, v) && PushesParents(inp, v, x.pushes)
  {
    if v.name in inp.cache {
      ExpandShape(inp, v);
      ExpandPushes(inp, v);
    } else {
      UncachedPushesNothing(inp, v);
    }
  }

  /** The popped item is visited (rdeps.py:39-93): it joins the visited
      names, and what it adds is appended. */
  lemma {:induction false} WalkVisit(inp: Inputs, target: string, todo: seq<Visit>, visited: set<string>, visits: seq<Visit>,
                  nodes: seq<Node>, edges: seq<Edge>, x: Expansion)
    requires Walking(inp, target, todo, visited, visits, nodes, edges) && |todo| > 0
    requires VisitNow(inp, visited, todo[|todo| - 1]) && Added(inp, todo[|todo| - 1], x)
    ensures var v := todo[|todo| - 1];
      Walking(inp, target, todo[..|todo| - 1] + x.pushes, visited + {v.name}, visits + [v],
              nodes + [Node(v.name, None)] + x.nodes, edges + x.edges)
  {
    var v := todo[|todo| - 1];
    assert v in todo;
    AddedShape(inp, v, x);
    VisitsOkAppend(inp, target, todo, visited, visits, nodes, edges);
    BookkeepingAfterVisit(inp, target, todo, visited, visits, nodes, edges, x);
    ReachAfterVisit(inp, target, todo, visited, visits, x.pushes);
    GraphAfterVisit(inp, visits, nodes, edges, v, x);
  }

  /** The outcome of the walk: the visits, and either the graph or
      the expansion that failed. */
  ghost predicate WalkOutcome(inp: Inputs, target: string, r: Result<Graph, TraversalError>, visits: seq<Visit>) {
    && VisitsOk(inp, target, visits) && |visits| <= |inp.latestBins|
    && (target in inp.latestBins && inp.maxLevel >= 1 <==> |visits| > 0)
    && (forall i | 0 <= i < |visits| - 1 :: visits[i].name in inp.cache ==> Expandable(inp, visits[i]))
    && (r.Failure? ==>
          && |visits| > 0
          && var v := visits[|visits| - 1];
          && v.name in inp.cache && v.level >= 1 && !Expandable(inp, v) && Expand(inp, v) == Failure(r.error)
          && !(inp.unstableSources.Some? && inp.latestBins <= LatestBinaries(inp.unstableSources.value)))
    && (r.Success? ==>
          && |r.value.nodes| > 0 && r.value.nodes[0] == Node(target, None)
          && GraphOk(inp, visits, r.value.nodes, r.value.edges)
          && ParentsReached(inp, visits, VisitedNames(visits), [])
          && (target !in inp.latestBins || inp.maxLevel < 1 ==> r.value == Graph([Node(target, None)], [])))
  }

  /** What the invariant gives once the worklist is empty. */
  lemma {:induction false} WalkDone(inp: Inputs, target: string, visited: set<string>, visits: seq<Visit>, nodes: seq<Node>, edges: seq<Edge>)
    requires Walking(inp, target, [], visited, visits, nodes, edges)
    ensures WalkOutcome(inp, target, Success(Graph(nodes, edges)), visits)
  {
    SubsetCard(visited, inp.latestBins);
  }

  /** What holds when expanding the popped item fails. */
  lemma {:induction false} WalkFails(inp: Inputs, target: string, todo: seq<Visit>, visited: set<string>, visits: seq<Visit>,
                  nodes: seq<Node>, edges: seq<Edge>)
    requires Walking(inp, target, todo, visited, visits, nodes, edges) && |todo| > 0
    requires VisitNow(inp, visited, todo[|todo| - 1]) && todo[|todo| - 1].name in inp.cache
    requires Expand(inp, todo[|todo| - 1]).Failure?
    ensures var v := todo[|todo| - 1];
      WalkOutcome(inp, target, Failure(Expand(inp, v).error), visits + [v])
  {
    var v := todo[|todo| - 1];
    assert v in todo;
    VisitsOkAppend(inp, target, todo, visited, visits, nodes, edges);
    SubsetCard(visited + {v.name}, inp.latestBins);
    FailedVisit(inp, visits, v);
    assert (visits + [v])[0] == Visit(target, 1);
  }

  /** The failing visit is the last one, and every earlier cached visit is
      `Expandable`. */
  lemma {:induction false} FailedVisit(inp: Inputs, visits: seq<Visit>, v: Visit)
    requires forall i | 0 <= i < |visits| :: visits[i].name in inp.cache ==> Expandable(inp, visits[i])
    requires v.name in inp.cache && v.name in inp.latestBins && v.level >= 1 && Expand(inp, v).Failure?
    ensures var w := visits + [v];
      && (forall i | 0 <= i < |w| - 1 :: w[i].name in inp.cache ==> Expandable(inp, w[i]))
      && w[|w| - 1] == v && !Expandable(inp, v)
      && !(inp.unstableSources.Some? && inp.latestBins <= LatestBinaries(inp.unstableSources.value))
  {
    ExpandOutcome(inp, v);
    OwnedIsExpandable(inp, v);
    assert forall i | 0 <= i < |visits| :: (visits + [v])[i] == visits[i];
  }

  /** Visiting a new current binary shrinks the unvisited ones. */
  lemma {:induction false} VisitShrinks(latest: set<string>, visited: set<string>, n: string)
    requires n in latest && n !in visited
    ensures |latest - (visited + {n})| < |latest - visited|
  {
    assert latest - (visited + {n}) == (latest - visited) - {n};
  }

  /** A subset is no larger. */
  lemma {:induction false} SubsetCard<T>(a: set<T>, b: set<T>)
    requires a <= b
    ensures |a| <= |b|
    decreases |a|
  {
    if a != {} {
      var x :| x in a;
      SubsetCard(a - {x}, b - {x});
    }
  }

  /** The loop of rdeps.py:24-95. */
  method Walk(target: string, inp: Inputs) returns (r: Result<Graph, TraversalError>, visits: seq<Visit>)
    ensures WalkOutcome(inp, target, r, visits)
    ensures visits == VisitOrder(inp, [Visit(target, 1)], {})
  {
    var todo := [Visit(target, 1)];
    var visited: set<string> := {};
    var nodes: seq<Node> := [];
    var edges: seq<Edge> := [];
    visits := [];
    WalkStart(inp, target);
    while |todo| > 0
      invariant Walking(inp, target, todo, visited, visits, nodes, edges)
      invariant OnOrder(inp, target, todo, visited, visits)
      decreases |inp.latestBins - visited|, |todo|
    {
      var v := todo[|todo| - 1];
      if !VisitNow(inp, visited, v) {
        WalkSkip(inp, target, todo, visited, visits, nodes, edges);
        OrderSkip(inp, target, todo, visited, visits);
        todo := todo[..|todo| - 1];
        nodes := nodes + [Node(v.name, None)];
        continue;
      }
      VisitShrinks(inp.latestBins, visited, v.name);
      var added := Expansion([], [], []);
      if v.name in inp.cache {
        var x := Expand(inp, v);
        if x.Failure? {
          WalkFails(inp, target, todo, visited, visits, nodes, edges);
          OrderFails(inp, target, todo, visited, visits);
          return Failure(x.error), visits + [v];
        }
        added := x.value;
      }
      WalkVisit(inp, target, todo, visited, visits, nodes, edges, added);
      OrderVisit(inp, target, todo, visited, visits, added.pushes);
      todo := todo[..|todo| - 1] + added.pushes;
      nodes := nodes + [Node(v.name, None)] + added.nodes;
      edges := edges + added.edges;
      visited := visited + {v.name};
      visits := visits + [v];
    }
    WalkDone(inp, target, visited, visits, nodes, edges);
    return Success(Graph(nodes, edges)), visits;
  }

  /** `generate_rdeps_graph(target, ...)`. Besides the graph it returns the
      visits in order with their levels, including those of uncached names
      that are marked visited but not expanded; the contract speaks about
      this trace. */
  method GenerateRdepsGraph(target: string, inp: Inputs) returns (r: Result<Graph, TraversalError>, visits: seq<Visit>)
    // what is visited, and in which order
    ensures DistinctNames(visits) && |visits| <= |inp.latestBins|
    ensures forall i | 0 <= i < |visits| :: visits[i].name in inp.latestBins && 1 <= visits[i].level <= inp.maxLevel
    ensures target in inp.latestBins && inp.maxLevel >= 1 <==> |visits| > 0
    ensures |visits| > 0 ==> visits[0] == Visit(target, 1)
    ensures Provenance(inp, visits)
    ensures visits == VisitOrder(inp, [Visit(target, 1)], {})
    // when it fails
    ensures r.Failure? ==>
      && |visits| > 0 && visits[|visits| - 1].name in inp.cache
      && visits[|visits| - 1].level >= 1
      && !Expandable(inp, visits[|visits| - 1]) && Expand(inp, visits[|visits| - 1]) == Failure(r.error)
    ensures forall i | 0 <= i < |visits| - 1 :: visits[i].name in inp.cache ==> Expandable(inp, visits[i])
    ensures inp.unstableSources.Some? && inp.latestBins <= LatestBinaries(inp.unstableSources.value) ==> r.Success?
    // what the graph holds
    ensures target !in inp.latestBins || inp.maxLevel < 1 ==> r == Success(Graph([Node(target, None)], []))
    ensures r.Success? ==> |r.value.nodes| > 0 && r.value.nodes[0] == Node(target, None)
    ensures r.Success? ==> forall i | 0 <= i < |visits| :: visits[i].name in inp.cache ==> Expandable(inp, visits[i])
    ensures r.Success? ==> r.value.edges == AllEdges(inp, visits)
    ensures r.Success? ==> EdgesHaveNodes(r.value.nodes, r.value.edges)
    ensures r.Success? ==> ParentsReached(inp, visits, VisitedNames(visits), [])
  {
    r, visits := Walk(target, inp);
  }
}
