/**
 * The interactive skill graph: a static table of skills placed by percent
 * coordinates, one edge per related name that resolves to a skill, and a
 * pointer that highlights the edges leaving a nearby skill and focuses the
 * skills close to it. Drawing is modelled by the styled edges and nodes the
 * canvas is fed, in the order they are drawn.
 */
module SkillGraph {
  import opened Wrappers

  /** A skill: its name, its position in percent of the canvas, and the names of related skills. */
  datatype Skill = Skill(name: string, x: nat, y: nat, related: seq<string>)

  /** The table the page ships. */
  const SKILL_DATA: seq<Skill> := [
    Skill(".NET", 20, 20, ["C#", "Blazor", "Web API", "SQL"]),
    Skill("C#", 15, 40, [".NET", "SQL"]),
    Skill("Blazor", 30, 35, [".NET"]),
    Skill("Web API", 35, 15, [".NET", "DevOps"]),
    Skill("SQL", 10, 65, ["C#", "Data Warehousing", "ETL"]),
    Skill("Python", 70, 75, ["ML", "Computer Vision", "PyTorch"]),
    Skill("Computer Vision", 85, 65, ["Python", "ML", "LBP Analysis"]),
    Skill("ML", 80, 85, ["Python", "Computer Vision"]),
    Skill("PyTorch", 90, 80, ["Python", "ML"]),
    Skill("LBP Analysis", 92, 55, ["Computer Vision"]),
    Skill("DevOps", 55, 20, ["Web API", "Agile"]),
    Skill("Agile", 65, 10, ["DevOps"]),
    Skill("ETL", 25, 80, ["SQL", "Data Warehousing"]),
    Skill("Data Warehousing", 40, 85, ["SQL", "ETL"]),
    Skill("LLM Integration", 75, 30, ["Python", "Web API"])
  ]

  datatype Point = Point(x: real, y: real)

  /** The pointer used when there is none: far outside the canvas. */
  const DEFAULT_POINTER: Point := Point(-1000.0, -1000.0)
  /** Edges leaving a skill within this distance of the pointer are highlighted. */
  const EDGE_REACH: real := 150.0
  /** Skills within this distance of the pointer are focused. */
  const NODE_REACH: real := 100.0

  /** The first skill at position k or later with the given name, as an index. */
  function FindFrom(table: seq<Skill>, name: string, k: nat): (r: Option<nat>)
    requires k <= |table|
    ensures r.Some? ==> k <= r.value < |table| && table[r.value].name == name
    ensures r.Some? ==> forall m :: k <= m < r.value ==> table[m].name != name
    ensures r.None? <==> forall m :: k <= m < |table| ==> table[m].name != name
    decreases |table| - k
  {
    if k == |table| then None
    else if table[k].name == name then Some(k)
    else FindFrom(table, name, k + 1)
  }

  /** The first skill in the table with the given name, as an index; none when no skill has it. */
  function Find(table: seq<Skill>, name: string): Option<nat> {
    FindFrom(table, name, 0)
  }

  /** A percent coordinate on a canvas side of the given length, in pixels. */
  function Pixel(percent: nat, extent: real): real {
    percent as real / 100.0 * extent
  }

  /** Where a skill is drawn on a canvas of the given size. */
  function NodeAt(s: Skill, width: real, height: real): Point {
    Point(Pixel(s.x, width), Pixel(s.y, height))
  }

  function DistSq(a: Point, b: Point): real {
    (a.x - b.x) * (a.x - b.x) + (a.y - b.y) * (a.y - b.y)
  }

  /**
   * `b` is closer than `reach` to `a`. The page compares the Euclidean
   * distance; for a non-negative reach that is the same as comparing the
   * squares.
   */
  predicate Within(a: Point, b: Point, reach: real) {
    DistSq(a, b) < reach * reach
  }

  /** An edge from one skill of the table to another, by index. */
  datatype Link = Link(source: nat, target: nat)

  /** The table's links for skill `a`, one per name in `names` that resolves, in order. */
  function RelatedLinks(table: seq<Skill>, a: nat, names: seq<string>): (r: seq<Link>)
    ensures forall l :: l in r ==> l.source == a && l.target < |table|
    ensures |r| <= |names|
    decreases |names|
  {
    if |names| == 0 then []
    else
      var here := match Find(table, names[0]) case Some(b) => [Link(a, b)] case None => [];
      here + RelatedLinks(table, a, names[1..])
  }

  /** The links of skills a, a + 1, ... of the table, skill by skill. */
  function LinksFrom(table: seq<Skill>, a: nat): (r: seq<Link>)
    requires a <= |table|
    ensures forall l :: l in r ==> a <= l.source < |table| && l.target < |table|
    decreases |table| - a
  {
    if a == |table| then [] else RelatedLinks(table, a, table[a].related) + LinksFrom(table, a + 1)
  }

  /** All links of the table, in the order the edges are drawn. */
  function Links(table: seq<Skill>): seq<Link> {
    LinksFrom(table, 0)
  }

  /** The name resolves to a skill of the table. */
  predicate Resolves(table: seq<Skill>, name: string) {
    Find(table, name).Some?
  }

  /** One of the names finds skill b of the table. */
  predicate SomeNameFinds(table: seq<Skill>, names: seq<string>, b: nat) {
    exists r :: r in names && Find(table, r) == Some(b)
  }

  /** A link from skill a to skill b is there exactly when one of a's related names finds b. */
  lemma {:induction false} RelatedLinksMember(table: seq<Skill>, a: nat, names: seq<string>, l: Link)
    ensures l in RelatedLinks(table, a, names) <==> l.source == a && SomeNameFinds(table, names, l.target)
    decreases |names|
  {
    if |names| != 0 {
      var rest := names[1..];
      var here := match Find(table, names[0]) case Some(b) => [Link(a, b)] case None => [];
      RelatedLinksMember(table, a, rest, l);
      assert RelatedLinks(table, a, names) == here + RelatedLinks(table, a, rest);
      assert l in here + RelatedLinks(table, a, rest) <==> l in here || l in RelatedLinks(table, a, rest);
      if l.source == a && SomeNameFinds(table, names, l.target) {
        var r :| r in names && Find(table, r) == Some(l.target);
        if r != names[0] {
          assert r in rest;
        }
      }
      if SomeNameFinds(table, rest, l.target) {
        var r :| r in rest && Find(table, r) == Some(l.target);
        assert r in names;
      }
    }
  }

  /** The links from skill a on are the links of each of those skills' related names. */
  lemma {:induction false} LinksFromMember(table: seq<Skill>, a: nat, l: Link)
    requires a <= |table|
    ensures l in LinksFrom(table, a) <==>
      a <= l.source < |table| && l in RelatedLinks(table, l.source, table[l.source].related)
    decreases |table| - a
  {
    if a < |table| {
      var next := a + 1;
      var here := RelatedLinks(table, a, table[a].related);
      var later := LinksFrom(table, next);
      LinksFromMember(table, next, l);
      assert LinksFrom(table, a) == here + later;
      assert l in here + later <==> l in here || l in later;
    }
  }

  /**
   * The edges of the table are exactly one per (skill, related name that
   * resolves): a link from a to b is drawn iff a is a skill of the table
   * and one of its related names finds b.
   */
  lemma LinksMember(table: seq<Skill>, l: Link)
    ensures l in Links(table) <==> l.source < |table| && SomeNameFinds(table, table[l.source].related, l.target)
  {
    LinksFromMember(table, 0, l);
    if l.source < |table| {
      RelatedLinksMember(table, l.source, table[l.source].related, l);
    }
  }

  /** A skill's related names yield one link each exactly when every one of them resolves. */
  lemma {:induction false} RelatedLinksCount(table: seq<Skill>, a: nat, names: seq<string>)
    ensures |RelatedLinks(table, a, names)| == |names| <==> forall k :: 0 <= k < |names| ==> Resolves(table, names[k])
    decreases |names|
  {
    if |names| != 0 {
      var rest := names[1..];
      RelatedLinksCount(table, a, rest);
      assert forall k :: 0 < k < |names| ==> names[k] == rest[k - 1];
      if forall k :: 0 <= k < |rest| ==> Resolves(table, rest[k]) {
        assert forall k :: 0 < k < |names| ==> Resolves(table, names[k]);
      }
    }
  }

  /** How many of the names resolve to a skill of the table, counting a repeated name each time. */
  function ResolvingCount(table: seq<Skill>, names: seq<string>): nat
    decreases |names|
  {
    if |names| == 0 then 0
    else (if Resolves(table, names[0]) then 1 else 0) + ResolvingCount(table, names[1..])
  }

  /** A skill draws exactly one edge per related name that resolves, repeated names included. */
  lemma {:induction false} RelatedLinksResolving(table: seq<Skill>, a: nat, names: seq<string>)
    ensures |RelatedLinks(table, a, names)| == ResolvingCount(table, names)
    decreases |names|
  {
    if |names| != 0 {
      RelatedLinksResolving(table, a, names[1..]);
    }
  }

  /** How many related names of skills a, a + 1, ... resolve. */
  function ResolvingTotal(table: seq<Skill>, a: nat): nat
    requires a <= |table|
    decreases |table| - a
  {
    if a == |table| then 0 else ResolvingCount(table, table[a].related) + ResolvingTotal(table, a + 1)
  }

  /** The skills from a on draw exactly one edge per related name that resolves. */
  lemma {:induction false} LinksFromResolving(table: seq<Skill>, a: nat)
    requires a <= |table|
    ensures |LinksFrom(table, a)| == ResolvingTotal(table, a)
    decreases |table| - a
  {
    if a < |table| {
      var next := a + 1;
      LinksFromResolving(table, next);
      RelatedLinksResolving(table, a, table[a].related);
      assert LinksFrom(table, a) == RelatedLinks(table, a, table[a].related) + LinksFrom(table, next);
    }
  }

  /**
   * A related name listed twice draws its edge twice, and a name no skill
   * has draws nothing: skill A relating to B, B and X over a table of A and
   * B draws the edge from A to B two times.
   */
  lemma RepeatedNameDrawsTwice(a: Skill, b: Skill, missing: string)
    requires a.name != b.name && missing != a.name && missing != b.name
    requires a.related == [b.name, b.name, missing]
    requires b.related == []
    ensures Links([a, b]) == [Link(0, 1), Link(0, 1)]
    ensures ResolvingTotal([a, b], 0) == 2
  {
    var t := [a, b];
    assert t[0].name != b.name && t[1].name == b.name;
    assert FindFrom(t, b.name, 1) == Some(1);
    assert Find(t, b.name) == Some(1);
    assert t[0].name != missing && t[1].name != missing;
    assert FindFrom(t, missing, 2) == None;
    assert FindFrom(t, missing, 1) == None;
    assert Find(t, missing) == None;
    assert RelatedLinks(t, 0, [missing]) == [];
    assert [b.name, missing][1..] == [missing];
    assert RelatedLinks(t, 0, [b.name, missing]) == [Link(0, 1)];
    assert a.related[1..] == [b.name, missing];
    assert LinksFrom(t, 1) == [];
    LinksFromResolving(t, 0);
  }

  /** The number of related names of skills a, a + 1, ... */
  function RelatedTotal(table: seq<Skill>, a: nat): nat
    requires a <= |table|
    decreases |table| - a
  {
    if a == |table| then 0 else |table[a].related| + RelatedTotal(table, a + 1)
  }

  /** Every related name of skills a, a + 1, ... resolves. */
  predicate AllResolveFrom(table: seq<Skill>, a: nat)
    requires a <= |table|
  {
    forall k, m :: a <= k < |table| && 0 <= m < |table[k].related| ==> Resolves(table, table[k].related[m])
  }

  /** Every name from skill a on resolves iff skill a's names do and every name from skill a + 1 on does. */
  lemma AllResolveFromStep(table: seq<Skill>, a: nat)
    requires a < |table|
    ensures AllResolveFrom(table, a) <==>
      (forall m :: 0 <= m < |table[a].related| ==> Resolves(table, table[a].related[m])) && AllResolveFrom(table, a + 1)
  {
  }

  /** There are at most as many edges as related names, and exactly as many iff every name resolves. */
  lemma {:induction false} LinksFromCount(table: seq<Skill>, a: nat)
    requires a <= |table|
    ensures |LinksFrom(table, a)| <= RelatedTotal(table, a)
    ensures |LinksFrom(table, a)| == RelatedTotal(table, a) <==> AllResolveFrom(table, a)
    decreases |table| - a
  {
    if a < |table| {
      var next := a + 1;
      LinksFromCount(table, next);
      RelatedLinksCount(table, a, table[a].related);
      AllResolveFromStep(table, a);
      assert |LinksFrom(table, a)| == |RelatedLinks(table, a, table[a].related)| + |LinksFrom(table, next)|;
      assert RelatedTotal(table, a) == |table[a].related| + RelatedTotal(table, next);
    }
  }

  /** Every related name of the shipped table resolves, so the page draws all 32 of them as edges. */
  lemma ShippedLinks()
    ensures |Links(SKILL_DATA)| == RelatedTotal(SKILL_DATA, 0) == 32
  {
    ShippedNamesResolve();
    ShippedRelatedTotal();
    LinksFromCount(SKILL_DATA, 0);
  }

  lemma ShippedRelatedTotal()
    ensures RelatedTotal(SKILL_DATA, 0) == 32
  {
    var t := SKILL_DATA;
    assert RelatedTotal(t, 15) == 0;
    assert RelatedTotal(t, 10) == 2 + 1 + 2 + 2 + 2 + RelatedTotal(t, 15);
    assert RelatedTotal(t, 5) == 3 + 3 + 2 + 2 + 1 + RelatedTotal(t, 10);
    assert RelatedTotal(t, 0) == 4 + 2 + 1 + 2 + 3 + RelatedTotal(t, 5);
  }

  /** The names of the table's skills, in order. */
  function Names(table: seq<Skill>): (r: seq<string>)
    ensures |r| == |table| && forall k :: 0 <= k < |table| ==> r[k] == table[k].name
  {
    seq(|table|, k requires 0 <= k < |table| => table[k].name)
  }

  /** A name resolves exactly when some skill of the table carries it. */
  lemma ResolvesIffNamed(table: seq<Skill>, name: string)
    ensures Resolves(table, name) <==> name in Names(table)
  {
    if name in Names(table) {
      var k :| 0 <= k < |table| && Names(table)[k] == name;
      assert table[k].name == name;
    }
  }

  /** Every related name of skill k is the name of a skill of the table. */
  predicate RelatedNamed(table: seq<Skill>, k: nat)
    requires k < |table|
  {
    forall m :: 0 <= m < |table[k].related| ==> table[k].related[m] in Names(table)
  }

  /** Every related name of skills a, a + 1, ... is the name of a skill of the table. */
  predicate AllNamedFrom(table: seq<Skill>, a: nat)
    requires a <= |table|
  {
    forall k :: a <= k < |table| ==> RelatedNamed(table, k)
  }

  lemma AllNamedFromStep(table: seq<Skill>, a: nat)
    requires a < |table| && RelatedNamed(table, a) && AllNamedFrom(table, a + 1)
    ensures AllNamedFrom(table, a)
  {
  }

  /** Related names that are all names of skills all resolve. */
  lemma AllNamedResolve(table: seq<Skill>)
    requires AllNamedFrom(table, 0)
    ensures AllResolveFrom(table, 0)
  {
    forall k, m | 0 <= k < |table| && 0 <= m < |table[k].related| ensures Resolves(table, table[k].related[m]) {
      assert RelatedNamed(table, k);
      ResolvesIffNamed(table, table[k].related[m]);
    }
  }

  /** The shipped skills' names, in table order. */
  const SKILL_NAMES: seq<string> := [".NET", "C#", "Blazor", "Web API", "SQL", "Python", "Computer Vision", "ML",
                                     "PyTorch", "LBP Analysis", "DevOps", "Agile", "ETL", "Data Warehousing", "LLM Integration"]

  lemma ShippedNames()
    ensures Names(SKILL_DATA) == SKILL_NAMES
  {
  }

  lemma ShippedRelatedNamedFirst()
    ensures RelatedNamed(SKILL_DATA, 0) && RelatedNamed(SKILL_DATA, 1) && RelatedNamed(SKILL_DATA, 2)
  {
    ShippedNames();
  }

  lemma ShippedRelatedNamedLow()
    ensures RelatedNamed(SKILL_DATA, 3) && RelatedNamed(SKILL_DATA, 4)
  {
    ShippedNames();
  }

  lemma ShippedRelatedNamedMid()
    ensures RelatedNamed(SKILL_DATA, 5) && RelatedNamed(SKILL_DATA, 6) && RelatedNamed(SKILL_DATA, 7)
  {
    ShippedNames();
  }

  lemma ShippedRelatedNamedUpper()
    ensures RelatedNamed(SKILL_DATA, 8) && RelatedNamed(SKILL_DATA, 9)
  {
    ShippedNames();
  }

  lemma ShippedRelatedNamedHigh()
    ensures RelatedNamed(SKILL_DATA, 10) && RelatedNamed(SKILL_DATA, 11) && RelatedNamed(SKILL_DATA, 12) && RelatedNamed(SKILL_DATA, 13) && RelatedNamed(SKILL_DATA, 14)
  {
    ShippedNames();
  }

  lemma ShippedNamesResolve()
    ensures AllResolveFrom(SKILL_DATA, 0)
  {
    var t := SKILL_DATA;
    ShippedRelatedNamedFirst();
    ShippedRelatedNamedLow();
    ShippedRelatedNamedMid();
    ShippedRelatedNamedUpper();
    ShippedRelatedNamedHigh();
    AllNamedFromStep(t, 14);
    AllNamedFromStep(t, 13);
    AllNamedFromStep(t, 12);
    AllNamedFromStep(t, 11);
    AllNamedFromStep(t, 10);
    AllNamedFromStep(t, 9);
    AllNamedFromStep(t, 8);
    AllNamedFromStep(t, 7);
    AllNamedFromStep(t, 6);
    AllNamedFromStep(t, 5);
    AllNamedFromStep(t, 4);
    AllNamedFromStep(t, 3);
    AllNamedFromStep(t, 2);
    AllNamedFromStep(t, 1);
    AllNamedFromStep(t, 0);
    AllNamedResolve(t);
  }

  /** A colour: the page's accent colour (read from its stylesheet) or a fixed CSS colour. */
  datatype Color = Accent | Css(value: string)

  const FAINT_EDGE: Color := Css("rgba(255,255,255,0.08)")
  const FAINT_NODE: Color := Css("rgba(255,255,255,0.3)")
  const FAINT_LABEL: Color := Css("rgba(255,255,255,0.4)")
  const WHITE: Color := Css("#ffffff")

  /** A line from one skill to another with its stroke colour and width. */
  datatype EdgeView = EdgeView(from: Point, to: Point, stroke: Color, lineWidth: nat)

  /** A skill's dot and its caption (the skill's name), centred 15 px above the dot. */
  datatype NodeView = NodeView(center: Point, radius: nat, fill: Color,
                               caption: string, captionAt: Point, captionFill: Color, font: string)

  /** What one call of the renderer draws: every edge, then every node. */
  datatype Frame = Frame(edges: seq<EdgeView>, nodes: seq<NodeView>)

  predicate Highlighted(e: EdgeView) {
    e.stroke == Accent && e.lineWidth == 2
  }

  predicate Focused(n: NodeView) {
    n.radius == 6 && n.fill == Accent && n.captionFill == WHITE && n.font == "bold 14px Space Grotesk"
  }

  /** The edge of a link: highlighted when the pointer is near its source skill. */
  function DrawEdge(table: seq<Skill>, width: real, height: real, pointer: Point, l: Link): EdgeView
    requires l.source < |table| && l.target < |table|
  {
    var from := NodeAt(table[l.source], width, height);
    var near := Within(pointer, from, EDGE_REACH);
    EdgeView(from, NodeAt(table[l.target], width, height),
             if near then Accent else FAINT_EDGE, if near then 2 else 1)
  }

  /** The node of a skill: focused when the pointer is near it. */
  function DrawNode(s: Skill, width: real, height: real, pointer: Point): NodeView {
    var at := NodeAt(s, width, height);
    var near := Within(pointer, at, NODE_REACH);
    NodeView(at, if near then 6 else 4, if near then Accent else FAINT_NODE,
             s.name, Point(at.x, at.y - 15.0), if near then WHITE else FAINT_LABEL,
             if near then "bold 14px Space Grotesk" else "10px Space Grotesk")
  }

  /** One rendering of the graph for a canvas of the given size and a pointer position on it. */
  function RenderGraph(table: seq<Skill>, width: real, height: real, pointer: Point): (r: Frame)
    ensures |r.edges| == |Links(table)| && |r.nodes| == |table|
  {
    var links := Links(table);
    Frame(seq(|links|, k requires 0 <= k < |links| => DrawEdge(table, width, height, pointer, links[k])),
          seq(|table|, k requires 0 <= k < |table| => DrawNode(table[k], width, height, pointer)))
  }

  /**
   * Edge k runs from the source skill's pixel position to the target's, and
   * it is highlighted (accent, width 2) exactly when the pointer is closer
   * than 150 to the source; otherwise it is faint with width 1.
   */
  lemma EdgeRule(table: seq<Skill>, width: real, height: real, pointer: Point, k: nat)
    requires k < |Links(table)|
    ensures var l := Links(table)[k];
            var e := RenderGraph(table, width, height, pointer).edges[k];
            && l.source < |table| && l.target < |table|
            && e.from == NodeAt(table[l.source], width, height)
            && e.to == NodeAt(table[l.target], width, height)
            && (Highlighted(e) <==> Within(pointer, NodeAt(table[l.source], width, height), EDGE_REACH))
            && (!Highlighted(e) ==> e.stroke == FAINT_EDGE && e.lineWidth == 1)
  {
    assert Links(table)[k] in Links(table);
  }

  /** Whether an edge is highlighted depends on its source only: two edges from the same skill look alike. */
  lemma HighlightFollowsSource(table: seq<Skill>, width: real, height: real, pointer: Point, k1: nat, k2: nat)
    requires k1 < |Links(table)| && k2 < |Links(table)|
    requires Links(table)[k1].source == Links(table)[k2].source
    ensures var f := RenderGraph(table, width, height, pointer);
            f.edges[k1].stroke == f.edges[k2].stroke && f.edges[k1].lineWidth == f.edges[k2].lineWidth
  {
    EdgeRule(table, width, height, pointer, k1);
    EdgeRule(table, width, height, pointer, k2);
  }

  /**
   * Node k is skill k's dot, labelled with its name, and it is focused
   * (radius 6, accent dot, white bold label) exactly when the pointer is
   * closer than 100 to it; otherwise radius 4 with faint colours.
   */
  lemma NodeRule(table: seq<Skill>, width: real, height: real, pointer: Point, k: nat)
    requires k < |table|
    ensures var n := RenderGraph(table, width, height, pointer).nodes[k];
            && n.center == NodeAt(table[k], width, height) && n.caption == table[k].name
            && (Focused(n) <==> Within(pointer, NodeAt(table[k], width, height), NODE_REACH))
            && (!Focused(n) ==> n.radius == 4 && n.fill == FAINT_NODE && n.captionFill == FAINT_LABEL)
  {
  }

  /** The default pointer is at least 1000 to the left of any pixel position of a non-negative canvas, so it is never within 150. */
  lemma SentinelIsFar(s: Skill, width: real, height: real)
    requires width >= 0.0 && height >= 0.0
    ensures !Within(DEFAULT_POINTER, NodeAt(s, width, height), EDGE_REACH)
    ensures !Within(DEFAULT_POINTER, NodeAt(s, width, height), NODE_REACH)
  {
    var at := NodeAt(s, width, height);
    assert at.x >= 0.0 && at.y >= 0.0;
    var dx := DEFAULT_POINTER.x - at.x;
    assert dx <= -1000.0;
    assert dx * dx >= 1000000.0;
    assert (DEFAULT_POINTER.y - at.y) * (DEFAULT_POINTER.y - at.y) >= 0.0;
  }

  /** With the default pointer nothing is highlighted and nothing is focused. */
  lemma DefaultPointerShowsNothing(table: seq<Skill>, width: real, height: real)
    requires width >= 0.0 && height >= 0.0
    ensures var f := RenderGraph(table, width, height, DEFAULT_POINTER);
            (forall k :: 0 <= k < |f.edges| ==> !Highlighted(f.edges[k]))
            && (forall k :: 0 <= k < |f.nodes| ==> !Focused(f.nodes[k]))
  {
    var f := RenderGraph(table, width, height, DEFAULT_POINTER);
    forall k | 0 <= k < |f.edges| ensures !Highlighted(f.edges[k]) {
      EdgeRule(table, width, height, DEFAULT_POINTER, k);
      SentinelIsFar(table[Links(table)[k].source], width, height);
    }
    forall k | 0 <= k < |f.nodes| ensures !Focused(f.nodes[k]) {
      NodeRule(table, width, height, DEFAULT_POINTER, k);
      SentinelIsFar(table[k], width, height);
    }
  }

  /** The canvas's position on the page. */
  datatype Rect = Rect(left: real, top: real)

  /**
   * The events that re-render the graph: the canvas's pointer events (a
   * touch event carries its touch points in client coordinates) and a
   * window resize.
   */
  datatype PointerEvent = MouseMove(clientX: real, clientY: real) | Touch(touches: seq<Point>) | MouseLeave | Resize

  /**
   * The pointer an event renders with: the mouse or first touch point
   * relative to the canvas, or the default pointer when the mouse leaves
   * the canvas or the window is resized (so a resize clears every highlight).
   * A touch event without touch points makes the handler fail, and nothing
   * is rendered.
   */
  function PointerOf(e: PointerEvent, rect: Rect): (r: Option<Point>)
    ensures e.Touch? ==> (r.None? <==> |e.touches| == 0)
    ensures e.MouseLeave? || e.Resize? ==> r == Some(DEFAULT_POINTER)
  {
    match e
    case MouseMove(cx, cy) => Some(Point(cx - rect.left, cy - rect.top))
    case Touch(ts) => if |ts| == 0 then None else Some(Point(ts[0].x - rect.left, ts[0].y - rect.top))
    case MouseLeave => Some(DEFAULT_POINTER)
    case Resize => Some(DEFAULT_POINTER)
  }

  /** The canvas point a client position maps to, and back: moving the mouse to `rect` + q points at q. */
  /** After a window resize the graph is drawn with nothing highlighted and nothing focused. */
  lemma ResizeShowsNothing(table: seq<Skill>, width: real, height: real, rect: Rect)
    requires width >= 0.0 && height >= 0.0
    ensures PointerOf(Resize, rect).Some?
    ensures var f := RenderGraph(table, width, height, PointerOf(Resize, rect).value);
            (forall k :: 0 <= k < |f.edges| ==> !Highlighted(f.edges[k]))
            && (forall k :: 0 <= k < |f.nodes| ==> !Focused(f.nodes[k]))
  {
    DefaultPointerShowsNothing(table, width, height);
  }

  lemma PointerRoundTrip(rect: Rect, q: Point, extra: seq<Point>)
    ensures PointerOf(MouseMove(rect.left + q.x, rect.top + q.y), rect) == Some(q)
    ensures PointerOf(Touch([Point(rect.left + q.x, rect.top + q.y)] + extra), rect) == Some(q)
  {
  }

  /**
   * On a 1000 x 800 canvas the skill "SQL" (10 %, 65 %) is drawn at
   * (100, 520), and a pointer there focuses it.
   */
  lemma SqlScenario()
    ensures NodeAt(SKILL_DATA[4], 1000.0, 800.0) == Point(100.0, 520.0)
    ensures Focused(RenderGraph(SKILL_DATA, 1000.0, 800.0, Point(100.0, 520.0)).nodes[4])
  {
    var p := Point(100.0, 520.0);
    assert NodeAt(SKILL_DATA[4], 1000.0, 800.0) == p;
    NodeRule(SKILL_DATA, 1000.0, 800.0, p, 4);
  }
}
