/** The in-memory graph store: an undirected graph whose nodes are track ids
    carrying attribute maps and whose edges carry an integer weight. */
module GraphStore {
  import opened Wrappers

  type TrackId = string

  /** An attribute value as the graph builder produces them: cleaned text
      or a count. */
  datatype Value = Text(text: string) | Int(n: int)

  type Attrs = map<string, Value>

  /** Keyword arguments of an upsert, where `None` is a possible value. */
  type Props = map<string, Option<Value>>

  /** The endpoints of an undirected edge: `{a, b}`, or `{a}` for a loop. */
  type Endpoints = set<TrackId>

  /** `nx.Graph()`: node attribute maps, and one weight per unordered pair. */
  datatype Graph = Graph(nodes: map<TrackId, Attrs>, edges: map<Endpoints, int>)

  const Empty: Graph := Graph(map[], map[])

  /** Every endpoint of an edge is a node of the graph. */
  ghost predicate Valid(g: Graph) {
    forall e, x :: e in g.edges && x in e ==> x in g.nodes
  }

  // ---------------------------------------------------------------------
  // Queries.

  /** `graph.nodes[n].get(key)`, or `None` when the node or the key is
      absent. */
  function Attr(g: Graph, n: TrackId, key: string): Option<Value> {
    if n in g.nodes && key in g.nodes[n] then Some(g.nodes[n][key]) else None
  }

  /** `graph[a][b]["weight"]` when `graph.has_edge(a, b)`, else `None`. */
  function Weight(g: Graph, a: TrackId, b: TrackId): Option<int> {
    if {a, b} in g.edges then Some(g.edges[{a, b}]) else None
  }

  // ---------------------------------------------------------------------
  // Updates.

  /** The keyword arguments whose value is not `None`. */
  function Present(props: Props): (r: Attrs)
    ensures r.Keys <= props.Keys
  {
    map key | key in props && props[key].Some? :: props[key].value
  }

  /** `upsert_track(track_id, **properties)`: the properties that are not
      `None` are added to the node, replacing values it had for those keys;
      an unknown track becomes a node holding just those properties. */
  function UpsertTrack(g: Graph, id: TrackId, props: Props): (r: Graph)
    ensures r.nodes.Keys == g.nodes.Keys + {id}
    ensures r.edges == g.edges
    ensures Valid(g) ==> Valid(r)
  {
    var attrs := Present(props);
    if id !in g.nodes then Graph(g.nodes[id := attrs], g.edges)
    else Graph(g.nodes[id := g.nodes[id] + attrs], g.edges)
  }

  /** `add_edge`'s node side: a missing endpoint becomes a node without
      attributes; an existing one is left as it is. */
  function AddNode(nodes: map<TrackId, Attrs>, n: TrackId): (r: map<TrackId, Attrs>)
    ensures r.Keys == nodes.Keys + {n}
    ensures forall m :: m in nodes ==> r[m] == nodes[m]
  {
    if n in nodes then nodes else nodes[n := map[]]
  }

  /** `upsert_connection(source_id, target_id, weight)`: an existing edge
      between the two tracks, in either direction, gets its weight replaced;
      otherwise the edge is added, creating missing endpoints. */
  function UpsertConnection(g: Graph, source: TrackId, target: TrackId, weight: int): (r: Graph)
    ensures r.edges.Keys == g.edges.Keys + {{source, target}}
    ensures Valid(g) ==> Valid(r) && r.nodes.Keys == g.nodes.Keys + {source, target}
  {
    var e := {source, target};
    if e in g.edges then Graph(g.nodes, g.edges[e := weight])
    else Graph(AddNode(AddNode(g.nodes, source), target), g.edges[e := weight])
  }

  /** One call on the backend. */
  datatype Op =
    | UpsertTrackOp(id: TrackId, props: Props)
    | UpsertConnectionOp(source: TrackId, target: TrackId, weight: int)

  function Apply(g: Graph, op: Op): (r: Graph)
    ensures Valid(g) ==> Valid(r)
  {
    match op
    case UpsertTrackOp(id, props) => UpsertTrack(g, id, props)
    case UpsertConnectionOp(s, t, w) => UpsertConnection(g, s, t, w)
  }

  /** The calls `ops` made one after another, first to last. */
  function ApplyAll(g: Graph, ops: seq<Op>): (r: Graph)
    ensures Valid(g) ==> Valid(r)
    decreases |ops|
  {
    if |ops| == 0 then g else ApplyAll(Apply(g, ops[0]), ops[1..])
  }

  // ---------------------------------------------------------------------
  // Read-after-write laws.

  /** After `upsert_track(id, **props)` a key of `id` reads as the supplied
      value unless that was `None`, in which case it reads as before; every
      other node reads as before. */
  lemma UpsertTrackAttr(g: Graph, id: TrackId, props: Props, n: TrackId, key: string)
    ensures Attr(UpsertTrack(g, id, props), n, key) ==
            if n == id && key in props && props[key].Some? then props[key] else Attr(g, n, key)
  {
  }

  /** Upserting a track it did not know creates the node with exactly the
      non-`None` properties. */
  lemma UpsertNewTrack(g: Graph, id: TrackId, props: Props)
    requires id !in g.nodes
    ensures var r := UpsertTrack(g, id, props);
            && (forall key :: key in r.nodes[id] <==> key in props && props[key].Some?)
            && (forall key :: key in r.nodes[id] ==> r.nodes[id][key] == props[key].value)
  {
  }

  /** Upserting the same track twice: a key supplied the second time holds
      the second value (last wins), otherwise the first one if it was
      supplied, otherwise what the node had before. */
  lemma UpsertTrackLastWins(g: Graph, id: TrackId, first: Props, second: Props, key: string)
    ensures Attr(UpsertTrack(UpsertTrack(g, id, first), id, second), id, key) ==
            if key in second && second[key].Some? then second[key]
            else if key in first && first[key].Some? then first[key]
            else Attr(g, id, key)
  {
    UpsertTrackAttr(g, id, first, id, key);
    UpsertTrackAttr(UpsertTrack(g, id, first), id, second, id, key);
  }

  /** Upserting a track leaves every edge and every other node alone. */
  lemma UpsertTrackFrame(g: Graph, id: TrackId, props: Props, n: TrackId)
    requires n in g.nodes && n != id
    ensures UpsertTrack(g, id, props).nodes[n] == g.nodes[n]
    ensures UpsertTrack(g, id, props).edges == g.edges
  {
  }

  /** Edges are undirected: the weight between `a` and `b` is the weight
      between `b` and `a`. */
  lemma WeightSymmetric(g: Graph, a: TrackId, b: TrackId)
    ensures Weight(g, a, b) == Weight(g, b, a)
  {
    assert {a, b} == {b, a};
  }

  /** After `upsert_connection(a, b, w)` the pair reads weight `w` in either
      direction and every other pair reads as before. */
  lemma UpsertConnectionWeight(g: Graph, a: TrackId, b: TrackId, w: int, x: TrackId, y: TrackId)
    ensures Weight(UpsertConnection(g, a, b, w), x, y) ==
            if {x, y} == {a, b} then Some(w) else Weight(g, x, y)
  {
  }

  /** A later upsert of the same pair, in either direction, replaces the
      weight rather than adding to it: the graph is as if only the later
      call had been made. */
  lemma UpsertConnectionReplaces(g: Graph, a: TrackId, b: TrackId, w1: int, w2: int)
    ensures UpsertConnection(UpsertConnection(g, a, b, w1), b, a, w2) == UpsertConnection(g, a, b, w2)
  {
    var e := {a, b};
    assert {b, a} == e;
    var g1 := UpsertConnection(g, a, b, w1);
    assert g1.edges[e := w2] == g.edges[e := w2];
  }

  /** Upserting a connection keeps every node's attributes; it only adds
      attribute-less nodes for endpoints the graph lacked. */
  lemma UpsertConnectionNodes(g: Graph, a: TrackId, b: TrackId, w: int, n: TrackId)
    requires Valid(g)
    ensures var r := UpsertConnection(g, a, b, w);
            && (n in g.nodes ==> r.nodes[n] == g.nodes[n])
            && (n in r.nodes && n !in g.nodes ==> r.nodes[n] == map[])
  {
  }

  /** Making the calls `xs + ys` is making `xs`, then `ys`. */
  lemma {:induction false} ApplyAllConcat(g: Graph, xs: seq<Op>, ys: seq<Op>)
    ensures ApplyAll(g, xs + ys) == ApplyAll(ApplyAll(g, xs), ys)
    decreases |xs|
  {
    if |xs| > 0 {
      assert (xs + ys)[1..] == xs[1..] + ys;
      ApplyAllConcat(Apply(g, xs[0]), xs[1..], ys);
    } else {
      assert xs + ys == ys;
    }
  }
}
