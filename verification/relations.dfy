/** Relation containers: the local edge lists of `Many`/`One` relations, the
    paired element and property-bag lists of their `WithProperties` variants,
    the link operations `ManyWithProperties.add` queues on the owning
    instance, and the text of the statement a queued link executes. */
module Relations {
  import opened PyValues
  import opened Text

  /** A model instance, by identity. */
  datatype Node = Node(ref: nat)

  /** What every relation holds: its label (`_name`), the name of its inverse
      relation (`_invert`), the bidirectional flag and the owning instance
      (`_source`, None until something sets it). */
  datatype Header = Header(name: string, invert: Option<string>, bidirectional: bool, source: Option<Node>)

  // ---------------------------------------------------------------------------
  // Property bags (`Properties` dataclasses)

  /** A `Properties` dataclass instance: its fields and values in declaration
      order. */
  datatype Bag = Bag(fields: seq<(string, Scalar)>)

  /** Each field paired with the `repr` of its value. */
  function ReprFields(fields: seq<(string, Scalar)>): (r: seq<(string, string)>)
    ensures |r| == |fields|
    ensures forall i :: 0 <= i < |fields| ==> r[i] == (fields[i].0, Repr(fields[i].1))
  {
    seq(|fields|, i requires 0 <= i < |fields| => (fields[i].0, Repr(fields[i].1)))
  }

  /** `Properties._to_cypher`: the `name: repr(value)` entries in field order,
      joined by commas. */
  function ToCypher(b: Bag): (r: string)
    ensures |b.fields| == 0 ==> r == ""
    ensures |b.fields| == 1 ==> r == b.fields[0].0 + ": " + Repr(b.fields[0].1)
  {
    PropertyBag(ReprFields(b.fields))
  }

  /** One more field appends a comma and its `name: repr` entry to a bag that
      already has fields. */
  lemma ToCypherAppend(fields: seq<(string, Scalar)>, name: string, v: Scalar)
    requires |fields| >= 1
    ensures ToCypher(Bag(fields + [(name, v)])) == ToCypher(Bag(fields)) + "," + name + ": " + Repr(v)
  {
    assert ReprFields(fields + [(name, v)]) == ReprFields(fields) + [(name, Repr(v))];
    PropertyBagAppend(ReprFields(fields), name, Repr(v));
  }

  /** The bag text reads back field by field: when no name and no value text
      holds a comma, splitting at the commas gives one `name: repr` entry per
      field, in declaration order; a bag without fields gives the empty text. */
  lemma BagReadsBack(b: Bag)
    requires forall i :: 0 <= i < |b.fields| ==> ',' !in b.fields[i].0 && ',' !in Repr(b.fields[i].1)
    ensures |b.fields| == 0 ==> ToCypher(b) == ""
    ensures |b.fields| >= 1 ==>
      var pieces := Split(ToCypher(b), ',');
      && |pieces| == |b.fields|
      && forall i :: 0 <= i < |b.fields| ==> pieces[i] == b.fields[i].0 + ": " + Repr(b.fields[i].1)
  {
    var pairs := ReprFields(b.fields);
    if |b.fields| >= 1 {
      PropertyBagSplits(pairs);
    }
  }

  // ---------------------------------------------------------------------------
  // Links

  /** A queued `_link` call: the relation's label, the two endpoints and the
      property bag (None for a link without properties). */
  datatype Link = Link(name: string, source: Node, target: Node, properties: Option<Bag>)

  /** The bag text a link statement embeds: `properties._to_cypher() if
      properties else ''` (a dataclass instance is always truthy). */
  function BagText(p: Option<Bag>): string {
    match p
    case None => ""
    case Some(b) => ToCypher(b)
  }

  const MatchPrefix := "{cypher} match (s), (t) where id(s)="
  const IdSeparator := " and id(t)="

  /** What a link statement ends with, after the target's identifier. */
  function LinkTail(relationName: string, bag: string): string {
    " create (s)-[:" + relationName + " {" + bag + "}]->(t);"
  }

  /** `{cypher} match (s), (t) where id(s)='<source>' and id(t)='<target>'
      create (s)-[:<relation> {<bag>}]->(t);` */
  function LinkText(relationName: string, sourceId: string, targetId: string, bag: string): string {
    MatchPrefix + "'" + (sourceId + "'" + (IdSeparator + "'" + (targetId + "'" + LinkTail(relationName, bag))))
  }

  /** The statement a queued link runs when it is awaited. `rids` maps each
      instance that has a store identifier to the `str` of its `_rid`; reading
      `_rid` of an instance without one raises AttributeError. */
  function LinkStatement(l: Link, rids: map<Node, string>): (r: Result<string>)
    ensures r.Err? <==> l.source !in rids || l.target !in rids
    ensures r.Err? ==> r.error == AttributeError
    ensures r.Ok? ==> r.value == LinkText(l.name, rids[l.source], rids[l.target], BagText(l.properties))
  {
    if l.source !in rids || l.target !in rids then Err(AttributeError)
    else Ok(LinkText(l.name, rids[l.source], rids[l.target], BagText(l.properties)))
  }

  /** The two identifiers a statement quotes: the second and fourth pieces
      between single quotes. */
  function QuotedIds(statement: string): Option<(string, string)> {
    var pieces := Split(statement, '\'');
    if |pieces| >= 5 then Some((pieces[1], pieces[3])) else None
  }

  /** The endpoints read back from a link statement: when neither identifier
      holds a single quote, the quoted identifiers are the source's and then
      the target's. */
  lemma LinkIdsReadBack(relationName: string, sourceId: string, targetId: string, bag: string)
    requires '\'' !in sourceId && '\'' !in targetId
    ensures QuotedIds(LinkText(relationName, sourceId, targetId, bag)) == Some((sourceId, targetId))
  {
    var q := '\'';
    assert "'" == [q];
    assert q !in MatchPrefix && q !in IdSeparator;
    SplitFour(MatchPrefix, sourceId, IdSeparator, targetId, LinkTail(relationName, bag), q);
  }

  /** A link without properties and a link with a field-less bag run the same
      statement: both embed empty braces. */
  lemma EmptyBagLikeNone(l: Link, rids: map<Node, string>)
    ensures LinkStatement(l.(properties := None), rids) == LinkStatement(l.(properties := Some(Bag([]))), rids)
  {
    assert ReprFields([]) == [];
  }

  // ---------------------------------------------------------------------------
  // Many and One

  /** `Many`: the header and the local list of targets. */
  datatype Many = Many(header: Header, elements: seq<Node>)

  /** `Many.add`: the element goes at the end; nothing else changes. */
  function ManyAdd(m: Many, e: Node): (r: Many)
    ensures r.header == m.header
    ensures |r.elements| == |m.elements| + 1 && r.elements[|m.elements|] == e
    ensures r.elements[..|m.elements|] == m.elements
  {
    m.(elements := m.elements + [e])
  }

  /** Several `add` calls in a row. */
  function ManyAddAll(m: Many, es: seq<Node>): Many
    decreases |es|
  {
    if |es| == 0 then m else ManyAddAll(ManyAdd(m, es[0]), es[1..])
  }

  /** Adding elements one after another lists them after the earlier ones, in
      call order. */
  lemma {:induction false} ManyAddAllAppends(m: Many, es: seq<Node>)
    ensures ManyAddAll(m, es).elements == m.elements + es
    ensures ManyAddAll(m, es).header == m.header
    decreases |es|
  {
    if |es| > 0 {
      ManyAddAllAppends(ManyAdd(m, es[0]), es[1..]);
      assert m.elements + [es[0]] + es[1..] == m.elements + es;
    }
  }

  /** `One`: the header and the single optional target. */
  datatype One = One(header: Header, element: Option<Node>)

  /** `One.set`: the held element becomes `e`, whatever was held before. */
  function OneSet(o: One, e: Node): (r: One)
    ensures r.header == o.header && r.element == Some(e)
  {
    o.(element := Some(e))
  }

  /** The last `set` wins: an earlier one leaves no trace. */
  lemma OneSetLastWins(o: One, a: Node, b: Node)
    ensures OneSet(OneSet(o, a), b) == OneSet(o, b)
  {
  }

  // ---------------------------------------------------------------------------
  // Relations with properties

  /** `ManyWithProperties`: the `Many` part and the bag given with each
      element. */
  datatype ManyWithProperties = ManyWithProperties(many: Many, properties: seq<Bag>)

  /** Element `i` was added with bag `i`. */
  predicate Paired(r: ManyWithProperties) {
    |r.many.elements| == |r.properties|
  }

  /** What the pairing means: the list of (element, bag) edges. */
  function Edges(r: ManyWithProperties): (es: seq<(Node, Bag)>)
    requires Paired(r)
    ensures |es| == |r.properties|
    ensures forall i :: 0 <= i < |es| ==> es[i] == (r.many.elements[i], r.properties[i])
  {
    seq(|r.properties|, i requires 0 <= i < |r.properties| => (r.many.elements[i], r.properties[i]))
  }

  /** The links one `add` queues, independently of the code path: none without
      a source; the forward link; and for a bidirectional relation the reverse
      link right after it, with the same bag. */
  function LinksFor(h: Header, e: Node, p: Bag): (ls: seq<Link>)
    ensures |ls| == if h.source.None? then 0 else if h.bidirectional then 2 else 1
    ensures forall i :: 0 <= i < |ls| ==> ls[i].name == h.name && ls[i].properties == Some(p)
    ensures forall i :: 0 <= i < |ls| ==> {ls[i].source, ls[i].target} == {h.source.value, e}
    ensures h.source.Some? ==> ls[0] == Link(h.name, h.source.value, e, Some(p))
    ensures |ls| == 2 ==> ls[1] == Link(h.name, e, h.source.value, Some(p))
  {
    match h.source
    case None => []
    case Some(s) =>
      var forward := Link(h.name, s, e, Some(p));
      if h.bidirectional then [forward, Link(h.name, e, s, Some(p))] else [forward]
  }

  /** `ManyWithProperties.add(element, properties)` on the owning instance's
      operation queue `queue`: returns the relation and the queue after the
      call. */
  function ManyWithPropertiesAdd(r: ManyWithProperties, e: Node, p: Bag, queue: seq<Link>)
    : (res: (ManyWithProperties, seq<Link>))
    ensures res.0.many == ManyAdd(r.many, e)
    ensures res.0.properties == r.properties + [p]
    ensures Paired(r) ==> Paired(res.0) && Edges(res.0) == Edges(r) + [(e, p)]
    ensures res.1 == queue + LinksFor(r.many.header, e, p)
  {
    var q :=
      if r.many.header.source.Some? then
        var s := r.many.header.source.value;
        var q1 := queue + [Link(r.many.header.name, s, e, Some(p))];
        if r.many.header.bidirectional then q1 + [Link(r.many.header.name, e, s, Some(p))] else q1
      else queue;
    (ManyWithProperties(ManyAdd(r.many, e), r.properties + [p]), q)
  }

  /** Several `add` calls in a row. */
  function ManyWithPropertiesAddAll(r: ManyWithProperties, edges: seq<(Node, Bag)>, queue: seq<Link>)
    : (ManyWithProperties, seq<Link>)
    decreases |edges|
  {
    if |edges| == 0 then (r, queue)
    else
      var (r', q') := ManyWithPropertiesAdd(r, edges[0].0, edges[0].1, queue);
      ManyWithPropertiesAddAll(r', edges[1..], q')
  }

  /** The links a run of `add` calls queues, edge by edge. */
  function AllLinksFor(h: Header, edges: seq<(Node, Bag)>): seq<Link>
    decreases |edges|
  {
    if |edges| == 0 then [] else LinksFor(h, edges[0].0, edges[0].1) + AllLinksFor(h, edges[1..])
  }

  /** Splitting off the first edge and regrouping the queued links: facts
      about sequences alone, kept apart from the relation functions so that
      proofs about them need no sequence extensionality. */
  lemma Regroup(done: seq<(Node, Bag)>, edges: seq<(Node, Bag)>, queue: seq<Link>, first: seq<Link>, others: seq<Link>)
    requires |edges| > 0
    ensures done + [edges[0]] + edges[1..] == done + edges
    ensures queue + first + others == queue + (first + others)
  {
    assert [edges[0]] + edges[1..] == edges;
  }

  /** A run of `add` calls keeps the two lists paired, lists the new edges after
      the earlier ones in call order, leaves the header alone and queues
      exactly the links of each call, in call order. */
  lemma {:induction false} ManyWithPropertiesAddAllPairs(r: ManyWithProperties, edges: seq<(Node, Bag)>, queue: seq<Link>)
    requires Paired(r)
    ensures var (r', q') := ManyWithPropertiesAddAll(r, edges, queue);
      && Paired(r')
      && Edges(r') == Edges(r) + edges
      && r'.many.header == r.many.header
      && q' == queue + AllLinksFor(r.many.header, edges)
    decreases |edges|
  {
    if |edges| > 0 {
      var (r1, q1) := ManyWithPropertiesAdd(r, edges[0].0, edges[0].1, queue);
      ManyWithPropertiesAddAllPairs(r1, edges[1..], q1);
      Regroup(Edges(r), edges, queue, LinksFor(r.many.header, edges[0].0, edges[0].1), AllLinksFor(r.many.header, edges[1..]));
    }
  }

  /** How many links a run of `add` calls queues: none without a source, one
      per call, or two per call on a bidirectional relation. */
  lemma {:induction false} AllLinksCount(h: Header, edges: seq<(Node, Bag)>)
    ensures |AllLinksFor(h, edges)| == |edges| * (if h.source.None? then 0 else if h.bidirectional then 2 else 1)
    decreases |edges|
  {
    if |edges| > 0 {
      AllLinksCount(h, edges[1..]);
    }
  }

  /** On a bidirectional relation the two links of one `add` run statements
      that quote the same two identifiers, swapped. */
  lemma MirrorLinkSwapsIds(h: Header, e: Node, p: Bag, rids: map<Node, string>)
    requires h.source.Some? && h.bidirectional
    requires h.source.value in rids && e in rids
    requires '\'' !in rids[h.source.value] && '\'' !in rids[e]
    ensures var ls := LinksFor(h, e, p);
      && LinkStatement(ls[0], rids).Ok? && LinkStatement(ls[1], rids).Ok?
      && QuotedIds(LinkStatement(ls[0], rids).value) == Some((rids[h.source.value], rids[e]))
      && QuotedIds(LinkStatement(ls[1], rids).value) == Some((rids[e], rids[h.source.value]))
  {
    var s := h.source.value;
    var bag := BagText(Some(p));
    LinkIdsReadBack(h.name, rids[s], rids[e], bag);
    LinkIdsReadBack(h.name, rids[e], rids[s], bag);
  }

  /** `OneWithProperties`: the `One` part and the bag of the held element. */
  datatype OneWithProperties = OneWithProperties(one: One, properties: Option<Bag>)

  /** `OneWithProperties.set(element, properties)`: element and bag are
      replaced together. */
  function OneWithPropertiesSet(o: OneWithProperties, e: Node, p: Bag): (r: OneWithProperties)
    ensures r.one == OneSet(o.one, e)
    ensures r.properties == Some(p)
  {
    OneWithProperties(OneSet(o.one, e), Some(p))
  }

  /** The last `set` wins for the element and its bag alike. */
  lemma OneWithPropertiesSetLastWins(o: OneWithProperties, a: Node, p: Bag, b: Node, q: Bag)
    ensures OneWithPropertiesSet(OneWithPropertiesSet(o, a, p), b, q) == OneWithPropertiesSet(o, b, q)
  {
  }

  // ---------------------------------------------------------------------------
  // Class hierarchy

  /** A relation attribute of a model instance. */
  datatype RelationField =
    | ManyField(m: Many)
    | OneField(o: One)
    | ManyWithPropertiesField(mp: ManyWithProperties)
    | OneWithPropertiesField(op: OneWithProperties)

  const RelationClass := "akiradb.model.relations.Relation"

  /** `module + "." + name` of every class in the field's `__mro__`. */
  function RelationMro(f: RelationField): (r: seq<string>)
    ensures RelationClass in r
  {
    var base := [RelationClass, "typing.Generic", "builtins.object"];
    match f
    case ManyField(_) => ["akiradb.model.relations.Many"] + base
    case OneField(_) => ["akiradb.model.relations.One"] + base
    case ManyWithPropertiesField(_) =>
      ["akiradb.model.relations.ManyWithProperties", "akiradb.model.relations.Many"] + base
    case OneWithPropertiesField(_) =>
      ["akiradb.model.relations.OneWithProperties", "akiradb.model.relations.One"] + base
  }
}
