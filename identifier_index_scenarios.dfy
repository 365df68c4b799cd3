/**
 * The identifier index on the trees of the index's own test suite: a schema
 * with one recursive node type carrying the identifier global field and an
 * optional local field `child`.
 */
module IdentifierIndexScenarios {
  import opened Wrappers
  import opened IdentifierIndexing
  import opened IdentifierEdits

  /** The key of the identifier global field. */
  const IdKey: string := "identifier"

  /** The type of the node held by the identifier field. */
  const IdentifierType: string := "identifier"

  /** The recursive node type of the tests. */
  const NodeType: string := "node"

  /** The schema of the tests: `node` declares the identifier field, and the global schema holds it. */
  function TestSchema(): DocumentSchema {
    DocumentSchema({IdKey}, map[NodeType := NodeSchema({IdKey}, false), IdentifierType := NodeSchema({}, false)])
  }

  /** An identifier field whose node carries `v`. */
  function IdField(v: Value): Field {
    Field(IdKey, [Node(IdentifierType, v, [], [])])
  }

  /** A `node` with identifier value `v` and children `child`. */
  function Identified(v: Value, child: seq<Node>): Node {
    Node(NodeType, NoValue, [IdField(v)], [Field("child", child)])
  }

  /** A `node` without identifier field, with children `child`. */
  function Plain(child: seq<Node>): Node {
    Node(NodeType, NoValue, [], [Field("child", child)])
  }

  lemma IdentifiedIds(schema: DocumentSchema, v: Value, child: seq<Node>)
    requires IdentifierType in schema.treeSchema && schema.treeSchema[IdentifierType] == NodeSchema({}, false)
    ensures NodeIds(schema, IdKey, Identified(v, child))
         == OwnId(schema, IdKey, Identified(v, child)) + ForestIds(schema, IdKey, child)
  {
    var n := Identified(v, child);
    var idNode := Node(IdentifierType, v, [], []);
    assert NodeIds(schema, IdKey, idNode) == [];
    assert ForestIds(schema, IdKey, [idNode]) == [];
    assert FieldIds(schema, IdKey, n.globalFields) == [];
    assert FieldIds(schema, IdKey, n.localFields) == ForestIds(schema, IdKey, child);
  }

  lemma PlainIds(schema: DocumentSchema, child: seq<Node>)
    ensures NodeIds(schema, IdKey, Plain(child)) == ForestIds(schema, IdKey, child)
  {
    var n := Plain(child);
    assert OwnId(schema, IdKey, n) == [];
    assert FieldIds(schema, IdKey, n.localFields) == ForestIds(schema, IdKey, child) + FieldIds(schema, IdKey, []);
  }

  lemma SingleIds(schema: DocumentSchema, n: Node)
    ensures ForestIds(schema, IdKey, [n]) == NodeIds(schema, IdKey, n)
  {
    assert [n][1..] == [];
  }

  /**
   * What the tests check of an index against the identifiers they expect: as
   * many entries as identifiers, each identifier present and mapped to a node
   * carrying it, and no other key.
   */
  predicate Matches(schema: DocumentSchema, idKey: string, index: map<Identifier, Node>, ids: seq<Identifier>) {
    && |index| == |ids|
    && (forall id | id in ids :: id in index && IdentifierOf(schema, idKey, index[id]) == Some(id))
    && index.Keys == Elements(ids)
  }

  /** An enabled index that builds matches the identifiers of the tree, in pre-order. */
  lemma IndexMatchesTree(schema: DocumentSchema, idKey: string, root: seq<Node>)
    requires IdentifiersAreInSchema(schema, idKey) && BuildIndex(schema, idKey, root).Ok?
    ensures Matches(schema, idKey, BuildIndex(schema, idKey, root).value, ForestIds(schema, idKey, root))
  {
    var m := BuildIndex(schema, idKey, root).value;
    forall id | id in ForestIds(schema, idKey, root) ensures id in m && IdentifierOf(schema, idKey, m[id]) == Some(id) {
      assert id in Elements(ForestIds(schema, idKey, root));
    }
  }

  /** A single identified root is found. */
  lemma InsertedNodeIsFound(id: Identifier)
    ensures var r := BuildIndex(TestSchema(), IdKey, [Identified(NumberValue(id), [])]);
      r.Ok? && Matches(TestSchema(), IdKey, r.value, [id])
  {
    var root := [Identified(NumberValue(id), [])];
    IdentifiedIds(TestSchema(), NumberValue(id), []);
    SingleIds(TestSchema(), root[0]);
    IndexMatchesTree(TestSchema(), IdKey, root);
  }

  /** An identified grandchild of unidentified nodes is found. */
  lemma DeepNodeIsFound(id: Identifier)
    ensures var r := BuildIndex(TestSchema(), IdKey, [Plain([Plain([Identified(NumberValue(id), [])])])]);
      r.Ok? && Matches(TestSchema(), IdKey, r.value, [id])
  {
    var s := TestSchema();
    var c := Identified(NumberValue(id), []);
    IdentifiedIds(s, NumberValue(id), []);
    SingleIds(s, c);
    PlainIds(s, [c]);
    SingleIds(s, Plain([c]));
    PlainIds(s, [Plain([c])]);
    SingleIds(s, Plain([Plain([c])]));
    IndexMatchesTree(s, IdKey, [Plain([Plain([c])])]);
  }

  /** Three identified nodes on one path, inserted at once, are all found. */
  lemma NodesOnOnePathAreFound(a: Identifier, b: Identifier, c: Identifier)
    requires a != b && b != c && a != c
    ensures var root := [Identified(NumberValue(a), [Identified(NumberValue(b), [Identified(NumberValue(c), [])])])];
      var r := BuildIndex(TestSchema(), IdKey, root);
      r.Ok? && Matches(TestSchema(), IdKey, r.value, [a, b, c])
  {
    var s := TestSchema();
    var nc := Identified(NumberValue(c), []);
    var nb := Identified(NumberValue(b), [nc]);
    var na := Identified(NumberValue(a), [nb]);
    IdentifiedIds(s, NumberValue(c), []);
    SingleIds(s, nc);
    IdentifiedIds(s, NumberValue(b), [nc]);
    SingleIds(s, nb);
    IdentifiedIds(s, NumberValue(a), [nb]);
    SingleIds(s, na);
    assert ForestIds(s, IdKey, [na]) == [a, b, c];
    IndexMatchesTree(s, IdKey, [na]);
  }

  /** A root and its child carrying the same identifier make indexing fail. */
  lemma DuplicateIdentifierFails(id: Identifier)
    ensures BuildIndex(TestSchema(), IdKey, [Identified(NumberValue(id), [Identified(NumberValue(id), [])])])
         == Err(DuplicateIdentifierError)
  {
    var s := TestSchema();
    var child := Identified(NumberValue(id), []);
    var root := Identified(NumberValue(id), [child]);
    IdentifiedIds(s, NumberValue(id), []);
    SingleIds(s, child);
    IdentifiedIds(s, NumberValue(id), [child]);
    SingleIds(s, root);
    var ids := ForestIds(s, IdKey, [root]);
    assert ids == [id, id];
    assert ids[0] == ids[1];
    assert !NoDuplicates(ids);
  }

  /** The test schema with the `node` type replaced by `nodeSchema`. */
  function SchemaWithNode(nodeSchema: NodeSchema): DocumentSchema {
    DocumentSchema({IdKey}, map[NodeType := nodeSchema, IdentifierType := NodeSchema({}, false)])
  }

  /** A node whose schema does not declare the identifier field is skipped. */
  lemma NodeOutsideSchemaIsSkipped(id: Identifier)
    ensures BuildIndex(SchemaWithNode(NodeSchema({}, false)), IdKey, [Identified(NumberValue(id), [])]) == Ok(map[])
  {
    var s := SchemaWithNode(NodeSchema({}, false));
    IdentifiedIds(s, NumberValue(id), []);
    SingleIds(s, Identified(NumberValue(id), []));
  }

  /** A node whose schema admits extra global fields has its identifier indexed. */
  lemma ExtraGlobalFieldsAreRespected(id: Identifier)
    ensures var s := SchemaWithNode(NodeSchema({}, true));
      var r := BuildIndex(s, IdKey, [Identified(NumberValue(id), [])]);
      r.Ok? && Matches(s, IdKey, r.value, [id])
  {
    var s := SchemaWithNode(NodeSchema({}, true));
    IdentifiedIds(s, NumberValue(id), []);
    SingleIds(s, Identified(NumberValue(id), []));
    IndexMatchesTree(s, IdKey, [Identified(NumberValue(id), [])]);
  }

  /** A node whose identifier value is not a number is skipped. */
  lemma WrongTypeIdentifierIsSkipped()
    ensures BuildIndex(TestSchema(), IdKey, [Identified(OtherValue, [])]) == Ok(map[])
  {
    IdentifiedIds(TestSchema(), OtherValue, []);
    SingleIds(TestSchema(), Identified(OtherValue, []));
  }

  /** A node whose identifier node has no value is skipped. */
  lemma MissingIdentifierIsSkipped()
    ensures BuildIndex(TestSchema(), IdKey, [Identified(NoValue, [])]) == Ok(map[])
  {
    IdentifiedIds(TestSchema(), NoValue, []);
    SingleIds(TestSchema(), Identified(NoValue, []));
  }

  /** Without the identifier field in the global schema, the index is disabled and empty. */
  lemma DisabledWithoutGlobalField(id: Identifier)
    ensures var s := DocumentSchema({}, map[NodeType := NodeSchema({}, false)]);
      && !IdentifiersAreInSchema(s, IdKey)
      && BuildIndex(s, IdKey, [Identified(NumberValue(id), [])]) == Ok(map[])
  {
  }

  /**
   * Setting the `child` field of an identified root to a node with a fresh
   * identifier: the root gets that child, and the index holds both identifiers.
   */
  lemma AttachedChildIsFound(idA: Identifier, idB: Identifier)
    requires idA != idB
    ensures var s := TestSchema();
      var e := ChildEdit(idA, "child", [Identified(NumberValue(idB), [])]);
      var root := EditForest(s, IdKey, e, [Identified(NumberValue(idA), [])]);
      && root == [Identified(NumberValue(idA), [Identified(NumberValue(idB), [])])]
      && BuildIndex(s, IdKey, root).Ok?
      && Matches(s, IdKey, BuildIndex(s, IdKey, root).value, [idA, idB])
  {
    var s := TestSchema();
    var nb := Identified(NumberValue(idB), []);
    var na := Identified(NumberValue(idA), [nb]);
    var e := ChildEdit(idA, "child", [nb]);
    assert EditNode(s, IdKey, e, Identified(NumberValue(idA), [])) == na;
    assert EditForest(s, IdKey, e, [Identified(NumberValue(idA), [])]) == [na];
    IdentifiedIds(s, NumberValue(idB), []);
    SingleIds(s, nb);
    IdentifiedIds(s, NumberValue(idA), [nb]);
    SingleIds(s, na);
    assert ForestIds(s, IdKey, [na]) == [idA, idB];
    IndexMatchesTree(s, IdKey, [na]);
  }
}
