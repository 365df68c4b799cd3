/**
 * The node identifier index of a shared tree, as values: a document schema,
 * a tree of nodes, the walk that finds every node carrying an identifier, and
 * the map from identifier to node built from it, which fails on a duplicate.
 */
module IdentifierIndexing {
  import opened Wrappers

  /** A node identifier (the tests number them from 42 upwards). */
  type Identifier = int

  /** The value a node carries: none, a number, or a value of some other type. */
  datatype Value = NoValue | NumberValue(n: int) | OtherValue

  /** A tree node: its schema name, its value, and its global and local fields. */
  datatype Node = Node(typeName: string, value: Value, globalFields: seq<Field>, localFields: seq<Field>)

  /** A field of a node: its key and the nodes it holds, in order. */
  datatype Field = Field(key: string, content: seq<Node>)

  /** The schema of one node type: the global fields it declares, and whether it admits any other. */
  datatype NodeSchema = NodeSchema(globalFields: set<string>, extraGlobalFields: bool)

  /** A document schema: the global fields it knows of, and the node schemas by name. */
  datatype DocumentSchema = DocumentSchema(globalFieldSchema: set<string>, treeSchema: map<string, NodeSchema>)

  /** The message of the error a duplicate identifier raises. */
  const DuplicateIdentifierError: string := "Encountered duplicate node identifier"

  /** The nodes of the first field named `key`, or none. */
  function FieldContent(fields: seq<Field>, key: string): seq<Node> {
    if fields == [] then []
    else if fields[0].key == key then fields[0].content
    else FieldContent(fields[1..], key)
  }

  /** The index is enabled only when the document's global field schema has the identifier field. */
  predicate IdentifiersAreInSchema(schema: DocumentSchema, idKey: string) {
    idKey in schema.globalFieldSchema
  }

  /** The schema of a node of type `typeName` admits the identifier field. */
  predicate IdentifierFieldInNodeSchema(schema: DocumentSchema, idKey: string, typeName: string) {
    && typeName in schema.treeSchema
    && (idKey in schema.treeSchema[typeName].globalFields || schema.treeSchema[typeName].extraGlobalFields)
  }

  /**
   * The identifier of `n`: the number held by the first node of its identifier
   * field, provided its schema admits that field. A node whose schema lacks
   * the field, whose field is empty, or whose value is missing or not a number
   * has none.
   */
  function IdentifierOf(schema: DocumentSchema, idKey: string, n: Node): (r: Option<Identifier>)
    ensures !IdentifierFieldInNodeSchema(schema, idKey, n.typeName) ==> r.None?
    ensures FieldContent(n.globalFields, idKey) == [] ==> r.None?
    ensures r.Some? <==>
      && IdentifierFieldInNodeSchema(schema, idKey, n.typeName)
      && FieldContent(n.globalFields, idKey) != []
      && FieldContent(n.globalFields, idKey)[0].value.NumberValue?
    ensures r.Some? ==> FieldContent(n.globalFields, idKey)[0].value == NumberValue(r.value)
  {
    if !IdentifierFieldInNodeSchema(schema, idKey, n.typeName) then None
    else
      var ids := FieldContent(n.globalFields, idKey);
      if |ids| > 0 && ids[0].value.NumberValue? then Some(ids[0].value.n) else None
  }

  // ---------------------------------------------------------------------
  // Walking the tree
  // ---------------------------------------------------------------------

  /** `n` and every node below it, in pre-order: global fields first, then local ones. */
  function NodesOf(n: Node): (r: seq<Node>)
    ensures |r| > 0 && r[0] == n
    decreases n, 2
  {
    [n] + NodesOfFields(n.globalFields) + NodesOfFields(n.localFields)
  }

  /** Every node in `fields` and below, in pre-order. */
  function NodesOfFields(fields: seq<Field>): seq<Node>
    decreases fields, 1
  {
    if fields == [] then [] else NodesOfForest(fields[0].content) + NodesOfFields(fields[1..])
  }

  /** Every node in `nodes` and below, in pre-order. */
  function NodesOfForest(nodes: seq<Node>): seq<Node>
    decreases nodes, 0
  {
    if nodes == [] then [] else NodesOf(nodes[0]) + NodesOfForest(nodes[1..])
  }

  // ---------------------------------------------------------------------
  // Indexing a sequence of nodes
  // ---------------------------------------------------------------------

  /** The identifiers of the identified nodes of `nodes`, in order. */
  function IdsOf(schema: DocumentSchema, idKey: string, nodes: seq<Node>): seq<Identifier>
    decreases |nodes|
  {
    if nodes == [] then []
    else
      var last := nodes[|nodes| - 1];
      IdsOf(schema, idKey, nodes[..|nodes| - 1])
        + (if IdentifierOf(schema, idKey, last).Some? then [IdentifierOf(schema, idKey, last).value] else [])
  }

  /** The identifiers occurring in `s`. */
  function Elements(s: seq<Identifier>): set<Identifier> {
    set id | id in s
  }

  /** No value occurs twice in `s`. */
  predicate NoDuplicates(s: seq<Identifier>) {
    forall i, j | 0 <= i < j < |s| :: s[i] != s[j]
  }

  lemma NoDuplicatesSnoc(s: seq<Identifier>, x: Identifier)
    ensures NoDuplicates(s + [x]) <==> NoDuplicates(s) && x !in s
  {
    if NoDuplicates(s) && x !in s {
      forall i, j | 0 <= i < j < |s + [x]| ensures (s + [x])[i] != (s + [x])[j] {
        if j == |s| { assert (s + [x])[i] == s[i]; }
      }
    }
    if NoDuplicates(s + [x]) {
      forall i, j | 0 <= i < j < |s| ensures s[i] != s[j] {
        assert s[i] == (s + [x])[i] && s[j] == (s + [x])[j];
      }
      forall i | 0 <= i < |s| ensures s[i] != x {
        assert (s + [x])[i] == s[i] && (s + [x])[|s|] == x;
      }
    }
  }

  /** Disjoint parts of a duplicate-free sequence. */
  lemma NoDuplicatesAppend(a: seq<Identifier>, b: seq<Identifier>)
    ensures NoDuplicates(a + b) <==> NoDuplicates(a) && NoDuplicates(b) && forall x | x in a :: x !in b
  {
    var s := a + b;
    if NoDuplicates(s) {
      forall i, j | 0 <= i < j < |a| ensures a[i] != a[j] { assert a[i] == s[i] && a[j] == s[j]; }
      forall i, j | 0 <= i < j < |b| ensures b[i] != b[j] { assert b[i] == s[|a| + i] && b[j] == s[|a| + j]; }
      forall i, j | 0 <= i < |a| && 0 <= j < |b| ensures a[i] != b[j] {
        assert a[i] == s[i] && b[j] == s[|a| + j];
      }
    }
    if NoDuplicates(a) && NoDuplicates(b) && forall x | x in a :: x !in b {
      forall i, j | 0 <= i < j < |s| ensures s[i] != s[j] {
        if j < |a| {
          assert s[i] == a[i] && s[j] == a[j];
        } else if i >= |a| {
          assert s[i] == b[i - |a|] && s[j] == b[j - |a|];
        } else {
          assert s[i] == a[i] && s[j] == b[j - |a|];
          assert a[i] in a && b[j - |a|] in b;
        }
      }
    }
  }

  /** The identified nodes of a sequence are identified nodes of it, position by position. */
  lemma IdsOfMembers(schema: DocumentSchema, idKey: string, nodes: seq<Node>)
    ensures forall id :: id in IdsOf(schema, idKey, nodes) <==>
      exists n | n in nodes :: IdentifierOf(schema, idKey, n) == Some(id)
    decreases |nodes|
  {
    if nodes != [] {
      var p := nodes[..|nodes| - 1];
      IdsOfMembers(schema, idKey, p);
      assert nodes == p + [nodes[|nodes| - 1]];
    }
  }

  /**
   * The identifier map of `nodes`, built in order: a node without identifier
   * is skipped, and a second node with an identifier already present is an error.
   */
  function IndexNodes(schema: DocumentSchema, idKey: string, nodes: seq<Node>): (r: Result<map<Identifier, Node>, string>)
    ensures r.Ok? <==> NoDuplicates(IdsOf(schema, idKey, nodes))
    ensures r.Err? ==> r.error == DuplicateIdentifierError
    ensures r.Ok? ==> r.value.Keys == Elements(IdsOf(schema, idKey, nodes))
    ensures r.Ok? ==> |r.value| == |IdsOf(schema, idKey, nodes)|
    ensures r.Ok? ==> forall id | id in r.value ::
      IdentifierOf(schema, idKey, r.value[id]) == Some(id) && r.value[id] in nodes
    ensures r.Ok? ==> forall n | n in nodes && IdentifierOf(schema, idKey, n).Some? ::
      IdentifierOf(schema, idKey, n).value in r.value && r.value[IdentifierOf(schema, idKey, n).value] == n
    decreases |nodes|
  {
    if nodes == [] then Ok(map[])
    else
      var p := nodes[..|nodes| - 1];
      var last := nodes[|nodes| - 1];
      assert nodes == p + [last];
      IdsOfMembers(schema, idKey, p);
      IdsOfMembers(schema, idKey, nodes);
      match IndexNodes(schema, idKey, p)
      case Err(e) =>
        assert !NoDuplicates(IdsOf(schema, idKey, nodes)) by {
          var ps := IdsOf(schema, idKey, p);
          assert !NoDuplicates(ps);
          if IdentifierOf(schema, idKey, last).Some? {
            var id := IdentifierOf(schema, idKey, last).value;
            assert IdsOf(schema, idKey, nodes) == ps + [id];
            NoDuplicatesSnoc(ps, id);
          } else {
            assert IdsOf(schema, idKey, nodes) == ps;
          }
        }
        Err(e)
      case Ok(m) =>
        match IdentifierOf(schema, idKey, last)
        case None => Ok(m)
        case Some(id) =>
          NoDuplicatesSnoc(IdsOf(schema, idKey, p), id);
          if id in m then Err(DuplicateIdentifierError)
          else Ok(m[id := last])
  }

  /** Indexing one more node: skip it, add it, or fail on its identifier. */
  lemma IndexNodesStep(schema: DocumentSchema, idKey: string, p: seq<Node>, n: Node, m: map<Identifier, Node>)
    requires IndexNodes(schema, idKey, p) == Ok(m)
    ensures IdentifierOf(schema, idKey, n).None? ==> IndexNodes(schema, idKey, p + [n]) == Ok(m)
    ensures IdentifierOf(schema, idKey, n).Some? && IdentifierOf(schema, idKey, n).value in m ==>
      IndexNodes(schema, idKey, p + [n]) == Err(DuplicateIdentifierError)
    ensures IdentifierOf(schema, idKey, n).Some? && IdentifierOf(schema, idKey, n).value !in m ==>
      IndexNodes(schema, idKey, p + [n]) == Ok(m[IdentifierOf(schema, idKey, n).value := n])
  {
    var s := p + [n];
    assert s[..|s| - 1] == p && s[|s| - 1] == n;
  }

  /** Once a prefix of the nodes holds a duplicate, indexing the whole fails. */
  lemma IndexingFailsFromPrefix(schema: DocumentSchema, idKey: string, p: seq<Node>, q: seq<Node>)
    requires IndexNodes(schema, idKey, p).Err?
    ensures IndexNodes(schema, idKey, p + q).Err?
  {
    IdsOfAppend(schema, idKey, p, q);
    NoDuplicatesAppend(IdsOf(schema, idKey, p), IdsOf(schema, idKey, q));
  }

  // ---------------------------------------------------------------------
  // The identifiers of a tree, part by part
  // ---------------------------------------------------------------------

  /** The identifier of `n` alone, as a sequence of length 0 or 1. */
  function OwnId(schema: DocumentSchema, idKey: string, n: Node): seq<Identifier> {
    if IdentifierOf(schema, idKey, n).Some? then [IdentifierOf(schema, idKey, n).value] else []
  }

  /** The identifiers in `n` and below, in pre-order. */
  function NodeIds(schema: DocumentSchema, idKey: string, n: Node): seq<Identifier>
    decreases n, 2
  {
    OwnId(schema, idKey, n) + FieldIds(schema, idKey, n.globalFields) + FieldIds(schema, idKey, n.localFields)
  }

  /** The identifiers in `fields` and below, in pre-order. */
  function FieldIds(schema: DocumentSchema, idKey: string, fields: seq<Field>): seq<Identifier>
    decreases fields, 1
  {
    if fields == [] then [] else ForestIds(schema, idKey, fields[0].content) + FieldIds(schema, idKey, fields[1..])
  }

  /** The identifiers in `nodes` and below, in pre-order. */
  function ForestIds(schema: DocumentSchema, idKey: string, nodes: seq<Node>): seq<Identifier>
    decreases nodes, 0
  {
    if nodes == [] then [] else NodeIds(schema, idKey, nodes[0]) + ForestIds(schema, idKey, nodes[1..])
  }

  /** Collecting identifiers distributes over concatenation. */
  lemma {:induction false} IdsOfAppend(schema: DocumentSchema, idKey: string, a: seq<Node>, b: seq<Node>)
    ensures IdsOf(schema, idKey, a + b) == IdsOf(schema, idKey, a) + IdsOf(schema, idKey, b)
    decreases |b|
  {
    if b == [] {
      assert a + b == a;
    } else {
      var b' := b[..|b| - 1];
      assert (a + b)[..|a + b| - 1] == a + b';
      assert (a + b)[|a + b| - 1] == b[|b| - 1];
      IdsOfAppend(schema, idKey, a, b');
    }
  }

  /** The identifiers of a tree, part by part, are those of its pre-order walk. */
  lemma {:induction false} NodeIdsOfWalk(schema: DocumentSchema, idKey: string, n: Node)
    ensures NodeIds(schema, idKey, n) == IdsOf(schema, idKey, NodesOf(n))
    decreases n, 2
  {
    var g := NodesOfFields(n.globalFields);
    var l := NodesOfFields(n.localFields);
    IdsOfAppend(schema, idKey, [n] + g, l);
    IdsOfAppend(schema, idKey, [n], g);
    assert [n][..0] == [];
    assert IdsOf(schema, idKey, [n]) == OwnId(schema, idKey, n);
    FieldIdsOfWalk(schema, idKey, n.globalFields);
    FieldIdsOfWalk(schema, idKey, n.localFields);
  }

  lemma {:induction false} FieldIdsOfWalk(schema: DocumentSchema, idKey: string, fields: seq<Field>)
    ensures FieldIds(schema, idKey, fields) == IdsOf(schema, idKey, NodesOfFields(fields))
    decreases fields, 1
  {
    if fields != [] {
      IdsOfAppend(schema, idKey, NodesOfForest(fields[0].content), NodesOfFields(fields[1..]));
      ForestIdsOfWalk(schema, idKey, fields[0].content);
      FieldIdsOfWalk(schema, idKey, fields[1..]);
    }
  }

  lemma {:induction false} ForestIdsOfWalk(schema: DocumentSchema, idKey: string, nodes: seq<Node>)
    ensures ForestIds(schema, idKey, nodes) == IdsOf(schema, idKey, NodesOfForest(nodes))
    decreases nodes, 0
  {
    if nodes != [] {
      IdsOfAppend(schema, idKey, NodesOf(nodes[0]), NodesOfForest(nodes[1..]));
      NodeIdsOfWalk(schema, idKey, nodes[0]);
      ForestIdsOfWalk(schema, idKey, nodes[1..]);
    }
  }

  // ---------------------------------------------------------------------
  // Indexing a tree
  // ---------------------------------------------------------------------

  /**
   * The index of a tree whose root field holds `root`: empty when the
   * identifier field is not in the global schema, otherwise the identifier
   * map of every node of the tree.
   */
  function BuildIndex(schema: DocumentSchema, idKey: string, root: seq<Node>): (r: Result<map<Identifier, Node>, string>)
    ensures !IdentifiersAreInSchema(schema, idKey) ==> r == Ok(map[])
    ensures IdentifiersAreInSchema(schema, idKey) ==> (r.Ok? <==> NoDuplicates(ForestIds(schema, idKey, root)))
    ensures r.Err? ==> r.error == DuplicateIdentifierError
    ensures r.Ok? && IdentifiersAreInSchema(schema, idKey) ==>
      && r.value.Keys == Elements(ForestIds(schema, idKey, root))
      && |r.value| == |ForestIds(schema, idKey, root)|
    ensures r.Ok? ==> forall id | id in r.value ::
      IdentifierOf(schema, idKey, r.value[id]) == Some(id) && r.value[id] in NodesOfForest(root)
    ensures r.Ok? && IdentifiersAreInSchema(schema, idKey) ==>
      forall n | n in NodesOfForest(root) && IdentifierOf(schema, idKey, n).Some? ::
        IdentifierOf(schema, idKey, n).value in r.value && r.value[IdentifierOf(schema, idKey, n).value] == n
  {
    ForestIdsOfWalk(schema, idKey, root);
    if !IdentifiersAreInSchema(schema, idKey) then Ok(map[])
    else IndexNodes(schema, idKey, NodesOfForest(root))
  }
}
