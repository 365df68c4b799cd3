/**
 * The identifier index as it lives on a tree view: an object holding the
 * identifier map, rescanned from the tree each time the tree changes, and the
 * view whose root and fields are changed in place.
 */
module IdentifierIndexView {
  import opened Wrappers
  import opened IdentifierIndexing
  import opened IdentifierEdits

  /** The map the index holds after scanning `root`: the identifier map, or nothing if the scan failed. */
  function IndexAfterScan(schema: DocumentSchema, idKey: string, root: seq<Node>): map<Identifier, Node> {
    match BuildIndex(schema, idKey, root)
    case Ok(m) => m
    case Err(_) => map[]
  }

  /** The index of an empty tree is empty. */
  lemma EmptyTreeHasEmptyIndex(schema: DocumentSchema, idKey: string)
    ensures IndexAfterScan(schema, idKey, []) == map[]
  {
    var r := BuildIndex(schema, idKey, []);
    assert ForestIds(schema, idKey, []) == [];
    assert NoDuplicates([]);
    assert r.Ok? && r.value.Keys == {};
  }

  lemma TakeOneMore<T>(s: seq<T>, i: nat)
    requires i < |s|
    ensures s[..i + 1] == s[..i] + [s[i]]
  {
  }

  lemma TakeThenDrop<T>(s: seq<T>, i: nat)
    requires i <= |s|
    ensures s[..i] + s[i..] == s
  {
  }

  /** The identified nodes of a tree, by identifier. */
  class IdentifierIndex {
    /** The key of the global field that holds a node's identifier. */
    const identifierFieldKey: string
    var identifiers: map<Identifier, Node>

    constructor (identifierFieldKey: string)
      ensures this.identifierFieldKey == identifierFieldKey && identifiers == map[]
    {
      this.identifierFieldKey := identifierFieldKey;
      identifiers := map[];
    }

    /** The number of identified nodes. */
    function Size(): (r: nat)
      reads this
      ensures r == |Keys()|
    {
      |identifiers|
    }

    predicate Has(id: Identifier)
      reads this
    {
      id in identifiers
    }

    /** The node with identifier `id`, if any. */
    function Get(id: Identifier): (r: Option<Node>)
      reads this
      ensures r.Some? <==> Has(id)
      ensures r.Some? ==> r.value == identifiers[id]
    {
      if id in identifiers then Some(identifiers[id]) else None
    }

    function Keys(): set<Identifier>
      reads this
    {
      identifiers.Keys
    }

    /**
     * Whether the index is enabled under `schema`; when it is not, every tree
     * indexes to nothing.
     */
    predicate IdentifiersAreInSchema(schema: DocumentSchema)
      ensures !IdentifiersAreInSchema(schema) ==>
        forall root: seq<Node> :: BuildIndex(schema, identifierFieldKey, root) == Ok(map[])
    {
      IdentifierIndexing.IdentifiersAreInSchema(schema, identifierFieldKey)
    }

    /**
     * Rebuild the map from `root`: walk its nodes in pre-order, adding each
     * identified node, and stop with an error at the first identifier seen twice.
     */
    method ScanIdentifiers(schema: DocumentSchema, root: seq<Node>) returns (outcome: Outcome<string>)
      modifies this
      ensures identifiers == IndexAfterScan(schema, identifierFieldKey, root)
      ensures outcome.Pass? <==> BuildIndex(schema, identifierFieldKey, root).Ok?
      ensures outcome.Fail? ==> outcome.error == DuplicateIdentifierError
    {
      identifiers := map[];
      if !IdentifiersAreInSchema(schema) {
        return Pass;
      }
      var nodes := NodesOfForest(root);
      var i := 0;
      while i < |nodes|
        invariant 0 <= i <= |nodes|
        invariant IndexNodes(schema, identifierFieldKey, nodes[..i]) == Ok(identifiers)
      {
        var n := nodes[i];
        TakeOneMore(nodes, i);
        IndexNodesStep(schema, identifierFieldKey, nodes[..i], n, identifiers);
        match IdentifierOf(schema, identifierFieldKey, n) {
          case None =>
          case Some(id) =>
            if id in identifiers {
              IndexingFailsFromPrefix(schema, identifierFieldKey, nodes[..i + 1], nodes[i + 1..]);
              TakeThenDrop(nodes, i + 1);
              identifiers := map[];
              return Fail(DuplicateIdentifierError);
            }
            identifiers := identifiers[id := n];
        }
        i := i + 1;
      }
      assert nodes[..i] == nodes;
      return Pass;
    }
  }

  /** A tree whose root field holds `root`, with its identifier index kept in sync. */
  class TreeView {
    const schema: DocumentSchema
    var root: seq<Node>
    const identifiedNodes: IdentifierIndex

    /** The index holds what a scan of the current tree yields. */
    ghost predicate Valid()
      reads this, identifiedNodes
    {
      identifiedNodes.identifiers == IndexAfterScan(schema, identifiedNodes.identifierFieldKey, root)
    }

    constructor (schema: DocumentSchema, identifierFieldKey: string)
      ensures this.schema == schema && root == [] && identifiedNodes.identifierFieldKey == identifierFieldKey
      ensures fresh(identifiedNodes) && Valid()
    {
      this.schema := schema;
      root := [];
      identifiedNodes := new IdentifierIndex(identifierFieldKey);
      EmptyTreeHasEmptyIndex(schema, identifierFieldKey);
    }

    /** Replace the whole tree by `content`, then rescan. */
    method SetRoot(content: seq<Node>) returns (outcome: Outcome<string>)
      modifies this, identifiedNodes
      ensures root == content && Valid()
      ensures outcome.Pass? <==> BuildIndex(schema, identifiedNodes.identifierFieldKey, content).Ok?
      ensures outcome.Fail? ==> outcome.error == DuplicateIdentifierError
    {
      root := content;
      outcome := identifiedNodes.ScanIdentifiers(schema, root);
    }

    /** `tree.root = undefined`: the tree becomes empty and the index forgets every node. */
    method ClearRoot()
      modifies this, identifiedNodes
      ensures root == [] && Valid()
      ensures identifiedNodes.Size() == 0 && identifiedNodes.Keys() == {}
    {
      var _ := SetRoot([]);
      EmptyTreeHasEmptyIndex(schema, identifiedNodes.identifierFieldKey);
    }

    /**
     * `node.child = content` on the node the index holds under `e.target`:
     * the field is set in the tree, then the index is rescanned. The rescan
     * succeeds exactly when the new content brings no duplicate and no
     * identifier the tree keeps; the index then trades the identifiers below
     * the old field for those of the new content.
     */
    method SetChildField(e: ChildEdit) returns (outcome: Outcome<string>)
      requires Valid() && identifiedNodes.Has(e.target)
      modifies this, identifiedNodes
      ensures root == EditForest(schema, identifiedNodes.identifierFieldKey, e, old(root)) && Valid()
      ensures outcome.Pass? <==> BuildIndex(schema, identifiedNodes.identifierFieldKey, root).Ok?
      ensures var idKey := identifiedNodes.identifierFieldKey;
        var m := old(identifiedNodes.identifiers);
        var kept := m.Keys - Elements(Replaced(schema, idKey, e, m[e.target]));
        var added := Elements(ForestIds(schema, idKey, e.content));
        && (outcome.Pass? <==> NoDuplicates(ForestIds(schema, idKey, e.content)) && added !! kept)
        && (outcome.Pass? ==> identifiedNodes.Keys() == kept + added && identifiedNodes.Has(e.target))
      ensures outcome.Pass? ==>
        FieldContent(identifiedNodes.identifiers[e.target].localFields, e.field) == e.content
    {
      var idKey := identifiedNodes.identifierFieldKey;
      assert BuildIndex(schema, idKey, root).Ok? && IdentifierIndexing.IdentifiersAreInSchema(schema, idKey);
      AttachUpdatesIndex(schema, idKey, root, e);
      var before := root;
      root := EditForest(schema, idKey, e, root);
      outcome := identifiedNodes.ScanIdentifiers(schema, root);
      if outcome.Pass? {
        AttachedContentIsFound(schema, idKey, before, e);
      }
    }

    /**
     * What `size`, `has`, `get` and `keys` of the tree's index say about the
     * tree. When the index is enabled and the tree indexes: one entry per
     * identified node, the keys are the tree's identifiers, and an identifier
     * is present exactly when some node of the tree carries it. `get` only
     * ever gives a node of the tree that carries the identifier asked for.
     * Otherwise the index is empty.
     */
    lemma LookupsMatchTree(id: Identifier)
      requires Valid()
      ensures var key := identifiedNodes.identifierFieldKey;
        IdentifierIndexing.IdentifiersAreInSchema(schema, key) && BuildIndex(schema, key, root).Ok? ==>
          && identifiedNodes.Size() == |ForestIds(schema, key, root)|
          && identifiedNodes.Keys() == Elements(ForestIds(schema, key, root))
          && (identifiedNodes.Has(id) <==> exists n | n in NodesOfForest(root) :: IdentifierOf(schema, key, n) == Some(id))
      ensures var key := identifiedNodes.identifierFieldKey;
        identifiedNodes.Get(id).Some? ==>
          && identifiedNodes.Get(id).value in NodesOfForest(root)
          && IdentifierOf(schema, key, identifiedNodes.Get(id).value) == Some(id)
      ensures var key := identifiedNodes.identifierFieldKey;
        !(IdentifierIndexing.IdentifiersAreInSchema(schema, key) && BuildIndex(schema, key, root).Ok?) ==>
          identifiedNodes.Size() == 0
    {
      var key := identifiedNodes.identifierFieldKey;
      var r := BuildIndex(schema, key, root);
      if IdentifierIndexing.IdentifiersAreInSchema(schema, key) && r.Ok? {
        if n :| n in NodesOfForest(root) && IdentifierOf(schema, key, n) == Some(id) {
          assert id in r.value;
        }
      }
    }
  }
}
