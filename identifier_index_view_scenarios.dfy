/**
 * The identifier index tests that drive a tree view: inserting a tree,
 * attaching a child to an identified node, and removing the root.
 */
module IdentifierIndexViewScenarios {
  import opened Wrappers
  import opened IdentifierIndexing
  import opened IdentifierEdits
  import opened IdentifierIndexScenarios
  import opened IdentifierIndexView

  /**
   * The lookups the tests make on a freshly built tree with one identified
   * root: one entry, present, mapped to a node carrying that identifier.
   */
  method LookUpInsertedNode(id: Identifier) returns (size: nat, has: bool, node: Option<Node>, keys: set<Identifier>)
    ensures size == 1 && has && keys == {id}
    ensures node.Some? && IdentifierOf(TestSchema(), IdKey, node.value) == Some(id)
  {
    var view := new TreeView(TestSchema(), IdKey);
    var _ := view.SetRoot([Identified(NumberValue(id), [])]);
    InsertedNodeIsFound(id);
    size := view.identifiedNodes.Size();
    has := view.identifiedNodes.Has(id);
    node := view.identifiedNodes.Get(id);
    keys := view.identifiedNodes.Keys();
  }

  /** A child with a fresh identifier attached under an identified root is found, and the root stays. */
  method InsertOverTime(idA: Identifier, idB: Identifier) returns (outcome: Outcome<string>, index: map<Identifier, Node>)
    requires idA != idB
    ensures outcome == Pass
    ensures Matches(TestSchema(), IdKey, index, [idA, idB])
  {
    var view := new TreeView(TestSchema(), IdKey);
    var _ := view.SetRoot([Identified(NumberValue(idA), [])]);
    InsertedNodeIsFound(idA);
    AttachedChildIsFound(idA, idB);
    outcome := view.SetChildField(ChildEdit(idA, "child", [Identified(NumberValue(idB), [])]));
    index := view.identifiedNodes.identifiers;
  }

  /** After `tree.root = undefined`, a tree that held an identified node has an empty index. */
  method ForgetDeletedNodes(id: Identifier) returns (before: set<Identifier>, after: map<Identifier, Node>)
    ensures before == {id}
    ensures after == map[]
  {
    var view := new TreeView(TestSchema(), IdKey);
    var _ := view.SetRoot([Identified(NumberValue(id), [])]);
    InsertedNodeIsFound(id);
    before := view.identifiedNodes.Keys();
    view.ClearRoot();
    after := view.identifiedNodes.identifiers;
  }
}
