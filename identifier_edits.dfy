/**
 * Editing an identified tree in place, as values: setting a local field of the
 * node that carries a given identifier (`node.child = ...` on a node obtained
 * from the index), and what that does to the identifiers the tree holds.
 */
module IdentifierEdits {
  import opened Wrappers
  import opened IdentifierIndexing

  /** Replace the content of local field `field` of the node identified by `target` with `content`. */
  datatype ChildEdit = ChildEdit(target: Identifier, field: string, content: seq<Node>)

  // ---------------------------------------------------------------------
  // The edit
  // ---------------------------------------------------------------------

  /** `fields` with field `key` holding `content`: the first field of that key replaced, or a new one appended. */
  function SetField(fields: seq<Field>, key: string, content: seq<Node>): seq<Field> {
    if fields == [] then [Field(key, content)]
    else if fields[0].key == key then [Field(key, content)] + fields[1..]
    else [fields[0]] + SetField(fields[1..], key, content)
  }

  /** `n` after the edit: the target node gets its field set, any other node is edited below. */
  function EditNode(schema: DocumentSchema, idKey: string, e: ChildEdit, n: Node): (r: Node)
    ensures r.typeName == n.typeName && r.value == n.value
    decreases n, 2
  {
    if IdentifierOf(schema, idKey, n) == Some(e.target) then
      n.(localFields := SetField(n.localFields, e.field, e.content))
    else
      n.(globalFields := EditFields(schema, idKey, e, n.globalFields),
         localFields := EditFields(schema, idKey, e, n.localFields))
  }

  function EditFields(schema: DocumentSchema, idKey: string, e: ChildEdit, fields: seq<Field>): seq<Field>
    decreases fields, 1
  {
    if fields == [] then []
    else [Field(fields[0].key, EditForest(schema, idKey, e, fields[0].content))] + EditFields(schema, idKey, e, fields[1..])
  }

  /** The tree `nodes` after the edit. */
  function EditForest(schema: DocumentSchema, idKey: string, e: ChildEdit, nodes: seq<Node>): (r: seq<Node>)
    ensures |r| == |nodes|
    decreases nodes, 0
  {
    if nodes == [] then []
    else [EditNode(schema, idKey, e, nodes[0])] + EditForest(schema, idKey, e, nodes[1..])
  }

  lemma {:induction false} FieldContentOfEdit(schema: DocumentSchema, idKey: string, e: ChildEdit, fields: seq<Field>, key: string)
    ensures FieldContent(EditFields(schema, idKey, e, fields), key)
         == EditForest(schema, idKey, e, FieldContent(fields, key))
    decreases |fields|
  {
    if fields != [] && fields[0].key != key {
      FieldContentOfEdit(schema, idKey, e, fields[1..], key);
    }
  }

  /** The edit never changes the identifier of a node. */
  lemma EditKeepsIdentifier(schema: DocumentSchema, idKey: string, e: ChildEdit, n: Node)
    ensures IdentifierOf(schema, idKey, EditNode(schema, idKey, e, n)) == IdentifierOf(schema, idKey, n)
  {
    if IdentifierOf(schema, idKey, n) != Some(e.target) {
      FieldContentOfEdit(schema, idKey, e, n.globalFields, idKey);
    }
  }

  /** After `SetField`, the field it names holds the new content and every other field is as it was. */
  lemma {:induction false} SetFieldContent(fields: seq<Field>, key: string, content: seq<Node>, other: string)
    ensures FieldContent(SetField(fields, key, content), key) == content
    ensures other != key ==> FieldContent(SetField(fields, key, content), other) == FieldContent(fields, other)
    decreases |fields|
  {
    if fields != [] && fields[0].key != key {
      SetFieldContent(fields[1..], key, content, other);
    }
  }

  /**
   * The node that carries the target, once edited, keeps its identifier and
   * global fields, holds the new content in the edited field, and keeps
   * every other local field.
   */
  lemma EditSetsTargetField(schema: DocumentSchema, idKey: string, e: ChildEdit, n: Node, other: string)
    requires IdentifierOf(schema, idKey, n) == Some(e.target)
    ensures IdentifierOf(schema, idKey, EditNode(schema, idKey, e, n)) == Some(e.target)
    ensures EditNode(schema, idKey, e, n).globalFields == n.globalFields
    ensures FieldContent(EditNode(schema, idKey, e, n).localFields, e.field) == e.content
    ensures other != e.field ==>
      FieldContent(EditNode(schema, idKey, e, n).localFields, other) == FieldContent(n.localFields, other)
  {
    SetFieldContent(n.localFields, e.field, e.content, other);
  }

  /**
   * Editing a tree that holds the target identifier: the edited tree has a
   * node carrying the target whose edited field holds the new content.
   */
  lemma {:induction false} EditedNodeOfNode(schema: DocumentSchema, idKey: string, e: ChildEdit, n: Node) returns (u: Node)
    requires e.target in NodeIds(schema, idKey, n)
    ensures u in NodesOf(EditNode(schema, idKey, e, n))
    ensures IdentifierOf(schema, idKey, u) == Some(e.target)
    ensures FieldContent(u.localFields, e.field) == e.content
    decreases n, 2
  {
    var n' := EditNode(schema, idKey, e, n);
    if IdentifierOf(schema, idKey, n) == Some(e.target) {
      EditSetsTargetField(schema, idKey, e, n, e.field);
      u := n';
    } else {
      assert NodesOf(n') == [n'] + NodesOfFields(n'.globalFields) + NodesOfFields(n'.localFields);
      if e.target in FieldIds(schema, idKey, n.globalFields) {
        u := EditedNodeOfFields(schema, idKey, e, n.globalFields);
      } else {
        u := EditedNodeOfFields(schema, idKey, e, n.localFields);
      }
    }
  }

  lemma {:induction false} EditedNodeOfFields(schema: DocumentSchema, idKey: string, e: ChildEdit, fields: seq<Field>) returns (u: Node)
    requires e.target in FieldIds(schema, idKey, fields)
    ensures u in NodesOfFields(EditFields(schema, idKey, e, fields))
    ensures IdentifierOf(schema, idKey, u) == Some(e.target)
    ensures FieldContent(u.localFields, e.field) == e.content
    decreases fields, 1
  {
    var r := EditFields(schema, idKey, e, fields);
    assert r[0].content == EditForest(schema, idKey, e, fields[0].content);
    assert r[1..] == EditFields(schema, idKey, e, fields[1..]);
    assert NodesOfFields(r) == NodesOfForest(r[0].content) + NodesOfFields(r[1..]);
    if e.target in ForestIds(schema, idKey, fields[0].content) {
      u := EditedNodeOfForest(schema, idKey, e, fields[0].content);
    } else {
      u := EditedNodeOfFields(schema, idKey, e, fields[1..]);
    }
  }

  lemma {:induction false} EditedNodeOfForest(schema: DocumentSchema, idKey: string, e: ChildEdit, nodes: seq<Node>) returns (u: Node)
    requires e.target in ForestIds(schema, idKey, nodes)
    ensures u in NodesOfForest(EditForest(schema, idKey, e, nodes))
    ensures IdentifierOf(schema, idKey, u) == Some(e.target)
    ensures FieldContent(u.localFields, e.field) == e.content
    decreases nodes, 0
  {
    var r := EditForest(schema, idKey, e, nodes);
    assert r[0] == EditNode(schema, idKey, e, nodes[0]);
    assert r[1..] == EditForest(schema, idKey, e, nodes[1..]);
    assert NodesOfForest(r) == NodesOf(r[0]) + NodesOfForest(r[1..]);
    if e.target in NodeIds(schema, idKey, nodes[0]) {
      u := EditedNodeOfNode(schema, idKey, e, nodes[0]);
    } else {
      u := EditedNodeOfForest(schema, idKey, e, nodes[1..]);
    }
  }

  /**
   * Setting a field trades the identifiers of its old content for those of
   * the new one, in place: everything before and after stays.
   */
  lemma {:induction false} SetFieldIds(schema: DocumentSchema, idKey: string, fields: seq<Field>, key: string, content: seq<Node>)
    returns (pre: seq<Identifier>, post: seq<Identifier>)
    ensures FieldIds(schema, idKey, fields) == pre + ForestIds(schema, idKey, FieldContent(fields, key)) + post
    ensures FieldIds(schema, idKey, SetField(fields, key, content)) == pre + ForestIds(schema, idKey, content) + post
    decreases |fields|
  {
    var r := SetField(fields, key, content);
    if fields == [] {
      assert r == [Field(key, content)];
      pre, post := [], [];
      PrependThenSplice([], [], ForestIds(schema, idKey, content), []);
    } else {
      var head := ForestIds(schema, idKey, fields[0].content);
      var rest := FieldIds(schema, idKey, fields[1..]);
      if fields[0].key == key {
        assert r[1..] == fields[1..];
        pre, post := [], rest;
        PrependThenSplice([], [], ForestIds(schema, idKey, content), rest);
        PrependThenSplice([], [], head, rest);
      } else {
        assert r[1..] == SetField(fields[1..], key, content);
        var p, q := SetFieldIds(schema, idKey, fields[1..], key, content);
        PrependThenSplice(head, p, ForestIds(schema, idKey, FieldContent(fields, key)), q);
        PrependThenSplice(head, p, ForestIds(schema, idKey, content), q);
        pre, post := head + p, q;
      }
    }
  }

  /** An edit whose target is not in a tree leaves it as it is. */
  lemma {:induction false} EditNodeAbsent(schema: DocumentSchema, idKey: string, e: ChildEdit, n: Node)
    requires e.target !in NodeIds(schema, idKey, n)
    ensures EditNode(schema, idKey, e, n) == n
    decreases n, 2
  {
    EditFieldsAbsent(schema, idKey, e, n.globalFields);
    EditFieldsAbsent(schema, idKey, e, n.localFields);
  }

  lemma {:induction false} EditFieldsAbsent(schema: DocumentSchema, idKey: string, e: ChildEdit, fields: seq<Field>)
    requires e.target !in FieldIds(schema, idKey, fields)
    ensures EditFields(schema, idKey, e, fields) == fields
    decreases fields, 1
  {
    if fields != [] {
      EditForestAbsent(schema, idKey, e, fields[0].content);
      EditFieldsAbsent(schema, idKey, e, fields[1..]);
    }
  }

  lemma {:induction false} EditForestAbsent(schema: DocumentSchema, idKey: string, e: ChildEdit, nodes: seq<Node>)
    requires e.target !in ForestIds(schema, idKey, nodes)
    ensures EditForest(schema, idKey, e, nodes) == nodes
    decreases nodes, 0
  {
    if nodes != [] {
      EditNodeAbsent(schema, idKey, e, nodes[0]);
      EditForestAbsent(schema, idKey, e, nodes[1..]);
    }
  }

  /** A splice `p + x + q` followed by more identifiers. */
  lemma SpliceThenAppend(p: seq<Identifier>, x: seq<Identifier>, q: seq<Identifier>, b: seq<Identifier>)
    ensures (p + x + q) + b == p + x + (q + b)
  {
  }

  /** A splice `p + x + q` preceded by more identifiers. */
  lemma PrependThenSplice(a: seq<Identifier>, p: seq<Identifier>, x: seq<Identifier>, q: seq<Identifier>)
    ensures a + (p + x + q) == (a + p) + x + q
  {
  }

  /** The identifiers below the field the edit replaces in `t`. */
  function Replaced(schema: DocumentSchema, idKey: string, e: ChildEdit, t: Node): seq<Identifier> {
    ForestIds(schema, idKey, FieldContent(t.localFields, e.field))
  }

  /**
   * Editing a tree in which the target identifier occurs once: the node `t`
   * that carries it is in the tree, and the identifiers below `t`'s field are
   * replaced, in place, by those of the attached content, after the target itself.
   */
  lemma {:induction false} EditNodeIds(schema: DocumentSchema, idKey: string, e: ChildEdit, n: Node)
    returns (t: Node, pre: seq<Identifier>, post: seq<Identifier>)
    requires multiset(NodeIds(schema, idKey, n))[e.target] == 1
    ensures t in NodesOf(n) && IdentifierOf(schema, idKey, t) == Some(e.target)
    ensures e.target in pre
    ensures NodeIds(schema, idKey, n) == pre + Replaced(schema, idKey, e, t) + post
    ensures NodeIds(schema, idKey, EditNode(schema, idKey, e, n)) == pre + ForestIds(schema, idKey, e.content) + post
    decreases n, 2
  {
    var n' := EditNode(schema, idKey, e, n);
    EditKeepsIdentifier(schema, idKey, e, n);
    var own := OwnId(schema, idKey, n);
    var g := FieldIds(schema, idKey, n.globalFields);
    var l := FieldIds(schema, idKey, n.localFields);
    assert multiset(NodeIds(schema, idKey, n)) == multiset(own) + multiset(g) + multiset(l);
    assert NodesOf(n) == [n] + NodesOfFields(n.globalFields) + NodesOfFields(n.localFields);
    if IdentifierOf(schema, idKey, n) == Some(e.target) {
      t := n;
      var p, q := SetFieldIds(schema, idKey, n.localFields, e.field, e.content);
      PrependThenSplice(own + g, p, Replaced(schema, idKey, e, t), q);
      PrependThenSplice(own + g, p, ForestIds(schema, idKey, e.content), q);
      assert n'.globalFields == n.globalFields;
      assert NodeIds(schema, idKey, n') == own + g + FieldIds(schema, idKey, n'.localFields);
      pre, post := own + g + p, q;
    } else {
      assert e.target !in own;
      if e.target in g {
        EditFieldsAbsent(schema, idKey, e, n.localFields);
        var p, q;
        t, p, q := EditFieldsIds(schema, idKey, e, n.globalFields);
        PrependThenSplice(own, p, Replaced(schema, idKey, e, t), q);
        PrependThenSplice(own, p, ForestIds(schema, idKey, e.content), q);
        SpliceThenAppend(own + p, Replaced(schema, idKey, e, t), q, l);
        SpliceThenAppend(own + p, ForestIds(schema, idKey, e.content), q, l);
        assert NodeIds(schema, idKey, n') == own + FieldIds(schema, idKey, n'.globalFields) + l;
        pre, post := own + p, q + l;
      } else {
        EditFieldsAbsent(schema, idKey, e, n.globalFields);
        var p, q;
        t, p, q := EditFieldsIds(schema, idKey, e, n.localFields);
        PrependThenSplice(own + g, p, Replaced(schema, idKey, e, t), q);
        PrependThenSplice(own + g, p, ForestIds(schema, idKey, e.content), q);
        assert NodeIds(schema, idKey, n') == own + g + FieldIds(schema, idKey, n'.localFields);
        pre, post := own + g + p, q;
      }
    }
  }

  lemma {:induction false} EditFieldsIds(schema: DocumentSchema, idKey: string, e: ChildEdit, fields: seq<Field>)
    returns (t: Node, pre: seq<Identifier>, post: seq<Identifier>)
    requires multiset(FieldIds(schema, idKey, fields))[e.target] == 1
    ensures t in NodesOfFields(fields) && IdentifierOf(schema, idKey, t) == Some(e.target)
    ensures e.target in pre
    ensures FieldIds(schema, idKey, fields) == pre + Replaced(schema, idKey, e, t) + post
    ensures FieldIds(schema, idKey, EditFields(schema, idKey, e, fields)) == pre + ForestIds(schema, idKey, e.content) + post
    decreases fields, 1
  {
    var r := EditFields(schema, idKey, e, fields);
    assert r[1..] == EditFields(schema, idKey, e, fields[1..]);
    var a := ForestIds(schema, idKey, fields[0].content);
    var b := FieldIds(schema, idKey, fields[1..]);
    assert multiset(a + b) == multiset(a) + multiset(b);
    var nodesA := NodesOfForest(fields[0].content);
    var nodesB := NodesOfFields(fields[1..]);
    assert NodesOfFields(fields) == nodesA + nodesB;
    if e.target in a {
      EditFieldsAbsent(schema, idKey, e, fields[1..]);
      var p, q;
      t, p, q := EditForestIds(schema, idKey, e, fields[0].content);
      SpliceThenAppend(p, Replaced(schema, idKey, e, t), q, b);
      SpliceThenAppend(p, ForestIds(schema, idKey, e.content), q, b);
      pre, post := p, q + b;
    } else {
      EditForestAbsent(schema, idKey, e, fields[0].content);
      var p, q;
      t, p, q := EditFieldsIds(schema, idKey, e, fields[1..]);
      PrependThenSplice(a, p, Replaced(schema, idKey, e, t), q);
      PrependThenSplice(a, p, ForestIds(schema, idKey, e.content), q);
      pre, post := a + p, q;
    }
  }

  lemma {:induction false} EditForestIds(schema: DocumentSchema, idKey: string, e: ChildEdit, nodes: seq<Node>)
    returns (t: Node, pre: seq<Identifier>, post: seq<Identifier>)
    requires multiset(ForestIds(schema, idKey, nodes))[e.target] == 1
    ensures t in NodesOfForest(nodes) && IdentifierOf(schema, idKey, t) == Some(e.target)
    ensures e.target in pre
    ensures ForestIds(schema, idKey, nodes) == pre + Replaced(schema, idKey, e, t) + post
    ensures ForestIds(schema, idKey, EditForest(schema, idKey, e, nodes)) == pre + ForestIds(schema, idKey, e.content) + post
    decreases nodes, 0
  {
    var r := EditForest(schema, idKey, e, nodes);
    assert r[1..] == EditForest(schema, idKey, e, nodes[1..]);
    var a := NodeIds(schema, idKey, nodes[0]);
    var b := ForestIds(schema, idKey, nodes[1..]);
    assert multiset(a + b) == multiset(a) + multiset(b);
    var nodesA := NodesOf(nodes[0]);
    var nodesB := NodesOfForest(nodes[1..]);
    assert NodesOfForest(nodes) == nodesA + nodesB;
    if e.target in a {
      EditForestAbsent(schema, idKey, e, nodes[1..]);
      var p, q;
      t, p, q := EditNodeIds(schema, idKey, e, nodes[0]);
      SpliceThenAppend(p, Replaced(schema, idKey, e, t), q, b);
      SpliceThenAppend(p, ForestIds(schema, idKey, e.content), q, b);
      pre, post := p, q + b;
    } else {
      EditNodeAbsent(schema, idKey, e, nodes[0]);
      var p, q;
      t, p, q := EditForestIds(schema, idKey, e, nodes[1..]);
      PrependThenSplice(a, p, Replaced(schema, idKey, e, t), q);
      PrependThenSplice(a, p, ForestIds(schema, idKey, e.content), q);
      pre, post := a + p, q;
    }
  }

  // ---------------------------------------------------------------------
  // The index after the edit
  // ---------------------------------------------------------------------

  /** In a sequence without duplicates, an identifier that occurs occurs once. */
  lemma {:induction false} NoDuplicatesOccursOnce(s: seq<Identifier>, x: Identifier)
    requires NoDuplicates(s) && x in s
    ensures multiset(s)[x] == 1
    decreases |s|
  {
    assert s == [s[0]] + s[1..];
    NoDuplicatesAppend([s[0]], s[1..]);
    if x == s[0] {
      assert x !in s[1..];
    } else {
      NoDuplicatesOccursOnce(s[1..], x);
    }
  }

  /**
   * Replacing the middle `x` of a duplicate-free `pre + x + post` by `y`:
   * the result is duplicate-free exactly when `y` is and shares nothing with
   * what is kept, and its elements are those kept plus those of `y`.
   */
  lemma Splice(pre: seq<Identifier>, x: seq<Identifier>, y: seq<Identifier>, post: seq<Identifier>)
    requires NoDuplicates(pre + x + post)
    ensures NoDuplicates(pre + y + post) <==>
      NoDuplicates(y) && Elements(y) !! (Elements(pre + x + post) - Elements(x))
    ensures Elements(pre + y + post) == (Elements(pre + x + post) - Elements(x)) + Elements(y)
  {
    NoDuplicatesAppend(pre + x, post);
    NoDuplicatesAppend(pre, x);
    NoDuplicatesAppend(pre + y, post);
    NoDuplicatesAppend(pre, y);
    var kept := Elements(pre) + Elements(post);
    assert Elements(pre + x + post) - Elements(x) == kept;
    if NoDuplicates(y) && Elements(y) !! kept {
      forall v | v in pre ensures v !in y {
        assert v in kept;
      }
      forall v | v in pre + y ensures v !in post {
        if v in pre {
          assert v in pre + x;
        } else {
          assert v in Elements(y);
        }
      }
    }
    if NoDuplicates(pre + y + post) {
      forall v | v in Elements(y) ensures v !in kept {
        assert v in pre + y;
      }
    }
  }

  /**
   * Setting a field of the node the index finds under `e.target`
   * (`node.child = ...`): the tree can be indexed again exactly when the
   * attached content brings no duplicate and no identifier the tree keeps,
   * and then the index holds the identifiers the tree keeps, the target among
   * them, and those of the attached content, and nothing below the replaced field.
   */
  lemma AttachUpdatesIndex(schema: DocumentSchema, idKey: string, root: seq<Node>, e: ChildEdit)
    requires IdentifiersAreInSchema(schema, idKey)
    requires BuildIndex(schema, idKey, root).Ok? && e.target in BuildIndex(schema, idKey, root).value
    ensures var m := BuildIndex(schema, idKey, root).value;
      var kept := m.Keys - Elements(Replaced(schema, idKey, e, m[e.target]));
      var added := Elements(ForestIds(schema, idKey, e.content));
      var r := BuildIndex(schema, idKey, EditForest(schema, idKey, e, root));
      && (r.Ok? <==> NoDuplicates(ForestIds(schema, idKey, e.content)) && added !! kept)
      && (r.Ok? ==> r.value.Keys == kept + added && e.target in r.value)
  {
    var ids := ForestIds(schema, idKey, root);
    var m := BuildIndex(schema, idKey, root).value;
    assert m.Keys == Elements(ids);
    NoDuplicatesOccursOnce(ids, e.target);
    var t, pre, post := EditForestIds(schema, idKey, e, root);
    assert m[e.target] == t;
    Splice(pre, Replaced(schema, idKey, e, t), ForestIds(schema, idKey, e.content), post);
  }

  /**
   * After `node.child = content` on a node carrying the target, an index of
   * the edited tree that builds finds, under the target, the node whose
   * field now holds `content`.
   */
  lemma AttachedContentIsFound(schema: DocumentSchema, idKey: string, root: seq<Node>, e: ChildEdit)
    requires IdentifiersAreInSchema(schema, idKey)
    requires e.target in ForestIds(schema, idKey, root)
    requires BuildIndex(schema, idKey, EditForest(schema, idKey, e, root)).Ok?
    ensures var r := BuildIndex(schema, idKey, EditForest(schema, idKey, e, root)).value;
      && e.target in r
      && FieldContent(r[e.target].localFields, e.field) == e.content
  {
    var u := EditedNodeOfForest(schema, idKey, e, root);
    var r := BuildIndex(schema, idKey, EditForest(schema, idKey, e, root)).value;
    assert r[e.target] == u;
  }
}
