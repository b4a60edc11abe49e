/**
 * `print_tree(data)` (datatree.py:4-134): start the recursion at depth 0
 * with no ancestor flags and an empty index path.
 */
module DataTree {
  import opened Options
  import opened Style
  import opened TreeModel
  import opened Renderer
  import opened Layout

  /** The lines `print_tree(data)` prints, in order. */
  function Tree(data: Value): seq<string>
  {
    Render(data, 0, [], "")
  }

  /**
   * A leaf prints one line; a container prints one line per node below it
   * and none for itself, so `[]` and `{}` print nothing.
   */
  method PrintTree(data: Value) returns (out: seq<string>)
    ensures out == Tree(data)
    ensures |out| == if data.Leaf? then 1 else Size(data) - 1
  {
    out := PrintRecursive(data, 0, [], "");
    TreeLineCount(data);
  }

  /**
   * For a container, line k is the formula line of the k-th node in
   * pre-order; that node's positions and widths lead to it through `data`,
   * the paths increase strictly, so no node is printed twice, and every
   * node below the root has an entry, so every node is printed.
   */
  lemma TreeOfContainer(data: Value)
    requires !data.Leaf?
    ensures
      var es := FlatFrom(data, [], []);
      && Tree(data) == LinesOf(es)
      && (forall k :: 0 <= k < |es| ==> Tree(data)[k] == LineOf(es[k]))
      && PreOrdered(es)
      && (forall e :: e in es ==> Locates(data, e.path, e.widths, e.key, e.node))
      && (forall q, ws, key, node :: Locates(data, q, ws, key, node) ==> Entry(q, ws, key, node) in es)
  {
    var es := FlatFrom(data, [], []);
    RenderIsFlat(data, [], []);
    assert LastFlags([], []) == [];
    LinesOfAt(es);
    FlatPreOrder(data, [], []);
    FlatLocates(data, [], []);
    forall e | e in es
      ensures Locates(data, e.path, e.widths, e.key, e.node)
    {
      assert e.path[0..] == e.path && e.widths[0..] == e.widths;
    }
    forall q, ws, key, node | Locates(data, q, ws, key, node)
      ensures Entry(q, ws, key, node) in es
    {
      FlatComplete(data, [], [], q, ws, key, node);
      assert [] + q == q && [] + ws == ws;
    }
  }

  /**
   * For a container, reading back the start of line k gives the depth of the
   * k-th node in pre-order and, level by level, whether each node on its
   * path is the last child of its container.
   */
  lemma TreeLineHeads(data: Value)
    requires !data.Leaf?
    ensures
      var es := FlatFrom(data, [], []);
      && |Tree(data)| == |es|
      && forall k :: 0 <= k < |es| ==> ParseHead(Tree(data)[k], 0) == Some(HeadOf(es[k]))
  {
    var es := FlatFrom(data, [], []);
    TreeOfContainer(data);
    forall k | 0 <= k < |es|
      ensures ParseHead(Tree(data)[k], 0) == Some(HeadOf(es[k]))
    {
      assert es[k] in es;
      LineHead(es[k]);
    }
  }

  /** One line per node, except that a root container has no line of its own. */
  lemma TreeLineCount(data: Value)
    ensures |Tree(data)| == if data.Leaf? then 1 else Size(data) - 1
  {
    if !data.Leaf? {
      RenderIsFlat(data, [], []);
      assert LastFlags([], []) == [];
      FlatCount(data, [], []);
    }
  }

  /**
   * A leaf at the root prints one line: no prefix, the elbow in the depth-0
   * colour, no index, its (class/function-labelled) type, the arrow and its value.
   */
  lemma TreeOfLeaf(data: Value)
    requires data.Leaf?
    ensures Tree(data) == [ConnectorColors[0] + Elbow + Reset + TypeStr(DisplayName(data)) + ColoredArrow + ColoredValue(data.text)]
  {
    assert Tree(data) == [LeafLine(Prefix(0, []), 0, data)];
    assert Prefix(0, []) == "";
    assert Connector(0, true) == ConnectorColors[0] + Elbow + Reset;
    assert LeafLine("", 0, data) == ConnectorColors[0] + Elbow + Reset + TypeStr(DisplayName(data)) + ColoredArrow + ColoredValue(data.text);
  }

  /**
   * `{ka: x, kb: [y, z]}` with leaves x, y, z (for instance
   * `{"a": 1, "b": [2, 3]}`) prints four lines, for positions 0, 1, 1.0 and
   * 1.1. kb is the dictionary's last key, so its line has the elbow, and so
   * does z's; x's and y's have the tee.
   */
  lemma NestedExample(ka: string, kb: string, x: Value, y: Value, z: Value)
    requires x.Leaf? && y.Leaf? && z.Leaf?
    ensures
      var d := Dict("dict", [(ka, x), (kb, Seq("list", [y, z]))]);
      var es := FlatFrom(d, [], []);
      && es == [Entry([0], [2], Some(ka), x), Entry([1], [2], Some(kb), Seq("list", [y, z])),
                Entry([1, 0], [2, 2], None, y), Entry([1, 1], [2, 2], None, z)]
      && |Tree(d)| == 4
      && (forall k :: 0 <= k < 4 ==> Tree(d)[k] == LineOf(es[k]))
      && LastFlags([0], [2]) == [false] && LastFlags([1], [2]) == [true]
      && LastFlags([1, 0], [2, 2]) == [true, false] && LastFlags([1, 1], [2, 2]) == [true, true]
  {
    var d := Dict("dict", [(ka, x), (kb, Seq("list", [y, z]))]);
    var es := FlatFrom(d, [], []);
    ExampleEntries(ka, kb, x, y, z);
    RenderIsFlat(d, [], []);
    assert LastFlags([], []) == [];
    LinesOfAt(es);
    assert LastFlags([1, 0], [2, 2]) == [true, false] && LastFlags([1, 1], [2, 2]) == [true, true];
  }

  /** The pre-order entries of the example. */
  lemma ExampleEntries(ka: string, kb: string, x: Value, y: Value, z: Value)
    requires x.Leaf? && y.Leaf? && z.Leaf?
    ensures FlatFrom(Dict("dict", [(ka, x), (kb, Seq("list", [y, z]))]), [], [])
      == [Entry([0], [2], Some(ka), x), Entry([1], [2], Some(kb), Seq("list", [y, z])),
          Entry([1, 0], [2, 2], None, y), Entry([1, 1], [2, 2], None, z)]
  {
    var b := Seq("list", [y, z]);
    var d := Dict("dict", [(ka, x), (kb, b)]);
    ExampleInnerEntries(y, z);
    assert Count(d) == 2 && ChildAt(d, 0) == x && ChildAt(d, 1) == b;
    assert KeyAt(d, 0) == Some(ka) && KeyAt(d, 1) == Some(kb);
    assert [] + [1] == [1] && [] + [2] == [2] && [] + [0] == [0];
    assert FlatChildren(d, 2, [], []) == [];
    assert FlatChildren(d, 1, [], []) == [Entry([1], [2], Some(kb), b)] + FlatFrom(b, [1], [2]);
    assert FlatFrom(x, [0], [2]) == [];
    assert FlatChildren(d, 0, [], []) == [Entry([0], [2], Some(ka), x)] + FlatChildren(d, 1, [], []);
  }

  /** The entries below kb in the example. */
  lemma ExampleInnerEntries(y: Value, z: Value)
    requires y.Leaf? && z.Leaf?
    ensures FlatFrom(Seq("list", [y, z]), [1], [2]) == [Entry([1, 0], [2, 2], None, y), Entry([1, 1], [2, 2], None, z)]
  {
    var b := Seq("list", [y, z]);
    assert Count(b) == 2 && ChildAt(b, 0) == y && ChildAt(b, 1) == z && KeyAt(b, 1) == None;
    assert [1] + [1] == [1, 1] && [2] + [2] == [2, 2] && [1] + [0] == [1, 0];
    assert FlatChildren(b, 2, [1], [2]) == [];
    assert FlatFrom(y, [1, 0], [2, 2]) == [] && FlatFrom(z, [1, 1], [2, 2]) == [];
    assert FlatChildren(b, 1, [1], [2]) == [Entry([1, 1], [2, 2], None, z)];
    assert FlatChildren(b, 0, [1], [2]) == [Entry([1, 0], [2, 2], None, y)] + FlatChildren(b, 1, [1], [2]);
  }
}
