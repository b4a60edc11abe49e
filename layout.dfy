/**
 * A second, non-recursive description of what `_print_recursive` prints:
 * the nodes below a container listed in pre-order, each with its positions
 * from the root and the child counts of its ancestors, and a formula that
 * gives each node's line from that position alone.
 */
module Layout {
  import opened Options
  import opened Decimal
  import opened IndexPath
  import opened TreeModel
  import opened Style
  import opened Renderer

  /**
   * One printed node: `path[k]` is its ancestor's (or, at the end, its own)
   * position among its siblings, `widths[k]` the number of those siblings,
   * `key` its dictionary key when its parent is a dictionary.
   */
  datatype Entry = Entry(path: seq<nat>, widths: seq<nat>, key: Option<string>, node: Value)

  predicate Shaped(e: Entry)
  {
    |e.path| == |e.widths| > 0
  }

  /** `is_last` of every level of a path: the position is the last of its siblings. */
  function LastFlags(path: seq<nat>, widths: seq<nat>): seq<bool>
    requires |path| == |widths|
  {
    seq(|path|, k requires 0 <= k < |path| => path[k] + 1 == widths[k])
  }

  /**
   * The line of a node at depth d = |path| - 1: prefix segments from the
   * last-flags of its d ancestors, the connector from its own last-flag in
   * the colour of depth d, and its positions joined by dots.
   */
  function LineOf(e: Entry): string
    requires Shaped(e)
  {
    var depth := |e.path| - 1;
    var flags := LastFlags(e.path, e.widths);
    ChildLine(Prefix(depth, flags[..depth]), Connector(depth, flags[depth]), JoinDots(e.path), e.key, e.node)
  }

  /**
   * What the start of a node's line should read back as: one flag per
   * ancestor level, then whether the node itself is last.
   */
  function HeadOf(e: Entry): (seq<bool>, bool)
    requires Shaped(e)
  {
    var flags := LastFlags(e.path, e.widths);
    (flags[..|e.path| - 1], flags[|e.path| - 1])
  }

  /**
   * The prefix and connector of a node's line read back to its depth and to
   * the last-flags of its path: the tree's shape is recoverable line by line.
   */
  lemma LineHead(e: Entry)
    requires Shaped(e)
    ensures ParseHead(LineOf(e), 0) == Some(HeadOf(e))
    ensures |HeadOf(e).0| == |e.path| - 1
    ensures HeadOf(e).1 <==> e.path[|e.path| - 1] + 1 == e.widths[|e.path| - 1]
  {
    var depth := |e.path| - 1;
    var flags := LastFlags(e.path, e.widths);
    ChildLineHead(depth, flags[..depth], flags[depth], JoinDots(e.path), e.key, e.node);
    assert flags[..depth][..depth] == flags[..depth];
  }

  /** `f` applied to every entry, in order. */
  function MapLines(f: Entry -> string, es: seq<Entry>): (lines: seq<string>)
    ensures |lines| == |es|
  {
    if es == [] then [] else [f(es[0])] + MapLines(f, es[1..])
  }

  /** LineOf, extended with an empty line for entries no node has. */
  function AnyLine(e: Entry): string
  {
    if Shaped(e) then LineOf(e) else ""
  }

  /** The formula line of every entry, in order. */
  function LinesOf(es: seq<Entry>): (lines: seq<string>)
    requires forall e :: e in es ==> Shaped(e)
    ensures |lines| == |es|
  {
    MapLines(AnyLine, es)
  }

  lemma {:induction false} MapLinesAt(f: Entry -> string, es: seq<Entry>)
    ensures forall k :: 0 <= k < |es| ==> MapLines(f, es)[k] == f(es[k])
  {
    if es != [] {
      MapLinesAt(f, es[1..]);
    }
  }

  /** Line k of LinesOf is the formula line of entry k. */
  lemma LinesOfAt(es: seq<Entry>)
    requires forall e :: e in es ==> Shaped(e)
    ensures forall k :: 0 <= k < |es| ==> LinesOf(es)[k] == LineOf(es[k])
  {
    MapLinesAt(AnyLine, es);
    assert forall k :: 0 <= k < |es| ==> es[k] in es;
  }

  lemma {:induction false} MapLinesAppend(f: Entry -> string, a: seq<Entry>, b: seq<Entry>)
    ensures MapLines(f, a + b) == MapLines(f, a) + MapLines(f, b)
    decreases |a|
  {
    if a != [] {
      assert (a + b)[1..] == a[1..] + b;
      MapLinesAppend(f, a[1..], b);
    } else {
      assert a + b == b;
    }
  }

  /** The nodes strictly below `v`, in the order their lines are printed. */
  function FlatFrom(v: Value, path: seq<nat>, widths: seq<nat>): (es: seq<Entry>)
    requires |path| == |widths|
    ensures forall e :: e in es ==> Shaped(e) && |e.path| > |path| && e.path[..|path|] == path
    decreases v, 1
  {
    if v.Leaf? then [] else FlatChildren(v, 0, path, widths)
  }

  /** Children i, i+1, ... of `v`, each followed by the nodes below it. */
  function FlatChildren(v: Value, i: nat, path: seq<nat>, widths: seq<nat>): (es: seq<Entry>)
    requires |path| == |widths|
    ensures forall e :: e in es ==> Shaped(e) && |e.path| > |path| && e.path[..|path|] == path && e.path[|path|] >= i
    decreases v, 0, Count(v) - i
  {
    if i >= Count(v) then []
    else
      var e := Entry(path + [i], widths + [Count(v)], KeyAt(v, i), ChildAt(v, i));
      assert e.path[..|path|] == path;
      [e] + FlatFrom(e.node, e.path, e.widths) + FlatChildren(v, i + 1, path, widths)
  }

  lemma LastFlagsSnoc(path: seq<nat>, widths: seq<nat>, i: nat, n: nat)
    requires |path| == |widths|
    ensures LastFlags(path + [i], widths + [n]) == LastFlags(path, widths) + [i + 1 == n]
  {
  }

  /** The line FlatChildren gives child i is the line RenderChildren prints for it. */
  lemma ChildLineIsLineOf(v: Value, i: nat, path: seq<nat>, widths: seq<nat>)
    requires |path| == |widths| && i < Count(v)
    ensures
      var e := Entry(path + [i], widths + [Count(v)], KeyAt(v, i), ChildAt(v, i));
      Shaped(e) &&
      LineOf(e) == ChildLine(Prefix(|path|, LastFlags(path, widths)), Connector(|path|, i == Count(v) - 1),
                             RStripDots(PathString(path) + NatToString(i) + "."), KeyAt(v, i), ChildAt(v, i))
  {
    var p', w' := path + [i], widths + [Count(v)];
    LastFlagsSnoc(path, widths, i, Count(v));
    assert LastFlags(p', w')[..|path|] == LastFlags(path, widths);
    PathStringSnoc(path, i);
    ShownIndex(p');
  }

  /**
   * What `_print_recursive` prints for a container at the depth, flags and
   * index string of `path` is exactly the formula line of every node below
   * it, in pre-order.
   */
  lemma {:induction false} RenderIsFlat(v: Value, path: seq<nat>, widths: seq<nat>)
    requires |path| == |widths| && !v.Leaf?
    ensures Render(v, |path|, LastFlags(path, widths), PathString(path)) == LinesOf(FlatFrom(v, path, widths))
    decreases v, 1
  {
    ChildrenAreFlat(v, 0, path, widths);
  }

  lemma {:induction false} ChildrenAreFlat(v: Value, i: nat, path: seq<nat>, widths: seq<nat>)
    requires |path| == |widths|
    ensures RenderChildren(v, i, |path|, LastFlags(path, widths), PathString(path)) == LinesOf(FlatChildren(v, i, path, widths))
    decreases v, 0, Count(v) - i, 2
  {
    if i < Count(v) {
      BlockIsFlat(v, i, path, widths);
    } else {
      PastLastChild(v, i, path, widths);
    }
  }

  /** Past the last child both sides are empty. */
  lemma PastLastChild(v: Value, i: nat, path: seq<nat>, widths: seq<nat>)
    requires |path| == |widths| && i >= Count(v)
    ensures RenderChildren(v, i, |path|, LastFlags(path, widths), PathString(path)) == []
    ensures LinesOf(FlatChildren(v, i, path, widths)) == []
  {
  }

  /** Child i's line and the lines below it, followed by the later children, read as formula lines. */
  lemma BlockIsFlat(v: Value, i: nat, path: seq<nat>, widths: seq<nat>)
    requires |path| == |widths| && i < Count(v)
    ensures RenderChildren(v, i, |path|, LastFlags(path, widths), PathString(path)) == LinesOf(FlatChildren(v, i, path, widths))
    decreases v, 0, Count(v) - i, 1
  {
    ChildrenAreFlat(v, i + 1, path, widths);
    ChildLineIsLineOf(v, i, path, widths);
    SubtreeIsFlat(v, i, path, widths);
    FlatStep(v, i, path, widths);
  }

  /** The lines printed below child i are the formula lines of the nodes below it. */
  lemma {:induction false} SubtreeIsFlat(v: Value, i: nat, path: seq<nat>, widths: seq<nat>)
    requires |path| == |widths| && i < Count(v)
    ensures
      var c := ChildAt(v, i);
      var isLast := i == Count(v) - 1;
      (if c.Leaf? then [] else Render(c, |path| + 1, LastFlags(path, widths) + [isLast], PathString(path) + NatToString(i) + "."))
        == LinesOf(FlatFrom(c, path + [i], widths + [Count(v)]))
    decreases v, 0, Count(v) - i, 0
  {
    var c := ChildAt(v, i);
    LastFlagsSnoc(path, widths, i, Count(v));
    PathStringSnoc(path, i);
    if !c.Leaf? {
      RenderIsFlat(c, path + [i], widths + [Count(v)]);
    }
  }

  /** The formula lines of children i, i+1, ...: child i's, those below it, then the later children's. */
  lemma FlatStep(v: Value, i: nat, path: seq<nat>, widths: seq<nat>)
    requires |path| == |widths| && i < Count(v)
    ensures
      var e := Entry(path + [i], widths + [Count(v)], KeyAt(v, i), ChildAt(v, i));
      LinesOf(FlatChildren(v, i, path, widths))
        == [LineOf(e)] + LinesOf(FlatFrom(e.node, e.path, e.widths)) + LinesOf(FlatChildren(v, i + 1, path, widths))
  {
    var e := Entry(path + [i], widths + [Count(v)], KeyAt(v, i), ChildAt(v, i));
    var below, later := FlatFrom(e.node, e.path, e.widths), FlatChildren(v, i + 1, path, widths);
    assert FlatChildren(v, i, path, widths) == [e] + below + later;
    MapLinesAppend(AnyLine, [e], below);
    MapLinesAppend(AnyLine, [e] + below, later);
  }

  // ----- What the flat list says about the tree -----

  /** One line per node strictly below `v`. */
  lemma {:induction false} FlatCount(v: Value, path: seq<nat>, widths: seq<nat>)
    requires |path| == |widths|
    ensures |FlatFrom(v, path, widths)| == Size(v) - 1
    decreases v, 1
  {
    if !v.Leaf? {
      FlatChildrenCount(v, 0, path, widths);
    }
  }

  lemma {:induction false} FlatChildrenCount(v: Value, i: nat, path: seq<nat>, widths: seq<nat>)
    requires |path| == |widths|
    ensures |FlatChildren(v, i, path, widths)| == SizeFrom(v, i)
    decreases v, 0, Count(v) - i
  {
    if i < Count(v) {
      var c := ChildAt(v, i);
      FlatCount(c, path + [i], widths + [Count(v)]);
      FlatChildrenCount(v, i + 1, path, widths);
    }
  }

  /**
   * Following positions `q` down from `v` passes through containers whose
   * child counts are `ws` and ends at `node`, reached under `key`.
   */
  ghost predicate Locates(v: Value, q: seq<nat>, ws: seq<nat>, key: Option<string>, node: Value)
    decreases q
  {
    && |q| == |ws| > 0
    && q[0] < Count(v)
    && ws[0] == Count(v)
    && if |q| == 1 then key == KeyAt(v, q[0]) && node == ChildAt(v, q[0])
       else Locates(ChildAt(v, q[0]), q[1..], ws[1..], key, node)
  }

  /**
   * Every entry below `v` is a real node of `v`: its positions lead to it and
   * its widths are the child counts met on the way, so its flags say whether
   * each position is the last one in its container's iteration order.
   */
  lemma {:induction false} FlatLocates(v: Value, path: seq<nat>, widths: seq<nat>)
    requires |path| == |widths|
    ensures forall e :: e in FlatFrom(v, path, widths) ==>
      e.widths[..|path|] == widths && Locates(v, e.path[|path|..], e.widths[|path|..], e.key, e.node)
    decreases v, 1
  {
    if !v.Leaf? {
      FlatChildrenLocate(v, 0, path, widths);
    }
  }

  lemma {:induction false} FlatChildrenLocate(v: Value, i: nat, path: seq<nat>, widths: seq<nat>)
    requires |path| == |widths|
    ensures forall e :: e in FlatChildren(v, i, path, widths) ==>
      e.widths[..|path|] == widths && Locates(v, e.path[|path|..], e.widths[|path|..], e.key, e.node)
    decreases v, 0, Count(v) - i
  {
    if i < Count(v) {
      var c := ChildAt(v, i);
      var p', w' := path + [i], widths + [Count(v)];
      var head := Entry(p', w', KeyAt(v, i), c);
      var below := FlatFrom(c, p', w');
      FlatLocates(c, p', w');
      FlatChildrenLocate(v, i + 1, path, widths);
      assert head.path[|path|..] == [i] && head.widths[|path|..] == [Count(v)];
      forall e | e in below
        ensures e.widths[..|path|] == widths && Locates(v, e.path[|path|..], e.widths[|path|..], e.key, e.node)
      {
        var q, ws := e.path[|path|..], e.widths[|path|..];
        assert e.path[..|p'|] == p';
        assert q[0] == i && q[1..] == e.path[|p'|..];
        assert ws[0] == Count(v) && ws[1..] == e.widths[|w'|..];
        assert e.widths[..|path|] == e.widths[..|w'|][..|path|];
      }
      assert FlatChildren(v, i, path, widths) == [head] + below + FlatChildren(v, i + 1, path, widths);
    }
  }

  /** `a` comes before `b` in pre-order: `a` is a proper prefix of `b`, or is smaller where they first differ. */
  predicate LexBefore(a: seq<nat>, b: seq<nat>)
    decreases |a|
  {
    b != [] && (a == [] || a[0] < b[0] || (a[0] == b[0] && LexBefore(a[1..], b[1..])))
  }

  lemma {:induction false} ExtensionAfter(a: seq<nat>, b: seq<nat>)
    requires |a| < |b| && b[..|a|] == a
    ensures LexBefore(a, b)
    decreases |a|
  {
    if a != [] {
      assert a[0] == b[0];
      assert b[1..][..|a| - 1] == a[1..];
      ExtensionAfter(a[1..], b[1..]);
    }
  }

  lemma {:induction false} DivergenceOrders(a: seq<nat>, b: seq<nat>, k: nat)
    requires k < |a| && k < |b| && a[..k] == b[..k] && a[k] < b[k]
    ensures LexBefore(a, b)
    decreases k
  {
    if k > 0 {
      assert a[0] == a[..k][0] == b[..k][0] == b[0];
      assert a[1..][..k - 1] == a[..k][1..] == b[..k][1..] == b[1..][..k - 1];
      DivergenceOrders(a[1..], b[1..], k - 1);
    }
  }

  /** The printed order is strictly increasing in path order, so each node is printed once. */
  ghost predicate PreOrdered(es: seq<Entry>)
  {
    forall x, y :: 0 <= x < y < |es| ==> LexBefore(es[x].path, es[y].path)
  }

  lemma ConcatPreOrdered(a: seq<Entry>, b: seq<Entry>)
    requires PreOrdered(a) && PreOrdered(b)
    requires forall x, y :: 0 <= x < |a| && 0 <= y < |b| ==> LexBefore(a[x].path, b[y].path)
    ensures PreOrdered(a + b)
  {
    forall x, y | 0 <= x < y < |a + b|
      ensures LexBefore((a + b)[x].path, (a + b)[y].path)
    {
      if y < |a| {
      } else if x >= |a| {
        assert (a + b)[x] == b[x - |a|] && (a + b)[y] == b[y - |a|];
      } else {
        assert (a + b)[y] == b[y - |a|];
      }
    }
  }

  /** A node, then the nodes below it, then later blocks, each in order and each before the next. */
  lemma BlockPreOrdered(head: Entry, below: seq<Entry>, later: seq<Entry>)
    requires PreOrdered(below) && PreOrdered(later)
    requires forall y :: 0 <= y < |below| ==> LexBefore(head.path, below[y].path)
    requires forall y :: 0 <= y < |later| ==> LexBefore(head.path, later[y].path)
    requires forall x, y :: 0 <= x < |below| && 0 <= y < |later| ==> LexBefore(below[x].path, later[y].path)
    ensures PreOrdered([head] + below + later)
  {
    ConcatPreOrdered([head], below);
    var first := [head] + below;
    forall x, y | 0 <= x < |first| && 0 <= y < |later|
      ensures LexBefore(first[x].path, later[y].path)
    {
      if x > 0 {
        assert first[x] == below[x - 1];
      }
    }
    ConcatPreOrdered(first, later);
  }

  /**
   * Lines come out in pre-order: a container child's line is followed by the
   * lines of everything below it, and all of them precede the next sibling.
   */
  lemma {:induction false} FlatPreOrder(v: Value, path: seq<nat>, widths: seq<nat>)
    requires |path| == |widths|
    ensures PreOrdered(FlatFrom(v, path, widths))
    decreases v, 1
  {
    if !v.Leaf? {
      FlatChildrenPreOrder(v, 0, path, widths);
    }
  }

  lemma {:induction false} FlatChildrenPreOrder(v: Value, i: nat, path: seq<nat>, widths: seq<nat>)
    requires |path| == |widths|
    ensures PreOrdered(FlatChildren(v, i, path, widths))
    decreases v, 0, Count(v) - i
  {
    if i < Count(v) {
      var c := ChildAt(v, i);
      var p', w' := path + [i], widths + [Count(v)];
      var head := Entry(p', w', KeyAt(v, i), c);
      var below := FlatFrom(c, p', w');
      var later := FlatChildren(v, i + 1, path, widths);
      FlatPreOrder(c, p', w');
      FlatChildrenPreOrder(v, i + 1, path, widths);
      ExtensionsAfter(p', below);
      EarlierBlockFirst(path, i, p', below, later);
      BlockPreOrdered(head, below, later);
      assert FlatChildren(v, i, path, widths) == [head] + below + later;
    }
  }

  /**
   * Child `i` of `path` and everything below it come before every entry
   * of the later children's blocks.
   */
  lemma EarlierBlockFirst(path: seq<nat>, i: nat, head: seq<nat>, below: seq<Entry>, later: seq<Entry>)
    requires head == path + [i]
    requires forall e :: e in below ==> |e.path| > |head| && e.path[..|head|] == head
    requires forall e :: e in later ==> |e.path| > |path| && e.path[..|path|] == path && e.path[|path|] >= i + 1
    ensures forall y :: 0 <= y < |later| ==> LexBefore(head, later[y].path)
    ensures forall x, y :: 0 <= x < |below| && 0 <= y < |later| ==> LexBefore(below[x].path, later[y].path)
  {
    forall y | 0 <= y < |later|
      ensures LexBefore(head, later[y].path)
    {
      assert later[y] in later;
      SiblingOrder(head, later[y].path, path, i);
    }
    forall x, y | 0 <= x < |below| && 0 <= y < |later|
      ensures LexBefore(below[x].path, later[y].path)
    {
      assert below[x] in below && later[y] in later;
      var a := below[x].path;
      assert a[..|path|] == a[..|head|][..|path|] == path && a[|path|] == a[..|head|][|path|] == i;
      SiblingOrder(a, later[y].path, path, i);
    }
  }

  /**
   * Every node of `v` is printed: whatever positions `q` lead through `v` to
   * a node have an entry, with the child counts met on the way and its key.
   */
  lemma {:induction false} FlatComplete(v: Value, path: seq<nat>, widths: seq<nat>,
                                        q: seq<nat>, ws: seq<nat>, key: Option<string>, node: Value)
    requires |path| == |widths| && Locates(v, q, ws, key, node)
    ensures Entry(path + q, widths + ws, key, node) in FlatFrom(v, path, widths)
    decreases |q|
  {
    var j := q[0];
    var p', w' := path + [j], widths + [Count(v)];
    var e := Entry(path + q, widths + ws, key, node);
    if |q| == 1 {
      assert e == Entry(p', w', KeyAt(v, j), ChildAt(v, j));
      ChildInChildren(v, 0, j, path, widths);
    } else {
      assert Locates(ChildAt(v, j), q[1..], ws[1..], key, node);
      FlatComplete(ChildAt(v, j), p', w', q[1..], ws[1..], key, node);
      assert e == Entry(p' + q[1..], w' + ws[1..], key, node);
      SubtreeInChildren(v, 0, j, path, widths, e);
    }
    assert FlatFrom(v, path, widths) == FlatChildren(v, 0, path, widths);
  }

  /** Child j's entry is among the entries of children i, i+1, ... for i <= j. */
  lemma {:induction false} ChildInChildren(v: Value, i: nat, j: nat, path: seq<nat>, widths: seq<nat>)
    requires |path| == |widths| && i <= j < Count(v)
    ensures Entry(path + [j], widths + [Count(v)], KeyAt(v, j), ChildAt(v, j)) in FlatChildren(v, i, path, widths)
    decreases Count(v) - i
  {
    var head := Entry(path + [i], widths + [Count(v)], KeyAt(v, i), ChildAt(v, i));
    var below := FlatFrom(ChildAt(v, i), path + [i], widths + [Count(v)]);
    var later := FlatChildren(v, i + 1, path, widths);
    assert FlatChildren(v, i, path, widths) == [head] + below + later;
    if i < j {
      ChildInChildren(v, i + 1, j, path, widths);
    }
  }

  /** Every entry below child j is among the entries of children i, i+1, ... for i <= j. */
  lemma {:induction false} SubtreeInChildren(v: Value, i: nat, j: nat, path: seq<nat>, widths: seq<nat>, e: Entry)
    requires |path| == |widths| && i <= j < Count(v)
    requires e in FlatFrom(ChildAt(v, j), path + [j], widths + [Count(v)])
    ensures e in FlatChildren(v, i, path, widths)
    decreases Count(v) - i
  {
    if i < j {
      SubtreeInChildren(v, i + 1, j, path, widths, e);
      LaterInChildren(v, i, path, widths, e);
    } else {
      BelowInChildren(v, i, path, widths, e);
    }
  }

  lemma LaterInChildren(v: Value, i: nat, path: seq<nat>, widths: seq<nat>, e: Entry)
    requires |path| == |widths| && i < Count(v)
    requires e in FlatChildren(v, i + 1, path, widths)
    ensures e in FlatChildren(v, i, path, widths)
  {
    var head := Entry(path + [i], widths + [Count(v)], KeyAt(v, i), ChildAt(v, i));
    InConcat(e, [head], FlatFrom(ChildAt(v, i), path + [i], widths + [Count(v)]), FlatChildren(v, i + 1, path, widths));
  }

  lemma BelowInChildren(v: Value, i: nat, path: seq<nat>, widths: seq<nat>, e: Entry)
    requires |path| == |widths| && i < Count(v)
    requires e in FlatFrom(ChildAt(v, i), path + [i], widths + [Count(v)])
    ensures e in FlatChildren(v, i, path, widths)
  {
    var head := Entry(path + [i], widths + [Count(v)], KeyAt(v, i), ChildAt(v, i));
    InConcat(e, [head], FlatFrom(ChildAt(v, i), path + [i], widths + [Count(v)]), FlatChildren(v, i + 1, path, widths));
  }

  lemma InConcat(e: Entry, a: seq<Entry>, b: seq<Entry>, c: seq<Entry>)
    requires e in b || e in c
    ensures e in a + b + c
  {
  }

  /** A node comes before every node below it. */
  lemma ExtensionsAfter(head: seq<nat>, below: seq<Entry>)
    requires forall e :: e in below ==> |e.path| > |head| && e.path[..|head|] == head
    ensures forall y :: 0 <= y < |below| ==> LexBefore(head, below[y].path)
  {
    forall y | 0 <= y < |below|
      ensures LexBefore(head, below[y].path)
    {
      assert below[y] in below;
      ExtensionAfter(head, below[y].path);
    }
  }

  /** A path that branches off at child `i` of `path` comes before one that branches off later. */
  lemma SiblingOrder(a: seq<nat>, b: seq<nat>, path: seq<nat>, i: nat)
    requires |a| > |path| && |b| > |path|
    requires a[..|path|] == path && b[..|path|] == path && a[|path|] == i < b[|path|]
    ensures LexBefore(a, b)
  {
    DivergenceOrders(a, b, |path|);
  }
}
