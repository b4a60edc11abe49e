/**
 * `_print_recursive` (datatree.py:45-131): the lines printed for a value at
 * a given depth, under given ancestor flags and index path. Each `print`
 * becomes one element of the returned sequence.
 */
module Renderer {
  import opened Options
  import opened Decimal
  import opened IndexPath
  import opened TreeModel
  import opened Style

  /** `type_str`: the name in yellow parentheses. */
  function TypeStr(name: string): string
  {
    ParenColor + "(" + IndexColor + name + ParenColor + ")" + Reset
  }

  const ColoredArrow := ArrowColor + ArrowGlyph + Reset

  function ColoredValue(text: string): string
  {
    ValueColor + text + Reset
  }

  /**
   * The line for a child of a container (datatree.py:85, 89, 111, 115).
   * A dictionary child (`key` present) shows its key and its plain type
   * name; a sequence child shows the class/function label instead. A leaf
   * child ends with the arrow and its value; a container child ends with
   * its type.
   */
  function ChildLine(prefix: string, connector: string, shownIndex: string, key: Option<string>, child: Value): string
  {
    var coloredIndex := IndexColor + shownIndex + Reset;
    var typeStr := if key.Some? then TypeStr(child.typeName) else TypeStr(DisplayName(child));
    var head :=
      match key
      case Some(k) => prefix + connector + coloredIndex + " " + (KeyColor + k + Reset) + " " + typeStr
      case None => prefix + connector + coloredIndex + " " + typeStr;
    if child.Leaf? then head + ColoredArrow + ColoredValue(child.text) else head
  }

  /** The line for a value that reaches the fallback branch (datatree.py:118-131). */
  function LeafLine(prefix: string, indent: nat, v: Value): string
    requires v.Leaf?
  {
    prefix + Connector(indent, true) + TypeStr(DisplayName(v)) + ColoredArrow + ColoredValue(v.text)
  }

  /** A child's line is its prefix and connector followed by a line with neither. */
  lemma ChildLineStarts(prefix: string, connector: string, shownIndex: string, key: Option<string>, child: Value)
    ensures ChildLine(prefix, connector, shownIndex, key, child) == prefix + connector + ChildLine("", "", shownIndex, key, child)
  {
    var pc, z := prefix + connector, IndexColor + shownIndex + Reset;
    assert "" + "" + z == z;
    var typeStr := if key.Some? then TypeStr(child.typeName) else TypeStr(DisplayName(child));
    Reassociate(pc, z, " ");
    var z1 := z + " ";
    var head := z1 + typeStr;
    if key.Some? {
      var z2 := z1 + (KeyColor + key.value + Reset);
      Reassociate(pc, z1, KeyColor + key.value + Reset);
      Reassociate(pc, z2, " ");
      head := z2 + " " + typeStr;
      Reassociate(pc, z2 + " ", typeStr);
    } else {
      Reassociate(pc, z1, typeStr);
    }
    if child.Leaf? {
      Reassociate(pc, head, ColoredArrow);
      Reassociate(pc, head + ColoredArrow, ColoredValue(child.text));
    }
  }


  /**
   * Reading back the start of a child's line gives the ancestors' flags and
   * whether the child is last: the connector and the prefix are never
   * confused with what follows them.
   */
  lemma ChildLineHead(indent: nat, isLastList: seq<bool>, isLast: bool, shownIndex: string, key: Option<string>, child: Value)
    requires indent <= |isLastList|
    ensures ParseHead(ChildLine(Prefix(indent, isLastList), Connector(indent, isLast), shownIndex, key, child), 0)
      == Some((isLastList[..indent], isLast))
  {
    ChildLineStarts(Prefix(indent, isLastList), Connector(indent, isLast), shownIndex, key, child);
    HeadRoundTrip(indent, isLastList, isLast, ChildLine("", "", shownIndex, key, child));
  }

  /** A leaf's own line reads back as a last node at its depth. */
  lemma LeafLineHead(indent: nat, isLastList: seq<bool>, v: Value)
    requires v.Leaf? && indent <= |isLastList|
    ensures ParseHead(LeafLine(Prefix(indent, isLastList), indent, v), 0) == Some((isLastList[..indent], true))
  {
    var rest := TypeStr(DisplayName(v)) + ColoredArrow + ColoredValue(v.text);
    assert LeafLine(Prefix(indent, isLastList), indent, v) == Prefix(indent, isLastList) + Connector(indent, true) + rest;
    HeadRoundTrip(indent, isLastList, true, rest);
  }

  /**
   * Everything `_print_recursive(v, indent, isLastList, parentIndex)`
   * prints. A container prints no line for itself, only its children.
   */
  function Render(v: Value, indent: nat, isLastList: seq<bool>, parentIndex: string): seq<string>
    requires |isLastList| == indent
    decreases v, 1
  {
    if v.Leaf? then [LeafLine(Prefix(indent, isLastList), indent, v)]
    else RenderChildren(v, 0, indent, isLastList, parentIndex)
  }

  /**
   * The lines of children i, i+1, ... of a container: each child's line,
   * followed, for a container child, by everything printed one level deeper.
   */
  function RenderChildren(v: Value, i: nat, indent: nat, isLastList: seq<bool>, parentIndex: string): seq<string>
    requires |isLastList| == indent
    decreases v, 0, Count(v) - i
  {
    if i >= Count(v) then []
    else
      var isLast := i == Count(v) - 1;
      var currentIndex := parentIndex + NatToString(i) + ".";
      var child := ChildAt(v, i);
      var line := ChildLine(Prefix(indent, isLastList), Connector(indent, isLast), RStripDots(currentIndex), KeyAt(v, i), child);
      var below := if child.Leaf? then [] else Render(child, indent + 1, isLastList + [isLast], currentIndex);
      [line] + below + RenderChildren(v, i + 1, indent, isLastList, parentIndex)
  }

  /** One step of RenderChildren: child i's line, its subtree, then the later children. */
  lemma ChildrenStep(v: Value, i: nat, indent: nat, isLastList: seq<bool>, parentIndex: string)
    requires |isLastList| == indent && i < Count(v)
    ensures
      var isLast := i == Count(v) - 1;
      var currentIndex := parentIndex + NatToString(i) + ".";
      var child := ChildAt(v, i);
      RenderChildren(v, i, indent, isLastList, parentIndex) ==
        [ChildLine(Prefix(indent, isLastList), Connector(indent, isLast), RStripDots(currentIndex), KeyAt(v, i), child)]
        + (if child.Leaf? then [] else Render(child, indent + 1, isLastList + [isLast], currentIndex))
        + RenderChildren(v, i + 1, indent, isLastList, parentIndex)
  {
  }

  /**
   * `_print_recursive` as written: the prefix loop, then one `enumerate`
   * loop per container shape, printing each child and descending into
   * container children with one more flag and the extended index.
   */
  method PrintRecursive(data: Value, indent: nat, isLastList: seq<bool>, parentIndex: string) returns (out: seq<string>)
    requires |isLastList| == indent
    ensures out == Render(data, indent, isLastList, parentIndex)
    decreases data
  {
    var lineColor := ConnectorColors[indent % |ConnectorColors|];
    var prefix := BuildPrefix(indent, isLastList);
    out := [];
    match data {
      case Dict(_, items) =>
        for i := 0 to |items|
          invariant out + RenderChildren(data, i, indent, isLastList, parentIndex) == Render(data, indent, isLastList, parentIndex)
        {
          var (key, value) := items[i];
          var isLast := i == |items| - 1;
          var connector := if isLast then lineColor + Elbow + Reset else lineColor + Tee + Reset;
          var currentIndex := parentIndex + NatToString(i) + ".";
          var coloredIndex := IndexColor + RStripDots(currentIndex) + Reset;
          var coloredKey := KeyColor + key + Reset;
          var typeStr := TypeStr(value.typeName);
          var line, below;
          if !value.Leaf? {
            line := prefix + connector + coloredIndex + " " + coloredKey + " " + typeStr;
            below := PrintRecursive(value, indent + 1, isLastList + [isLast], currentIndex);
          } else {
            var coloredValue := ValueColor + value.text + Reset;
            line := prefix + connector + coloredIndex + " " + coloredKey + " " + typeStr + ColoredArrow + coloredValue;
            below := [];
          }
          assert line == ChildLine(prefix, connector, RStripDots(currentIndex), Some(key), value);
          EmitChild(out, line, below, data, i, indent, isLastList, parentIndex);
          out := out + [line] + below;
        }
      case Seq(_, elems) =>
        for i := 0 to |elems|
          invariant out + RenderChildren(data, i, indent, isLastList, parentIndex) == Render(data, indent, isLastList, parentIndex)
        {
          var value := elems[i];
          var isLast := i == |elems| - 1;
          var connector := if isLast then lineColor + Elbow + Reset else lineColor + Tee + Reset;
          var currentIndex := parentIndex + NatToString(i) + ".";
          var coloredIndex := IndexColor + RStripDots(currentIndex) + Reset;
          var typeStr;
          if value.Leaf? && value.kind.ClassRef? {
            typeStr := TypeStr("class: " + value.kind.name);
          } else if value.Leaf? && value.kind.FunctionRef? {
            typeStr := TypeStr("function: " + value.kind.name);
          } else {
            typeStr := TypeStr(value.typeName);
          }
          assert typeStr == TypeStr(DisplayName(value));
          var line, below;
          if !value.Leaf? {
            line := prefix + connector + coloredIndex + " " + typeStr;
            below := PrintRecursive(value, indent + 1, isLastList + [isLast], currentIndex);
          } else {
            var coloredValue := ValueColor + value.text + Reset;
            line := prefix + connector + coloredIndex + " " + typeStr + ColoredArrow + coloredValue;
            below := [];
          }
          assert line == ChildLine(prefix, connector, RStripDots(currentIndex), None, value);
          EmitChild(out, line, below, data, i, indent, isLastList, parentIndex);
          out := out + [line] + below;
        }
      case Leaf(_, text, _) =>
        var connector := lineColor + Elbow + Reset;
        var typeStr;
        if data.kind.ClassRef? {
          typeStr := TypeStr("class: " + data.kind.name);
        } else if data.kind.FunctionRef? {
          typeStr := TypeStr("function: " + data.kind.name);
        } else {
          typeStr := TypeStr(data.typeName);
        }
        var coloredValue := ValueColor + text + Reset;
        out := [prefix + connector + typeStr + ColoredArrow + coloredValue];
    }
  }

  /** The loop step of PrintRecursive: emitting child i's line and subtree keeps the invariant. */
  lemma EmitChild(out: seq<string>, line: string, below: seq<string>,
                  v: Value, i: nat, indent: nat, isLastList: seq<bool>, parentIndex: string)
    requires |isLastList| == indent && i < Count(v)
    requires line == ChildLine(Prefix(indent, isLastList), Connector(indent, i == Count(v) - 1),
                               RStripDots(parentIndex + NatToString(i) + "."), KeyAt(v, i), ChildAt(v, i))
    requires below == if ChildAt(v, i).Leaf? then [] else
      Render(ChildAt(v, i), indent + 1, isLastList + [i == Count(v) - 1], parentIndex + NatToString(i) + ".")
    ensures out + [line] + below + RenderChildren(v, i + 1, indent, isLastList, parentIndex)
         == out + RenderChildren(v, i, indent, isLastList, parentIndex)
  {
    ChildrenStep(v, i, indent, isLastList, parentIndex);
    Regroup(out, [line], below, RenderChildren(v, i + 1, indent, isLastList, parentIndex));
  }

  lemma Regroup(a: seq<string>, b: seq<string>, c: seq<string>, d: seq<string>)
    ensures a + b + c + d == a + (b + c + d)
  {
  }
}
