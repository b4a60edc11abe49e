# python-data-tree in Dafny

A model of `print_tree` from python-data-tree (`datatree.py`). `print_tree`
prints a nested value (dicts, lists, tuples, sets and anything else as a
leaf) as a coloured tree. Each child gets one line, made of:

- an indentation prefix with one segment per ancestor depth;
- a connector: `├── ` for a child with later siblings, `╰── ` for the last one;
- its dotted, zero-based index path (`1.0`);
- its key (for dictionary children only);
- its type in parentheses;
- for a leaf, ` ▶ ` and the value.

Every piece is wrapped in the program's ANSI colours. The connector colour
rotates through five colours by depth.

The model has three parts:

- **Specification functions.** `Renderer.Render` and
  `Renderer.RenderChildren` give the lines `_print_recursive` prints, and
  `Style.Prefix` gives the indentation prefix.
- **Imperative counterparts.** `Renderer.PrintRecursive` follows the
  source's two `enumerate` loops, and `Style.BuildPrefix` follows its
  `for level in range(indent)` loop. `DataTree.PrintTree` is the entry
  point. Each of these methods is proved equal to its specification
  function.
- **An independent description of the output** (`Layout`). It lists the
  nodes below the root in pre-order, each with its absolute positions and
  the child counts of its ancestors. `Layout.LineOf` computes a node's line
  from those numbers alone.

The central theorem (`Layout.RenderIsFlat`, `DataTree.TreeOfContainer`)
says the recursive printer's output is exactly that list of formula lines.
From it follow:

- the line count;
- pre-order, with every printed node distinct;
- the fact that every printed node is a real node of the input, and that
  every node below the root is printed;
- the tee/elbow choice by "last in iteration order".

Round trips show that the parts of a line are unambiguous:

- the index string parses back to the positions (`IndexPath.ParseShownIndex`);
- the prefix parses back to the ancestor flags (`Style.PrefixRoundTrip`);
- the prefix and connector at the start of every printed line parse back
  to the node's depth and the last-flags of its path (`Style.HeadRoundTrip`,
  `Layout.LineHead`, `DataTree.TreeLineHeads`);
- a decimal position parses back to the number (`Decimal.ParseNatToString`).

Modules, one per file:

- `options.dfy`: `Option`.
- `decimal.dfy`: `str(i)` for a position.
- `index_path.dfy`: the index string and `rstrip('.')`.
- `tree_model.dfy`: the input values.
- `style.dfy`: colours, glyphs, connector and prefix.
- `renderer.dfy`: `_print_recursive`.
- `layout.dfy`: the pre-order description and its theorems.
- `datatree.dfy`: `print_tree`.

### Behaviour worth noting

- **A root container prints no line for itself.** Only its children are
  printed (datatree.py:71-115, 134). So `print_tree([])` and
  `print_tree({})` print nothing, and a root container prints one line per
  node below it. `DataTree.TreeLineCount` states this count.
- **The last key of a dictionary gets the elbow `╰── `**
  (datatree.py:74-75), like the last element of a sequence.
  `DataTree.NestedExample` shows it on a dictionary whose last value is a
  list.

## Model

| member | source | states |
|---|---|---|
| DataTree.PrintTree | datatree.py:4-134 | `print_tree` prints exactly `Tree(data)`: one line for a leaf, and for a container one line per node below it (`Size - 1`), so `[]`/`{}` print nothing |
| DataTree.TreeOfContainer | datatree.py:71-115 | for a container root, line k is the formula line of the k-th node in pre-order, the nodes' paths strictly increase (no node printed twice), every entry's positions lead through the input to that node, under that key, and every node reachable by positions has an entry (every node below the root is printed) |
| DataTree.TreeLineHeads | datatree.py:63-95 | for a container root, the prefix and connector of line k read back to the depth of the k-th node in pre-order and, level by level, to whether each node on its path is the last child of its container |
| DataTree.TreeLineCount | datatree.py:71-131 | a root leaf yields 1 line; a root container yields one line per descendant node and none for itself |
| DataTree.TreeOfLeaf | datatree.py:118-131 | a root leaf prints one line: no prefix, the elbow in the depth-0 colour, no index, the class/function-labelled type, the arrow and the value |
| DataTree.NestedExample | datatree.py:71-115 | `{ka: x, kb: [y, z]}` yields four lines for positions 0, 1, 1.0, 1.1; the last dictionary key and the last list element get the elbow, the others the tee |
| Renderer.Render | datatree.py:45-131 | what one call of the helper prints: nothing of its own for a container, one line per child followed by the child's own output one level deeper; the leaf line for anything else. Characterised by `Layout.RenderIsFlat` |
| Renderer.RenderChildren | datatree.py:71-115 | what the `enumerate` loops print from child i on. Its pre-order is proved by `Layout.FlatPreOrder` and `DataTree.TreeOfContainer` |
| Renderer.ChildLine | datatree.py:84-115 | the f-strings printed for a child: prefix, connector, coloured index, the key for dictionary children, the type, and the arrow and value for a leaf. Its start reads back by `Renderer.ChildLineHead` |
| Renderer.ChildLineHead | datatree.py:63-95 | the start of a child's line parses back to the ancestors' flags and the child's own last-flag, whatever follows the connector |
| Renderer.LeafLine | datatree.py:118-131 | the f-string printed in the fallback branch: prefix, the elbow, the type and the arrow and value |
| Renderer.LeafLineHead | datatree.py:118-131 | the start of a leaf's own line parses back to the ancestors' flags and "last" |
| Renderer.TypeStr | datatree.py:81 | `type_str`: the name in parenthesis-coloured parentheses, the name in the index colour |
| TreeModel.DisplayName | datatree.py:101-106 | the name inside `type_str`: `class: <name>` for a class, `function: <name>` for a function, the type's name otherwise |
| Renderer.PrintRecursive | datatree.py:45-131 | the helper's loops print exactly `Render(data, indent, isLastList, parentIndex)`: per child its line, then (for a container child) everything one level deeper with one more flag and the extended index |
| Style.Connector | datatree.py:75 | `╰── ` for a last child and `├── ` otherwise, in the depth's colour. `Style.ConnectorShape` shows the two and a pipe segment are different 13-character strings |
| Style.ConnectorShape | datatree.py:65-75 | a connector is 13 characters and starts with a colour code, and it differs from the other connector and from the pipe segment of the same depth |
| Style.Segment | datatree.py:65-68 | one prefix segment: a coloured pipe when the ancestor at that level is not last, four blanks when it is (or when the flag list is shorter) |
| Style.HeadRoundTrip | datatree.py:63-75 | reading back prefix + connector + anything gives `isLastList[..indent]` and `isLast`: the depth, every ancestor's flag and the node's own flag are recoverable from its line |
| Style.BuildPrefix | datatree.py:63-68 | the prefix loop builds `Prefix(indent, isLastList)` |
| Style.PrefixRoundTrip | datatree.py:63-68 | the prefix has exactly `indent` segments, segment `level` is a pipe in `ConnectorColors[level % 5]` exactly when `isLastList[level]` is false and four blanks otherwise: reading it back gives `isLastList[..indent]` |
| Style.PaletteRotation | datatree.py:37-60 | the palette has 5 colours; the colour of depth d + 5 is that of depth d, and five consecutive depths have five different colours |
| Decimal.NatToString | datatree.py:76 | `str(i)` of a position is a non-empty run of digits, and it starts with `0` only when it is `"0"` itself |
| Decimal.ParseNatToString | datatree.py:76 | reading `str(i)` back gives `i` |
| IndexPath.RStripDots | datatree.py:79 | `rstrip('.')` returns a prefix of its input that does not end in a dot, and removes only dots |
| IndexPath.PathStringSnoc | datatree.py:76 | a child's `current_index` is its parent's with `"<i>."` appended, so the running string of a path is one `"<p>."` per level |
| IndexPath.ShownIndex | datatree.py:79 | stripping the running index string leaves the positions joined by dots, with no trailing dot |
| IndexPath.ParseShownIndex | datatree.py:76-79 | the shown index of a node parses back to exactly its positions: d + 1 zero-based numerals for depth d |
| TreeModel.ChildAt | datatree.py:73-93 | the i-th child in iteration order is structurally smaller than its container (the recursion terminates on finite input) |
| TreeModel.KeyAt | datatree.py:80-85 | a key is shown exactly for children of dictionaries |
| Layout.RenderIsFlat | datatree.py:71-115 | what the helper prints for a container at a path's depth, flags and index string equals the formula lines of the nodes below it, in pre-order |
| Layout.ChildLineIsLineOf | datatree.py:74-98 | the line the helper prints for child i (prefix from the ancestors' flags, connector from "i is last", stripped index) equals the per-node formula line |
| Layout.FlatComplete | datatree.py:73-115 | every node reached by following valid positions down from a container has an entry below that container's path, with the positions, child counts, key and node found on the way |
| Layout.LineHead | datatree.py:63-75 | the start of a node's formula line reads back to one flag per ancestor level and to whether its last position is the last child |
| Layout.FlatCount | datatree.py:71-115 | there is one entry per node strictly below the container |
| Layout.FlatLocates | datatree.py:73-94 | each entry's positions lead through the input to its node, its widths are the child counts met on the way, and its key is the dictionary key it is stored under |
| Layout.FlatPreOrder | datatree.py:73-115 | the entries' paths are strictly increasing: a node comes before everything below it, and a subtree comes before the next sibling's |
| Layout.FlatFrom | datatree.py:73-115 | every entry below a node at a path extends that path by at least one position |

## Left out

- Printing to standard output (datatree.py:85, 89, 111, 115, 131). Each
  `print` call is one element of the returned `seq<string>`.
- Python reflection and stringification. These are `type(x).__name__`,
  `inspect.isclass`, `inspect.isfunction`, `__name__`, and `str()` of keys
  and values (datatree.py:80-81, 88, 101-106, 114, 122-130). They become
  data carried by the value:
  - `Leaf.typeName` and the container `typeName`;
  - `Leaf.kind` (plain, class or function, with the name);
  - `Leaf.text`;
  - the key string.
- The open `isinstance` dispatch (datatree.py:71, 84, 92, 110) is closed to
  three shapes: mapping, sequence (list/tuple/set) and leaf. A subclass of
  `dict` or `list` is a container whose `typeName` is the subclass's name.
- Set iteration order is whatever order the `Seq` holds. Dictionaries
  are any sequence of key/value pairs, so duplicate keys are not excluded.
- Renderer.PrintRecursive: requires `|isLastList| == indent`. The helper is
  nested inside `print_tree`, and its only calls satisfy this: `print_tree`
  calls it with `[]` at depth 0 (datatree.py:56-57, 134), and each descent
  adds one flag at depth + 1 (datatree.py:86, 112). The precondition is
  checked at every one of these calls. The source's guard
  `level < len(is_last_list)` is still modelled (`Style.Segment`).
- Cycles and recursion depth. The source has no cycle guard; Dafny
  datatypes are finite and acyclic.
- The help text and the `__doc__` reassignment (datatree.py:137-169) are
  documentation.
- `test.py` is a demo script with no assertions or logic of its own.
