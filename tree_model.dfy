/**
 * The values `print_tree` walks, closed to the three shapes its `isinstance`
 * dispatch tells apart (datatree.py:71, 84, 92, 110).
 */
module TreeModel {
  import opened Options

  /**
   * What `inspect.isclass` / `inspect.isfunction` report for a leaf, with the
   * object's `__name__` (datatree.py:101-106, 122-127).
   */
  datatype LeafKind = Plain | ClassRef(name: string) | FunctionRef(name: string)

  /**
   * `typeName` is `type(x).__name__` ("dict", "list", "tuple", "set", a
   * subclass's own name, "int", "type" for a class, "function", ...).
   * Dict holds the items in insertion order; Seq holds a list, tuple or set
   * in its iteration order; Leaf holds `str(x)` as `text`.
   */
  datatype Value =
    | Dict(typeName: string, items: seq<(string, Value)>)
    | Seq(typeName: string, elems: seq<Value>)
    | Leaf(typeName: string, text: string, kind: LeafKind)

  /** `len(x)` of a container; a leaf has no children. */
  function Count(v: Value): nat
  {
    match v
    case Dict(_, items) => |items|
    case Seq(_, elems) => |elems|
    case Leaf(_, _, _) => 0
  }

  /** The i-th child in iteration order. */
  function ChildAt(v: Value, i: nat): (c: Value)
    requires i < Count(v)
    ensures c < v
  {
    match v
    case Dict(_, items) => items[i].1
    case Seq(_, elems) => elems[i]
  }

  /** The key printed before the i-th child: present for a dictionary only. */
  function KeyAt(v: Value, i: nat): (k: Option<string>)
    requires i < Count(v)
    ensures k.Some? <==> v.Dict?
  {
    match v
    case Dict(_, items) => Some(items[i].0)
    case Seq(_, _) => None
  }

  /** The name inside the parentheses when classes and functions are labelled. */
  function DisplayName(v: Value): string
  {
    if v.Leaf? && v.kind.ClassRef? then "class: " + v.kind.name
    else if v.Leaf? && v.kind.FunctionRef? then "function: " + v.kind.name
    else v.typeName
  }

  /** Number of nodes of the tree, the value itself included. */
  function Size(v: Value): (n: nat)
    ensures n >= 1
    decreases v, 1
  {
    if v.Leaf? then 1 else 1 + SizeFrom(v, 0)
  }

  /** Number of nodes in the subtrees of children i, i+1, ... */
  function SizeFrom(v: Value, i: nat): nat
    decreases v, 0, Count(v) - i
  {
    if i >= Count(v) then 0 else Size(ChildAt(v, i)) + SizeFrom(v, i + 1)
  }
}
