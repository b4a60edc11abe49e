/**
 * The ANSI styling of datatree.py:26-43 and the pieces of a line that depend
 * only on depth: the connector colour, the connector glyph and the
 * indentation prefix (datatree.py:59-68, 75, 95, 119).
 */
module Style {
  import opened Options

  const Reset := "\U{1B}[0m"
  const IndexColor := "\U{1B}[38;5;245m"
  const ParenColor := "\U{1B}[33m"
  const KeyColor := "\U{1B}[38;5;250m"
  const ValueColor := "\U{1B}[96m"
  const ArrowColor := "\U{1B}[37m"

  /** Cyan, magenta, green, blue, red: one per depth, rotating. */
  const ConnectorColors: seq<string> :=
    ["\U{1B}[36m", "\U{1B}[35m", "\U{1B}[32m", "\U{1B}[34m", "\U{1B}[31m"]

  const Tee := "├── "
  const Elbow := "╰── "
  const Pipe := "│   "
  const Blank := "    "
  const ArrowGlyph := " ▶ "

  /** `line_color` for a line at depth `indent`. */
  function ConnectorColor(indent: nat): string
  {
    ConnectorColors[indent % |ConnectorColors|]
  }

  /** The connector of a line: elbow for the last sibling, tee otherwise. */
  function Connector(indent: nat, isLast: bool): string
  {
    ConnectorColor(indent) + (if isLast then Elbow else Tee) + Reset
  }

  /** One prefix segment: a coloured pipe below an ancestor that has later siblings, blank otherwise. */
  function Segment(isLastList: seq<bool>, level: nat): string
  {
    if level < |isLastList| && !isLastList[level] then ConnectorColor(level) + Pipe + Reset
    else Blank
  }

  /** The prefix accumulated by the `for level in range(indent)` loop. */
  function Prefix(indent: nat, isLastList: seq<bool>): string
  {
    if indent == 0 then "" else Prefix(indent - 1, isLastList) + Segment(isLastList, indent - 1)
  }

  /** `prefix` built as datatree.py:63-68 builds it. */
  method BuildPrefix(indent: nat, isLastList: seq<bool>) returns (prefix: string)
    ensures prefix == Prefix(indent, isLastList)
  {
    prefix := "";
    for level := 0 to indent
      invariant prefix == Prefix(level, isLastList)
    {
      if level < |isLastList| && !isLastList[level] {
        prefix := prefix + ConnectorColors[level % |ConnectorColors|] + Pipe + Reset;
      } else {
        prefix := prefix + Blank;
      }
    }
  }

  /** The segments of a prefix from `level` on, in reading order. */
  function PrefixFrom(level: nat, indent: nat, isLastList: seq<bool>): string
    decreases indent - level
  {
    if level >= indent then "" else Segment(isLastList, level) + PrefixFrom(level + 1, indent, isLastList)
  }

  /**
   * Reads a prefix whose first segment is at `level` back into one flag per
   * segment (true for a blank one), accepting a pipe only in the colour of
   * its own level.
   */
  function ParsePrefix(s: string, level: nat): Option<seq<bool>>
    decreases |s|
  {
    if s == [] then Some([])
    else
      var blank := s[0] == ' ';
      var width := if blank then |Blank| else 13;
      var expected := if blank then Blank else ConnectorColor(level) + Pipe + Reset;
      if |s| < width || s[..width] != expected then None
      else match ParsePrefix(s[width..], level + 1)
        case None => None
        case Some(flags) => Some([blank] + flags)
  }

  lemma {:induction false} PrefixFromRoundTrip(level: nat, indent: nat, isLastList: seq<bool>)
    requires level <= indent <= |isLastList|
    ensures ParsePrefix(PrefixFrom(level, indent, isLastList), level) == Some(isLastList[level..indent])
    decreases indent - level
  {
    if level < indent {
      PrefixFromRoundTrip(level + 1, indent, isLastList);
      var rest := PrefixFrom(level + 1, indent, isLastList);
      var seg := Segment(isLastList, level);
      var s := seg + rest;
      assert [isLastList[level]] + isLastList[level + 1..indent] == isLastList[level..indent];
      if isLastList[level] {
        assert s[..|Blank|] == Blank && s[|Blank|..] == rest;
        assert ParsePrefix(s, level) == Some([true] + isLastList[level + 1..indent]);
      } else {
        PipeSegmentShape(level);
        assert s[0] != ' ';
        assert s[..13] == seg && s[13..] == rest;
        assert ParsePrefix(s, level) == Some([false] + isLastList[level + 1..indent]);
      }
    } else {
      assert isLastList[level..indent] == [];
    }
  }

  /** Appending one more level adds its segment at the end. */
  lemma {:induction false} PrefixFromSnoc(level: nat, indent: nat, isLastList: seq<bool>)
    requires level <= indent
    ensures PrefixFrom(level, indent + 1, isLastList) == PrefixFrom(level, indent, isLastList) + Segment(isLastList, indent)
    decreases indent - level
  {
    if level < indent {
      PrefixFromSnoc(level + 1, indent, isLastList);
    }
  }

  /** The loop's left-to-right accumulation reads as segment 0, segment 1, ... */
  lemma {:induction false} PrefixInReadingOrder(indent: nat, isLastList: seq<bool>)
    ensures Prefix(indent, isLastList) == PrefixFrom(0, indent, isLastList)
  {
    if indent > 0 {
      PrefixInReadingOrder(indent - 1, isLastList);
      PrefixFromSnoc(0, indent - 1, isLastList);
    }
  }

  /**
   * The prefix of a line at depth `indent` consists of exactly `indent`
   * segments; segment `level` is a pipe in `ConnectorColors[level % 5]`
   * exactly when the ancestor at that level was not last, blank otherwise.
   */
  lemma PrefixRoundTrip(indent: nat, isLastList: seq<bool>)
    requires indent <= |isLastList|
    ensures ParsePrefix(Prefix(indent, isLastList), 0) == Some(isLastList[..indent])
  {
    PrefixInReadingOrder(indent, isLastList);
    PrefixFromRoundTrip(0, indent, isLastList);
  }

  /**
   * Reads the start of a line whose first prefix segment is at `level`: the
   * prefix segments up to the connector, and whether the connector is the
   * elbow. The depth of the line is the number of flags read.
   */
  function ParseHead(s: string, level: nat): Option<(seq<bool>, bool)>
    decreases |s|
  {
    if s == [] then None
    else if s[0] == ' ' then
      if |s| < |Blank| || s[..|Blank|] != Blank then None
      else match ParseHead(s[|Blank|..], level + 1)
        case None => None
        case Some(head) => Some(([true] + head.0, head.1))
    else if |s| < 13 then None
    else if s[..13] == Connector(level, true) then Some(([], true))
    else if s[..13] == Connector(level, false) then Some(([], false))
    else if s[..13] == ConnectorColor(level) + Pipe + Reset then
      match ParseHead(s[13..], level + 1)
        case None => None
        case Some(head) => Some(([false] + head.0, head.1))
    else None
  }

  /** Connectors and pipe segments are 13 characters and are told apart by their glyph. */
  lemma ConnectorShape(level: nat, isLast: bool)
    ensures |Connector(level, isLast)| == 13 && Connector(level, isLast)[0] != ' '
    ensures Connector(level, isLast) != ConnectorColor(level) + Pipe + Reset
    ensures Connector(level, isLast) != Connector(level, !isLast)
  {
    assert |ConnectorColors[level % 5]| == 5;
    assert Connector(level, isLast)[5] != (ConnectorColor(level) + Pipe + Reset)[5];
    assert Connector(level, isLast)[5] != Connector(level, !isLast)[5];
  }

  /** Reading a connector ends the head, whatever follows it. */
  lemma ParseConnector(level: nat, isLast: bool, rest: string)
    ensures ParseHead(Connector(level, isLast) + rest, level) == Some(([], isLast))
  {
    var s := Connector(level, isLast) + rest;
    ConnectorShape(level, isLast);
    assert s[..13] == Connector(level, isLast);
  }

  /** Reading one prefix segment yields its flag in front of what the rest yields. */
  lemma ParseSegment(level: nat, flag: bool, rest: string)
    ensures ParseHead((if flag then Blank else ConnectorColor(level) + Pipe + Reset) + rest, level)
      == match ParseHead(rest, level + 1)
           case None => None
           case Some(head) => Some(([flag] + head.0, head.1))
  {
    if flag {
      var s := Blank + rest;
      assert s[..|Blank|] == Blank && s[|Blank|..] == rest;
    } else {
      var seg := ConnectorColor(level) + Pipe + Reset;
      var s := seg + rest;
      PipeSegmentShape(level);
      ConnectorShape(level, true);
      ConnectorShape(level, false);
      assert s[..13] == seg && s[13..] == rest;
    }
  }

  lemma HeadStep(level: nat, flag: bool, after: string, tail: string, flags: seq<bool>, isLast: bool)
    requires ParseHead(after + tail, level + 1) == Some((flags, isLast))
    ensures ParseHead((if flag then Blank else ConnectorColor(level) + Pipe + Reset) + after + tail, level)
      == Some(([flag] + flags, isLast))
  {
    var seg := if flag then Blank else ConnectorColor(level) + Pipe + Reset;
    Reassociate(seg, after, tail);
    ParseSegment(level, flag, after + tail);
  }

  lemma {:induction false} HeadFromRoundTrip(level: nat, indent: nat, isLastList: seq<bool>, isLast: bool, rest: string)
    requires level <= indent <= |isLastList|
    ensures ParseHead(PrefixFrom(level, indent, isLastList) + (Connector(indent, isLast) + rest), level)
      == Some((isLastList[level..indent], isLast))
    decreases indent - level
  {
    var tail := Connector(indent, isLast) + rest;
    if level < indent {
      var after := PrefixFrom(level + 1, indent, isLastList);
      HeadFromRoundTrip(level + 1, indent, isLastList, isLast, rest);
      HeadStep(level, isLastList[level], after, tail, isLastList[level + 1..indent], isLast);
      assert PrefixFrom(level, indent, isLastList) == Segment(isLastList, level) + after;
      assert [isLastList[level]] + isLastList[level + 1..indent] == isLastList[level..indent];
    } else {
      assert PrefixFrom(level, indent, isLastList) + tail == tail;
      assert isLastList[level..indent] == [];
      ParseConnector(indent, isLast, rest);
    }
  }

  /**
   * The start of a line tells its depth, whether each ancestor was last
   * (blank segment) or had later siblings (pipe), and whether the node
   * itself is last (elbow) or not (tee), whatever follows the connector.
   */
  lemma HeadRoundTrip(indent: nat, isLastList: seq<bool>, isLast: bool, rest: string)
    requires indent <= |isLastList|
    ensures ParseHead(Prefix(indent, isLastList) + Connector(indent, isLast) + rest, 0) == Some((isLastList[..indent], isLast))
  {
    PrefixInReadingOrder(indent, isLastList);
    HeadFromRoundTrip(0, indent, isLastList, isLast, rest);
    Reassociate(Prefix(indent, isLastList), Connector(indent, isLast), rest);
  }

  lemma Reassociate(a: string, b: string, c: string)
    ensures a + b + c == a + (b + c)
  {
  }

  /** A pipe segment is 13 characters. */
  lemma PipeSegmentShape(level: nat)
    ensures |ConnectorColor(level) + Pipe + Reset| == 13
    ensures (ConnectorColor(level) + Pipe + Reset)[0] != ' '
  {
    assert |ConnectorColors[level % 5]| == 5;
  }

  /** Five consecutive depths never share a colour, and the sixth repeats the first. */
  lemma PaletteRotation(depth: nat)
    ensures |ConnectorColors| == 5
    ensures ConnectorColor(depth + 5) == ConnectorColor(depth)
    ensures forall a, b :: depth <= a < b < depth + 5 ==> ConnectorColor(a) != ConnectorColor(b)
  {
    forall a, b | depth <= a < b < depth + 5
      ensures ConnectorColor(a) != ConnectorColor(b)
    {
      assert a % 5 != b % 5;
      assert ConnectorColor(a)[3] != ConnectorColor(b)[3];
    }
  }
}
