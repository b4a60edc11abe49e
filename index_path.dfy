/**
 * The dotted index path shown on every child line (datatree.py:76-79, 96-98).
 * The recursion carries the path as a string with a trailing dot ("0.2.");
 * each child appends its own position and a dot, and the line shows the
 * string with trailing dots stripped ("0.2.1").
 */
module IndexPath {
  import opened Options
  import opened Decimal

  /** The running `parent_index` string for a path of positions: one "<i>." per level. */
  function PathString(path: seq<nat>): string
  {
    if path == [] then "" else NatToString(path[0]) + "." + PathString(path[1..])
  }

  /** The positions joined by dots, with no trailing dot. */
  function JoinDots(path: seq<nat>): string
    requires path != []
  {
    if |path| == 1 then NatToString(path[0])
    else NatToString(path[0]) + "." + JoinDots(path[1..])
  }

  /** Python's `s.rstrip('.')`: remove every trailing dot and nothing else. */
  function RStripDots(s: string): (r: string)
    ensures |r| <= |s| && r == s[..|r|]
    ensures r == [] || r[|r| - 1] != '.'
    ensures forall k :: |r| <= k < |s| ==> s[k] == '.'
    decreases |s|
  {
    if s != [] && s[|s| - 1] == '.' then RStripDots(s[..|s| - 1]) else s
  }

  /** The first dot of a string that has one. */
  function FirstDot(s: string): (k: nat)
    requires '.' in s
    ensures k < |s| && s[k] == '.'
    ensures forall j :: 0 <= j < k ==> s[j] != '.'
  {
    if s[0] == '.' then 0 else 1 + FirstDot(s[1..])
  }

  /** Reads a shown index back into its positions; None unless it is numerals joined by dots. */
  function ParsePath(s: string): Option<seq<nat>>
    decreases |s|
  {
    if '.' !in s then
      (if IsNumeral(s) then Some([ParseDigits(s)]) else None)
    else
      var k := FirstDot(s);
      if !IsNumeral(s[..k]) then None
      else match ParsePath(s[k + 1..])
        case None => None
        case Some(rest) => Some([ParseDigits(s[..k])] + rest)
  }

  /** A child's `current_index` is its parent's with "<i>." appended. */
  lemma {:induction false} PathStringSnoc(path: seq<nat>, i: nat)
    ensures PathString(path + [i]) == PathString(path) + NatToString(i) + "."
  {
    if path != [] {
      assert (path + [i])[1..] == path[1..] + [i];
      PathStringSnoc(path[1..], i);
    }
  }

  /** The running string of a non-empty path is its shown form plus one dot. */
  lemma {:induction false} PathStringIsJoinDot(path: seq<nat>)
    requires path != []
    ensures PathString(path) == JoinDots(path) + "."
  {
    if |path| > 1 {
      PathStringIsJoinDot(path[1..]);
    }
  }

  /** Stripping the running string leaves exactly the dotted positions, no trailing dot. */
  lemma ShownIndex(path: seq<nat>)
    requires path != []
    ensures RStripDots(PathString(path)) == JoinDots(path)
  {
    PathStringIsJoinDot(path);
    var j := JoinDots(path);
    JoinDotsEndsInDigit(path);
    assert (j + ".")[..|j|] == j;
    assert RStripDots(j + ".") == RStripDots(j);
  }

  lemma {:induction false} JoinDotsEndsInDigit(path: seq<nat>)
    requires path != []
    ensures |JoinDots(path)| > 0 && IsDigit(JoinDots(path)[|JoinDots(path)| - 1])
  {
    if |path| > 1 {
      JoinDotsEndsInDigit(path[1..]);
    }
  }

  /** The shown index names the node's positions exactly: one numeral per level, root-first. */
  lemma {:induction false} ParseShownIndex(path: seq<nat>)
    requires path != []
    ensures ParsePath(JoinDots(path)) == Some(path)
  {
    var head := NatToString(path[0]);
    ParseNatToString(path[0]);
    if |path| == 1 {
      assert forall k :: 0 <= k < |head| ==> head[k] != '.';
      assert '.' !in head;
      assert [path[0]] == path;
    } else {
      assert JoinDots(path) == head + "." + JoinDots(path[1..]);
      SplitAtFirstDot(head, JoinDots(path[1..]));
      ParseShownIndex(path[1..]);
      assert [path[0]] + path[1..] == path;
    }
  }

  /** A numeral followed by a dot: the first dot is right after the numeral. */
  lemma SplitAtFirstDot(head: string, tail: string)
    requires IsNumeral(head)
    ensures var s := head + "." + tail;
      && '.' in s && FirstDot(s) == |head| && s[..|head|] == head && s[|head| + 1..] == tail
  {
    var s := head + "." + tail;
    assert s[|head|] == '.';
    var k := FirstDot(s);
    assert forall j :: 0 <= j < |head| ==> s[j] == head[j] && head[j] != '.';
    assert s[..|head|] == head;
    assert s[|head| + 1..] == tail;
  }
}
