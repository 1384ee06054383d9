/** The console's command history: a recency-ordered list of lines with no two
    equal ignoring case, and the cursor that Up and Down move over it. */
module History {
  import opened Text

  /** Index of the newest entry equal to `s` ignoring case, or -1 when there is
      none: the backwards search of ExecCommand. */
  function LastMatch(h: seq<string>, s: string): (r: int)
    ensures -1 <= r < |h|
    ensures 0 <= r ==> EqualsIgnoreCase(h[r], s)
    ensures forall j :: r < j < |h| ==> !EqualsIgnoreCase(h[j], s)
  {
    if h == [] then -1
    else if EqualsIgnoreCase(h[|h| - 1], s) then |h| - 1
    else LastMatch(h[..|h| - 1], s)
  }

  /** The history after submitting `s`: the newest entry equal to `s` ignoring
      case (if any) is dropped and `s` is appended as typed. */
  function Recorded(h: seq<string>, s: string): (r: seq<string>)
    ensures |r| >= 1 && r[|r| - 1] == s
    ensures |h| <= |r| <= |h| + 1
  {
    var i := LastMatch(h, s);
    (if i < 0 then h else h[..i] + h[i + 1..]) + [s]
  }

  /** No two entries are equal ignoring case. */
  ghost predicate Unique(h: seq<string>) {
    forall i, j :: 0 <= i < j < |h| ==> !EqualsIgnoreCase(h[i], h[j])
  }

  /** Recording removes at most one earlier entry, the newest one equal to `s`
      ignoring case, and keeps every other entry in its order. */
  lemma RecordedShape(h: seq<string>, s: string)
    ensures (forall j :: 0 <= j < |h| ==> !EqualsIgnoreCase(h[j], s)) ==> Recorded(h, s) == h + [s]
    ensures (exists j :: 0 <= j < |h| && EqualsIgnoreCase(h[j], s)) ==>
      exists i :: 0 <= i < |h| && EqualsIgnoreCase(h[i], s) &&
        (forall k :: i < k < |h| ==> !EqualsIgnoreCase(h[k], s)) &&
        Recorded(h, s) == h[..i] + h[i + 1..] + [s]
  {
    var i := LastMatch(h, s);
    if exists j :: 0 <= j < |h| && EqualsIgnoreCase(h[j], s) {
      assert i >= 0;
    }
  }

  /** Recording keeps the history free of case-insensitive duplicates, and
      afterwards the submitted line occurs exactly once, as the newest entry. */
  lemma RecordedUnique(h: seq<string>, s: string)
    requires Unique(h)
    ensures Unique(Recorded(h, s))
    ensures forall j :: 0 <= j < |Recorded(h, s)| - 1 ==> !EqualsIgnoreCase(Recorded(h, s)[j], s)
  {
    var i := LastMatch(h, s);
    var kept := if i < 0 then h else h[..i] + h[i + 1..];
    var r := kept + [s];
    assert r == Recorded(h, s);
    // position of each kept entry in the old history
    assert forall j :: 0 <= j < |kept| ==> kept[j] == h[if i < 0 || j < i then j else j + 1];
    forall j | 0 <= j < |kept|
      ensures !EqualsIgnoreCase(kept[j], s)
    {
      var oj := if i < 0 || j < i then j else j + 1;
      assert kept[j] == h[oj];
      if i >= 0 && oj != i {
        if oj < i { assert !EqualsIgnoreCase(h[oj], h[i]); } else { assert !EqualsIgnoreCase(h[i], h[oj]); }
      }
    }
    forall a, b | 0 <= a < b < |r|
      ensures !EqualsIgnoreCase(r[a], r[b])
    {
      if b == |r| - 1 {
        assert r[b] == s && r[a] == kept[a];
      } else {
        var oa := if i < 0 || a < i then a else a + 1;
        var ob := if i < 0 || b < i then b else b + 1;
        assert r[a] == h[oa] && r[b] == h[ob] && oa < ob;
      }
    }
  }

  // ---------------------------------------------------------------------------
  // Browsing with the arrow keys

  datatype Key = UpArrow | DownArrow

  /** The new cursor after one key press: -1 is the fresh line, 0 the oldest
      entry. Up from the fresh line goes to the newest entry and clamps at the
      oldest; Down moves towards the newest and wraps to the fresh line. */
  function Navigate(pos: int, size: nat, key: Key): (p: int)
    requires -1 <= pos < size
    ensures -1 <= p < size
  {
    match key
    case UpArrow => if pos == -1 then size - 1 else if pos > 0 then pos - 1 else pos
    case DownArrow => if pos == -1 then -1 else if pos + 1 >= size then -1 else pos + 1
  }

  /** Down undoes Up everywhere except at the oldest entry, where Up clamps. */
  lemma DownUndoesUp(pos: int, size: nat)
    requires -1 <= pos < size && pos != 0 && size > 0
    ensures Navigate(Navigate(pos, size, UpArrow), size, DownArrow) == pos
  {
  }

  /** Up undoes Down everywhere except on the fresh line, where Down does nothing. */
  lemma UpUndoesDown(pos: int, size: nat)
    requires 0 <= pos < size
    ensures Navigate(Navigate(pos, size, DownArrow), size, UpArrow) == pos
  {
  }

  /** With history ["a", "b", "c"]: Up, Up, Down, Down from the fresh line
      shows "c", "b", "c" and then the fresh line again. */
  lemma NavigateExample()
    ensures var h := ["a", "b", "c"];
      var p1 := Navigate(-1, |h|, UpArrow);
      var p2 := Navigate(p1, |h|, UpArrow);
      var p3 := Navigate(p2, |h|, DownArrow);
      var p4 := Navigate(p3, |h|, DownArrow);
      h[p1] == "c" && h[p2] == "b" && h[p3] == "c" && p4 == -1
  {
  }
}
