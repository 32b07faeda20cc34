/** A tree shown as a flat table: rows in preorder carry their depth, a branch is the deeper
    rows that follow its row, and opening or closing a branch only hides and shows rows. */
module TreeTable {

  /** What of a row never changes: its depth, whether it belongs to the tree, and whether it
      has a toggle. */
  datatype Row = Row(depth: nat, tree: bool, toggle: bool)

  /** Which toggles are expanded and which rows are hidden. */
  datatype View = View(expanded: seq<bool>, hidden: seq<bool>)

  ghost predicate Fits(rows: seq<Row>, v: View) {
    |v.expanded| == |v.hidden| == |rows|
  }

  /** Row j lies in the branch of row a: every row from the one after a up to j is a tree row
      deeper than a. */
  ghost predicate Under(rows: seq<Row>, a: nat, j: nat) {
    a < j < |rows| && forall k :: a < k <= j ==> rows[k].tree && rows[k].depth > rows[a].depth
  }

  predicate Closed(rows: seq<Row>, expanded: seq<bool>, a: nat)
    requires a < |rows| == |expanded|
  {
    rows[a].toggle && !expanded[a]
  }

  /** Every branch row j lies in, from row `top` on, is open. */
  ghost predicate OpenFrom(rows: seq<Row>, expanded: seq<bool>, top: nat, j: nat)
    requires |rows| == |expanded|
  {
    forall a :: top <= a < j && Under(rows, a, j) ==> !Closed(rows, expanded, a)
  }

  /** A row is shown exactly when every branch it lies in is open. */
  ghost predicate Faithful(rows: seq<Row>, v: View)
    requires Fits(rows, v)
  {
    forall j :: 0 <= j < |rows| ==> (!v.hidden[j] <==> OpenFrom(rows, v.expanded, 0, j))
  }

  /** What a click on row i's toggle shows and hides: closing hides the branch; opening shows
      the rows of the branch that are in no closed branch inside it, and leaves the rest. */
  ghost predicate HiddenAfter(rows: seq<Row>, v: View, i: nat, j: nat)
    requires Fits(rows, v) && i < |rows| && j < |rows|
  {
    if !Under(rows, i, j) then v.hidden[j]
    else if v.expanded[i] then true
    else v.hidden[j] && !OpenFrom(rows, v.expanded, i + 1, j)
  }

  ghost function Toggled(rows: seq<Row>, v: View, i: nat): (r: View)
    requires Fits(rows, v) && i < |rows|
    ensures Fits(rows, r)
  {
    View(v.expanded[i := !v.expanded[i]],
         seq(|rows|, j requires 0 <= j < |rows| => HiddenAfter(rows, v, i, j)))
  }

  class Table {
    const rows: seq<Row>
    const expanded: array<bool>
    const hidden: array<bool>

    ghost predicate Valid()
      reads this
    {
      expanded.Length == hidden.Length == |rows| && expanded != hidden
    }

    ghost function Now(): View
      reads this, expanded, hidden
    {
      View(expanded[..], hidden[..])
    }

    /** All branches expanded, everything shown. */
    constructor (rows: seq<Row>)
      ensures Valid() && fresh(expanded) && fresh(hidden) && this.rows == rows
      ensures Faithful(rows, Now())
    {
      this.rows := rows;
      expanded := new bool[|rows|](_ => true);
      hidden := new bool[|rows|](_ => false);
    }

    /** Walks the rows of the branch; while opening, `collapsedAt` is the depth of the closed
        branch the walk is inside, and its rows are passed over. */
    method ToggleBranch(i: nat)
      requires Valid() && i < |rows|
      modifies expanded, hidden
      ensures Now() == Toggled(rows, old(Now()), i)
    {
      ghost var v := Now();
      var open := !expanded[i];
      expanded[i] := open;
      var base := rows[i].depth;
      var collapsedAt: int := -1;
      var next := i + 1;
      while next < |rows|
        invariant i < next <= |rows|
        invariant expanded[..] == v.expanded[i := open]
        invariant forall k :: i < k < next ==> rows[k].tree && rows[k].depth > base
        invariant forall j :: 0 <= j < |rows| && j < next ==> hidden[j] == HiddenAfter(rows, v, i, j)
        invariant forall j :: next <= j < |rows| ==> hidden[j] == v.hidden[j]
        invariant open ==> CollapsedAt(rows, v.expanded, i, next, collapsedAt)
      {
        var depth := rows[next].depth;
        if !rows[next].tree || depth <= base {
          break;
        }
        assert Under(rows, i, next);
        if !open {
          hidden[next] := true;
        } else {
          PassedOverIff(rows, v.expanded, i, next, collapsedAt);
          if !(collapsedAt >= 0 && depth > collapsedAt) {
            collapsedAt := -1;
            hidden[next] := false;
            if rows[next].toggle && !expanded[next] {
              collapsedAt := depth;
            }
          }
        }
        next := next + 1;
      }
      forall j | next <= j < |rows| ensures !Under(rows, i, j) {
      }
      assert hidden[..] == Toggled(rows, v, i).hidden;
    }
  }

  /** Row a is closed, and every row after it before `next` is deeper. */
  ghost predicate StillClosed(rows: seq<Row>, expanded: seq<bool>, a: nat, next: nat)
    requires |rows| == |expanded| && a < next <= |rows|
  {
    Closed(rows, expanded, a) && forall k :: a < k < next ==> rows[k].depth > rows[a].depth
  }

  /** The walk's note is the depth of the outermost closed branch not yet left, or -1. */
  ghost predicate CollapsedAt(rows: seq<Row>, expanded: seq<bool>, i: nat, next: nat, at: int)
    requires |rows| == |expanded| && i < next <= |rows|
  {
    && (at >= 0 ==> exists c :: i < c < next && rows[c].depth == at && StillClosed(rows, expanded, c, next))
    && (forall a :: i < a < next && StillClosed(rows, expanded, a, next) ==> 0 <= at <= rows[a].depth)
  }

  /** A row is passed over exactly when some branch inside the opened one hides it; and the
      note is right for the next row. */
  lemma PassedOverIff(rows: seq<Row>, expanded: seq<bool>, i: nat, next: nat, at: int)
    requires |rows| == |expanded| && i < next < |rows| && CollapsedAt(rows, expanded, i, next, at)
    requires forall k :: i < k <= next ==> rows[k].tree
    ensures (at >= 0 && rows[next].depth > at) <==> !OpenFrom(rows, expanded, i + 1, next)
    ensures CollapsedAt(rows, expanded, i, next + 1,
                        if at >= 0 && rows[next].depth > at then at
                        else if Closed(rows, expanded, next) then rows[next].depth else -1)
  {
    var n := next + 1;
    forall a | i < a < next && Under(rows, a, next) && Closed(rows, expanded, a) ensures at >= 0 && rows[next].depth > at {
      assert StillClosed(rows, expanded, a, next);
    }
    if at >= 0 && rows[next].depth > at {
      var c :| i < c < next && rows[c].depth == at && StillClosed(rows, expanded, c, next);
      assert Under(rows, c, next);
      assert StillClosed(rows, expanded, c, n);
      forall a | i < a < n && StillClosed(rows, expanded, a, n) ensures at <= rows[a].depth {
        if a < next { assert StillClosed(rows, expanded, a, next); }
      }
    } else {
      forall a | i < a < n && StillClosed(rows, expanded, a, n) ensures Closed(rows, expanded, next) && rows[a].depth >= rows[next].depth {
        if a < next { assert StillClosed(rows, expanded, a, next); }
      }
    }
  }

  // ----- what toggling keeps -----

  lemma UnderTransitive(rows: seq<Row>, a: nat, b: nat, c: nat)
    requires Under(rows, a, b) && Under(rows, b, c)
    ensures Under(rows, a, c)
  {
  }

  /** Two branches that share a row are nested. */
  lemma BranchesNest(rows: seq<Row>, a: nat, b: nat, j: nat)
    requires a < b && Under(rows, a, j) && Under(rows, b, j)
    ensures Under(rows, a, b)
  {
  }

  /** A click on row i keeps the view faithful exactly when the row is shown, or was expanded,
      or has no branch: re-opening a branch never opens a closed one inside it. */
  lemma ToggleKeepsFaithfulIff(rows: seq<Row>, v: View, i: nat)
    requires Fits(rows, v) && i < |rows| && rows[i].toggle && Faithful(rows, v)
    ensures Faithful(rows, Toggled(rows, v, i)) <==>
      !v.hidden[i] || v.expanded[i] || (forall j :: i < j < |rows| ==> !Under(rows, i, j))
  {
    var after := Toggled(rows, v, i);
    if !v.hidden[i] || v.expanded[i] || forall j :: i < j < |rows| ==> !Under(rows, i, j) {
      forall j | 0 <= j < |rows| ensures !after.hidden[j] <==> OpenFrom(rows, after.expanded, 0, j) {
        RowAfterToggle(rows, v, i, j);
      }
    } else {
      var j :| i < j < |rows| && Under(rows, i, j);
      assert Under(rows, i, i + 1);
      assert OpenFrom(rows, v.expanded, i + 1, i + 1);
      assert !OpenFrom(rows, v.expanded, 0, i);
      var a :| 0 <= a < i && Under(rows, a, i) && Closed(rows, v.expanded, a);
      UnderTransitive(rows, a, i, i + 1);
      assert Closed(rows, after.expanded, a) && !after.hidden[i + 1];
    }
  }

  lemma RowAfterToggle(rows: seq<Row>, v: View, i: nat, j: nat)
    requires Fits(rows, v) && i < |rows| && rows[i].toggle && Faithful(rows, v) && j < |rows|
    requires !v.hidden[i] || v.expanded[i] || !Under(rows, i, j)
    ensures !HiddenAfter(rows, v, i, j) <==> OpenFrom(rows, v.expanded[i := !v.expanded[i]], 0, j)
  {
    var expanded := v.expanded[i := !v.expanded[i]];
    if !Under(rows, i, j) {
      assert OpenFrom(rows, expanded, 0, j) == OpenFrom(rows, v.expanded, 0, j);
    } else if v.expanded[i] {
      assert Closed(rows, expanded, i);
    } else {
      assert Closed(rows, v.expanded, i) && v.hidden[j];
      forall a | 0 <= a < i && Under(rows, a, j) ensures !Closed(rows, expanded, a) {
        BranchesNest(rows, a, i, j);
      }
    }
  }

  /** Clicks one after another. */
  ghost function ToggledAll(rows: seq<Row>, v: View, clicks: seq<nat>): (r: View)
    requires Fits(rows, v) && forall k :: 0 <= k < |clicks| ==> clicks[k] < |rows|
    ensures Fits(rows, r)
    decreases |clicks|
  {
    if clicks == [] then v else ToggledAll(rows, Toggled(rows, v, clicks[0]), clicks[1..])
  }

  /** Each click is on the toggle of a row that is shown at the time. */
  ghost predicate ClicksOnShown(rows: seq<Row>, v: View, clicks: seq<nat>)
    requires Fits(rows, v) && forall k :: 0 <= k < |clicks| ==> clicks[k] < |rows|
    decreases |clicks|
  {
    clicks == [] || (!v.hidden[clicks[0]] && rows[clicks[0]].toggle
                     && ClicksOnShown(rows, Toggled(rows, v, clicks[0]), clicks[1..]))
  }

  /** After any clicks on shown rows, over rows of any depths, a row is shown exactly when all
      its ancestors are expanded. */
  lemma {:induction false} ClicksKeepFaithful(rows: seq<Row>, v: View, clicks: seq<nat>)
    requires Fits(rows, v) && Faithful(rows, v) && forall k :: 0 <= k < |clicks| ==> clicks[k] < |rows|
    requires ClicksOnShown(rows, v, clicks)
    ensures Faithful(rows, ToggledAll(rows, v, clicks))
    decreases |clicks|
  {
    if clicks == [] {
    } else {
      ToggleKeepsFaithfulIff(rows, v, clicks[0]);
      ClicksKeepFaithful(rows, Toggled(rows, v, clicks[0]), clicks[1..]);
    }
  }

  /** Closing a shown branch and opening it again gives back exactly what was shown. */
  lemma CloseAndReopen(rows: seq<Row>, v: View, i: nat)
    requires Fits(rows, v) && Faithful(rows, v) && i < |rows| && rows[i].toggle && !v.hidden[i]
    ensures Toggled(rows, Toggled(rows, v, i), i) == v
  {
    var once := Toggled(rows, v, i);
    var twice := Toggled(rows, once, i);
    ToggleKeepsFaithfulIff(rows, v, i);
    assert !Under(rows, i, i);
    ToggleKeepsFaithfulIff(rows, once, i);
    assert twice.expanded == v.expanded;
    assert twice.hidden == v.hidden;
  }
}
