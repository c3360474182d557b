/**
 * The List widget as the source keeps it (src/tui/List.cpp): an object whose
 * navigation methods move _selectedVisibleIndex with loops. Each method is
 * proved to compute the function of the same name in ListModel.
 */
module Lists {
  import opened Utf8
  import K = KeyCodes
  import opened InputEvents
  import M = ListModel

  class List {
    var items: seq<M.Item>
    var visible: seq<nat>
    var selected: nat
    var scrollOffset: nat
    var filter: Bytes

    function Snapshot(): M.State
      reads this
    {
      M.State(items, visible, selected, scrollOffset, filter)
    }

    predicate WellFormed()
      reads this
    {
      M.WellFormed(Snapshot())
    }

    predicate Valid()
      reads this
    {
      M.Valid(Snapshot())
    }

    constructor(initialItems: seq<M.Item>)
      ensures Snapshot() == M.Initial(initialItems) && Valid()
    {
      items := initialItems;
      visible := [];
      selected := 0;
      scrollOffset := 0;
      filter := [];
      new;
      RebuildVisibleIndices();
    }

    method SetItems(newItems: seq<M.Item>)
      modifies this
      ensures Snapshot() == M.SetItems(old(Snapshot()), newItems) && Valid()
    {
      items := newItems;
      selected := 0;
      scrollOffset := 0;
      RebuildVisibleIndices();
    }

    function SelectedIndex(): nat
      reads this
    {
      M.SelectedIndex(Snapshot())
    }

    method SetSelectedIndex(index: nat)
      modifies this
      ensures Snapshot() == M.SetSelectedIndex(old(Snapshot()), index)
    {
      var i := 0;
      while i < |visible|
        invariant 0 <= i <= |visible| && unchanged(this)
        invariant M.PositionOf(visible, index, 0) == M.PositionOf(visible, index, i)
      {
        if visible[i] == index {
          selected := i;
          return;
        }
        i := i + 1;
      }
    }

    method SetFilter(f: Bytes)
      requires Valid()
      modifies this
      ensures Snapshot() == M.SetFilter(old(Snapshot()), f) && Valid()
    {
      if filter == f {
        return;
      }
      filter := f;
      RebuildVisibleIndices();
    }

    method ClearFilter()
      requires Valid()
      modifies this
      ensures Snapshot() == M.ClearFilter(old(Snapshot())) && Valid()
    {
      SetFilter([]);
    }

    method ProcessEvent(event: InputEvent) returns (action: M.Action)
      requires WellFormed()
      modifies this
      ensures M.Outcome(Snapshot(), action) == M.ProcessEvent(old(Snapshot()), event) && WellFormed()
    {
      match event
      case Key(k) =>
        action := HandleKey(k);
      case _ =>
        action := M.Action.None;
    }

    method HandleKey(key: KeyEvent) returns (action: M.Action)
      requires WellFormed()
      modifies this
      ensures M.Outcome(Snapshot(), action) == M.HandleKey(old(Snapshot()), key) && WellFormed()
    {
      if M.IsVimKey(key, 'j') {
        SelectNext();
        return M.Changed;
      }
      if M.IsVimKey(key, 'k') {
        SelectPrevious();
        return M.Changed;
      }
      if key.key == K.Up {
        SelectPrevious();
        action := M.Changed;
      } else if key.key == K.Down {
        SelectNext();
        action := M.Changed;
      } else if key.key == K.Home {
        SelectFirst();
        action := M.Changed;
      } else if key.key == K.End {
        SelectLast();
        action := M.Changed;
      } else if key.key == K.PageUp {
        PageUp(M.PageSize);
        action := M.Changed;
      } else if key.key == K.PageDown {
        PageDown(M.PageSize);
        action := M.Changed;
      } else if key.key == K.Enter {
        action := M.Action.None;
        if visible != [] {
          var idx := SelectedIndex();
          if items[idx].enabled {
            action := M.Selected;
          }
        }
      } else if key.key == K.Escape {
        action := M.Cancelled;
      } else {
        action := M.Action.None;
      }
    }

    /** The do-while of the source: it moves forward only, so it can never come back to its start. */
    method SelectNext()
      requires WellFormed()
      modifies this
      ensures Snapshot() == M.SelectNext(old(Snapshot())) && WellFormed()
    {
      if visible == [] {
        return;
      }
      var sel: nat := selected;
      while true
        invariant selected <= sel < |visible| && unchanged(this)
        invariant M.ScanForward(items, visible, sel) == M.ScanForward(items, visible, selected)
        decreases |visible| - sel
      {
        if sel < |visible| - 1 {
          sel := sel + 1;
        } else {
          break;
        }
        if items[visible[sel]].enabled {
          break;
        }
      }
      selected := sel;
    }

    method SelectPrevious()
      requires WellFormed()
      modifies this
      ensures Snapshot() == M.SelectPrevious(old(Snapshot())) && WellFormed()
    {
      if visible == [] {
        return;
      }
      var sel: nat := selected;
      while true
        invariant sel <= selected < |visible| && unchanged(this)
        invariant M.ScanBackward(items, visible, sel) == M.ScanBackward(items, visible, selected)
        decreases sel
      {
        if sel > 0 {
          sel := sel - 1;
        } else {
          break;
        }
        if items[visible[sel]].enabled {
          break;
        }
      }
      selected := sel;
    }

    method SelectFirst()
      requires WellFormed()
      modifies this
      ensures Snapshot() == M.SelectFirst(old(Snapshot())) && WellFormed()
    {
      var i := 0;
      while i < |visible|
        invariant 0 <= i <= |visible| && unchanged(this)
        invariant M.FirstEnabled(items, visible, 0) == M.FirstEnabled(items, visible, i)
      {
        if items[visible[i]].enabled {
          selected := i;
          scrollOffset := 0;
          return;
        }
        i := i + 1;
      }
    }

    method SelectLast()
      requires WellFormed()
      modifies this
      ensures Snapshot() == M.SelectLast(old(Snapshot())) && WellFormed()
    {
      var i := |visible|;
      while i > 0
        invariant 0 <= i <= |visible| && unchanged(this)
        invariant M.LastEnabled(items, visible, |visible|) == M.LastEnabled(items, visible, i)
      {
        if items[visible[i - 1]].enabled {
          selected := i - 1;
          return;
        }
        i := i - 1;
      }
    }

    method PageDown(pageSize: int)
      requires WellFormed()
      modifies this
      ensures Snapshot() == M.PageDown(old(Snapshot()), pageSize) && WellFormed()
    {
      var i := 0;
      while i < pageSize
        invariant 0 <= i && (pageSize >= 0 ==> i <= pageSize) && WellFormed()
        invariant M.PageDown(Snapshot(), pageSize - i) == M.PageDown(old(Snapshot()), pageSize)
      {
        SelectNext();
        i := i + 1;
      }
    }

    method PageUp(pageSize: int)
      requires WellFormed()
      modifies this
      ensures Snapshot() == M.PageUp(old(Snapshot()), pageSize) && WellFormed()
    {
      var i := 0;
      while i < pageSize
        invariant 0 <= i && (pageSize >= 0 ==> i <= pageSize) && WellFormed()
        invariant M.PageUp(Snapshot(), pageSize - i) == M.PageUp(old(Snapshot()), pageSize)
      {
        SelectPrevious();
        i := i + 1;
      }
    }

    method RebuildVisibleIndices()
      modifies this
      ensures Snapshot() == M.Rebuild(old(Snapshot()))
    {
      var shown := MatchingPositions(items, filter);
      var first := FirstEnabledPosition(items, shown);
      visible := shown;
      selected := first;
      scrollOffset := 0;
    }

    /** The first loop of rebuildVisibleIndices: the indices of the items that match the filter. */
    method MatchingPositions(all: seq<M.Item>, filter: Bytes) returns (shown: seq<nat>)
      ensures shown == M.Visible(all, filter)
    {
      shown := [];
      var i := 0;
      while i < |all|
        invariant 0 <= i <= |all|
        invariant shown == M.Positions(all, M.Matcher(filter), i)
      {
        if M.MatchesFilter(all[i], filter) {
          shown := shown + [i];
        }
        i := i + 1;
      }
    }

    /** The second loop: the first visible position holding an enabled item, or 0 when there is none. */
    method FirstEnabledPosition(all: seq<M.Item>, shown: seq<nat>) returns (first: nat)
      requires forall k :: 0 <= k < |shown| ==> shown[k] < |all|
      ensures first == match M.FirstEnabled(all, shown, 0) case Some(j) => j case None => 0
    {
      first := 0;
      var j := 0;
      while j < |shown|
        invariant 0 <= j <= |shown| && first == 0
        invariant M.FirstEnabled(all, shown, 0) == M.FirstEnabled(all, shown, j)
      {
        if all[shown[j]].enabled {
          first := j;
          break;
        }
        j := j + 1;
      }
    }

    /** Called before rendering; maxRows is the number of rows the list may use. */
    method EnsureSelectionVisible(maxRows: nat)
      modifies this
      ensures Snapshot() == M.EnsureSelectionVisible(old(Snapshot()), maxRows)
    {
      if visible == [] {
        return;
      }
      if selected < scrollOffset {
        scrollOffset := selected;
      } else if selected >= scrollOffset + maxRows {
        scrollOffset := selected - maxRows + 1;
      }
    }
  }
}
