/**
 * The selectable, filterable list of src/tui/List.cpp as functions on its
 * state: which items are visible under a filter, where the selection goes
 * for each navigation operation, and what each key does.
 */
module ListModel {
  import opened Utf8
  import opened Options
  import K = KeyCodes
  import Mod = Modifiers
  import opened InputEvents

  datatype Item = Item(labelText: Bytes, description: Bytes, filterText: Bytes, enabled: bool)

  datatype Action = None | Changed | Selected | Cancelled

  /**
   * items; the indices of the items that match the filter; the selected
   * position inside visible; the first position shown; the filter.
   */
  datatype State = State(items: seq<Item>, visible: seq<nat>, selected: nat, scrollOffset: nat, filter: Bytes)

  datatype Outcome = Outcome(state: State, action: Action)

  /** Rows moved by PageUp and PageDown. */
  const PageSize := 10

  // ---------------------------------------------------------------------------
  // Filtering

  /** std::tolower in the "C" locale. */
  function LowerByte(c: Byte): Byte
  {
    if 'A' <= c <= 'Z' then (c as int + 32) as char else c
  }

  /** toLower: the loop of the source, byte by byte. */
  function ToLower(s: Bytes): (r: Bytes)
    ensures |r| == |s|
  {
    if s == [] then [] else [LowerByte(s[0])] + ToLower(s[1..])
  }

  predicate OccursAt(hay: Bytes, needle: Bytes, i: nat)
  {
    i + |needle| <= |hay| && hay[i..i + |needle|] == needle
  }

  /** std::string::find(needle, from): the first position from `from` on where needle occurs. */
  function Find(hay: Bytes, needle: Bytes, from: nat): (r: Option<nat>)
    decreases |hay| - from
    ensures r.Some? ==> from <= r.value && OccursAt(hay, needle, r.value)
    ensures r.Some? ==> forall j :: from <= j < r.value ==> !OccursAt(hay, needle, j)
    ensures r.None? ==> forall j :: from <= j ==> !OccursAt(hay, needle, j)
  {
    if from + |needle| > |hay| then Option.None
    else if hay[from..from + |needle|] == needle then Some(from)
    else Find(hay, needle, from + 1)
  }

  /** find(needle) != npos. */
  predicate Contains(hay: Bytes, needle: Bytes)
  {
    Find(hay, needle, 0).Some?
  }

  predicate ContainsIgnoreCase(hay: Bytes, needle: Bytes)
  {
    needle == [] || Contains(ToLower(hay), ToLower(needle))
  }

  /** The text the filter is matched against: filterText, or the label when that is empty. */
  function FilterKey(item: Item): Bytes
  {
    if item.filterText == [] then item.labelText else item.filterText
  }

  predicate MatchesFilter(item: Item, filter: Bytes)
  {
    filter == [] || ContainsIgnoreCase(FilterKey(item), filter)
  }

  predicate StrictlyIncreasing(s: seq<nat>)
  {
    forall i, j :: 0 <= i < j < |s| ==> s[i] < s[j]
  }

  /** The test rebuildVisibleIndices applies to each item. */
  function Matcher(filter: Bytes): Item -> bool
  {
    item => MatchesFilter(item, filter)
  }

  /** The indices below n of the items that pass keep, in increasing order. */
  function Positions(items: seq<Item>, keep: Item -> bool, n: nat): (r: seq<nat>)
    requires n <= |items|
    ensures StrictlyIncreasing(r)
    ensures forall k :: 0 <= k < |r| ==> r[k] < n
  {
    if n == 0 then []
    else
      var prefix := Positions(items, keep, n - 1);
      if keep(items[n - 1]) then prefix + [n - 1] else prefix
  }

  /** An index is listed exactly when its item passes keep. */
  lemma {:induction false} PositionsExact(items: seq<Item>, keep: Item -> bool, n: nat)
    requires n <= |items|
    ensures forall i :: 0 <= i < n ==> (i in Positions(items, keep, n) <==> keep(items[i]))
  {
    if n > 0 {
      PositionsExact(items, keep, n - 1);
      var prefix := Positions(items, keep, n - 1);
      assert n - 1 !in prefix;
      if keep(items[n - 1]) {
        assert Positions(items, keep, n) == prefix + [n - 1];
      } else {
        assert Positions(items, keep, n) == prefix;
      }
    }
  }

  /** _visibleIndices for the given items and filter. */
  function Visible(items: seq<Item>, filter: Bytes): seq<nat>
  {
    Positions(items, Matcher(filter), |items|)
  }

  /** The visible indices are increasing, and an index is visible exactly when its item matches the filter. */
  lemma VisibleExact(items: seq<Item>, filter: Bytes)
    ensures StrictlyIncreasing(Visible(items, filter))
    ensures forall i :: i in Visible(items, filter) <==> 0 <= i < |items| && MatchesFilter(items[i], filter)
  {
    PositionsExact(items, Matcher(filter), |items|);
  }

  // ---------------------------------------------------------------------------
  // State

  /** Position j of visible shows an enabled item. */
  predicate EnabledAt(items: seq<Item>, visible: seq<nat>, j: int)
  {
    0 <= j < |visible| && visible[j] < |items| && items[visible[j]].enabled
  }

  /** Every visible position names an item, and the selection is a visible position (0 when none is). */
  predicate WellFormed(s: State)
  {
    && (forall k :: 0 <= k < |s.visible| ==> s.visible[k] < |s.items|)
    && (s.visible == [] ==> s.selected == 0)
    && (s.visible != [] ==> s.selected < |s.visible|)
  }

  /** The object invariant: besides WellFormed, visible lists exactly the items the filter matches. */
  predicate Valid(s: State)
  {
    WellFormed(s) && s.visible == Visible(s.items, s.filter)
  }

  /** The first position from `from` on that shows an enabled item. */
  function FirstEnabled(items: seq<Item>, visible: seq<nat>, from: nat): (r: Option<nat>)
    decreases |visible| - from
    ensures r.Some? ==> from <= r.value && EnabledAt(items, visible, r.value)
    ensures r.Some? ==> forall k :: from <= k < r.value ==> !EnabledAt(items, visible, k)
    ensures r.None? ==> forall k :: from <= k < |visible| ==> !EnabledAt(items, visible, k)
  {
    if from >= |visible| then Option.None
    else if EnabledAt(items, visible, from) then Some(from)
    else FirstEnabled(items, visible, from + 1)
  }

  /** The last position below n that shows an enabled item. */
  function LastEnabled(items: seq<Item>, visible: seq<nat>, n: nat): (r: Option<nat>)
    requires n <= |visible|
    ensures r.Some? ==> r.value < n && EnabledAt(items, visible, r.value)
    ensures r.Some? ==> forall k :: r.value < k < n ==> !EnabledAt(items, visible, k)
    ensures r.None? ==> forall k :: 0 <= k < n ==> !EnabledAt(items, visible, k)
  {
    if n == 0 then Option.None
    else if EnabledAt(items, visible, n - 1) then Some(n - 1)
    else LastEnabled(items, visible, n - 1)
  }

  /**
   * rebuildVisibleIndices: refilter, scroll to the top, and select the first
   * enabled visible item, or position 0 when no visible item is enabled.
   */
  function Rebuild(s: State): (r: State)
    ensures Valid(r)
    ensures r.items == s.items && r.filter == s.filter && r.scrollOffset == 0
    ensures || (EnabledAt(r.items, r.visible, r.selected) && forall k :: 0 <= k < r.selected ==> !EnabledAt(r.items, r.visible, k))
            || (r.selected == 0 && forall k :: 0 <= k < |r.visible| ==> !EnabledAt(r.items, r.visible, k))
  {
    var visible := Visible(s.items, s.filter);
    s.(visible := visible,
       selected := match FirstEnabled(s.items, visible, 0) case Some(j) => j case None => 0,
       scrollOffset := 0)
  }

  /** List(items); List() is the same with no items. */
  function Initial(items: seq<Item>): State
  {
    Rebuild(State(items, [], 0, 0, []))
  }

  function SetItems(s: State, items: seq<Item>): State
  {
    Rebuild(s.(items := items, selected := 0, scrollOffset := 0))
  }

  function SetFilter(s: State, filter: Bytes): State
  {
    if s.filter == filter then s else Rebuild(s.(filter := filter))
  }

  function ClearFilter(s: State): State
  {
    SetFilter(s, [])
  }

  function SelectedIndex(s: State): nat
  {
    if s.visible == [] || s.selected >= |s.visible| then 0 else s.visible[s.selected]
  }

  function SelectedItem(s: State): (r: Option<Item>)
    requires WellFormed(s)
    ensures r.None? <==> s.visible == []
    ensures r.Some? ==> SelectedIndex(s) < |s.items| && r.value == s.items[SelectedIndex(s)]
  {
    if s.visible == [] || s.selected >= |s.visible| then Option.None else Some(s.items[s.visible[s.selected]])
  }

  // ---------------------------------------------------------------------------
  // Navigation

  /**
   * The do-while of selectNext: step forward until an enabled item or the
   * last position; it never wraps.
   */
  function ScanForward(items: seq<Item>, visible: seq<nat>, sel: nat): (r: nat)
    requires sel < |visible|
    decreases |visible| - sel
    ensures sel <= r < |visible|
    ensures forall j :: sel < j < r ==> !EnabledAt(items, visible, j)
    ensures r == |visible| - 1 || (r > sel && EnabledAt(items, visible, r))
  {
    if sel < |visible| - 1 then
      if EnabledAt(items, visible, sel + 1) then sel + 1 else ScanForward(items, visible, sel + 1)
    else sel
  }

  /** The do-while of selectPrevious: step back until an enabled item or position 0. */
  function ScanBackward(items: seq<Item>, visible: seq<nat>, sel: nat): (r: nat)
    requires sel < |visible|
    ensures r <= sel
    ensures forall j :: r < j < sel ==> !EnabledAt(items, visible, j)
    ensures r == 0 || (r < sel && EnabledAt(items, visible, r))
  {
    if sel > 0 then
      if EnabledAt(items, visible, sel - 1) then sel - 1 else ScanBackward(items, visible, sel - 1)
    else sel
  }

  function SelectNext(s: State): State
    requires WellFormed(s)
  {
    if s.visible == [] then s else s.(selected := ScanForward(s.items, s.visible, s.selected))
  }

  function SelectPrevious(s: State): State
    requires WellFormed(s)
  {
    if s.visible == [] then s else s.(selected := ScanBackward(s.items, s.visible, s.selected))
  }

  function SelectFirst(s: State): State
  {
    match FirstEnabled(s.items, s.visible, 0)
    case Some(j) => s.(selected := j, scrollOffset := 0)
    case None => s
  }

  function SelectLast(s: State): State
  {
    match LastEnabled(s.items, s.visible, |s.visible|)
    case Some(j) => s.(selected := j)
    case None => s
  }

  /** pageDown(pageSize): selectNext, pageSize times. */
  function PageDown(s: State, pageSize: int): (r: State)
    requires WellFormed(s)
    decreases pageSize
    ensures WellFormed(r)
    ensures r.items == s.items && r.visible == s.visible && r.filter == s.filter
  {
    if pageSize <= 0 then s else PageDown(SelectNext(s), pageSize - 1)
  }

  function PageUp(s: State, pageSize: int): (r: State)
    requires WellFormed(s)
    decreases pageSize
    ensures WellFormed(r)
    ensures r.items == s.items && r.visible == s.visible && r.filter == s.filter
  {
    if pageSize <= 0 then s else PageUp(SelectPrevious(s), pageSize - 1)
  }

  /** The first position of visible holding index, if any. */
  function PositionOf(visible: seq<nat>, index: nat, from: nat): (r: Option<nat>)
    decreases |visible| - from
    ensures r.Some? ==> from <= r.value < |visible| && visible[r.value] == index
    ensures r.None? ==> forall k :: from <= k < |visible| ==> visible[k] != index
  {
    if from >= |visible| then Option.None
    else if visible[from] == index then Some(from)
    else PositionOf(visible, index, from + 1)
  }

  function SetSelectedIndex(s: State, index: nat): State
  {
    match PositionOf(s.visible, index, 0)
    case Some(i) => s.(selected := i)
    case None => s
  }

  /** ensureSelectionVisible(maxRows): scroll just far enough to show the selection. */
  function EnsureSelectionVisible(s: State, maxRows: nat): (r: State)
    ensures r == s.(scrollOffset := r.scrollOffset)
    ensures s.visible != [] && maxRows >= 1 ==> r.scrollOffset <= s.selected < r.scrollOffset + maxRows
    ensures s.visible == [] || s.scrollOffset <= s.selected < s.scrollOffset + maxRows ==> r == s
  {
    if s.visible == [] then s
    else if s.selected < s.scrollOffset then s.(scrollOffset := s.selected)
    else if s.selected >= s.scrollOffset + maxRows then s.(scrollOffset := s.selected - maxRows + 1)
    else s
  }

  // ---------------------------------------------------------------------------
  // Keys

  predicate IsVimKey(key: KeyEvent, c: char)
  {
    K.IsPrintable(key.key) && key.modifiers == Mod.None && key.codepoint == c as int
  }

  function HandleKey(s: State, key: KeyEvent): (r: Outcome)
    requires WellFormed(s)
    ensures WellFormed(r.state)
    ensures r.state.items == s.items && r.state.visible == s.visible && r.state.filter == s.filter
  {
    if IsVimKey(key, 'j') then Outcome(SelectNext(s), Changed)
    else if IsVimKey(key, 'k') then Outcome(SelectPrevious(s), Changed)
    else if key.key == K.Up then Outcome(SelectPrevious(s), Changed)
    else if key.key == K.Down then Outcome(SelectNext(s), Changed)
    else if key.key == K.Home then Outcome(SelectFirst(s), Changed)
    else if key.key == K.End then Outcome(SelectLast(s), Changed)
    else if key.key == K.PageUp then Outcome(PageUp(s, PageSize), Changed)
    else if key.key == K.PageDown then Outcome(PageDown(s, PageSize), Changed)
    else if key.key == K.Enter then
      if s.visible != [] && s.items[SelectedIndex(s)].enabled then Outcome(s, Selected) else Outcome(s, Action.None)
    else if key.key == K.Escape then Outcome(s, Cancelled)
    else Outcome(s, Action.None)
  }

  function ProcessEvent(s: State, event: InputEvent): (r: Outcome)
    requires WellFormed(s)
    ensures WellFormed(r.state)
  {
    match event
    case Key(k) => HandleKey(s, k)
    case _ => Outcome(s, Action.None)
  }
}
