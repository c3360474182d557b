/**
 * The collapsible log panel of src/tui/LogPanel.cpp: a bounded queue of log
 * entries, an expanded flag and a scroll offset counted back from the newest
 * entry. The object's methods are proved to compute the step functions
 * below; the mutex that guards them is left out, so the panel is sequential.
 */
module LogPanels {
  import opened Utf8

  datatype LogLevel = Info | Warning | Error

  datatype LogEntry = LogEntry(level: LogLevel, message: Bytes)

  const MaxEntries := 100
  const MaxVisibleExpanded := 7

  datatype State = State(entries: seq<LogEntry>, expanded: bool, scrollOffset: int)

  const Initial := State([], false, 0)

  function Min(a: int, b: int): int
  {
    if a <= b then a else b
  }

  function Max(a: int, b: int): int
  {
    if a >= b then a else b
  }

  /** How far back the view can scroll: the entries that do not fit in the expanded rows. */
  function MaxScrollable(count: int): int
  {
    Max(0, count - MaxVisibleExpanded)
  }

  /** At most MaxEntries entries, and an offset the scroll methods can reach. */
  predicate Valid(s: State)
  {
    |s.entries| <= MaxEntries && 0 <= s.scrollOffset <= MaxScrollable(|s.entries|)
  }

  /** addLog: push to the back, pop the front past MaxEntries, and scroll back to the newest. */
  function AddLogTo(s: State, entry: LogEntry): State
  {
    var grown := s.entries + [entry];
    s.(entries := if |grown| > MaxEntries then grown[1..] else grown, scrollOffset := 0)
  }

  function Toggled(s: State): State
  {
    s.(expanded := !s.expanded, scrollOffset := if !s.expanded then 0 else s.scrollOffset)
  }

  datatype ClickOutcome = ClickOutcome(state: State, handled: bool)

  /** A click on the header row toggles the panel; other rows are not the panel's. */
  function Clicked(s: State, y: int, panelStartRow: int): ClickOutcome
  {
    if y == panelStartRow then ClickOutcome(Toggled(s), true) else ClickOutcome(s, false)
  }

  function ScrolledUp(s: State): State
  {
    s.(scrollOffset := Min(s.scrollOffset + 1, MaxScrollable(|s.entries|)))
  }

  function ScrolledDown(s: State): State
  {
    s.(scrollOffset := Max(0, s.scrollOffset - 1))
  }

  /** The header row, plus the entry rows (at least one) when expanded. */
  function Height(s: State): int
  {
    if !s.expanded then 1 else 1 + Max(Min(|s.entries|, MaxVisibleExpanded), 1)
  }

  /** The half-open range of entries render shows, oldest first, after clamping the offset. */
  datatype Window = Window(start: int, end: int)

  function VisibleWindow(s: State): Window
  {
    var count := |s.entries|;
    var visibleCount := Min(count, MaxVisibleExpanded);
    var clampedOffset := Min(Max(s.scrollOffset, 0), MaxScrollable(count));
    var end := count - clampedOffset;
    Window(Max(0, end - visibleCount), end)
  }

  class LogPanel {
    var entries: seq<LogEntry>
    var expanded: bool
    var scrollOffset: int

    function Snapshot(): State
      reads this
    {
      State(entries, expanded, scrollOffset)
    }

    constructor()
      ensures Snapshot() == Initial
    {
      entries := [];
      expanded := false;
      scrollOffset := 0;
    }

    method AddLog(level: LogLevel, message: Bytes)
      modifies this
      ensures Snapshot() == AddLogTo(old(Snapshot()), LogEntry(level, message))
    {
      entries := entries + [LogEntry(level, message)];
      if |entries| > MaxEntries {
        entries := entries[1..];
      }
      scrollOffset := 0;
    }

    method Toggle()
      modifies this
      ensures Snapshot() == Toggled(old(Snapshot()))
    {
      expanded := !expanded;
      if expanded {
        scrollOffset := 0;
      }
    }

    function IsExpanded(): bool
      reads this
    {
      expanded
    }

    function EntryCount(): nat
      reads this
    {
      |entries|
    }

    function TotalHeight(): int
      reads this
    {
      Height(Snapshot())
    }

    method HandleClick(x: int, y: int, panelStartRow: int) returns (handled: bool)
      modifies this
      ensures ClickOutcome(Snapshot(), handled) == Clicked(old(Snapshot()), y, panelStartRow)
    {
      if y == panelStartRow {
        expanded := !expanded;
        if expanded {
          scrollOffset := 0;
        }
        return true;
      }
      return false;
    }

    method ScrollUp()
      modifies this
      ensures Snapshot() == ScrolledUp(old(Snapshot()))
    {
      var maxScrollable := Max(0, |entries| - MaxVisibleExpanded);
      scrollOffset := Min(scrollOffset + 1, maxScrollable);
    }

    method ScrollDown()
      modifies this
      ensures Snapshot() == ScrolledDown(old(Snapshot()))
    {
      scrollOffset := Max(0, scrollOffset - 1);
    }
  }
}
