/** What the log panel of src/tui/LogPanel.cpp promises, stated on its step functions. */
module LogPanelProps {
  import opened Utf8
  import opened LogPanels

  /** The last n elements of q, or all of q when it is shorter. */
  function Newest<T>(q: seq<T>, n: nat): (r: seq<T>)
    ensures |r| == Min(|q|, n)
  {
    if |q| <= n then q else q[|q| - n..]
  }

  /** addLog called once per entry, in order. */
  function AddLogs(s: State, es: seq<LogEntry>): State
    decreases |es|
  {
    if es == [] then s else AddLogs(AddLogTo(s, es[0]), es[1..])
  }

  /** One addLog keeps the newest MaxEntries entries, ends with the new one, and scrolls to the bottom. */
  lemma AddLogKeepsNewest(s: State, entry: LogEntry)
    requires |s.entries| <= MaxEntries
    ensures var r := AddLogTo(s, entry);
            r.entries == Newest(s.entries + [entry], MaxEntries) && r.entries[|r.entries| - 1] == entry &&
            r.scrollOffset == 0 && r.expanded == s.expanded && Valid(r)
  {
  }

  lemma NewestTwice<T>(q: seq<T>, x: T, rest: seq<T>, n: nat)
    requires n > 0
    ensures Newest(Newest(q + [x], n) + rest, n) == Newest(q + [x] + rest, n)
  {
    var a := q + [x];
    if |a| > n {
      var k := |a| - n;
      assert Newest(a, n) == a[k..];
      SuffixOfAppend(a, rest, k);
      if rest == [] {
        assert a + rest == a;
      } else {
        assert Newest(a[k..] + rest, n) == (a + rest)[k..][|rest|..];
        SuffixOfSuffix(a + rest, k, |rest|);
      }
    }
  }

  lemma SuffixOfAppend<T>(a: seq<T>, rest: seq<T>, k: nat)
    requires k <= |a|
    ensures a[k..] + rest == (a + rest)[k..]
  {
  }

  lemma SuffixOfSuffix<T>(s: seq<T>, i: nat, j: nat)
    requires i + j <= |s|
    ensures s[i..][j..] == s[i + j..]
  {
  }

  /**
   * However many entries arrive, the panel holds exactly the newest
   * MaxEntries of everything it was given, in arrival order.
   */
  lemma {:induction false} AddLogsKeepNewest(s: State, es: seq<LogEntry>)
    requires |s.entries| <= MaxEntries
    ensures AddLogs(s, es).entries == Newest(s.entries + es, MaxEntries)
    decreases |es|
  {
    if es == [] {
      assert s.entries + es == s.entries;
    } else {
      AddLogsStep(s, es);
      AddLogsKeepNewest(AddLogTo(s, es[0]), es[1..]);
    }
  }

  /** After the first entry the newest MaxEntries of what is left to see are the same. */
  lemma AddLogsStep(s: State, es: seq<LogEntry>)
    requires |s.entries| <= MaxEntries && es != []
    ensures var t := AddLogTo(s, es[0]);
            |t.entries| <= MaxEntries && Newest(t.entries + es[1..], MaxEntries) == Newest(s.entries + es, MaxEntries)
  {
    AddLogKeepsNewest(s, es[0]);
    NewestTwice(s.entries, es[0], es[1..], MaxEntries);
    assert s.entries + [es[0]] + es[1..] == s.entries + es;
  }

  /** The "MaxEntries eviction" scenario: 110 entries into a fresh panel leave the last 100. */
  lemma EvictionKeepsLastHundred(es: seq<LogEntry>)
    requires |es| == MaxEntries + 10
    ensures AddLogs(Initial, es).entries == es[10..]
  {
    AddLogsKeepNewest(Initial, es);
    assert Initial.entries + es == es;
  }

  /** Every operation keeps the panel's invariant. */
  lemma OperationsKeepValid(s: State, entry: LogEntry, y: int, panelStartRow: int)
    requires Valid(s)
    ensures Valid(AddLogTo(s, entry)) && Valid(Toggled(s)) && Valid(Clicked(s, y, panelStartRow).state)
    ensures Valid(ScrolledUp(s)) && Valid(ScrolledDown(s))
  {
  }

  /**
   * Scrolling stops at both ends, and inside them one step up and one step
   * down undo each other.
   */
  lemma ScrollClamps(s: State)
    requires Valid(s)
    ensures ScrolledUp(s).scrollOffset == Min(s.scrollOffset + 1, MaxScrollable(|s.entries|))
    ensures ScrolledDown(s).scrollOffset == Max(0, s.scrollOffset - 1)
    ensures s.scrollOffset < MaxScrollable(|s.entries|) ==> ScrolledDown(ScrolledUp(s)) == s
    ensures s.scrollOffset > 0 ==> ScrolledUp(ScrolledDown(s)) == s
    ensures s.scrollOffset == 0 ==> ScrolledDown(s) == s
    ensures s.scrollOffset == MaxScrollable(|s.entries|) ==> ScrolledUp(s) == s
  {
  }

  /** Toggling twice restores the flag; opening the panel always starts at the newest entry. */
  lemma ToggleLaws(s: State)
    ensures Toggled(Toggled(s)) == s.(scrollOffset := 0)
    ensures Toggled(s).expanded == !s.expanded
    ensures Toggled(s).expanded ==> Toggled(s).scrollOffset == 0
    ensures Toggled(s).entries == s.entries
  {
  }

  /** handleClick reports a click as handled exactly when it toggled the panel. */
  lemma ClickTogglesHeaderOnly(s: State, y: int, panelStartRow: int)
    ensures Clicked(s, y, panelStartRow).handled <==> y == panelStartRow
    ensures Clicked(s, y, panelStartRow).state == if y == panelStartRow then Toggled(s) else s
  {
  }

  /**
   * On a valid panel, render shows min(count, 7) consecutive entries that end
   * scrollOffset entries before the newest, and the expanded panel is one
   * header row plus one row per shown entry (at least one row).
   */
  lemma WindowShowsNewest(s: State)
    requires Valid(s)
    ensures var w := VisibleWindow(s);
            && 0 <= w.start <= w.end <= |s.entries|
            && w.end == |s.entries| - s.scrollOffset
            && w.end - w.start == Min(|s.entries|, MaxVisibleExpanded)
            && (s.expanded ==> Height(s) == 1 + Max(w.end - w.start, 1))
            && (!s.expanded ==> Height(s) == 1)
  {
  }

  /** One step up moves the shown range exactly one entry towards the oldest, until it reaches the top. */
  lemma ScrollUpShiftsWindow(s: State)
    requires Valid(s) && s.scrollOffset < MaxScrollable(|s.entries|)
    ensures VisibleWindow(ScrolledUp(s)) == Window(VisibleWindow(s).start - 1, VisibleWindow(s).end - 1)
  {
  }

  /** The toggle scenario: two entries; collapsed 1 row, expanded 3, collapsed again 1. */
  lemma ToggleHeights(a: LogEntry, b: LogEntry)
    ensures var s := AddLogTo(AddLogTo(Initial, a), b);
            Height(s) == 1 && Height(Toggled(s)) == 3 && Height(Toggled(Toggled(s))) == 1
  {
  }
}
