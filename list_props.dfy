/**
 * Properties of the List widget (src/tui/List.cpp): what the filter lets
 * through, where each navigation operation lands, and what each key does.
 */
module ListProps {
  import opened Utf8
  import opened Options
  import K = KeyCodes
  import Mod = Modifiers
  import opened InputEvents
  import opened ListModel

  // ---------------------------------------------------------------------------
  // Case-insensitive matching

  lemma {:induction false} ToLowerAt(s: Bytes)
    ensures forall k :: 0 <= k < |s| ==> ToLower(s)[k] == LowerByte(s[k])
  {
    if s != [] {
      ToLowerAt(s[1..]);
      assert ToLower(s) == [LowerByte(s[0])] + ToLower(s[1..]);
    }
  }

  lemma ToLowerSlice(s: Bytes, a: nat, b: nat)
    requires a <= b <= |s|
    ensures ToLower(s[a..b]) == ToLower(s)[a..b]
  {
    ToLowerAt(s);
    ToLowerAt(s[a..b]);
    var lowered, cut := ToLower(s[a..b]), ToLower(s)[a..b];
    forall k | 0 <= k < |lowered|
      ensures lowered[k] == cut[k]
    {
      assert s[a..b][k] == s[a + k];
    }
  }

  /** Lowering twice is lowering once. */
  lemma ToLowerIdempotent(s: Bytes)
    ensures ToLower(ToLower(s)) == ToLower(s)
  {
    ToLowerAt(s);
    ToLowerAt(ToLower(s));
  }

  /** A needle that occurs verbatim matches, whatever the case of either. */
  lemma SubstringMatches(hay: Bytes, needle: Bytes, i: nat)
    requires OccursAt(hay, needle, i)
    ensures ContainsIgnoreCase(hay, needle)
  {
    ToLowerSlice(hay, i, i + |needle|);
    assert OccursAt(ToLower(hay), ToLower(needle), i);
  }

  /** Lowering the haystack or the needle first changes nothing: the test ignores case on both sides. */
  lemma IgnoresCase(hay: Bytes, needle: Bytes)
    ensures ContainsIgnoreCase(ToLower(hay), needle) == ContainsIgnoreCase(hay, needle)
    ensures ContainsIgnoreCase(hay, ToLower(needle)) == ContainsIgnoreCase(hay, needle)
  {
    ToLowerIdempotent(hay);
    ToLowerIdempotent(needle);
  }

  /** A needle found at i once both sides are lowered matches. */
  lemma MatchesAt(hay: Bytes, needle: Bytes, i: nat)
    requires i + |needle| <= |hay|
    requires forall k :: 0 <= k < |needle| ==> LowerByte(hay[i + k]) == LowerByte(needle[k])
    ensures ContainsIgnoreCase(hay, needle)
  {
    ToLowerAt(hay);
    ToLowerAt(needle);
    var h, n := ToLower(hay), ToLower(needle);
    assert h[i..i + |n|] == n by {
      forall k | 0 <= k < |n|
        ensures h[i..i + |n|][k] == n[k]
      {
        assert h[i + k] == LowerByte(hay[i + k]);
      }
    }
    assert OccursAt(h, n, i);
  }

  /** A needle holding a lower-case letter that the haystack lacks in either case does not match. */
  lemma LacksLetter(hay: Bytes, needle: Bytes, k: nat)
    requires k < |needle| && 'a' <= needle[k] <= 'z'
    requires forall i :: 0 <= i < |hay| ==> LowerByte(hay[i]) != needle[k]
    ensures !ContainsIgnoreCase(hay, needle)
  {
    ToLowerAt(hay);
    ToLowerAt(needle);
  }

  // ---------------------------------------------------------------------------
  // Visible indices

  lemma {:induction false} PositionsOfAll(items: seq<Item>, keep: Item -> bool, n: nat)
    requires n <= |items|
    requires forall i :: 0 <= i < n ==> keep(items[i])
    ensures Positions(items, keep, n) == seq(n, i => i)
  {
    if n > 0 {
      PositionsOfAll(items, keep, n - 1);
      assert seq(n, i => i) == seq(n - 1, i => i) + [n - 1];
    }
  }

  /** The empty filter shows every item, in order. */
  lemma EmptyFilterShowsAll(items: seq<Item>)
    ensures Visible(items, []) == seq(|items|, i => i)
  {
    PositionsOfAll(items, Matcher([]), |items|);
  }

  const Fruit: seq<Item> := [Item("Apple", "", "", true), Item("Banana", "", "", true), Item("Cherry", "", "", true)]

  /** "Apple" matches "a" by its capital A. */
  lemma AppleMatches()
    ensures MatchesFilter(Fruit[0], "a")
  {
    var hay: Bytes := "Apple";
    assert FilterKey(Fruit[0]) == hay;
    MatchesAt(hay, "a", 0);
  }

  lemma AppleLacksAn()
    ensures !MatchesFilter(Fruit[0], "an")
  {
    var hay: Bytes := "Apple";
    assert FilterKey(Fruit[0]) == hay;
    LacksLetter(hay, "an", 1);
  }

  lemma BananaMatches()
    ensures MatchesFilter(Fruit[1], "a") && MatchesFilter(Fruit[1], "an")
  {
    var hay: Bytes := "Banana";
    assert FilterKey(Fruit[1]) == hay;
    MatchesAt(hay, "a", 1);
    MatchesAt(hay, "an", 1);
  }

  lemma CherryLacksA()
    ensures !MatchesFilter(Fruit[2], "a")
  {
    var hay: Bytes := "Cherry";
    assert FilterKey(Fruit[2]) == hay;
    LacksLetter(hay, "a", 0);
  }

  lemma CherryLacksAn()
    ensures !MatchesFilter(Fruit[2], "an")
  {
    var hay: Bytes := "Cherry";
    assert FilterKey(Fruit[2]) == hay;
    LacksLetter(hay, "an", 0);
  }

  /** Filtering "an" leaves only "Banana". */
  lemma FruitFilterAn()
    ensures Visible(Fruit, "an") == [1]
  {
    assert !MatchesFilter(Fruit[0], "an") && MatchesFilter(Fruit[1], "an") by {
      AppleLacksAn();
      BananaMatches();
    }
    assert !MatchesFilter(Fruit[2], "an") by {
      CherryLacksAn();
    }
    VisibleOfThree(Fruit, "an", false, true, false);
  }

  /** Filtering "a" leaves "Apple" (by its capital A) and "Banana". */
  lemma FruitFilterA()
    ensures Visible(Fruit, "a") == [0, 1]
  {
    assert MatchesFilter(Fruit[0], "a") && MatchesFilter(Fruit[1], "a") by {
      AppleMatches();
      BananaMatches();
    }
    assert !MatchesFilter(Fruit[2], "a") by {
      CherryLacksA();
    }
    VisibleOfThree(Fruit, "a", true, true, false);
  }

  /** The visible indices of three items, given which of them match. */
  lemma VisibleOfThree(items: seq<Item>, filter: Bytes, m0: bool, m1: bool, m2: bool)
    requires |items| == 3
    requires m0 == MatchesFilter(items[0], filter) && m1 == MatchesFilter(items[1], filter) && m2 == MatchesFilter(items[2], filter)
    ensures Visible(items, filter) == (if m0 then [0] else []) + (if m1 then [1] else []) + (if m2 then [2] else [])
  {
    var keep := Matcher(filter);
    var s0: seq<nat>, s1: seq<nat>, s2: seq<nat> := (if m0 then [0] else []), (if m1 then [1] else []), (if m2 then [2] else []);
    assert keep(items[0]) == m0 && keep(items[1]) == m1 && keep(items[2]) == m2;
    assert Positions(items, keep, 1) == s0 by {
      assert Positions(items, keep, 0) == [];
    }
    assert Positions(items, keep, 2) == s0 + s1;
    assert Positions(items, keep, 3) == s0 + s1 + s2;
  }

  // ---------------------------------------------------------------------------
  // Navigation

  /** selectNext lands on the next enabled visible item, or on the last position when none follows. */
  lemma SelectNextLands(s: State)
    requires WellFormed(s)
    ensures s.visible == [] ==> SelectNext(s) == s
    ensures s.visible != [] ==> SelectNext(s) == s.(selected := SelectNext(s).selected)
    ensures s.visible != [] ==>
      SelectNext(s).selected == (match FirstEnabled(s.items, s.visible, s.selected + 1) case Some(j) => j case None => |s.visible| - 1)
  {
  }

  /** selectPrevious lands on the previous enabled visible item, or on position 0 when none precedes. */
  lemma SelectPreviousLands(s: State)
    requires WellFormed(s)
    ensures s.visible == [] ==> SelectPrevious(s) == s
    ensures s.visible != [] ==> SelectPrevious(s) == s.(selected := SelectPrevious(s).selected)
    ensures s.visible != [] ==>
      SelectPrevious(s).selected == (match LastEnabled(s.items, s.visible, s.selected) case Some(j) => j case None => 0)
  {
  }

  /** selectFirst and selectLast pick the first and last enabled visible item, and do nothing when none is enabled. */
  lemma SelectFirstAndLast(s: State)
    requires WellFormed(s)
    ensures (exists k :: EnabledAt(s.items, s.visible, k)) ==>
      var r := SelectFirst(s);
      r == s.(selected := r.selected, scrollOffset := 0) && EnabledAt(s.items, s.visible, r.selected)
      && forall k :: 0 <= k < r.selected ==> !EnabledAt(s.items, s.visible, k)
    ensures (exists k :: EnabledAt(s.items, s.visible, k)) ==>
      var r := SelectLast(s);
      r == s.(selected := r.selected) && EnabledAt(s.items, s.visible, r.selected)
      && forall k :: r.selected < k < |s.visible| ==> !EnabledAt(s.items, s.visible, k)
    ensures (forall k :: !EnabledAt(s.items, s.visible, k)) ==> SelectFirst(s) == s && SelectLast(s) == s
  {
    if k :| EnabledAt(s.items, s.visible, k) {
      assert FirstEnabled(s.items, s.visible, 0).Some?;
      assert LastEnabled(s.items, s.visible, |s.visible|).Some?;
    }
  }

  predicate AllEnabled(s: State)
  {
    forall k :: 0 <= k < |s.visible| ==> EnabledAt(s.items, s.visible, k)
  }

  function Min(a: int, b: int): int
  {
    if a <= b then a else b
  }

  /** With every visible item enabled, a page moves by pageSize positions and stops at the last one. */
  lemma {:induction false} PageDownAllEnabled(s: State, pageSize: nat)
    requires WellFormed(s) && AllEnabled(s) && s.visible != []
    decreases pageSize
    ensures PageDown(s, pageSize) == s.(selected := Min(s.selected + pageSize, |s.visible| - 1))
  {
    if pageSize > 0 {
      var t := SelectNext(s);
      assert t.selected == Min(s.selected + 1, |s.visible| - 1);
      PageDownAllEnabled(t, pageSize - 1);
    }
  }

  lemma {:induction false} PageUpAllEnabled(s: State, pageSize: nat)
    requires WellFormed(s) && AllEnabled(s) && s.visible != []
    decreases pageSize
    ensures PageUp(s, pageSize) == s.(selected := if s.selected >= pageSize then s.selected - pageSize else 0)
  {
    if pageSize > 0 {
      var t := SelectPrevious(s);
      assert t.selected == if s.selected >= 1 then s.selected - 1 else 0;
      PageUpAllEnabled(t, pageSize - 1);
    }
  }

  /** setSelectedIndex selects a visible item, and ignores an index that is not visible. */
  lemma SetSelectedIndexSelects(s: State, index: nat)
    requires Valid(s)
    ensures index in s.visible ==> SelectedIndex(SetSelectedIndex(s, index)) == index
    ensures index in s.visible ==> WellFormed(SetSelectedIndex(s, index))
    ensures index !in s.visible ==> SetSelectedIndex(s, index) == s
  {
  }

  /** With nothing visible there is no selected item and the selected index is 0. */
  lemma NothingVisible(s: State)
    requires WellFormed(s) && s.visible == []
    ensures SelectedIndex(s) == 0 && SelectedItem(s) == Option.None
    ensures SelectNext(s) == s && SelectPrevious(s) == s && SelectFirst(s) == s && SelectLast(s) == s
  {
  }

  /** An unchanged filter changes nothing; a new one rebuilds. */
  lemma SetFilterLaws(s: State, f: Bytes)
    requires Valid(s)
    ensures f == s.filter ==> SetFilter(s, f) == s
    ensures f != s.filter ==> SetFilter(s, f) == Rebuild(s.(filter := f)) && SetFilter(s, f).filter == f
    ensures Valid(SetFilter(s, f))
  {
  }

  // ---------------------------------------------------------------------------
  // Keys

  /** Navigation keys leave the items and the filter alone, so the object invariant survives every key. */
  lemma HandleKeyKeepsValid(s: State, key: KeyEvent)
    requires Valid(s)
    ensures Valid(HandleKey(s, key).state)
  {
  }

  lemma ArrowKeys(s: State, key: KeyEvent)
    requires WellFormed(s)
    ensures key.key == K.Down ==> HandleKey(s, key) == Outcome(SelectNext(s), Changed)
    ensures key.key == K.Up ==> HandleKey(s, key) == Outcome(SelectPrevious(s), Changed)
    ensures IsVimKey(key, 'j') ==> HandleKey(s, key) == Outcome(SelectNext(s), Changed)
    ensures IsVimKey(key, 'k') ==> HandleKey(s, key) == Outcome(SelectPrevious(s), Changed)
  {
  }

  /** Enter selects only a visible, enabled item; Escape cancels; neither moves anything. */
  lemma EnterAndEscape(s: State, key: KeyEvent)
    requires WellFormed(s)
    ensures key.key == K.Enter ==> HandleKey(s, key).state == s
    ensures key.key == K.Enter ==>
      (HandleKey(s, key).action == Selected <==> s.visible != [] && s.items[SelectedIndex(s)].enabled)
    ensures key.key == K.Enter && HandleKey(s, key).action != Selected ==> HandleKey(s, key).action == Action.None
    ensures key.key == K.Escape ==> HandleKey(s, key) == Outcome(s, Cancelled)
  {
  }

  /** A key none of the branches handles returns None and changes nothing. */
  lemma UnhandledKey(s: State, key: KeyEvent)
    requires WellFormed(s)
    requires !IsVimKey(key, 'j') && !IsVimKey(key, 'k')
    requires key.key !in {K.Up, K.Down, K.Home, K.End, K.PageUp, K.PageDown, K.Enter, K.Escape}
    ensures HandleKey(s, key) == Outcome(s, Action.None)
  {
  }

  /** 'j' with a modifier is not a navigation key. */
  lemma ModifiedLetterIgnored(s: State, mods: Mod.Modifier)
    requires WellFormed(s) && mods != Mod.None
    ensures HandleKey(s, KeyEvent('j' as int, mods, 'j' as int)) == Outcome(s, Action.None)
  {
    UnhandledKey(s, KeyEvent('j' as int, mods, 'j' as int));
  }

  lemma NonKeyEventsIgnored(s: State, event: InputEvent)
    requires WellFormed(s) && !event.Key?
    ensures ProcessEvent(s, event) == Outcome(s, Action.None)
  {
  }

  // ---------------------------------------------------------------------------
  // Scenarios

  const Three: seq<Item> := [Item("Item 1", "", "", true), Item("Item 2", "", "", true), Item("Item 3", "", "", true)]

  lemma ThreeVisible()
    ensures Initial(Three) == State(Three, [0, 1, 2], 0, 0, [])
  {
    EmptyFilterShowsAll(Three);
    assert seq(3, i => i) == [0, 1, 2];
  }

  /** Down twice reaches the last item, a third Down stays there, and Up goes back one. */
  lemma ThreeNavigation()
    ensures var s := Initial(Three);
      && SelectedIndex(SelectNext(s)) == 1
      && SelectedIndex(SelectNext(SelectNext(s))) == 2
      && SelectedIndex(SelectNext(SelectNext(SelectNext(s)))) == 2
      && SelectedIndex(SelectPrevious(SelectNext(SelectNext(SelectNext(s))))) == 1
  {
    ThreeVisible();
  }

  const Gapped: seq<Item> := [Item("Item 1", "", "", true), Item("Item 2", "", "", false), Item("Item 3", "", "", true)]

  /** selectNext skips a disabled item. */
  lemma SkipsDisabled()
    ensures SelectedIndex(SelectNext(Initial(Gapped))) == 2
  {
    EmptyFilterShowsAll(Gapped);
    assert seq(3, i => i) == [0, 1, 2];
  }
}
