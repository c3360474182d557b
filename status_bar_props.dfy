/** What the hint line of src/tui/StatusBar.cpp promises. */
module StatusBarProps {
  import opened Utf8
  import opened StatusBars

  /** The joined text holds every hint once and sep once between each two: its length. */
  lemma {:induction false} JoinedLength(hints: seq<KeyHint>, sep: Bytes)
    ensures |Joined(hints, sep)| == HintsLength(hints) + (if hints == [] then 0 else (|hints| - 1) * |sep|)
    decreases |hints|
  {
    if |hints| > 1 {
      var front := hints[..|hints| - 1];
      JoinedLength(front, sep);
      assert front[..|front| - 1] == hints[..|hints| - 2];
    } else if |hints| == 1 {
      assert hints[..0] == [];
    }
  }

  /** No separator leads: the text starts with the first hint's key and its space. */
  lemma {:induction false} JoinedStartsWithFirst(hints: seq<KeyHint>, sep: Bytes)
    requires hints != []
    ensures |Joined(hints, sep)| >= |hints[0].key| + 1
    ensures Joined(hints, sep)[..|hints[0].key| + 1] == hints[0].key + [' ']
    decreases |hints|
  {
    var k := |hints[0].key| + 1;
    if |hints| > 1 {
      var front := hints[..|hints| - 1];
      JoinedStartsWithFirst(front, sep);
      var j := Joined(front, sep);
      assert Joined(hints, sep) == j + (sep + HintText(hints[|hints| - 1]));
      assert (j + (sep + HintText(hints[|hints| - 1])))[..k] == j[..k];
    } else {
      assert HintText(hints[0])[..k] == hints[0].key + [' '];
    }
  }

  /** No separator trails: the text ends with the last hint's action. */
  lemma JoinedEndsWithLast(hints: seq<KeyHint>, sep: Bytes)
    requires hints != []
    ensures var j := Joined(hints, sep);
            var a := hints[|hints| - 1].action;
            |j| >= |a| && j[|j| - |a|..] == a
  {
    var j := Joined(hints, sep);
    var h := hints[|hints| - 1];
    var a := h.action;
    assert HintText(h)[|HintText(h)| - |a|..] == a;
    if |hints| > 1 {
      var front := Joined(hints[..|hints| - 1], sep);
      assert j == (front + sep) + HintText(h);
      assert j[|j| - |a|..] == HintText(h)[|HintText(h)| - |a|..];
    }
  }

  /** Adding a hint to a non-empty list adds the separator and that hint's text, and nothing else. */
  lemma JoinedSnoc(hints: seq<KeyHint>, h: KeyHint, sep: Bytes)
    ensures Joined(hints + [h], sep) == if hints == [] then HintText(h) else Joined(hints, sep) + sep + HintText(h)
  {
    assert (hints + [h])[..|hints|] == hints;
  }

  /** One hint has no separator at all. */
  lemma JoinedOne(h: KeyHint, sep: Bytes)
    ensures Joined([h], sep) == h.key + [' '] + h.action
  {
  }
}
