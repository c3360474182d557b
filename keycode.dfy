/**
 * Key codes of the terminal input engine (src/tui/KeyCode.hpp). A printable
 * key is its own Unicode codepoint; named keys are numbered from 0x10000,
 * just above the Basic Multilingual Plane.
 */
module KeyCodes {
  import opened Utf8

  type KeyCode = U32

  const Enter: KeyCode := 0x10000
  const Tab: KeyCode := 0x10001
  const Backspace: KeyCode := 0x10002
  const Delete: KeyCode := 0x10003
  const Escape: KeyCode := 0x10004
  const Up: KeyCode := 0x10005
  const Down: KeyCode := 0x10006
  const Left: KeyCode := 0x10007
  const Right: KeyCode := 0x10008
  const Home: KeyCode := 0x10009
  const End: KeyCode := 0x1000A
  const PageUp: KeyCode := 0x1000B
  const PageDown: KeyCode := 0x1000C
  const Insert: KeyCode := 0x1000D
  const F1: KeyCode := 0x1000E
  const F2: KeyCode := 0x1000F
  const F3: KeyCode := 0x10010
  const F4: KeyCode := 0x10011
  const F5: KeyCode := 0x10012
  const F6: KeyCode := 0x10013
  const F7: KeyCode := 0x10014
  const F8: KeyCode := 0x10015
  const F9: KeyCode := 0x10016
  const F10: KeyCode := 0x10017
  const F11: KeyCode := 0x10018
  const F12: KeyCode := 0x10019

  /** The named keys in declaration order. */
  const NamedKeys: seq<KeyCode> := [Enter, Tab, Backspace, Delete, Escape, Up, Down, Left, Right,
                                    Home, End, PageUp, PageDown, Insert, F1, F2, F3, F4, F5, F6,
                                    F7, F8, F9, F10, F11, F12]

  predicate IsPrintable(key: KeyCode)
  {
    32 <= key < 0x10000
  }

  /** keyCodeFromCodepoint: a plain cast. */
  function KeyCodeFromCodepoint(cp: U32): KeyCode
  {
    cp
  }

  /** codepointFromKeyCode: the code itself when printable, else 0. */
  function CodepointFromKeyCode(key: KeyCode): U32
  {
    if IsPrintable(key) then key else 0
  }

  /** The enum runs consecutively from Enter to F12 and none of its members is printable. */
  lemma NamedKeysConsecutive()
    ensures |NamedKeys| == 26
    ensures forall i :: 0 <= i < |NamedKeys| ==> NamedKeys[i] == Enter + i
    ensures forall i :: 0 <= i < |NamedKeys| ==> !IsPrintable(NamedKeys[i])
  {
  }

  lemma CodepointRoundTrip(cp: U32)
    requires 32 <= cp < 0x10000
    ensures CodepointFromKeyCode(KeyCodeFromCodepoint(cp)) == cp
  {
  }

  /**
   * Every non-printable code has codepoint 0, including astral codepoints that
   * keyCodeFromCodepoint casts unchanged; those from 0x10000 to 0x10019 alias
   * the named keys.
   */
  lemma NonPrintableCodepoint(cp: U32)
    requires !(32 <= cp < 0x10000)
    ensures CodepointFromKeyCode(KeyCodeFromCodepoint(cp)) == 0
    ensures 0x10000 <= cp <= 0x10019 ==> KeyCodeFromCodepoint(cp) == NamedKeys[cp - 0x10000]
  {
  }
}
