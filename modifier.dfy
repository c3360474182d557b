/** The modifier bitmask of the input engine (src/tui/Modifier.hpp), an 8-bit enum. */
module Modifiers {

  type Modifier = bv8

  const None: Modifier := 0
  const Shift: Modifier := 1
  const Alt: Modifier := 2
  const Ctrl: Modifier := 4
  const Super: Modifier := 8

  /** The four single flags. */
  predicate IsFlag(m: Modifier)
  {
    m == Shift || m == Alt || m == Ctrl || m == Super
  }

  function Or(lhs: Modifier, rhs: Modifier): Modifier
  {
    lhs | rhs
  }

  function And(lhs: Modifier, rhs: Modifier): Modifier
  {
    lhs & rhs
  }

  /** operator|= returns the value it stores into its left operand. */
  function OrAssign(lhs: Modifier, rhs: Modifier): (stored: Modifier)
    ensures stored == Or(lhs, rhs)
  {
    lhs | rhs
  }

  predicate HasModifier(mods: Modifier, flag: Modifier)
  {
    And(mods, flag) != None
  }

  /** None is zero, and the four flags are distinct single bits. */
  lemma FlagsAreDistinctBits()
    ensures None == 0
    ensures Shift == 1 && Alt == 2 && Ctrl == 4 && Super == 8
    ensures forall a, b :: IsFlag(a) && IsFlag(b) && a != b ==> And(a, b) == None
  {
  }

  lemma OrLaws(a: Modifier, b: Modifier, c: Modifier)
    ensures Or(a, b) == Or(b, a)
    ensures Or(Or(a, b), c) == Or(a, Or(b, c))
    ensures Or(a, a) == a
    ensures Or(a, None) == a && Or(None, a) == a
  {
  }

  /** A set flag survives any further combination; None is never "held". */
  lemma HasModifierLaws(a: Modifier, b: Modifier, m: Modifier)
    ensures a != None ==> HasModifier(Or(a, b), a)
    ensures !HasModifier(m, None)
  {
  }
}
