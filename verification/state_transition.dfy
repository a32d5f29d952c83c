// The default transition table of the adaptive states, and what it guarantees.

module StateTransition {
  import opened Basics
  import opened RangeInterval
  import opened RangeSymbols

  const DEFAULT_ROWS: seq<seq<byte>> := [
    [0, 0, 0, 0, 0, 0, 0, 0, 20, 21, 22, 23, 24, 25, 26, 27],
    [28, 29, 30, 31, 32, 33, 34, 35, 36, 37, 37, 38, 39, 40, 41, 42],
    [43, 44, 45, 46, 47, 48, 49, 50, 51, 52, 53, 54, 55, 56, 56, 57],
    [58, 59, 60, 61, 62, 63, 64, 65, 66, 67, 68, 69, 70, 71, 72, 73],
    [74, 75, 75, 76, 77, 78, 79, 80, 81, 82, 83, 84, 85, 86, 87, 88],
    [89, 90, 91, 92, 93, 94, 94, 95, 96, 97, 98, 99, 100, 101, 102, 103],
    [104, 105, 106, 107, 108, 109, 110, 111, 112, 113, 114, 114, 115, 116, 117, 118],
    [119, 120, 121, 122, 123, 124, 125, 126, 127, 128, 129, 130, 131, 132, 133, 133],
    [134, 135, 136, 137, 138, 139, 140, 141, 142, 143, 144, 145, 146, 147, 148, 149],
    [150, 151, 152, 152, 153, 154, 155, 156, 157, 158, 159, 160, 161, 162, 163, 164],
    [165, 166, 167, 168, 169, 170, 171, 171, 172, 173, 174, 175, 176, 177, 178, 179],
    [180, 181, 182, 183, 184, 185, 186, 187, 188, 189, 190, 190, 191, 192, 194, 194],
    [195, 196, 197, 198, 199, 200, 201, 202, 202, 204, 205, 206, 207, 208, 209, 209],
    [210, 211, 212, 213, 215, 215, 216, 217, 218, 219, 220, 220, 222, 223, 224, 225],
    [226, 227, 227, 229, 229, 230, 231, 232, 234, 234, 235, 236, 237, 238, 239, 240],
    [241, 242, 243, 244, 245, 246, 247, 248, 248, 0, 0, 0, 0, 0, 0, 0]
  ]

  function DefaultEntry(i: byte): byte {
    DEFAULT_ROWS[i / 16][i % 16]
  }

  function DefaultTransition(): (t: Table)
    ensures forall i :: 0 <= i < 256 ==> t[i] == DefaultEntry(i)
  {
    seq(256, i requires 0 <= i < 256 => DefaultEntry(i))
  }

  /** The band of states the default table never leaves. */
  predicate Steady(state: int) {
    8 <= state <= 248
  }

  lemma LowerRowSteady(row: nat, column: nat)
    requires row < 8 && column < 16
    requires Steady(16 * row + column)
    ensures Steady(DEFAULT_ROWS[row][column])
  {
  }

  lemma UpperRowSteady(row: nat, column: nat)
    requires 8 <= row < 16 && column < 16
    requires Steady(16 * row + column)
    ensures Steady(DEFAULT_ROWS[row][column])
  {
  }

  lemma DefaultSteady(state: byte)
    requires Steady(state)
    ensures Steady(DefaultTransition()[state])
  {
    if state < 128 {
      LowerRowSteady(state / 16, state % 16);
    } else {
      UpperRowSteady(state / 16, state % 16);
    }
  }

  /** From a steady state both kinds of decision lead to a steady state. */
  lemma NextSteady(state: byte, bit: bool)
    requires Steady(state)
    ensures Steady(NextState(DefaultTransition(), state, bit))
  {
    hide DefaultEntry;
    DefaultSteady(state);
    DefaultSteady(256 - state);
  }
}
