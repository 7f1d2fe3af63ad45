/**
 * The per-node flag bitmask `LatticeMesh` keeps in its flags texture
 * (hovered = 1, highlighted = 2, selected = 4), and the `mod`/`floor`
 * arithmetic every vertex shader uses to decode it from the float it reads.
 * A flags texel only ever holds a small integer, which a 32-bit float
 * stores exactly, so the stored value is modelled as a byte.
 */
module NodeFlags {

  const Hovered: bv8 := 1
  const Highlighted: bv8 := 2
  const Selected: bv8 := 4

  /** The three flags of one node, as booleans. */
  datatype Flags = Flags(hovered: bool, highlighted: bool, selected: bool)

  /** Reads the three flag bits of a mask with `&`, as the diff does. */
  function Bits(m: bv8): Flags {
    Flags(m & Hovered != 0, m & Highlighted != 0, m & Selected != 0)
  }

  /** The initial mask: `0`, then `| Hovered`, `| Highlighted`, `| Selected` for each flag set. */
  function MaskOf(hovered: bool, highlighted: bool, selected: bool): (m: bv8)
    ensures m <= 7
    ensures Bits(m) == Flags(hovered, highlighted, selected)
  {
    var m0: bv8 := 0;
    var m1 := if hovered then m0 | Hovered else m0;
    var m2 := if highlighted then m1 | Highlighted else m1;
    if selected then m2 | Selected else m2
  }

  /** `flags |= bit` when `on`, `flags &= ~bit` otherwise. */
  function SetBit(m: bv8, bit: bv8, on: bool): (r: bv8)
    ensures r & bit == (if on then bit else 0)
    ensures r & !bit == m & !bit
  {
    if on then m | bit else m & !bit
  }

  /** Setting or clearing one of the three flags keeps a mask within the three bits. */
  lemma SetBitInRange(m: bv8, bit: bv8, on: bool)
    requires m <= 7 && (bit == Hovered || bit == Highlighted || bit == Selected)
    ensures SetBit(m, bit, on) <= 7
  {
    assert m & !bit <= m;
  }

  /** GLSL `mod(x, y) = x - y * floor(x / y)`. */
  function GlslMod(x: real, y: real): real
    requires y != 0.0
  {
    x - y * ((x / y).Floor as real)
  }

  /** The shaders' decode of a flags value `f` read from the texture. */
  function Decode(f: real): Flags {
    Flags(GlslMod(f, 2.0) > 0.0,
          GlslMod((f / 2.0).Floor as real, 2.0) > 0.0,
          GlslMod((f / 4.0).Floor as real, 2.0) > 0.0)
  }

  /** The float a flags texel holds for mask `m`. */
  function AsFloat(m: bv8): real {
    (m as int) as real
  }

  /** On whole numbers, real division followed by `floor` is integer division. */
  lemma FloorDiv(n: nat, k: nat)
    requires k > 0
    ensures ((n as real) / (k as real)).Floor == n / k
  {
    var q, r := n / k, n % k;
    var x := (n as real) / (k as real);
    assert n == q * k + r;
    assert x * (k as real) == (q as real) * (k as real) + (r as real);
    assert (q as real) * (k as real) <= x * (k as real) < ((q + 1) as real) * (k as real);
    assert (q as real) <= x < (q + 1) as real;
  }

  /** GLSL `mod` on whole numbers is the remainder. */
  lemma GlslModNat(n: nat, k: nat)
    requires k > 0
    ensures GlslMod(n as real, k as real) == (n % k) as real
  {
    FloorDiv(n, k);
    assert n == (n / k) * k + n % k;
  }

  /** The decode reads bits 0, 1 and 2 of any whole number. */
  lemma DecodeNat(n: nat)
    ensures Decode(n as real) == Flags(n % 2 == 1, (n / 2) % 2 == 1, (n / 4) % 2 == 1)
  {
    GlslModNat(n, 2);
    FloorDiv(n, 2);
    GlslModNat(n / 2, 2);
    FloorDiv(n, 4);
    GlslModNat(n / 4, 2);
  }

  lemma BitsArithmetic(m: bv8)
    requires m <= 7
    ensures var n := m as int;
            Bits(m) == Flags(n % 2 == 1, (n / 2) % 2 == 1, (n / 4) % 2 == 1)
  {
    if m == 0 {} else if m == 1 {} else if m == 2 {} else if m == 3 {}
    else if m == 4 {} else if m == 5 {} else if m == 6 {} else {}
  }

  /** For every mask 0..7, the shaders' `mod`/`floor` decode agrees with the bits. */
  lemma DecodeMatchesBits(m: bv8)
    requires m <= 7
    ensures Decode(AsFloat(m)) == Bits(m)
  {
    DecodeNat(m as int);
    BitsArithmetic(m);
  }

  /** Encoding the three flags and decoding them in a shader gives them back. */
  lemma DecodeRoundTrip(hovered: bool, highlighted: bool, selected: bool)
    ensures Decode(AsFloat(MaskOf(hovered, highlighted, selected))) == Flags(hovered, highlighted, selected)
  {
    DecodeMatchesBits(MaskOf(hovered, highlighted, selected));
  }
}
