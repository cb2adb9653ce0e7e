// `colorFor`: the badge and pie-slice colour derived from a category's text.
// The running hash is a JavaScript number; `<<` converts its operand with
// ToInt32 and converts the shifted bits back to a signed 32-bit integer,
// while the subtraction and the addition work on the untruncated value.

module Color {
  import opened Text

  const TwoTo32: int := 0x1_0000_0000
  const TwoTo31: int := 0x8000_0000

  /** ECMAScript ToInt32 on an integral number: the signed 32-bit integer
      congruent to `x` modulo 2^32. */
  function ToInt32(x: int): (r: int)
    ensures -TwoTo31 <= r < TwoTo31
    ensures (x - r) % TwoTo32 == 0
  {
    var m := x % TwoTo32;
    if m >= TwoTo31 then m - TwoTo32 else m
  }

  /** ToInt32 picks the only signed 32-bit integer congruent to its input. */
  lemma ToInt32Unique(x: int, y: int)
    requires -TwoTo31 <= y < TwoTo31 && (x - y) % TwoTo32 == 0
    ensures ToInt32(x) == y
  {
    var r := ToInt32(x);
    var q1 := (x - r) / TwoTo32;
    var q2 := (x - y) / TwoTo32;
    assert x - r == q1 * TwoTo32;
    assert x - y == q2 * TwoTo32;
    assert y - r == (q1 - q2) * TwoTo32;
  }

  /** `hash << 5`: always a signed 32-bit integer. */
  function ShiftLeft5(hash: int): (r: int)
    ensures -TwoTo31 <= r < TwoTo31
  {
    ToInt32(ToInt32(hash) * 32)
  }

  /** Shifting the 32-bit pattern left by five is multiplying by 32 and
      wrapping to a signed 32-bit integer. */
  lemma ShiftLeft5Wraps(hash: int)
    ensures ShiftLeft5(hash) == ToInt32(hash * 32)
  {
    var t := ToInt32(hash);
    var r := ShiftLeft5(hash);
    var q1 := (hash - t) / TwoTo32;
    var q2 := (t * 32 - r) / TwoTo32;
    assert hash - t == q1 * TwoTo32;
    assert t * 32 - r == q2 * TwoTo32;
    assert hash * 32 - r == (32 * q1 + q2) * TwoTo32;
    ToInt32Unique(hash * 32, r);
  }

  /** One iteration of the loop: `hash = code + ((hash << 5) - hash)`. */
  function HashStep(hash: int, code: int): int
  {
    code + (ShiftLeft5(hash) - hash)
  }

  /** The hash after the loop has consumed `units`, from left to right. */
  function HashOf(units: seq<int>): int
  {
    if units == [] then 0 else HashStep(HashOf(units[..|units| - 1]), units[|units| - 1])
  }

  /** The hue `Math.abs(hash) % 360` for the text `str`: a degree in [0, 360). */
  function Hue(str: string): (r: int)
    ensures 0 <= r < 360
  {
    var h := HashOf(CodeUnits(str));
    (if h < 0 then -h else h) % 360
  }

  /** The CSS colour string `hsl(<hue> 80% 45% / 0.95)`: the hue can be read
      back from the digits between the fixed prefix and suffix. */
  function HslColor(hue: nat): (r: string)
    ensures |r| > 20 && r[..4] == "hsl(" && r[|r| - 16..] == " 80% 45% / 0.95)"
    ensures forall k :: 4 <= k < |r| - 16 ==> '0' <= r[k] <= '9'
    ensures DigitValue(r[4..|r| - 16]) == hue
  {
    "hsl(" + Decimal(hue) + " 80% 45% / 0.95)"
  }

  /** The largest change one iteration can make to the hash magnitude. */
  const StepBound: int := TwoTo31 + 0xFFFF

  /** The hash grows by at most `StepBound` per code unit, so for any text of
      at most 2^21 code units every intermediate value is an integer below
      2^53 and the double arithmetic of the page computes it exactly. */
  lemma {:induction false} HashBound(units: seq<int>)
    requires forall k :: 0 <= k < |units| ==> IsCodeUnit(units[k])
    ensures -|units| * StepBound <= HashOf(units) <= |units| * StepBound
  {
    if units != [] {
      var init := units[..|units| - 1];
      var n := |init|;
      HashBound(init);
      var h := HashOf(init);
      var c := units[|units| - 1];
      assert IsCodeUnit(c);
      var sh := ShiftLeft5(h);
      assert -TwoTo31 <= sh < TwoTo31;
      assert HashOf(units) == c + (sh - h);
      assert (n + 1) * StepBound == n * StepBound + StepBound;
    }
  }

  lemma HashExact(units: seq<int>)
    requires forall k :: 0 <= k < |units| ==> IsCodeUnit(units[k])
    requires |units| <= 0x20_0000
    ensures -0x20_0000_0000_0000 < HashOf(units) < 0x20_0000_0000_0000
  {
    HashBound(units);
    assert |units| * StepBound <= 0x20_0000 * StepBound;
  }

  /** `colorFor(str)`: runs the hash loop over the UTF-16 code units of
      `str` and returns the hue in [0, 360) and the colour string. The result
      depends on the text alone, so equal categories share a colour. */
  method ColorFor(str: string) returns (hue: int, css: string)
    ensures 0 <= hue < 360
    ensures hue == Hue(str)
    ensures css == HslColor(hue)
  {
    var units := CodeUnits(str);
    var hash := 0;
    for i := 0 to |units|
      invariant hash == HashOf(units[..i])
    {
      assert units[..i + 1][..i] == units[..i];
      hash := units[i] + (ShiftLeft5(hash) - hash);
    }
    assert units[..|units|] == units;
    hue := (if hash < 0 then -hash else hash) % 360;
    css := HslColor(hue);
  }
}
