/** The input-current-limit grid of crates/core/src/icl.rs. */
module Icl {
  import opened Widths
  import opened Outcomes

  // Representable currents are minUa + code * stepUa for codes up to rawMax.
  datatype Grid = Grid(minUa: u32, stepUa: u32, rawMax: u8) {

    function MaxUa(): u32 {
      SatAdd32(minUa, SatMul32(stepUa, rawMax))
    }

    function Encode(iclUa: u32): Result<u8> {
      if stepUa == 0 || iclUa < minUa then Err(CurrentOutOfRange(iclUa, MaxUa()))
      else
        var steps := SatSub(iclUa, minUa) / stepUa;
        if steps > rawMax then Err(CurrentOutOfRange(iclUa, MaxUa())) else Ok(steps)
    }

    function Decode(raw: u8): u32 {
      SatAdd32(minUa, SatMul32(stepUa, raw))
    }

    function QuantizeDown(iclUa: u32): u32 {
      if stepUa == 0 || iclUa <= minUa then minUa
      else
        var steps := SatSub(iclUa, minUa) / stepUa;
        Decode(if steps > rawMax then rawMax else steps)
    }

    // The value of a code before any 32-bit saturation.
    ghost function Exact(raw: u8): int {
      minUa + stepUa * raw
    }
  }

  // Division by a positive step is the adjoint of multiplication by it.
  lemma StepsAdjoint(d: nat, step: nat, c: nat)
    requires step > 0
    ensures step * c <= d <==> c <= d / step
  {
    var q := d / step;
    assert d == q * step + d % step;
    if c <= q {
      assert step * c <= step * q;
    } else {
      assert step * c >= step * (q + 1) == step * q + step;
    }
  }

  /** Encoding is defined exactly on the half-open steps of the grid, and picks the step. */
  lemma EncodeExactly(g: Grid, x: u32, c: u8)
    requires g.stepUa > 0 && c <= g.rawMax
    ensures g.Encode(x) == Ok(c) <==> g.Exact(c) <= x < g.Exact(c) + g.stepUa
  {
    if g.minUa <= x {
      StepsAdjoint(x - g.minUa, g.stepUa, c);
      StepsAdjoint(x - g.minUa, g.stepUa, c + 1);
      assert g.stepUa * (c + 1) == g.stepUa * c + g.stepUa;
    }
  }

  lemma EncodeFailsExactly(g: Grid, x: u32)
    ensures g.Encode(x).Err? <==>
      g.stepUa == 0 || x < g.minUa || x >= g.Exact(g.rawMax) + g.stepUa
  {
    if g.stepUa > 0 && g.minUa <= x {
      StepsAdjoint(x - g.minUa, g.stepUa, g.rawMax + 1);
      assert g.stepUa * (g.rawMax + 1) == g.stepUa * g.rawMax + g.stepUa;
    }
  }

  // The code whose value quantization returns.
  ghost function QuantizedCode(g: Grid, x: u32): (c: u8)
    requires g.stepUa > 0
    ensures c <= g.rawMax
  {
    if x <= g.minUa then 0 else Min((x - g.minUa) / g.stepUa, g.rawMax)
  }

  /** Quantization never saturates, on any grid and any request: it is the exact value of a code. */
  lemma QuantizeIsACode(g: Grid, x: u32)
    requires g.stepUa > 0
    ensures g.QuantizeDown(x) == g.Exact(QuantizedCode(g, x)) == g.Decode(QuantizedCode(g, x))
    ensures g.QuantizeDown(x) <= Max(x, g.minUa)
  {
    var c := QuantizedCode(g, x);
    if x > g.minUa {
      StepsAdjoint(x - g.minUa, g.stepUa, c);
    }
    assert g.stepUa * c <= Max(x - g.minUa, 0);
  }

  lemma ScaleMonotone(step: nat, a: nat, b: nat)
    requires a <= b
    ensures step * a <= step * b
  {
  }

  /** It is the greatest grid value not above the request (or the grid's own minimum). */
  lemma QuantizeIsGreatest(g: Grid, x: u32, c: u8)
    requires g.stepUa > 0 && c <= g.rawMax && g.Exact(c) <= x
    ensures g.Exact(c) <= g.QuantizeDown(x) <= x
  {
    ScaleMonotone(g.stepUa, 0, c);
    StepsAdjoint(x - g.minUa, g.stepUa, c);
    ScaleMonotone(g.stepUa, c, QuantizedCode(g, x));
    QuantizeIsACode(g, x);
  }

  /** Quantization is monotone and idempotent, and what it returns encodes and decodes back exactly. */
  lemma QuantizeRoundTrip(g: Grid, x: u32)
    requires g.stepUa > 0
    ensures g.Encode(g.QuantizeDown(x)).Ok?
    ensures g.Decode(g.Encode(g.QuantizeDown(x)).value) == g.QuantizeDown(x)
    ensures g.QuantizeDown(g.QuantizeDown(x)) == g.QuantizeDown(x)
  {
    var c := QuantizedCode(g, x);
    var q := g.QuantizeDown(x);
    QuantizeIsACode(g, x);
    EncodeExactly(g, q, c);
    QuantizeIsGreatest(g, q, c);
  }

  lemma QuantizeMonotone(g: Grid, x: u32, y: u32)
    requires x <= y
    ensures g.QuantizeDown(x) <= g.QuantizeDown(y)
  {
    if g.stepUa > 0 {
      QuantizeIsACode(g, x);
      QuantizeIsACode(g, y);
      var c := QuantizedCode(g, x);
      if x > g.minUa {
        QuantizeIsGreatest(g, y, c);
      } else {
        assert g.Exact(c) == g.minUa;
        assert g.stepUa * QuantizedCode(g, y) >= 0;
      }
    }
  }

  /** A request survives as a ceiling exactly when it is not below the grid. */
  lemma QuantizeRespectsCeiling(g: Grid, x: u32)
    ensures g.QuantizeDown(x) <= x <==> g.minUa <= x
  {
    if g.stepUa > 0 {
      QuantizeIsACode(g, x);
      assert g.stepUa * QuantizedCode(g, x) >= 0;
    }
  }

  /** A code survives decode and encode exactly when its value fits 32 bits. */
  lemma DecodeEncodeExactly(g: Grid, c: u8)
    requires g.stepUa > 0 && c <= g.rawMax
    ensures g.Encode(g.Decode(c)) == Ok(c) <==> g.Exact(c) <= U32_MAX
  {
    assert g.stepUa * c >= 0;
    EncodeExactly(g, g.Decode(c), c);
  }
}
