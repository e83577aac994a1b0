/** The BOSS target identifier: plate, MJD and fiber packed into one integer
    by positional weighting (plate above 10^9, MJD above 10^4, fiber below),
    and its inverse by floor division and remainder. Python's `//` and `%`
    by a positive divisor agree with Dafny's on every integer. */
module TargetId {

  const FiberBase: int := 10000
  const MjdBase: int := 100000
  const PlateWeight: int := 1000000000

  /** `platemjdfiber2targetid` */
  function Encode(plate: int, mjd: int, fiber: int): int
  {
    plate * PlateWeight + mjd * FiberBase + fiber
  }

  /** `targetid2platemjdfiber` */
  function Decode(targetid: int): (r: (int, int, int))
    ensures 0 <= r.1 < MjdBase && 0 <= r.2 < FiberBase
  {
    var fiber := targetid % FiberBase;
    var mjd := (targetid / FiberBase) % MjdBase;
    var plate := targetid / (FiberBase * MjdBase);
    (plate, mjd, fiber)
  }

  /** Division with remainder is unique. */
  lemma DivModUnique(t: int, d: int, q: int, r: int)
    requires d > 0 && 0 <= r < d && t == q * d + r
    ensures t / d == q && t % d == r
  {
    var q', r' := t / d, t % d;
    assert t == q' * d + r';
    assert (q - q') * d == r' - r;
    if q > q' {
      assert (q - q') * d >= d by { MulAtLeast(q - q', d); }
    } else if q < q' {
      assert (q' - q) * d >= d by { MulAtLeast(q' - q, d); }
    }
  }

  lemma MulAtLeast(k: int, d: int)
    requires k >= 1 && d > 0
    ensures k * d >= d
  {
  }

  /** Every triple with MJD and fiber in their digit ranges decodes back to
      itself; the plate may be any integer, also a negative one. */
  lemma DecodeEncode(plate: int, mjd: int, fiber: int)
    requires 0 <= mjd < MjdBase && 0 <= fiber < FiberBase
    ensures Decode(Encode(plate, mjd, fiber)) == (plate, mjd, fiber)
  {
    var t := Encode(plate, mjd, fiber);
    var q := plate * MjdBase + mjd;
    assert t == q * FiberBase + fiber;
    DivModUnique(t, FiberBase, q, fiber);
    DivModUnique(q, MjdBase, plate, mjd);
    assert t == plate * (FiberBase * MjdBase) + (mjd * FiberBase + fiber);
    DivModUnique(t, FiberBase * MjdBase, plate, mjd * FiberBase + fiber);
  }

  /** Every integer is the encoding of its decoded triple. */
  lemma EncodeDecode(targetid: int)
    ensures var (p, m, f) := Decode(targetid); Encode(p, m, f) == targetid
  {
    var f := targetid % FiberBase;
    var q := targetid / FiberBase;
    var m := q % MjdBase;
    var p := q / MjdBase;
    assert targetid == q * FiberBase + f;
    assert q == p * MjdBase + m;
    assert targetid == p * PlateWeight + m * FiberBase + f;
    DivModUnique(targetid, FiberBase * MjdBase, p, m * FiberBase + f);
  }

  /** Within the digit ranges, two observations share an identifier only if
      they are the same observation. */
  lemma EncodeInjective(p1: int, m1: int, f1: int, p2: int, m2: int, f2: int)
    requires 0 <= m1 < MjdBase && 0 <= f1 < FiberBase
    requires 0 <= m2 < MjdBase && 0 <= f2 < FiberBase
    requires Encode(p1, m1, f1) == Encode(p2, m2, f2)
    ensures p1 == p2 && m1 == m2 && f1 == f2
  {
    DecodeEncode(p1, m1, f1);
    DecodeEncode(p2, m2, f2);
  }
}
