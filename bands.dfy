/** The index structure of the resolution matrix built for each fiber: the
    fallback for degenerate dispersion widths, the number of diagonals, each
    diagonal's offset and length, and which cells of the `reso` array each
    band fills. The Gaussian values themselves are kept symbolic: a filled
    cell records the squared pixel separation and the width it is evaluated
    with, `exp(-sep2 / 2 / width^2)`. */
module Bands {
  import opened Common

  /** Widths below this are taken as unmeasured. */
  const Degenerate: real := 0.00001
  /** The width put in their place. */
  const Fallback: real := 2.0

  /** `wd[wd < 1e-5] = 2.` */
  function Substitute(wd: seq<seq<real>>): (r: seq<seq<real>>)
    ensures |r| == |wd| && forall i :: 0 <= i < |wd| ==> |r[i]| == |wd[i]|
  {
    seq(|wd|, i requires 0 <= i < |wd| =>
      seq(|wd[i]|, j requires 0 <= j < |wd[i]| => if wd[i][j] < Degenerate then Fallback else wd[i][j]))
  }

  /** After the substitution no width is degenerate; measured widths are kept
      and every degenerate one is 2. */
  lemma SubstituteMeaning(wd: seq<seq<real>>, i: nat, j: nat)
    requires i < |wd| && j < |wd[i]|
    ensures Substitute(wd)[i][j] >= Degenerate
    ensures wd[i][j] >= Degenerate ==> Substitute(wd)[i][j] == wd[i][j]
    ensures wd[i][j] < Degenerate ==> Substitute(wd)[i][j] == Fallback
  {
  }

  /** The largest entry of the first `n` values. */
  function MaxOf(vals: seq<real>, n: nat): (m: real)
    requires 1 <= n <= |vals|
    ensures forall j :: 0 <= j < n ==> vals[j] <= m
    ensures exists j :: 0 <= j < n && vals[j] == m
  {
    if n == 1 then vals[0]
    else
      var before := MaxOf(vals, n - 1);
      if vals[n - 1] > before then vals[n - 1] else before
  }

  /** `wd.max()` over a 2-D array of `cols` columns; numpy raises on an
      empty one. */
  function MaxWidth(name: string, wd: seq<seq<real>>, cols: nat): (r: Result<real>)
    requires Rectangular(wd, cols)
    ensures r.Ok? <==> |wd| > 0 && cols > 0
    ensures r.Ok? ==> forall i, j :: 0 <= i < |wd| && 0 <= j < cols ==> wd[i][j] <= r.value
    ensures r.Ok? ==> exists i, j :: 0 <= i < |wd| && 0 <= j < cols && wd[i][j] == r.value
  {
    if |wd| == 0 || cols == 0 then Err(EmptyReduction(name))
    else
      var rows := seq(|wd|, i requires 0 <= i < |wd| => MaxOf(wd[i], cols));
      var m := MaxOf(rows, |rows|);
      assert forall i, j :: 0 <= i < |wd| && 0 <= j < cols ==> wd[i][j] <= m by {
        forall i, j | 0 <= i < |wd| && 0 <= j < cols ensures wd[i][j] <= m {
          assert wd[i][j] <= rows[i];
        }
      }
      var i :| 0 <= i < |rows| && rows[i] == m;
      assert exists j :: 0 <= j < cols && wd[i][j] == m;
      Ok(m)
  }

  /** Once degenerate widths are replaced, the largest width is at least
      1e-5, so the band count below is at least 5. */
  lemma SubstitutedMax(name: string, raw: seq<seq<real>>, cols: nat)
    requires Rectangular(raw, cols) && |raw| > 0 && cols > 0
    ensures Rectangular(Substitute(raw), cols)
    ensures MaxWidth(name, Substitute(raw), cols).Ok?
    ensures MaxWidth(name, Substitute(raw), cols).value >= Degenerate
  {
    var wd := Substitute(raw);
    var m := MaxWidth(name, wd, cols).value;
    assert wd[0][0] <= m;
    SubstituteMeaning(raw, 0, 0);
  }

  /** `np.ceil` on a real: the least integer not below `x`. */
  function Ceil(x: real): (c: int)
    ensures c as real - 1.0 < x <= c as real
  {
    if x == x.Floor as real then x.Floor else x.Floor + 1
  }

  /** `int(4*np.ceil(wd.max())+1)` */
  function NDiag(maxWidth: real): int
  {
    4 * Ceil(maxWidth) + 1
  }

  /** With every width at least 1e-5, the band count is odd, at least 5, and
      each side of the main diagonal spans at least twice the largest width. */
  lemma NDiagShape(maxWidth: real)
    requires maxWidth >= Degenerate
    ensures NDiag(maxWidth) >= 5 && NDiag(maxWidth) % 2 == 1
    ensures (NDiag(maxWidth) / 2) as real >= 2.0 * maxWidth
  {
    var c := Ceil(maxWidth);
    assert c >= 1;
    assert NDiag(maxWidth) == 2 * (2 * c) + 1;
    assert NDiag(maxWidth) / 2 == 2 * c;
  }

  /** `offset = ndiag//2 - idiag`, also the `offsets` handed to the
      diagonal-storage matrix. */
  function Offset(ndiag: nat, idiag: int): int
  {
    ndiag / 2 - idiag
  }

  /** The offsets of an odd band count run from `ndiag//2` down to
      `-(ndiag//2)`, symmetric about the main diagonal. */
  lemma OffsetsSymmetric(ndiag: nat, idiag: nat)
    requires ndiag % 2 == 1 && idiag < ndiag
    ensures Offset(ndiag, 0) == ndiag / 2 && Offset(ndiag, ndiag - 1) == -(ndiag / 2)
    ensures Offset(ndiag, ndiag - 1 - idiag) == -Offset(ndiag, idiag)
    ensures -(ndiag / 2) <= Offset(ndiag, idiag) <= ndiag / 2
  {
  }

  /** `di2[r][c] = (c - r)**2`, `di = ii - ii[:,None]`. */
  function Di2(r: int, c: int): int
  {
    (c - r) * (c - r)
  }

  function AbsInt(x: int): nat
  {
    if x < 0 then -x else x
  }

  /** `np.diagonal(di2, offset=offset)` of the `nbins` by `nbins` array:
      above the main diagonal for a positive offset, below it for a negative
      one; empty once the offset leaves the array. */
  function Diagonal(nbins: nat, offset: int): seq<int>
  {
    var len := if AbsInt(offset) < nbins then nbins - AbsInt(offset) else 0;
    if offset >= 0 then seq(len, i requires 0 <= i < len => Di2(i, i + offset))
    else seq(len, i requires 0 <= i < len => Di2(i - offset, i))
  }

  /** The diagonal at `offset` has `nbins - |offset|` entries (none once the
      offset reaches the size) and every one of them is `offset**2`. */
  lemma DiagonalEntries(nbins: nat, offset: int)
    ensures |Diagonal(nbins, offset)| == if AbsInt(offset) < nbins then nbins - AbsInt(offset) else 0
    ensures forall k :: 0 <= k < |Diagonal(nbins, offset)| ==> Diagonal(nbins, offset)[k] == offset * offset
  {
    var d := Diagonal(nbins, offset);
    forall k | 0 <= k < |d| ensures d[k] == offset * offset {
      if offset >= 0 {
        assert d[k] == Di2(k, k + offset);
        assert (k + offset) - k == offset;
      } else {
        assert d[k] == Di2(k - offset, k);
        assert k - (k - offset) == offset;
      }
    }
  }

  /** One cell of `reso`: never written, or the Gaussian of `sep2` pixels
      squared evaluated with dispersion `width`. */
  datatype Kernel = Unset | Gaussian(sep2: int, width: real)

  /** What diagonal storage means: cell `(idiag, j)` holds the matrix entry
      at row `j - offset`, column `j`; it is filled exactly when that row lies
      inside the matrix, with the squared distance between row and column
      and the width of column `j`. */
  function BandEntry(wd: seq<real>, ndiag: nat, idiag: int, j: int): Kernel
    requires 0 <= j < |wd|
  {
    var row := j - Offset(ndiag, idiag);
    if 0 <= row < |wd| then Gaussian(Di2(row, j), wd[j]) else Unset
  }

  /** Writing diagonal `idiag` at `reso[idiag, start:start+len(d)]` puts
      in column `j` exactly the band entry that diagonal storage means. */
  lemma BandSlot(wd: seq<real>, ndiag: nat, idiag: int, j: int)
    requires 0 <= j < |wd|
    ensures var offset := Offset(ndiag, idiag);
      var d := Diagonal(|wd|, offset);
      var start := if offset < 0 then 0 else |wd| - |d|;
      BandEntry(wd, ndiag, idiag, j) == if start <= j < start + |d| then Gaussian(d[j - start], wd[j]) else Unset
  {
    var offset := Offset(ndiag, idiag);
    var d := Diagonal(|wd|, offset);
    DiagonalEntries(|wd|, offset);
    var start := if offset < 0 then 0 else |wd| - |d|;
    if start <= j < start + |d| {
      assert d[j - start] == offset * offset;
      assert Di2(j - offset, j) == offset * offset;
    }
  }

  /** The `for idiag in range(ndiag)` loop for one fiber with widths `wd`:
      a band with negative offset fills `reso[idiag, :len(d)]`, any other
      fills `reso[idiag, nbins-len(d):nbins]`, and the rest stays zero. */
  method BuildBands(wd: seq<real>, ndiag: nat) returns (reso: array2<Kernel>)
    ensures fresh(reso)
    ensures reso.Length0 == ndiag && reso.Length1 == |wd|
    ensures forall idiag, j :: 0 <= idiag < ndiag && 0 <= j < |wd| ==> reso[idiag, j] == BandEntry(wd, ndiag, idiag, j)
  {
    var nbins := |wd|;
    reso := new Kernel[ndiag, nbins]((_, _) => Unset);
    for idiag := 0 to ndiag
      invariant forall a, j :: 0 <= a < idiag && 0 <= j < nbins ==> reso[a, j] == BandEntry(wd, ndiag, a, j)
      invariant forall a, j :: idiag <= a < ndiag && 0 <= j < nbins ==> reso[a, j] == Unset
    {
      FillBand(reso, wd, ndiag, idiag);
    }
  }

  /** One pass of the loop: writes diagonal `idiag` into its row of `reso`,
      which was still unset, and leaves every other row alone. */
  method FillBand(reso: array2<Kernel>, wd: seq<real>, ndiag: nat, idiag: nat)
    requires reso.Length0 == ndiag && reso.Length1 == |wd| && idiag < ndiag
    requires forall j :: 0 <= j < |wd| ==> reso[idiag, j] == Unset
    modifies reso
    ensures forall j :: 0 <= j < |wd| ==> reso[idiag, j] == BandEntry(wd, ndiag, idiag, j)
    ensures forall a, j :: 0 <= a < ndiag && a != idiag && 0 <= j < |wd| ==> reso[a, j] == old(reso[a, j])
  {
    var nbins := |wd|;
    var offset := Offset(ndiag, idiag);
    var d := Diagonal(nbins, offset);
    var start := if offset < 0 then 0 else nbins - |d|;
    for k := 0 to |d|
      invariant forall a, j :: 0 <= a < ndiag && a != idiag && 0 <= j < nbins ==> reso[a, j] == old(reso[a, j])
      invariant forall j :: 0 <= j < nbins ==>
        reso[idiag, j] == if start <= j < start + k then Gaussian(d[j - start], wd[j]) else Unset
    {
      reso[idiag, start + k] := Gaussian(d[k], wd[start + k]);
    }
    forall j | 0 <= j < nbins
      ensures reso[idiag, j] == BandEntry(wd, ndiag, idiag, j)
    {
      BandSlot(wd, ndiag, idiag, j);
    }
  }
}
