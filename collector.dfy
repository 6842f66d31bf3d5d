/** The beam collector of `Handler` (RandomOrientation/main.cpp:321-348) and the
    folding of the exact forward/backward peaks into the zenith bins that `main` does
    after the orientation sweep (RandomOrientation/main.cpp:209-253).

    The accumulators are the globals `back`, `forw` and `mxd`; they are the fields of an
    `Accumulators` object here. `mxd` is `Arr2D(1, ThetaNumber+1, 4, 4)`: its first axis
    has size 1 and is dropped, so it is an array of ThetaNumber+1 matrices. */
module Collector {
  import opened Matrices
  import TrajectoryFilter

  /** `M_PI`, the double nearest to pi, written out exactly. */
  const Pi: real := 3.141592653589793115997963468544185161590576171875

  /** `DBL_EPSILON`, that is 2^-52. */
  const DblEpsilon: real := 1.0 / 4503599627370496.0

  /** One outgoing beam as `Handler` sees it. The tracer, `acos`, `CrossSection`,
      `Mueller` and `RightRotateMueller` are not part of this model; their results
      for this beam are fields of the record:
      `zenith` is acos(r.z), `crossSection` is CrossSection(bm), `mueller` is
      Mueller(bm()) and `rotated` is that matrix after RightRotateMueller has turned
      it by twice the negative azimuth. `dirY` and `dirZ` are r.y and r.z. */
  datatype Beam = Beam(
    trajectory: seq<nat>,
    dirY: real,
    dirZ: real,
    zenith: real,
    crossSection: real,
    mueller: Matrix,
    rotated: Matrix)

  /** What the opaque functions guarantee: acos lies in [0, pi], and the matrices are 4x4. */
  predicate WellFormed(beam: Beam)
  {
    0.0 <= beam.zenith <= Pi && Is4x4(beam.mueller) && Is4x4(beam.rotated)
  }

  /** C's `round` on a double: to the nearest integer, halves away from zero. */
  function Round(x: real): (n: int)
    ensures x >= 0.0 ==> x - 0.5 < n as real <= x + 0.5
    ensures x < 0.0 ==> x - 0.5 <= n as real < x + 0.5
  {
    if x >= 0.0 then (x + 0.5).Floor else -((-x + 0.5).Floor)
  }

  /** `ZenAng = round(acos(r.z) / SizeBin)` with `SizeBin = M_PI / ThetaNumber`
      (RandomOrientation/main.cpp:114, 337). With ThetaNumber 0 the bin size is an IEEE
      infinity, the quotient is 0 and the beam goes to bin 0. */
  function ZenithBin(zenith: real, thetaNumber: nat): int
  {
    if thetaNumber == 0 then 0 else Round(zenith / (Pi / thetaNumber as real))
  }

  /** The bin index is inside the ThetaNumber+1 allocated bins for every value acos can return. */
  lemma ZenithBinInRange(zenith: real, thetaNumber: nat)
    requires 0.0 <= zenith <= Pi
    ensures 0 <= ZenithBin(zenith, thetaNumber) <= thetaNumber
  {
    if thetaNumber > 0 {
      var t := thetaNumber as real;
      var q := zenith / (Pi / t);
      assert q == zenith * t / Pi;
      assert zenith * t <= Pi * t;
      assert q <= t;
      assert 0.0 <= q;
    }
  }

  /** A beam goes to bin k exactly when its zenith angle is within half a bin of k bin sizes
      (the upper half-way point going to the next bin). */
  lemma ZenithBinIsNearest(zenith: real, thetaNumber: nat, k: int)
    requires 0.0 <= zenith && thetaNumber > 0
    ensures ZenithBin(zenith, thetaNumber) == k <==>
              k as real - 0.5 <= zenith / (Pi / thetaNumber as real) < k as real + 0.5
  {
  }

  /** An angle of 3.5 bin sizes is rounded up into bin 4. */
  lemma HalfwayRoundsUp(thetaNumber: nat)
    requires thetaNumber > 0
    ensures ZenithBin(3.5 * (Pi / thetaNumber as real), thetaNumber) == 4
  {
    var size := Pi / thetaNumber as real;
    assert size > 0.0;
    assert 3.5 * size / size == 3.5;
  }

  /** Where `Handler` sends a beam. */
  datatype Destination = Rejected | Back | Forward | Bin(index: nat)

  /** The routing of RandomOrientation/main.cpp:301-348. As written, r.z >= 1-DBL_EPSILON
      goes to `back` and r.z <= DBL_EPSILON-1 to `forw`. */
  function Route(beam: Beam, sorting: nat, mask: seq<seq<nat>>, thetaNumber: nat): (d: Destination)
    requires WellFormed(beam)
    ensures d.Bin? ==> d.index <= thetaNumber
    ensures d != Rejected <==> TrajectoryFilter.Passes(sorting, mask, beam.trajectory)
  {
    if !TrajectoryFilter.Passes(sorting, mask, beam.trajectory) then Rejected
    else if beam.dirZ >= 1.0 - DblEpsilon then Back
    else if beam.dirZ <= DblEpsilon - 1.0 then Forward
    else
      ZenithBinInRange(beam.zenith, thetaNumber);
      Bin(ZenithBin(beam.zenith, thetaNumber))
  }

  /** Only the direction decides the accumulator of an accepted beam: r.z = 1 goes to
      `back`, r.z = -1 to `forw`, and a direction strictly between the two thresholds to
      the bin of its zenith angle. */
  lemma AcceptedBeamDestination(beam: Beam, sorting: nat, mask: seq<seq<nat>>, thetaNumber: nat)
    requires WellFormed(beam) && TrajectoryFilter.Passes(sorting, mask, beam.trajectory)
    ensures beam.dirZ == 1.0 ==> Route(beam, sorting, mask, thetaNumber) == Back
    ensures beam.dirZ == -1.0 ==> Route(beam, sorting, mask, thetaNumber) == Forward
    ensures DblEpsilon - 1.0 < beam.dirZ < 1.0 - DblEpsilon ==>
              Route(beam, sorting, mask, thetaNumber) == Bin(ZenithBin(beam.zenith, thetaNumber))
  {
  }

  /** The matrix `bf` that `Handler` weights by `Area = P*CrossSection(bm)` and adds:
      Mueller(bm()), turned into the common meridian frame by RightRotateMueller only when
      the beam goes to a zenith bin and r.y^2 > DBL_EPSILON. */
  function Aligned(beam: Beam, d: Destination): (bf: Matrix)
    requires WellFormed(beam)
    ensures Is4x4(bf)
  {
    if d.Bin? && beam.dirY * beam.dirY > DblEpsilon then beam.rotated else beam.mueller
  }

  /** Every matrix of a list of bins is 4x4. */
  predicate AllIs4x4(bins: seq<Matrix>)
  {
    forall j :: 0 <= j < |bins| ==> Is4x4(bins[j])
  }

  /** The total intensity held by the bins: the sum of their (0,0) entries. */
  function SumM11(bins: seq<Matrix>): real
    requires AllIs4x4(bins)
  {
    if bins == [] then 0.0 else SumM11(bins[..|bins| - 1]) + bins[|bins| - 1][0][0]
  }

  /** Replacing one bin changes the total intensity by the change in that bin's (0,0) entry. */
  lemma {:induction false} SumM11Update(bins: seq<Matrix>, j: nat, m: Matrix)
    requires AllIs4x4(bins) && j < |bins| && Is4x4(m)
    ensures AllIs4x4(bins[j := m])
    ensures SumM11(bins[j := m]) == SumM11(bins) - bins[j][0][0] + m[0][0]
  {
    var n := |bins| - 1;
    if j < n {
      assert bins[j := m][..n] == bins[..n][j := m];
      SumM11Update(bins[..n], j, m);
    } else {
      assert bins[j := m][..n] == bins[..n];
    }
  }

  /** `b[]`: the backward peak reduced to the three values an azimuthal average keeps
      (RandomOrientation/main.cpp:210). */
  function BackPeak(back: Matrix): (b: seq<real>)
    requires Is4x4(back)
    ensures |b| == 3
  {
    [back[0][0], (back[1][1] - back[2][2]) / 2.0, back[3][3]]
  }

  /** `f[]`: the forward peak reduced the same way (RandomOrientation/main.cpp:211). */
  function ForwardPeak(forw: Matrix): (f: seq<real>)
    requires Is4x4(forw)
    ensures |f| == 3
  {
    [forw[0][0], (forw[1][1] + forw[2][2]) / 2.0, forw[3][3]]
  }

  /** `mxd(0, j, row, col) += d` on the list of bins. */
  function AddToEntry(bins: seq<Matrix>, j: nat, row: nat, col: nat, d: real): (r: seq<Matrix>)
    requires AllIs4x4(bins) && j < |bins| && row < 4 && col < 4
    ensures |r| == |bins| && AllIs4x4(r)
  {
    bins[j := AddAt(bins[j], row, col, d)]
  }

  /** The eight in-place additions of RandomOrientation/main.cpp:249-252, in their order:
      the forward peak goes to bin ThetaNumber (the last bin), the backward peak to bin 0. */
  function FoldedBins(bins: seq<Matrix>, b: seq<real>, f: seq<real>): (r: seq<Matrix>)
    requires |bins| >= 1 && AllIs4x4(bins) && |b| == 3 && |f| == 3
    ensures |r| == |bins| && AllIs4x4(r)
  {
    FoldRows(bins, ForwardDiagonal(f), BackwardDiagonal(b), 4)
  }

  /** What the folding adds to the diagonal of the last bin, line by line. */
  function ForwardDiagonal(f: seq<real>): (d: seq<real>)
    requires |f| == 3
    ensures |d| == 4
  {
    [f[0], f[1], f[1], f[2]]
  }

  /** What the folding adds to the diagonal of bin 0, line by line. */
  function BackwardDiagonal(b: seq<real>): (d: seq<real>)
    requires |b| == 3
    ensures |d| == 4
  {
    [b[0], b[1], -b[1], b[2]]
  }

  /** The first n lines of the folding. */
  function FoldRows(bins: seq<Matrix>, fs: seq<real>, bs: seq<real>, n: nat): (r: seq<Matrix>)
    requires |bins| >= 1 && AllIs4x4(bins) && |fs| == 4 && |bs| == 4 && n <= 4
    ensures |r| == |bins| && AllIs4x4(r)
  {
    if n == 0 then bins else FoldRow(FoldRows(bins, fs, bs, n - 1), n - 1, fs[n - 1], bs[n - 1])
  }

  /** One line of the folding: `fw` added to diagonal entry `row` of the last bin, then `bw`
      to that of bin 0. */
  function FoldRow(bins: seq<Matrix>, row: nat, fw: real, bw: real): (r: seq<Matrix>)
    requires |bins| >= 1 && AllIs4x4(bins) && row < 4
    ensures |r| == |bins| && AllIs4x4(r)
  {
    AddToEntry(AddToEntry(bins, |bins| - 1, row, row, fw), 0, row, row, bw)
  }

  /** How much folding adds to entry (row, col) of bin j when the last bin is t:
      nothing off the diagonal and nothing outside bins 0 and t; on the diagonal of bin t
      the forward values f0, f1, f1, f2, and on that of bin 0 the backward values
      b0, b1, -b1, b2 (both when t is 0). */
  function PeakDelta(t: nat, b: seq<real>, f: seq<real>, j: nat, row: nat, col: nat): real
    requires |b| == 3 && |f| == 3 && row < 4
  {
    if row != col then 0.0
    else
      (if j == t then ForwardDiagonal(f)[row] else 0.0) +
      (if j == 0 then BackwardDiagonal(b)[row] else 0.0)
  }

  /** Folding changes only the diagonal entries of bins 0 and ThetaNumber, each by its peak value. */
  lemma FoldChangesOnlyPeakDiagonals(bins: seq<Matrix>, b: seq<real>, f: seq<real>, j: nat, row: nat, col: nat)
    requires |bins| >= 1 && AllIs4x4(bins) && |b| == 3 && |f| == 3
    requires j < |bins| && row < 4 && col < 4
    ensures FoldedBins(bins, b, f)[j][row][col] == bins[j][row][col] + PeakDelta(|bins| - 1, b, f, j, row, col)
  {
    FoldRowsEntry(bins, ForwardDiagonal(f), BackwardDiagonal(b), 4, j, row, col);
  }

  /** The first n lines of the folding change diagonal entries 0..n-1 of the last bin and
      of bin 0, and nothing else. */
  lemma {:induction false} FoldRowsEntry(bins: seq<Matrix>, fs: seq<real>, bs: seq<real>, n: nat,
                                         j: nat, r: nat, c: nat)
    requires |bins| >= 1 && AllIs4x4(bins) && |fs| == 4 && |bs| == 4 && n <= 4
    requires j < |bins| && r < 4 && c < 4
    ensures FoldRows(bins, fs, bs, n)[j][r][c] ==
              bins[j][r][c] +
              (if r == c && r < n then
                 (if j == |bins| - 1 then fs[r] else 0.0) + (if j == 0 then bs[r] else 0.0)
               else 0.0)
  {
    if n > 0 {
      FoldRowsEntry(bins, fs, bs, n - 1, j, r, c);
      FoldRowEntry(FoldRows(bins, fs, bs, n - 1), n - 1, fs[n - 1], bs[n - 1], j, r, c);
    }
  }

  /** One line of the folding changes only diagonal entry `row` of the last bin and of bin 0. */
  lemma FoldRowEntry(bins: seq<Matrix>, row: nat, fw: real, bw: real, j: nat, r: nat, c: nat)
    requires |bins| >= 1 && AllIs4x4(bins) && row < 4
    requires j < |bins| && r < 4 && c < 4
    ensures FoldRow(bins, row, fw, bw)[j][r][c] ==
              bins[j][r][c] +
              (if r == row && c == row then
                 (if j == |bins| - 1 then fw else 0.0) + (if j == 0 then bw else 0.0)
               else 0.0)
  {
    var s1 := AddToEntry(bins, |bins| - 1, row, row, fw);
    assert s1[j][r][c] == bins[j][r][c] + (if r == row && c == row && j == |bins| - 1 then fw else 0.0);
  }

  /** Folding moves the two peak intensities into the bins and loses nothing: afterwards the
      bins alone hold `D_tot`. */
  lemma FoldConservesTotal(bins: seq<Matrix>, b: seq<real>, f: seq<real>)
    requires |bins| >= 1 && AllIs4x4(bins) && |b| == 3 && |f| == 3
    ensures SumM11(FoldedBins(bins, b, f)) == b[0] + f[0] + SumM11(bins)
  {
    FoldRowsTotal(bins, ForwardDiagonal(f), BackwardDiagonal(b), 4);
  }

  /** Of the lines of the folding, only the first adds to the total intensity. */
  lemma {:induction false} FoldRowsTotal(bins: seq<Matrix>, fs: seq<real>, bs: seq<real>, n: nat)
    requires |bins| >= 1 && AllIs4x4(bins) && |fs| == 4 && |bs| == 4 && n <= 4
    ensures SumM11(FoldRows(bins, fs, bs, n)) == SumM11(bins) + (if n > 0 then fs[0] + bs[0] else 0.0)
  {
    if n > 0 {
      FoldRowsTotal(bins, fs, bs, n - 1);
      FoldRowTotal(FoldRows(bins, fs, bs, n - 1), n - 1, fs[n - 1], bs[n - 1]);
    }
  }

  /** One line of the folding adds to the total intensity only when it is the (0,0) line. */
  lemma FoldRowTotal(bins: seq<Matrix>, row: nat, fw: real, bw: real)
    requires |bins| >= 1 && AllIs4x4(bins) && row < 4
    ensures SumM11(FoldRow(bins, row, fw, bw)) == SumM11(bins) + (if row == 0 then fw + bw else 0.0)
  {
    var t := |bins| - 1;
    var m1 := AddAt(bins[t], row, row, fw);
    SumM11Update(bins, t, m1);
    var s1 := bins[t := m1];
    SumM11Update(s1, 0, AddAt(s1[0], row, row, bw));
  }

  class Accumulators {
    const thetaNumber: nat
    /** `back`: the beams with r.z >= 1-DBL_EPSILON. */
    var back: Matrix
    /** `forw`: the beams with r.z <= DBL_EPSILON-1. */
    var forw: Matrix
    /** `mxd`: one matrix per zenith bin 0..ThetaNumber. */
    const mxd: array<Matrix>

    ghost predicate Valid()
      reads this, mxd
    {
      Is4x4(back) && Is4x4(forw) && mxd.Length == thetaNumber + 1 && AllIs4x4(mxd[..])
    }

    /** The total intensity collected so far: the (0,0) entries of both peaks and of all bins. */
    ghost function Total(): real
      reads this, mxd
      requires Valid()
    {
      back[0][0] + forw[0][0] + SumM11(mxd[..])
    }

    /** `back`, `forw` and the ThetaNumber+1 bins of `mxd` start at zero
        (RandomOrientation/main.cpp:155-159). */
    constructor (thetaNumber: nat)
      ensures Valid() && fresh(mxd)
      ensures this.thetaNumber == thetaNumber
      ensures back == Zero() && forw == Zero()
      ensures forall j :: 0 <= j < mxd.Length ==> mxd[j] == Zero()
    {
      this.thetaNumber := thetaNumber;
      back := Zero();
      forw := Zero();
      mxd := new Matrix[thetaNumber + 1](_ => Zero());
    }

    /** `Handler(bm)` with the global weight `P` as `p` and the filter settings `Sorting`
        and `mask`: a rejected beam changes nothing, an accepted one adds its weighted
        matrix to exactly one accumulator and the others keep their values. */
    method Handle(beam: Beam, p: real, sorting: nat, mask: seq<seq<nat>>)
      requires Valid() && WellFormed(beam)
      modifies this, mxd
      ensures Valid()
      ensures var d := Route(beam, sorting, mask, thetaNumber);
              var w := Scale(p * beam.crossSection, Aligned(beam, d));
              back == (if d == Back then Add(old(back), w) else old(back))
      ensures var d := Route(beam, sorting, mask, thetaNumber);
              var w := Scale(p * beam.crossSection, Aligned(beam, d));
              forw == (if d == Forward then Add(old(forw), w) else old(forw))
      ensures var d := Route(beam, sorting, mask, thetaNumber);
              var w := Scale(p * beam.crossSection, Aligned(beam, d));
              mxd[..] == (if d.Bin? then old(mxd[..])[d.index := Add(old(mxd[d.index]), w)] else old(mxd[..]))
      ensures var d := Route(beam, sorting, mask, thetaNumber);
              var w := Scale(p * beam.crossSection, Aligned(beam, d));
              Total() == old(Total()) + (if d == Rejected then 0.0 else w[0][0])
    {
      var flag := TrajectoryFilter.Accepts(sorting, mask, beam.trajectory);
      if !flag {
        return;
      }
      ghost var d := Route(beam, sorting, mask, thetaNumber);
      var area := p * beam.crossSection;
      var bf := beam.mueller;
      if beam.dirZ >= 1.0 - DblEpsilon {
        assert d == Back;
        AddToBack(Scale(area, bf));
      } else if beam.dirZ <= DblEpsilon - 1.0 {
        assert d == Forward;
        AddToForward(Scale(area, bf));
      } else {
        ZenithBinInRange(beam.zenith, thetaNumber);
        var zenAng := ZenithBin(beam.zenith, thetaNumber);
        assert d == Bin(zenAng);
        if beam.dirY * beam.dirY > DblEpsilon {
          bf := beam.rotated;
        }
        AddToZenithBin(zenAng, Scale(area, bf));
      }
    }

    /** `back += Area*bf`. */
    method AddToBack(w: Matrix)
      requires Valid() && Is4x4(w)
      modifies this
      ensures Valid()
      ensures back == Add(old(back), w) && forw == old(forw)
      ensures Total() == old(Total()) + w[0][0]
    {
      back := Add(back, w);
    }

    /** `forw += Area*bf`. */
    method AddToForward(w: Matrix)
      requires Valid() && Is4x4(w)
      modifies this
      ensures Valid()
      ensures forw == Add(old(forw), w) && back == old(back)
      ensures Total() == old(Total()) + w[0][0]
    {
      forw := Add(forw, w);
    }

    /** `mxd.insert(0, ZenAng, Area*bf)`: the bin adds `w`, the other bins keep theirs. */
    method AddToZenithBin(j: nat, w: Matrix)
      requires Valid() && Is4x4(w) && j <= thetaNumber
      modifies mxd
      ensures Valid()
      ensures mxd[..] == old(mxd[..])[j := Add(old(mxd[j]), w)]
      ensures Total() == old(Total()) + w[0][0]
    {
      ghost var before := mxd[..];
      var m := Add(mxd[j], w);
      mxd[j] := m;
      assert mxd[..] == before[j := m];
      SumM11Update(before, j, m);
    }

    /** The (0,0) entries of the peaks plus the sum over the bins: `D_tot`, taken before
        any folding (RandomOrientation/main.cpp:215-217). */
    method TotalScattering() returns (dTot: real)
      requires Valid()
      ensures dTot == Total()
    {
      dTot := back[0][0] + forw[0][0];
      ghost var base := dTot;
      var j := 0;
      while j <= thetaNumber
        invariant 0 <= j <= thetaNumber + 1
        invariant dTot == base + SumM11(mxd[..j])
      {
        assert mxd[..j + 1][..j] == mxd[..j];
        dTot := dTot + mxd[j][0][0];
        j := j + 1;
      }
      assert mxd[..thetaNumber + 1] == mxd[..];
    }
  

    /** The post-sweep block of RandomOrientation/main.cpp:209-253 without the file output:
        take `b[]` and `f[]` from the peaks, compute `D_tot` before anything moves, and when
        EDF is 0 fold the peaks into bins 0 and ThetaNumber. With EDF set the peaks are only
        written to their own files, so the bins stay as they are. */
    method FoldPeaks(edf: nat) returns (dTot: real)
      requires Valid()
      modifies mxd
      ensures Valid()
      ensures dTot == old(Total())
      ensures edf == 0 ==> mxd[..] == FoldedBins(old(mxd[..]), BackPeak(back), ForwardPeak(forw))
      ensures edf == 0 ==> SumM11(mxd[..]) == dTot
      ensures edf != 0 ==> mxd[..] == old(mxd[..])
    {
      var b := BackPeak(back);
      var f := ForwardPeak(forw);
      dTot := TotalScattering();
      if edf == 0 {
        ghost var bins := mxd[..];
        FoldDiagonals(b, f);
        FoldConservesTotal(bins, b, f);
      }
    }

    /** RandomOrientation/main.cpp:249-252: the four diagonal lines of the folding. */
    method FoldDiagonals(b: seq<real>, f: seq<real>)
      requires Valid() && |b| == 3 && |f| == 3
      modifies mxd
      ensures Valid()
      ensures mxd[..] == FoldedBins(old(mxd[..]), b, f)
    {
      ghost var bins := mxd[..];
      ghost var fs := ForwardDiagonal(f);
      ghost var bs := BackwardDiagonal(b);
      AddPeakRow(0, f[0], b[0]);
      assert mxd[..] == FoldRows(bins, fs, bs, 1);
      AddPeakRow(1, f[1], b[1]);
      assert mxd[..] == FoldRows(bins, fs, bs, 2);
      AddPeakRow(2, f[1], -b[1]);
      assert mxd[..] == FoldRows(bins, fs, bs, 3);
      AddPeakRow(3, f[2], b[2]);
    }

    /** One line of RandomOrientation/main.cpp:249-252: `fw` to diagonal entry `row` of bin
        ThetaNumber, then `bw` to that of bin 0. */
    method AddPeakRow(row: nat, fw: real, bw: real)
      requires Valid() && row < 4
      modifies mxd
      ensures Valid()
      ensures mxd[..] == FoldRow(old(mxd[..]), row, fw, bw)
    {
      AddToBin(thetaNumber, row, row, fw);
      AddToBin(0, row, row, bw);
    }

    /** `mxd(0, j, row, col) += d`. */
    method AddToBin(j: nat, row: nat, col: nat, d: real)
      requires Valid() && j <= thetaNumber && row < 4 && col < 4
      modifies mxd
      ensures Valid()
      ensures mxd[..] == AddToEntry(old(mxd[..]), j, row, col, d)
    {
      mxd[j] := AddAt(mxd[j], row, col, d);
    }
  }
}
