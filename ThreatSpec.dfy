/**
 * The threat scanner of the camera unit (src/Camera.cpp), stated as functions:
 * the calibrated brightness baseline, the dynamic threshold, the nine zone
 * counts over a 160x120 grayscale frame, and the first-greatest-zone verdict.
 * The class in Camera.dfy computes the same values with the source's loops.
 */
module ThreatSpec {
  import opened Wrappers

  // Frame geometry (QQVGA grayscale) and the detection constants.
  const WIDTH: nat := 160
  const HEIGHT: nat := 120
  const FRAME_LEN: nat := 19200
  const Z_WIDTH: nat := 53
  const Z_HEIGHT: nat := 40
  const ZONES: nat := 9
  const MIN_THREAT_MASS: int := 400
  const BASELINE_FLOOR: int := 40
  const FALLBACK_THRESHOLD: int := 40
  const SAMPLE_STRIDE: nat := 8

  /** One scan verdict: a zone index in [0,8], or -1 when no zone had any mass. */
  datatype Threat = Threat(active: bool, zoneIndex: int, mass: int)

  const NO_THREAT: Threat := Threat(false, -1, 0)

  // ---------------------------------------------------------------------
  // Calibration
  // ---------------------------------------------------------------------

  /** Sum of the sampled bytes buf[i], buf[i+8], buf[i+16], ... */
  function SampleSum(buf: seq<bv8>, i: nat): nat
    decreases |buf| - i
  {
    if i >= |buf| then 0 else buf[i] as nat + SampleSum(buf, i + SAMPLE_STRIDE)
  }

  /** The stride-8 sample total divided (integer division) by len/8. */
  function RawMean(buf: seq<bv8>): int
    requires |buf| >= SAMPLE_STRIDE
  {
    SampleSum(buf, 0) / (|buf| / SAMPLE_STRIDE)
  }

  /** The baseline that calibration stores: the raw mean, raised to the floor. */
  function CalibratedBaseline(buf: seq<bv8>): (b: int)
    requires |buf| >= SAMPLE_STRIDE
    ensures b >= BASELINE_FLOOR
    ensures RawMean(buf) >= BASELINE_FLOOR ==> b == RawMean(buf)
    ensures RawMean(buf) < BASELINE_FLOOR ==> b == BASELINE_FLOOR
  {
    var mean := RawMean(buf);
    if mean < BASELINE_FLOOR then BASELINE_FLOOR else mean
  }

  lemma {:induction false} MulMonotone(a: int, b: int, k: nat)
    requires a <= b
    ensures a * k <= b * k
    decreases k
  {
    if k > 0 {
      MulMonotone(a, b, k - 1);
      assert a * k == a * (k - 1) + a;
      assert b * k == b * (k - 1) + b;
    }
  }

  lemma DivAtMost(a: int, k: nat, m: int)
    requires k > 0 && a <= m * k
    ensures a / k <= m
  {
    var q, r := a / k, a % k;
    assert a == q * k + r && 0 <= r < k;
    if q > m {
      MulMonotone(m + 1, q, k);
    }
  }

  lemma DivAtLeast(a: int, k: nat, m: int)
    requires k > 0 && m * k <= a
    ensures m <= a / k
  {
    var q, r := a / k, a % k;
    assert a == q * k + r && 0 <= r < k;
    if q < m {
      MulMonotone(q + 1, m, k);
    }
  }

  lemma {:induction false} SampleSumAtMost(buf: seq<bv8>, i: nat, k: nat)
    requires i + SAMPLE_STRIDE * k == |buf|
    ensures SampleSum(buf, i) <= 255 * k
    decreases k
  {
    if k > 0 {
      SampleSumAtMost(buf, i + SAMPLE_STRIDE, k - 1);
    }
  }

  lemma {:induction false} SampleSumUniform(buf: seq<bv8>, v: bv8, i: nat, k: nat)
    requires forall j :: 0 <= j < |buf| ==> buf[j] == v
    requires i + SAMPLE_STRIDE * k == |buf|
    ensures SampleSum(buf, i) == v as nat * k
    decreases k
  {
    if k > 0 {
      SampleSumUniform(buf, v, i + SAMPLE_STRIDE, k - 1);
      assert v as nat * k == v as nat * (k - 1) + v as nat;
    }
  }

  /** When the length is a multiple of the stride the raw mean is a byte value. */
  lemma RawMeanIsByte(buf: seq<bv8>)
    requires |buf| >= SAMPLE_STRIDE && |buf| % SAMPLE_STRIDE == 0
    ensures 0 <= RawMean(buf) <= 255
  {
    var k := |buf| / SAMPLE_STRIDE;
    SampleSumAtMost(buf, 0, k);
    DivAtMost(SampleSum(buf, 0), k, 255);
  }

  /**
   * A frame of one uniform brightness v calibrates to v, or to the floor 40
   * when v is darker than that.
   */
  lemma UniformCalibration(buf: seq<bv8>, v: bv8)
    requires |buf| >= SAMPLE_STRIDE && |buf| % SAMPLE_STRIDE == 0
    requires forall j :: 0 <= j < |buf| ==> buf[j] == v
    ensures RawMean(buf) == v as int
    ensures CalibratedBaseline(buf) == if (v as int) < BASELINE_FLOOR then BASELINE_FLOOR else v as int
  {
    var k := |buf| / SAMPLE_STRIDE;
    SampleSumUniform(buf, v, 0, k);
    DivAtMost(v as nat * k, k, v as int);
    DivAtLeast(v as nat * k, k, v as int);
  }

  // ---------------------------------------------------------------------
  // Threshold and zones
  // ---------------------------------------------------------------------

  /**
   * The dynamic threshold: baseline - sensitivity, replaced by 40 only when it
   * is negative (a difference in 0..39 is kept as it is).
   */
  function Threshold(baseline: int, sensitivity: int): (t: int)
    ensures t >= 0
    ensures baseline >= sensitivity ==> t == baseline - sensitivity
    ensures baseline < sensitivity ==> t == FALLBACK_THRESHOLD
  {
    var d := baseline - sensitivity;
    if d < 0 then FALLBACK_THRESHOLD else d
  }

  /** Column band of x: 0 for x < 53, 1 for x < 106, 2 otherwise. */
  function GridX(x: nat): (g: nat)
    ensures g < 3
  {
    if x < Z_WIDTH then 0 else if x < 2 * Z_WIDTH then 1 else 2
  }

  /** Row band of y: 0 for y < 40, 1 for y < 80, 2 otherwise. */
  function GridY(y: nat): (g: nat)
    ensures g < 3
  {
    if y < Z_HEIGHT then 0 else if y < 2 * Z_HEIGHT then 1 else 2
  }

  /** Zone of pixel (x, y), numbered row-major over the 3x3 grid. */
  function ZoneOf(x: nat, y: nat): (z: nat)
    ensures z < ZONES
  {
    3 * GridY(y) + GridX(x)
  }

  /** Pixel (x, y) of the row-major frame is strictly darker than the threshold. */
  predicate Dark(buf: seq<bv8>, thr: int, x: nat, y: nat)
    requires |buf| >= FRAME_LEN && x < WIDTH && y < HEIGHT
  {
    (buf[y * WIDTH + x] as int) < thr
  }

  /** Dark pixels of zone z among the first cols pixels of row y. */
  function RowCount(buf: seq<bv8>, thr: int, z: int, y: nat, cols: nat): nat
    requires |buf| >= FRAME_LEN && y < HEIGHT && cols <= WIDTH
  {
    if cols == 0 then 0
    else RowCount(buf, thr, z, y, cols - 1)
         + (if ZoneOf(cols - 1, y) == z && Dark(buf, thr, cols - 1, y) then 1 else 0)
  }

  /** Scanning pixel (x, y) adds one to its own zone's count when dark, and nothing elsewhere. */
  lemma RowCountStep(buf: seq<bv8>, thr: int, y: nat, x: nat)
    requires |buf| >= FRAME_LEN && y < HEIGHT && x < WIDTH
    ensures forall z :: RowCount(buf, thr, z, y, x + 1)
                        == RowCount(buf, thr, z, y, x) + (if z == ZoneOf(x, y) && Dark(buf, thr, x, y) then 1 else 0)
  {
  }

  /** Dark pixels of zone z among the first rows rows. */
  function RowsCount(buf: seq<bv8>, thr: int, z: int, rows: nat): nat
    requires |buf| >= FRAME_LEN && rows <= HEIGHT
  {
    if rows == 0 then 0 else RowsCount(buf, thr, z, rows - 1) + RowCount(buf, thr, z, rows - 1, WIDTH)
  }

  /** The score of zone z: its pixels strictly darker than the threshold. */
  function ZoneCount(buf: seq<bv8>, thr: int, z: int): nat
    requires |buf| >= FRAME_LEN
  {
    RowsCount(buf, thr, z, HEIGHT)
  }

  function ZoneScores(buf: seq<bv8>, thr: int): (s: seq<int>)
    requires |buf| >= FRAME_LEN
    ensures |s| == ZONES
    ensures forall z :: 0 <= z < ZONES ==> s[z] == ZoneCount(buf, thr, z)
  {
    seq(ZONES, z => ZoneCount(buf, thr, z))
  }

  /** Dark pixels (of any zone) among the first cols pixels of row y. */
  function RowDark(buf: seq<bv8>, thr: int, y: nat, cols: nat): nat
    requires |buf| >= FRAME_LEN && y < HEIGHT && cols <= WIDTH
  {
    if cols == 0 then 0 else RowDark(buf, thr, y, cols - 1) + (if Dark(buf, thr, cols - 1, y) then 1 else 0)
  }

  function RowsDark(buf: seq<bv8>, thr: int, rows: nat): nat
    requires |buf| >= FRAME_LEN && rows <= HEIGHT
  {
    if rows == 0 then 0 else RowsDark(buf, thr, rows - 1) + RowDark(buf, thr, rows - 1, WIDTH)
  }

  /** All pixels of the frame strictly darker than the threshold. */
  function DarkCount(buf: seq<bv8>, thr: int): nat
    requires |buf| >= FRAME_LEN
  {
    RowsDark(buf, thr, HEIGHT)
  }

  function Total(s: seq<int>): int
  {
    if s == [] then 0 else Total(s[..|s| - 1]) + s[|s| - 1]
  }

  // ---------------------------------------------------------------------
  // Verdict
  // ---------------------------------------------------------------------

  /**
   * The (max_score, zone_index) pair after the argmax loop has looked at
   * s[0..n): it starts at (0, -1) and moves only on a strictly greater score.
   */
  function PickMax(s: seq<int>, n: nat): (r: (int, int))
    requires n <= |s|
    ensures r.0 >= 0 && -1 <= r.1 < n
  {
    if n == 0 then (0, -1)
    else
      var (m, k) := PickMax(s, n - 1);
      if s[n - 1] > m then (s[n - 1], n - 1) else (m, k)
  }

  /** The verdict of one scan; no frame gives the no-threat sentinel. */
  function Scan(frame: Option<seq<bv8>>, baseline: int, sensitivity: int): (t: Threat)
    requires frame.Some? ==> |frame.value| >= FRAME_LEN
    ensures t.mass >= 0 && -1 <= t.zoneIndex < ZONES
  {
    match frame
    case None => NO_THREAT
    case Some(buf) =>
      var (m, k) := PickMax(ZoneScores(buf, Threshold(baseline, sensitivity)), ZONES);
      Threat(m > MIN_THREAT_MASS, k, m)
  }

  /**
   * The argmax loop finds the greatest score (or 0), and the lowest index
   * attaining it when it is positive; with no positive score the index stays -1.
   */
  lemma {:induction false} PickMaxFirstGreatest(s: seq<int>, n: nat)
    requires n <= |s|
    ensures PickMax(s, n).0 >= 0
    ensures forall i :: 0 <= i < n ==> s[i] <= PickMax(s, n).0
    ensures PickMax(s, n).0 > 0 ==>
              0 <= PickMax(s, n).1 < n && s[PickMax(s, n).1] == PickMax(s, n).0
              && forall i :: 0 <= i < PickMax(s, n).1 ==> s[i] < PickMax(s, n).0
    ensures PickMax(s, n).0 == 0 ==> PickMax(s, n).1 == -1
  {
    if n > 0 {
      PickMaxFirstGreatest(s, n - 1);
    }
  }

  /**
   * What a scan reports: the sentinel for a missing frame; otherwise the mass
   * is the greatest zone score, the zone is the first one attaining it (or -1
   * when every score is 0), and the verdict is active exactly when the mass
   * exceeds 400, in which case the zone lies in [0,8].
   */
  lemma ScanVerdict(frame: Option<seq<bv8>>, baseline: int, sensitivity: int)
    requires frame.Some? ==> |frame.value| >= FRAME_LEN
    ensures frame.None? ==> Scan(frame, baseline, sensitivity) == NO_THREAT
    ensures frame.Some? ==>
              var t := Scan(frame, baseline, sensitivity);
              var s := ZoneScores(frame.value, Threshold(baseline, sensitivity));
              && t.mass >= 0
              && (forall z :: 0 <= z < ZONES ==> s[z] <= t.mass)
              && (t.mass > 0 ==> 0 <= t.zoneIndex < ZONES && s[t.zoneIndex] == t.mass
                                 && forall z :: 0 <= z < t.zoneIndex ==> s[z] < t.mass)
              && (t.mass == 0 ==> t.zoneIndex == -1)
              && (t.active <==> t.mass > MIN_THREAT_MASS)
              && (t.active ==> 0 <= t.zoneIndex < ZONES)
  {
    if frame.Some? {
      PickMaxFirstGreatest(ZoneScores(frame.value, Threshold(baseline, sensitivity)), ZONES);
    }
  }

  // ---------------------------------------------------------------------
  // Properties of the zone counts
  // ---------------------------------------------------------------------

  /** Columns of band gx among the first c columns. */
  function ColsIn(gx: nat, c: nat): nat
  {
    if gx == 0 then (if c < Z_WIDTH then c else Z_WIDTH)
    else if gx == 1 then (if c < Z_WIDTH then 0 else if c < 2 * Z_WIDTH then c - Z_WIDTH else Z_WIDTH)
    else (if c < 2 * Z_WIDTH then 0 else c - 2 * Z_WIDTH)
  }

  /** Rows of band gy among the first r rows. */
  function RowsIn(gy: nat, r: nat): nat
  {
    if gy == 0 then (if r < Z_HEIGHT then r else Z_HEIGHT)
    else if gy == 1 then (if r < Z_HEIGHT then 0 else if r < 2 * Z_HEIGHT then r - Z_HEIGHT else Z_HEIGHT)
    else (if r < 2 * Z_HEIGHT then 0 else r - 2 * Z_HEIGHT)
  }

  /** Number of pixels in zone z: 40 rows of 53, 53 or 54 columns. */
  function CellSize(z: nat): (n: nat)
    requires z < ZONES
    ensures n <= Z_HEIGHT * (Z_WIDTH + 1)
  {
    RowsIn(z / 3, HEIGHT) * ColsIn(z % 3, WIDTH)
  }

  /** Every pixel of the frame is strictly darker than the threshold. */
  predicate AllDark(buf: seq<bv8>, thr: int)
    requires |buf| >= FRAME_LEN
  {
    forall p :: 0 <= p < FRAME_LEN ==> (buf[p] as int) < thr
  }

  lemma {:induction false} RowCountInCell(buf: seq<bv8>, thr: int, z: nat, y: nat, cols: nat)
    requires |buf| >= FRAME_LEN && y < HEIGHT && cols <= WIDTH && z < ZONES
    ensures RowCount(buf, thr, z, y, cols) <= if GridY(y) == z / 3 then ColsIn(z % 3, cols) else 0
    ensures AllDark(buf, thr) ==>
              RowCount(buf, thr, z, y, cols) == if GridY(y) == z / 3 then ColsIn(z % 3, cols) else 0
  {
    if cols > 0 {
      RowCountInCell(buf, thr, z, y, cols - 1);
      if AllDark(buf, thr) {
        assert Dark(buf, thr, cols - 1, y);
      }
    }
  }

  lemma {:induction false} RowsCountInCell(buf: seq<bv8>, thr: int, z: nat, rows: nat)
    requires |buf| >= FRAME_LEN && rows <= HEIGHT && z < ZONES
    ensures RowsCount(buf, thr, z, rows) <= RowsIn(z / 3, rows) * ColsIn(z % 3, WIDTH)
    ensures AllDark(buf, thr) ==> RowsCount(buf, thr, z, rows) == RowsIn(z / 3, rows) * ColsIn(z % 3, WIDTH)
  {
    if rows > 0 {
      RowsCountInCell(buf, thr, z, rows - 1);
      RowCountInCell(buf, thr, z, rows - 1, WIDTH);
      var w := ColsIn(z % 3, WIDTH);
      var r := RowsIn(z / 3, rows - 1);
      assert (r + 1) * w == r * w + w;
    }
  }

  /**
   * Each zone score is at most the number of pixels in its cell (so at most
   * 40 * 54), and equals it when every pixel is darker than the threshold.
   */
  lemma ZoneCountBound(buf: seq<bv8>, thr: int, z: nat)
    requires |buf| >= FRAME_LEN && z < ZONES
    ensures ZoneCount(buf, thr, z) <= CellSize(z) <= Z_HEIGHT * (Z_WIDTH + 1)
    ensures AllDark(buf, thr) ==> ZoneCount(buf, thr, z) == CellSize(z)
  {
    RowsCountInCell(buf, thr, z, HEIGHT);
  }

  /** The sum of the nine per-zone counts on one row prefix. */
  function RowZoneSum(buf: seq<bv8>, thr: int, y: nat, cols: nat): nat
    requires |buf| >= FRAME_LEN && y < HEIGHT && cols <= WIDTH
  {
    RowCount(buf, thr, 0, y, cols) + RowCount(buf, thr, 1, y, cols) + RowCount(buf, thr, 2, y, cols)
    + RowCount(buf, thr, 3, y, cols) + RowCount(buf, thr, 4, y, cols) + RowCount(buf, thr, 5, y, cols)
    + RowCount(buf, thr, 6, y, cols) + RowCount(buf, thr, 7, y, cols) + RowCount(buf, thr, 8, y, cols)
  }

  /** The sum of the nine per-zone counts over the first rows rows. */
  function RowsZoneSum(buf: seq<bv8>, thr: int, rows: nat): nat
    requires |buf| >= FRAME_LEN && rows <= HEIGHT
  {
    RowsCount(buf, thr, 0, rows) + RowsCount(buf, thr, 1, rows) + RowsCount(buf, thr, 2, rows)
    + RowsCount(buf, thr, 3, rows) + RowsCount(buf, thr, 4, rows) + RowsCount(buf, thr, 5, rows)
    + RowsCount(buf, thr, 6, rows) + RowsCount(buf, thr, 7, rows) + RowsCount(buf, thr, 8, rows)
  }

  lemma {:induction false} RowZonesPartition(buf: seq<bv8>, thr: int, y: nat, cols: nat)
    requires |buf| >= FRAME_LEN && y < HEIGHT && cols <= WIDTH
    ensures RowZoneSum(buf, thr, y, cols) == RowDark(buf, thr, y, cols) <= cols
  {
    if cols > 0 {
      RowZonesPartition(buf, thr, y, cols - 1);
    }
  }

  lemma {:induction false} RowsZonesPartition(buf: seq<bv8>, thr: int, rows: nat)
    requires |buf| >= FRAME_LEN && rows <= HEIGHT
    ensures RowsZoneSum(buf, thr, rows) == RowsDark(buf, thr, rows) <= rows * WIDTH
  {
    if rows > 0 {
      RowsZonesPartition(buf, thr, rows - 1);
      RowZonesPartition(buf, thr, rows - 1, WIDTH);
    }
  }

  /**
   * The nine zone scores add up to the number of pixels darker than the
   * threshold, which is at most 19200.
   */
  lemma ScoresPartitionDarkPixels(buf: seq<bv8>, thr: int)
    requires |buf| >= FRAME_LEN
    ensures Total(ZoneScores(buf, thr)) == DarkCount(buf, thr) <= FRAME_LEN
  {
    var s := ZoneScores(buf, thr);
    RowsZonesPartition(buf, thr, HEIGHT);
    TotalOfNine(s);
  }

  lemma TotalStep(s: seq<int>, n: nat)
    requires n < |s|
    ensures Total(s[..n + 1]) == Total(s[..n]) + s[n]
  {
    assert s[..n + 1][..n] == s[..n];
  }

  lemma TotalOfNine(s: seq<int>)
    requires |s| == 9
    ensures Total(s) == s[0] + s[1] + s[2] + s[3] + s[4] + s[5] + s[6] + s[7] + s[8]
  {
    assert s[..0] == [];
    TotalStep(s, 0); TotalStep(s, 1); TotalStep(s, 2);
    TotalStep(s, 3); TotalStep(s, 4); TotalStep(s, 5);
    TotalStep(s, 6); TotalStep(s, 7); TotalStep(s, 8);
    assert s[..9] == s;
  }

  /**
   * Turning one pixel (px, py) from at-or-above the threshold to strictly below
   * it adds exactly one to the score of its own zone and nothing to the others.
   */
  lemma PixelContribution(buf: seq<bv8>, buf': seq<bv8>, thr: int, px: nat, py: nat, z: int)
    requires |buf| >= FRAME_LEN && |buf'| == |buf| && px < WIDTH && py < HEIGHT
    requires forall p :: 0 <= p < |buf| && p != py * WIDTH + px ==> buf'[p] == buf[p]
    requires !Dark(buf, thr, px, py) && Dark(buf', thr, px, py)
    ensures ZoneCount(buf', thr, z) == ZoneCount(buf, thr, z) + (if z == ZoneOf(px, py) then 1 else 0)
  {
    RowsContribution(buf, buf', thr, px, py, z, HEIGHT);
  }

  lemma {:induction false} RowContribution(buf: seq<bv8>, buf': seq<bv8>, thr: int, px: nat, py: nat, z: int, y: nat, cols: nat)
    requires |buf| >= FRAME_LEN && |buf'| == |buf| && px < WIDTH && py < HEIGHT
    requires forall p :: 0 <= p < |buf| && p != py * WIDTH + px ==> buf'[p] == buf[p]
    requires !Dark(buf, thr, px, py) && Dark(buf', thr, px, py)
    requires y < HEIGHT && cols <= WIDTH
    ensures RowCount(buf', thr, z, y, cols)
            == RowCount(buf, thr, z, y, cols) + (if y == py && px < cols && z == ZoneOf(px, py) then 1 else 0)
  {
    if cols > 0 {
      RowContribution(buf, buf', thr, px, py, z, y, cols - 1);
      if y != py || cols - 1 != px {
        assert y * WIDTH + (cols - 1) != py * WIDTH + px;
        assert Dark(buf', thr, cols - 1, y) == Dark(buf, thr, cols - 1, y);
      }
    }
  }

  lemma {:induction false} RowsContribution(buf: seq<bv8>, buf': seq<bv8>, thr: int, px: nat, py: nat, z: int, rows: nat)
    requires |buf| >= FRAME_LEN && |buf'| == |buf| && px < WIDTH && py < HEIGHT
    requires forall p :: 0 <= p < |buf| && p != py * WIDTH + px ==> buf'[p] == buf[p]
    requires !Dark(buf, thr, px, py) && Dark(buf', thr, px, py)
    requires rows <= HEIGHT
    ensures RowsCount(buf', thr, z, rows)
            == RowsCount(buf, thr, z, rows) + (if py < rows && z == ZoneOf(px, py) then 1 else 0)
  {
    if rows > 0 {
      RowsContribution(buf, buf', thr, px, py, z, rows - 1);
      RowContribution(buf, buf', thr, px, py, z, rows - 1, WIDTH);
    }
  }

  /** Every dark pixel of the frame lies in zone z0. */
  predicate DarkOnlyIn(buf: seq<bv8>, thr: int, z0: int)
    requires |buf| >= FRAME_LEN
  {
    forall x: nat, y: nat :: x < WIDTH && y < HEIGHT && Dark(buf, thr, x, y) ==> ZoneOf(x, y) == z0
  }

  lemma {:induction false} RowCountOutside(buf: seq<bv8>, thr: int, z0: int, z: int, y: nat, cols: nat)
    requires |buf| >= FRAME_LEN && y < HEIGHT && cols <= WIDTH
    requires DarkOnlyIn(buf, thr, z0) && z != z0
    ensures RowCount(buf, thr, z, y, cols) == 0
  {
    if cols > 0 {
      RowCountOutside(buf, thr, z0, z, y, cols - 1);
    }
  }

  lemma {:induction false} RowsCountOutside(buf: seq<bv8>, thr: int, z0: int, z: int, rows: nat)
    requires |buf| >= FRAME_LEN && rows <= HEIGHT
    requires DarkOnlyIn(buf, thr, z0) && z != z0
    ensures RowsCount(buf, thr, z, rows) == 0
  {
    if rows > 0 {
      RowsCountOutside(buf, thr, z0, z, rows - 1);
      RowCountOutside(buf, thr, z0, z, rows - 1, WIDTH);
    }
  }

  /**
   * When every dark pixel lies in one zone z0, that zone carries all the mass:
   * the scan reports z0 with mass equal to the dark-pixel count, active exactly
   * when that count exceeds 400; with no dark pixel at all it reports the
   * sentinel.
   */
  lemma ScanSingleZone(buf: seq<bv8>, baseline: int, sensitivity: int, z0: nat)
    requires |buf| >= FRAME_LEN && z0 < ZONES
    requires DarkOnlyIn(buf, Threshold(baseline, sensitivity), z0)
    ensures var n := DarkCount(buf, Threshold(baseline, sensitivity));
            Scan(Some(buf), baseline, sensitivity)
            == if n == 0 then NO_THREAT else Threat(n > MIN_THREAT_MASS, z0, n)
  {
    var thr := Threshold(baseline, sensitivity);
    var s := ZoneScores(buf, thr);
    forall z | 0 <= z < ZONES && z != z0
      ensures s[z] == 0
    {
      RowsCountOutside(buf, thr, z0, z, HEIGHT);
    }
    ScoresPartitionDarkPixels(buf, thr);
    TotalOfNine(s);
    assert s[z0] == DarkCount(buf, thr);
    ScanVerdict(Some(buf), baseline, sensitivity);
  }

  /**
   * With the threshold at 0 (baseline equal to the sensitivity) no byte is
   * below it, so every frame scans as the sentinel: the scanner is blind there.
   */
  lemma ZeroThresholdBlind(buf: seq<bv8>, baseline: int, sensitivity: int)
    requires |buf| >= FRAME_LEN && baseline == sensitivity
    ensures Scan(Some(buf), baseline, sensitivity) == NO_THREAT
  {
    var thr := Threshold(baseline, sensitivity);
    assert DarkOnlyIn(buf, thr, 0);
    NoDarkRows(buf, thr, HEIGHT);
    ScanSingleZone(buf, baseline, sensitivity, 0);
  }

  lemma {:induction false} NoDarkRow(buf: seq<bv8>, thr: int, y: nat, cols: nat)
    requires |buf| >= FRAME_LEN && y < HEIGHT && cols <= WIDTH && thr <= 0
    ensures RowDark(buf, thr, y, cols) == 0
  {
    if cols > 0 {
      NoDarkRow(buf, thr, y, cols - 1);
    }
  }

  lemma {:induction false} NoDarkRows(buf: seq<bv8>, thr: int, rows: nat)
    requires |buf| >= FRAME_LEN && rows <= HEIGHT && thr <= 0
    ensures RowsDark(buf, thr, rows) == 0
  {
    if rows > 0 {
      NoDarkRows(buf, thr, rows - 1);
      NoDarkRow(buf, thr, rows - 1, WIDTH);
    }
  }
}
