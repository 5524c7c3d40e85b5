/**
 * The camera unit (class Camera of src/Camera.cpp): calibration stores a room
 * brightness baseline, and a scan grades one frame into a threat verdict. The
 * frame the driver hands out is an argument here (None when the driver has
 * no frame), so acquiring and releasing the frame buffer is not modelled.
 */
module CameraUnit {
  import opened Wrappers
  import opened ThreatSpec

  class Camera {
    /** SENSITIVITY: how far below the baseline a pixel must be to count as mass. */
    const sensitivity: int
    /** baseline_brightness, zero until calibration. */
    var baseline: int

    constructor (sensitivity: int)
      ensures this.sensitivity == sensitivity && baseline == 0
    {
      this.sensitivity := sensitivity;
      baseline := 0;
    }

    /**
     * Samples every 8th byte of the frame and stores their total divided by
     * len/8, raised to 40 when darker. Without a frame nothing changes.
     */
    method Calibrate(frame: Option<seq<bv8>>)
      requires frame.Some? ==> |frame.value| >= SAMPLE_STRIDE
      modifies this
      ensures frame.None? ==> baseline == old(baseline)
      ensures frame.Some? ==> baseline == CalibratedBaseline(frame.value)
      ensures frame.Some? ==> baseline >= BASELINE_FLOOR
    {
      if frame.None? {
        return;
      }
      var buf := frame.value;
      var total := 0;
      var i := 0;
      while i < |buf|
        invariant i % SAMPLE_STRIDE == 0
        invariant total + SampleSum(buf, i) == SampleSum(buf, 0)
        decreases |buf| - i
      {
        total := total + buf[i] as int;
        i := i + SAMPLE_STRIDE;
      }
      baseline := total / (|buf| / SAMPLE_STRIDE);
      if baseline < BASELINE_FLOOR {
        baseline := BASELINE_FLOOR;
      }
    }

    /**
     * Counts the pixels strictly darker than the dynamic threshold into the
     * 3x3 zones, picks the first strictly greatest zone and reports it as
     * active when its mass exceeds 400.
     */
    method ScanSky(frame: Option<seq<bv8>>) returns (t: Threat)
      requires frame.Some? ==> |frame.value| >= FRAME_LEN
      ensures t == Scan(frame, baseline, sensitivity)
      ensures frame.None? ==> t == NO_THREAT
      ensures t.active <==> t.mass > MIN_THREAT_MASS
      ensures t.active ==> 0 <= t.zoneIndex < ZONES
    {
      t := NO_THREAT;
      if frame.None? {
        return;
      }
      var buf := frame.value;
      var thr := baseline - sensitivity;
      if thr < 0 {
        thr := FALLBACK_THRESHOLD;
      }
      assert thr == Threshold(baseline, sensitivity);
      var scores := CountZones(buf, thr);

      var maxScore := 0;
      var i := 0;
      while i < ZONES
        invariant 0 <= i <= ZONES
        invariant (maxScore, t.zoneIndex) == PickMax(scores[..], i)
        invariant !t.active && t.mass == 0
      {
        if scores[i] > maxScore {
          maxScore := scores[i];
          t := t.(zoneIndex := i);
        }
        i := i + 1;
      }
      t := t.(mass := maxScore);
      if t.mass > MIN_THREAT_MASS {
        t := t.(active := true);
      }
      ScanVerdict(frame, baseline, sensitivity);
    }
  }

  /**
   * The counting pass of scanSky: one score per zone, each the number of its
   * pixels strictly darker than thr, with the zone of a pixel found from its
   * row band and column band.
   */
  method CountZones(buf: seq<bv8>, thr: int) returns (scores: array<int>)
    requires |buf| >= FRAME_LEN
    ensures fresh(scores) && scores[..] == ZoneScores(buf, thr)
  {
    scores := new int[ZONES](_ => 0);
    var y := 0;
    while y < HEIGHT
      invariant 0 <= y <= HEIGHT
      invariant forall z :: 0 <= z < ZONES ==> scores[z] == RowsCount(buf, thr, z, y)
    {
      var gridY := if y < 40 then 0 else if y < 80 then 1 else 2;
      var yOffset := gridY * 3;
      var rowStart := y * WIDTH;
      var x := 0;
      while x < WIDTH
        invariant 0 <= x <= WIDTH
        invariant forall z :: 0 <= z < ZONES ==>
                    scores[z] == RowsCount(buf, thr, z, y) + RowCount(buf, thr, z, y, x)
      {
        var pixel := buf[rowStart + x];
        RowCountStep(buf, thr, y, x);
        if (pixel as int) < thr {
          var gridX := if x < 53 then 0 else if x < 106 then 1 else 2;
          assert yOffset + gridX == ZoneOf(x, y);
          scores[yOffset + gridX] := scores[yOffset + gridX] + 1;
        }
        x := x + 1;
      }
      y := y + 1;
    }
    assert scores[..] == ZoneScores(buf, thr);
  }
}
