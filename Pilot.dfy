/**
 * The flight pilot (class Pilot of src/Pilot.cpp): the armed and vision flags,
 * the throttle/yaw/pitch/roll setpoints, the threat-to-setpoint mapping, and
 * the rate-limited MSP_SET_RAW_RC heartbeat to the flight controller. Bytes
 * written to the flight-controller serial port are appended to `out`; the
 * millisecond clock is the `now` argument of Update.
 */
module PilotUnit {
  import opened Wrappers
  import opened MspSpec
  import ThreatSpec

  const THROTTLE_MIN: int := 1000
  const THROTTLE_MAX: int := 2000
  /** Pitch commanded when a threat is seen in zone 1 (top middle). */
  const VISION_PITCH: int := 1200
  /** Minimum number of milliseconds between two heartbeats (exclusive). */
  const MSP_INTERVAL: bv32 := 20

  /** Values of a uint16_t. */
  type u16 = x: int | 0 <= x < 0x1_0000

  /**
   * THROTTLE_OFF, YAW_DEFAULT, PITCH_DEFAULT, ROLL_DEFAULT, ARM_VALUE and
   * DISARM_VALUE: build-time uint16_t constants whose values are not fixed here.
   */
  datatype Defaults = Defaults(
    throttleOff: u16,
    yawDefault: u16,
    pitchDefault: u16,
    rollDefault: u16,
    armValue: u16,
    disarmValue: u16)

  /** setThrottle's clamp into [1000, 2000]. */
  function ClampThrottle(v: int): (r: int)
    ensures THROTTLE_MIN <= r <= THROTTLE_MAX
    ensures THROTTLE_MIN <= v <= THROTTLE_MAX ==> r == v
    ensures v < THROTTLE_MIN ==> r == THROTTLE_MIN
    ensures v > THROTTLE_MAX ==> r == THROTTLE_MAX
  {
    var low := if v < THROTTLE_MIN then THROTTLE_MIN else v;
    if low > THROTTLE_MAX then THROTTLE_MAX else low
  }

  /** Clamping twice is clamping once. */
  lemma ClampIdempotent(v: int)
    ensures ClampThrottle(ClampThrottle(v)) == ClampThrottle(v)
  {
  }

  /** The int to uint16_t conversion at sendRC's parameters, exact on the values a uint16_t holds. */
  function U16(v: u16): bv16
  {
    v as bv16
  }

  /** The heartbeat gate: more than 20 ms elapsed, with unsigned 32-bit wrap-around. */
  predicate Due(last: bv32, now: bv32)
  {
    now - last > MSP_INTERVAL
  }

  class Pilot {
    const defaults: Defaults
    var armed: bool
    var vision: bool
    var throttle: int
    var yaw: int
    var pitch: int
    var roll: int
    var lastMspTime: bv32
    /** Everything written to the flight-controller serial port so far. */
    var out: seq<bv8>

    /**
     * The setpoints only ever hold values the methods below store: throttle is
     * THROTTLE_OFF or in [1000, 2000], yaw and roll keep their defaults, and
     * pitch is its default or 1200. In particular every setpoint is a uint16_t.
     */
    ghost predicate Valid()
      reads this`throttle, this`yaw, this`pitch, this`roll
    {
      && (throttle == defaults.throttleOff || THROTTLE_MIN <= throttle <= THROTTLE_MAX)
      && yaw == defaults.yawDefault
      && roll == defaults.rollDefault
      && (pitch == defaults.pitchDefault || pitch == VISION_PITCH)
    }

    /**
     * What the next heartbeat commands: the setpoints and ARM_VALUE when armed;
     * THROTTLE_OFF, the default attitude and DISARM_VALUE when disarmed,
     * whatever the setpoint fields hold.
     */
    function HeartbeatCommand(): RcCommand
      reads this
      requires Valid()
    {
      if armed then RcCommand(U16(throttle), U16(yaw), U16(pitch), U16(roll), U16(defaults.armValue))
      else RcCommand(U16(defaults.throttleOff), U16(defaults.yawDefault), U16(defaults.pitchDefault),
                     U16(defaults.rollDefault), U16(defaults.disarmValue))
    }

    /** The frame the next heartbeat carries. */
    function Heartbeat(): seq<bv8>
      reads this
      requires Valid()
    {
      var c := HeartbeatCommand();
      RcFrame(c.throttle, c.yaw, c.pitch, c.roll, c.aux1)
    }

    /** Read back by the flight controller, the heartbeat gives exactly HeartbeatCommand(). */
    lemma HeartbeatDecodes()
      requires Valid()
      ensures DecodeRc(Heartbeat()) == Some(HeartbeatCommand())
    {
      var c := HeartbeatCommand();
      RcRoundTrip(c.throttle, c.yaw, c.pitch, c.roll, c.aux1);
    }

    /** Starts disarmed, vision off, throttle off, attitude at the defaults, no heartbeat sent yet. */
    constructor (defaults: Defaults)
      ensures this.defaults == defaults && Valid()
      ensures !armed && !vision
      ensures throttle == defaults.throttleOff
      ensures yaw == defaults.yawDefault && pitch == defaults.pitchDefault
      ensures roll == defaults.rollDefault
      ensures lastMspTime == 0 && out == []
    {
      this.defaults := defaults;
      armed := false;
      vision := false;
      throttle := defaults.throttleOff;
      yaw := defaults.yawDefault;
      pitch := defaults.pitchDefault;
      roll := defaults.rollDefault;
      lastMspTime := 0;
      out := [];
    }

    /** Sets the armed flag and nothing else. */
    method Arm()
      requires Valid()
      modifies this`armed
      ensures Valid() && armed
    {
      armed := true;
    }

    /** Clears the armed flag and forces the throttle off; vision, attitude and the timestamp stay. */
    method Disarm()
      requires Valid()
      modifies this`armed, this`throttle
      ensures Valid() && !armed
      ensures throttle == defaults.throttleOff
    {
      armed := false;
      throttle := defaults.throttleOff;
    }

    /** Stores the requested throttle clamped into [1000, 2000], armed or not. */
    method SetThrottle(throttleValue: int)
      requires Valid()
      modifies this`throttle
      ensures Valid()
      ensures throttle == ClampThrottle(throttleValue)
    {
      var v := throttleValue;
      if v < THROTTLE_MIN {
        v := THROTTLE_MIN;
      }
      if v > THROTTLE_MAX {
        v := THROTTLE_MAX;
      }
      throttle := v;
    }

    /** Flips the vision flag and nothing else. */
    method ToggleVision()
      requires Valid()
      modifies this`vision
      ensures Valid() && vision == !old(vision)
    {
      if !vision {
        vision := true;
      } else {
        vision := false;
      }
    }

    /**
     * Folds a threat verdict into the setpoints, only with vision on: no threat
     * resets throttle and attitude to the defaults; a threat in zone 1 sets the
     * pitch to 1200; a threat in any other zone changes nothing.
     */
    method CameraMotion(threat: ThreatSpec.Threat)
      requires Valid()
      modifies this`throttle, this`yaw, this`pitch, this`roll
      ensures Valid()
      ensures !vision ==> unchanged(this)
      ensures vision && !threat.active ==>
                && throttle == defaults.throttleOff && yaw == defaults.yawDefault
                && pitch == defaults.pitchDefault && roll == defaults.rollDefault
      ensures vision && threat.active && threat.zoneIndex == 1 ==>
                pitch == VISION_PITCH && unchanged(this`throttle, this`yaw, this`roll)
      ensures vision && threat.active && threat.zoneIndex != 1 ==> unchanged(this)
    {
      if !vision {
        return;
      }
      if !threat.active {
        throttle := defaults.throttleOff;
        yaw := defaults.yawDefault;
        pitch := defaults.pitchDefault;
        roll := defaults.rollDefault;
      } else if threat.active {
        if threat.zoneIndex == 1 {
          pitch := VISION_PITCH;
        }
      }
    }

    /**
     * The heartbeat: when more than 20 ms have passed since the last one
     * (unsigned 32-bit difference), records now and writes Heartbeat();
     * otherwise does nothing.
     */
    method Update(now: bv32)
      requires Valid()
      modifies this`lastMspTime, this`out
      ensures Due(old(lastMspTime), now) ==> lastMspTime == now && out == old(out) + old(Heartbeat())
      ensures !Due(old(lastMspTime), now) ==> lastMspTime == old(lastMspTime) && out == old(out)
    {
      if now - lastMspTime > MSP_INTERVAL {
        lastMspTime := now;
        if armed {
          SendRC(U16(throttle), U16(yaw), U16(pitch), U16(roll), U16(defaults.armValue));
        } else {
          SendRC(U16(defaults.throttleOff), U16(defaults.yawDefault), U16(defaults.pitchDefault), U16(defaults.rollDefault),
                 U16(defaults.disarmValue));
        }
      }
    }

    /** Packs the five setpoints into a 16-byte payload and sends it as MSP_SET_RAW_RC. */
    method SendRC(throttle: bv16, yaw: bv16, pitch: bv16, roll: bv16, aux1: bv16)
      modifies this`out
      ensures out == old(out) + RcFrame(throttle, yaw, pitch, roll, aux1)
    {
      var data := new bv8[16];
      PackRc(data, throttle, yaw, pitch, roll, aux1);
      assert data[..RC_PAYLOAD_LEN] == data[..];
      SendMsp(MSP_SET_RAW_RC, data, RC_PAYLOAD_LEN);
    }

    /** Writes '$' 'M' '<', the size, the command, the n payload bytes and their checksum. */
    method SendMsp(cmd: bv8, data: array<bv8>, n: bv8)
      requires n as int <= data.Length
      modifies this`out
      ensures out == old(out) + MspFrame(cmd, n, data[..n])
    {
      var checksum: bv8 := 0;
      out := out + HEADER;
      out := out + [n];
      checksum := Xor(checksum, n);
      out := out + [cmd];
      checksum := Xor(checksum, cmd);
      ghost var start := out;
      ChecksumEmpty(n, cmd, data[..]);
      var i := 0;
      while i < n as int
        invariant 0 <= i <= n as int
        invariant out == start + data[..i]
        invariant checksum == Checksum(n, cmd, data[..i])
      {
        AppendNext(start, data[..], i);
        ChecksumStep(n, cmd, data[..], i);
        out := out + [data[i]];
        checksum := Xor(checksum, data[i]);
        i := i + 1;
      }
      out := out + [checksum];
      AppendFrame(old(out), out, cmd, n, data[..n], checksum);
    }
  }

  /**
   * The array filling of sendRC: the low and high bytes of roll, pitch,
   * throttle, yaw and aux1, then 1000 on each of the three unused channels.
   */
  method PackRc(data: array<bv8>, throttle: bv16, yaw: bv16, pitch: bv16, roll: bv16, aux1: bv16)
    requires data.Length == 16
    modifies data
    ensures data[..] == RcPayload(roll, pitch, throttle, yaw, aux1)
  {
    data[0] := Lo(roll);     data[1] := Hi(roll);
    data[2] := Lo(pitch);    data[3] := Hi(pitch);
    data[4] := Lo(throttle); data[5] := Hi(throttle);
    data[6] := Lo(yaw);      data[7] := Hi(yaw);
    data[8] := Lo(aux1);     data[9] := Hi(aux1);
    ghost var head := data[..10];
    var i := 10;
    while i < 16
      invariant 10 <= i <= 16 && i % 2 == 0
      invariant forall j :: 0 <= j < 10 ==> data[j] == head[j]
      invariant forall j :: 10 <= j < i ==> data[j] == if j % 2 == 0 then Lo(UNUSED_CHANNEL) else Hi(UNUSED_CHANNEL)
    {
      data[i] := Lo(UNUSED_CHANNEL);
      data[i + 1] := Hi(UNUSED_CHANNEL);
      i := i + 2;
    }
    RcPayloadBytes(data[..], roll, pitch, throttle, yaw, aux1);
  }

  /** Toggling vision twice restores the flag. */
  method ToggleVisionTwice(p: Pilot)
    requires p.Valid()
    modifies p
    ensures p.Valid() && p.vision == old(p.vision)
    ensures unchanged(p`armed, p`throttle, p`yaw, p`pitch, p`roll, p`lastMspTime, p`out)
  {
    p.ToggleVision();
    p.ToggleVision();
  }

  /**
   * Once disarmed, whatever throttle requests follow, the next heartbeat (if
   * the gate lets one through) carries THROTTLE_OFF, the default attitude and
   * DISARM_VALUE.
   */
  method DisarmedHeartbeat(p: Pilot, requests: seq<int>, now: bv32)
    requires p.Valid()
    modifies p
    ensures p.Valid() && !p.armed
    ensures |old(p.out)| <= |p.out|
    ensures p.out == old(p.out)
            || DecodeRc(p.out[|old(p.out)|..])
               == Some(RcCommand(U16(p.defaults.throttleOff), U16(p.defaults.yawDefault),
                                 U16(p.defaults.pitchDefault), U16(p.defaults.rollDefault),
                                 U16(p.defaults.disarmValue)))
  {
    p.Disarm();
    var i := 0;
    while i < |requests|
      invariant 0 <= i <= |requests|
      invariant p.Valid() && !p.armed && p.out == old(p.out)
    {
      p.SetThrottle(requests[i]);
      i := i + 1;
    }
    ghost var before := p.out;
    p.Update(now);
    assert p.out == before || p.out[|before|..] == p.Heartbeat();
    p.HeartbeatDecodes();
  }
}
