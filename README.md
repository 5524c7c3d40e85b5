# Snitch: threat scanner and flight pilot

This project models the two pieces of logic in Snitch, an ESP32 camera drone. Both sit between the vendor I/O calls.

- **The camera unit** (`Camera::calibrate`, `Camera::scanSky` in src/Camera.cpp).
  - Calibration stores a room brightness baseline, taken from every 8th byte of one frame.
  - A scan does three things to a 160×120 grayscale frame:
    - it counts the pixels darker than a threshold derived from the baseline, into a 3×3 grid of zones;
    - it picks the first strongest zone;
    - it reports a threat when that zone holds more than 400 dark pixels.
- **The pilot** (class `Pilot` in src/Pilot.cpp).
  - It holds the armed and vision flags and the throttle, yaw, pitch and roll setpoints.
  - It turns a threat verdict into setpoints.
  - It sends a rate-limited heartbeat to the flight controller. The heartbeat is an MSP v1 (MultiWii Serial Protocol) `MSP_SET_RAW_RC` request frame.

Files:
- `Wrappers.dfy`: `Option`.
- `ThreatSpec.dfy`: the value-level specification of calibration and scanning, and its lemmas.
- `Camera.dfy`: class `Camera`, whose loops are proved against ThreatSpec.
- `Msp.dfy`: the MSP v1 request frame, a decoder for it, the round-trip lemmas, and the RC payload.
- `Pilot.dfy`: class `Pilot`.

How the environment is modelled:
- A camera frame is an `Option<seq<bv8>>` argument. `None` stands for a failed frame acquisition.
- The millisecond clock is the `now: bv32` argument of `Update`.
- The bytes written to the flight-controller serial port are appended to the field `Pilot.out`.

Points where the model pins down what the code does:
- **Threshold.** The comment at src/Camera.cpp:111 says the threshold defaults to 40 when too low. Lines 112-113 replace baseline − SENSITIVITY by 40 only when it is negative, so thresholds 0..39 are kept. `Threshold` states the code's rule. `ZeroThresholdBlind` shows that at threshold 0 no frame can raise a threat.
- **Frame length.** sendRC and sendMsp write 22 bytes: 3 header bytes, size, command, 16 payload bytes and the checksum (`RcRoundTrip`).
- **Constants.** `SENSITIVITY` and the pilot defaults (`THROTTLE_OFF`, `YAW_DEFAULT`, `PITCH_DEFAULT`, `ROLL_DEFAULT`, `ARM_VALUE`, `DISARM_VALUE`) are not defined in the repository's sources, so they are parameters here:
  - the Camera constructor takes the sensitivity;
  - the Pilot constructor takes a `Defaults` record of uint16_t values.

The camera's baseline starts at 0, as the zero-initialised global object does (src/main.cpp:20).

## Model

| member | source | states |
|---|---|---|
| CameraUnit.Camera.constructor | src/main.cpp:20 | A new camera has the given sensitivity and baseline 0. |
| CameraUnit.Camera.Calibrate | src/Camera.cpp:64-95 | Without a frame the baseline is unchanged. With a frame of at least 8 bytes, the baseline becomes the sum of bytes 0, 8, 16, … divided by len/8, raised to 40 when lower. So afterwards it is at least 40. |
| ThreatSpec.SampleSum | src/Camera.cpp:73-75 | Defines the sum of the sampled bytes buf[i], buf[i+8], buf[i+16], … up to the end of the frame. |
| ThreatSpec.RawMean | src/Camera.cpp:78 | Defines the raw baseline: the stride-8 sample total divided by len/8 with integer division. |
| ThreatSpec.CalibratedBaseline | src/Camera.cpp:73-82 | The calibrated baseline is at least 40. It equals the raw integer mean whenever that mean is at least 40, and it is exactly 40 when the mean is lower. |
| ThreatSpec.RawMeanIsByte | src/Camera.cpp:73-78 | When the frame length is a multiple of 8, the raw mean lies in 0..255. |
| ThreatSpec.UniformCalibration | src/Camera.cpp:73-82 | For a uniform frame of value v whose length is a multiple of 8, the raw mean is v. The baseline is v, or 40 when v < 40. |
| ThreatSpec.Threshold | src/Camera.cpp:112-113 | The threshold is baseline − sensitivity when that is at least 0, and 40 otherwise. It is never negative. |
| ThreatSpec.GridX | src/Camera.cpp:125 | The column band of a pixel is 0, 1 or 2. |
| ThreatSpec.GridY | src/Camera.cpp:117 | The row band of a pixel is 0, 1 or 2. |
| ThreatSpec.ZoneOf | src/Camera.cpp:117-126 | The zone 3·gridY + gridX of every pixel lies in [0, 8]. |
| ThreatSpec.Dark | src/Camera.cpp:122-124 | Defines a dark pixel: byte y·160 + x of the row-major frame is strictly below the threshold. |
| ThreatSpec.ZoneCount | src/Camera.cpp:115-129 | Defines the score of zone z: the number of dark pixels whose zone is z, counted row by row and column by column. |
| ThreatSpec.ZoneScores | src/Camera.cpp:108-129 | There are exactly 9 scores. Score z is the number of pixels of zone z that are strictly darker than the threshold. |
| ThreatSpec.RowCountStep | src/Camera.cpp:121-127 | Visiting pixel (x, y) adds one to the count of its own zone exactly when it is darker than the threshold. It adds nothing to the other zones. |
| CameraUnit.CountZones | src/Camera.cpp:108-129 | The nested row/column loop leaves in the 9-entry score array exactly ZoneScores of the frame and threshold. |
| ThreatSpec.ZoneCountBound | src/Camera.cpp:115-129 | Each zone score is at most the size of its cell, which is at most 40·54. On an all-dark frame each score equals its cell size. |
| ThreatSpec.ScoresPartitionDarkPixels | src/Camera.cpp:115-129 | The nine scores sum to the number of dark pixels in the frame, which is at most 19200. |
| ThreatSpec.PixelContribution | src/Camera.cpp:121-127 | Making one pixel dark raises the score of that pixel's zone by exactly one and leaves every other score unchanged. |
| ThreatSpec.PickMax | src/Camera.cpp:132-139 | The argmax loop over the first n scores: it starts at (0, −1) and moves only on a strictly greater score. The maximum is never negative and the index lies in [−1, n). |
| ThreatSpec.Scan | src/Camera.cpp:97-151 | The verdict of one scan: the sentinel without a frame, otherwise the argmax of the zone scores under the threshold, active when the mass exceeds 400. Its mass is never negative and its zone index lies in [−1, 8]. |
| ThreatSpec.PickMaxFirstGreatest | src/Camera.cpp:132-139 | The argmax result is non-negative and at least every score. When positive, it is reached at an index below which every score is smaller, so the first greatest zone wins ties. When it is 0 the index stays −1. |
| ThreatSpec.ScanVerdict | src/Camera.cpp:97-151 | Without a frame the verdict is {false, −1, 0}. With a frame, mass is the greatest zone score and zone_index is the first zone attaining it (−1 when all scores are 0). active holds iff mass > 400, and active implies 0 ≤ zone_index ≤ 8. |
| ThreatSpec.ScanSingleZone | src/Camera.cpp:115-144 | When every dark pixel lies in one zone z0, the verdict is the sentinel if there are no dark pixels. Otherwise zone z0 is reported with mass equal to the dark-pixel count, and active iff that count > 400. |
| ThreatSpec.ZeroThresholdBlind | src/Camera.cpp:112-113 | When the baseline equals the sensitivity, the threshold is 0. Every frame then scans as the no-threat sentinel. |
| CameraUnit.Camera.ScanSky | src/Camera.cpp:97-151 | The returned verdict is Scan of the frame, baseline and sensitivity, and without a frame it is the sentinel. active holds iff mass > 400, and then 0 ≤ zone_index ≤ 8. |
| PilotUnit.ClampThrottle | src/Pilot.cpp:35-41 | The result lies in [1000, 2000]. In-range values are kept. Lower values give 1000 and higher values give 2000. |
| PilotUnit.ClampIdempotent | src/Pilot.cpp:35-41 | Clamping a clamped value changes nothing. |
| PilotUnit.Pilot.constructor | src/Pilot.cpp:11-20 | A new pilot is disarmed with vision off. Its throttle is THROTTLE_OFF, yaw, pitch and roll are at their defaults, the last MSP time is 0 and nothing has been written. |
| PilotUnit.Pilot.Arm | src/Pilot.cpp:26-28 | Sets armed. Only the armed field may change. |
| PilotUnit.Pilot.Disarm | src/Pilot.cpp:30-33 | Clears armed and sets the throttle to THROTTLE_OFF. Vision, attitude, timestamp and output are untouched. |
| PilotUnit.Pilot.SetThrottle | src/Pilot.cpp:35-41 | Stores the clamped request, in [1000, 2000], whether armed or not. Only the throttle may change. |
| PilotUnit.Pilot.ToggleVision | src/Pilot.cpp:43-50 | Negates the vision flag. Only that flag may change. |
| PilotUnit.ToggleVisionTwice | src/Pilot.cpp:43-50 | Toggling twice restores the vision flag and leaves every other field unchanged. |
| PilotUnit.Pilot.CameraMotion | src/Pilot.cpp:52-93 | With vision off nothing changes. With an inactive threat, throttle and attitude are reset to THROTTLE_OFF and the defaults. A threat in zone 1 sets only the pitch to 1200. A threat in any other zone changes nothing. |
| PilotUnit.Pilot.Valid | src/Pilot.cpp:11-93 | The invariant every method keeps on reachable states. Throttle is THROTTLE_OFF or in [1000, 2000]. Yaw and roll keep their defaults. Pitch is its default or 1200. So every setpoint fits a uint16_t. |
| PilotUnit.Due | src/Pilot.cpp:96 | Defines the heartbeat gate: the unsigned 32-bit difference now − lastMspTime is greater than 20. |
| PilotUnit.Pilot.HeartbeatCommand | src/Pilot.cpp:98-103 | Defines what the next heartbeat commands: the setpoints and ARM_VALUE when armed; otherwise THROTTLE_OFF, the default attitude and DISARM_VALUE, whatever the setpoints hold. |
| PilotUnit.Pilot.Heartbeat | src/Pilot.cpp:98-103 | Defines the bytes of the next heartbeat: the RC frame of HeartbeatCommand. |
| PilotUnit.Pilot.HeartbeatDecodes | src/Pilot.cpp:98-103 | The heartbeat frame decodes back to exactly the command it carries: the setpoints and ARM_VALUE when armed, and the defaults and DISARM_VALUE when disarmed. |
| PilotUnit.Pilot.Update | src/Pilot.cpp:95-105 | When the unsigned 32-bit difference now − lastMspTime exceeds 20, it records now and appends the heartbeat frame of the state before the call. Otherwise timestamp and output are unchanged. |
| PilotUnit.DisarmedHeartbeat | src/Pilot.cpp:95-105 | After disarm and any number of throttle requests, an update writes nothing or one frame. That frame decodes to THROTTLE_OFF, the default attitude and DISARM_VALUE. |
| PilotUnit.PackRc | src/Pilot.cpp:111-124 | The 16-byte array holds roll, pitch, throttle, yaw and aux1 as (low, high) byte pairs, then (0xE8, 0x03) three times. |
| PilotUnit.Pilot.SendRC | src/Pilot.cpp:110-127 | Appends exactly the MSP_SET_RAW_RC frame of the five values, with size 16 and command 200. |
| PilotUnit.Pilot.SendMsp | src/Pilot.cpp:129-147 | Appends exactly the bytes '$' 'M' '<', n, cmd, data[0..n) and the XOR of n, cmd and the n data bytes. |
| MspSpec.XorUpTo | src/Pilot.cpp:130-144 | Defines the XOR of the first k bytes, folded from the left from 0, as the running checksum is. |
| MspSpec.Checksum | src/Pilot.cpp:130-144 | Defines the checksum of a request: size ^ command ^ payload[0] ^ … ^ payload[n−1]. |
| MspSpec.MspFrame | src/Pilot.cpp:129-147 | A frame with n payload bytes is n + 6 bytes long. |
| MspSpec.MspFrameLayout | src/Pilot.cpp:129-147 | Frame bytes 0..2 are the header, byte 3 is n and byte 4 is the command. Bytes 5..5+n are the payload, and the last byte is the XOR of size, command and payload. |
| MspSpec.ChecksumStep | src/Pilot.cpp:141-144 | Folding one more payload byte into the running checksum XORs it in. |
| MspSpec.AppendFrame | src/Pilot.cpp:132-146 | Writing the header, size, command, payload and checksum one after the other appends exactly the frame. |
| MspSpec.ChecksumCancels | src/Pilot.cpp:135-146 | The XOR of every frame byte from the size to the checksum is 0. |
| MspSpec.DecodeMsp | src/Pilot.cpp:129-147 | An accepted frame is at least 6 bytes long and carries as many payload bytes as its size byte says. |
| MspSpec.DecodeEncode | src/Pilot.cpp:129-147 | Decoding an encoded frame gives back its command and payload. |
| MspSpec.EncodeDecode | src/Pilot.cpp:129-147 | Every frame the decoder accepts is the encoding of what it read. |
| MspSpec.RcPayload | src/Pilot.cpp:111-124 | The RC payload is 16 bytes. |
| MspSpec.RcPayloadBytes | src/Pilot.cpp:113-124 | Sixteen bytes filled pair by pair as sendRC does are the RC payload. |
| MspSpec.Lo | src/Pilot.cpp:114-118 | Defines the low byte of a 16-bit value, v & 0xFF. |
| MspSpec.Hi | src/Pilot.cpp:114-118 | Defines the high byte of a 16-bit value, v >> 8. |
| MspSpec.WordLoHi | src/Pilot.cpp:114-118 | Reassembling the low and high byte of a 16-bit value gives the value back. |
| MspSpec.Channels | src/Pilot.cpp:113-124 | A payload of 2k bytes reads as k little-endian channels. |
| MspSpec.RcPayloadChannels | src/Pilot.cpp:113-124 | Read as channels, the RC payload is roll, pitch, throttle, yaw, aux1, 1000, 1000, 1000. |
| MspSpec.RcFrame | src/Pilot.cpp:110-127 | An RC frame is 22 bytes. |
| MspSpec.RcRoundTrip | src/Pilot.cpp:110-147 | An RC frame is 22 bytes with size 16 and command 200. Its bytes from the size onwards XOR to 0. It decodes to the five values it was built from. |

## Left out

- Camera::init: camera pin and clock configuration handed to the vendor driver. It is hardware set-up with no logic of its own.
- Frame acquisition and release (`esp_camera_fb_get`, `esp_camera_fb_return`) and the `fb` field. They are replaced by the optional frame argument.
- The LED blinking and delays in calibrate. They are hardware side effects; only the clamp to 40 is modelled.
- Pilot::begin and the serial port itself. Serial writes are appends to `out`, and the baud rate and pins are not modelled.
- src/main.cpp. Its Wi-Fi access point, web routes and LED loop are not part of this model, and every pilot call in it is commented out.
- src/index_html.h. It is the browser user interface.
- src/Camera.h and src/Pilot.h. They are declarations only and out of date with the .cpp files.
- Concurrency. The code has none.
- The cadence of heartbeats over time. Only the per-call gate of update is modelled.
- CameraUnit.Camera.Calibrate: requires at least 8 bytes. With fewer, the source divides by zero (len/8 == 0).
- ThreatSpec.RawMeanIsByte: proved only for lengths that are multiples of 8. Otherwise the source takes ceil(len/8) samples but divides by floor(len/8), so the quotient can exceed 255.
- CameraUnit.Camera.ScanSky: requires at least 19200 bytes. The source reads indices up to 19199 whatever the frame length is.
- PilotUnit.Pilot.Update: reads the clock once as `now`. The source calls millis() twice, once for the test and once for the stored time.
- PilotUnit.Pilot.SendMsp: writes the three header bytes in one append. The source writes them one call at a time; the resulting byte sequence is the same.
- PilotUnit.Pilot.Update: converts the int setpoints to uint16_t with U16, which is exact here because Pilot.Valid keeps every setpoint a uint16_t. Out-of-range truncation is therefore not modelled.
- CameraUnit.CountZones: the counting pass of scanSky is a method of its own here. The source inlines it.
- PilotUnit.PackRc: the array filling of sendRC is a method of its own here. The source inlines it.
