/** The share-link record: `clampInteger`, `clampFinite`, `encodeSceneStateToHex` and
    `decodeSceneStateFromHex` (app.js:301-309, 328-413). Thirty-seven bytes: the version,
    four little-endian uint16 header fields, then seven float32 camera slots. */
module ShareState {
  import opened Wrappers
  import opened Config
  import opened Hex

  /** A JavaScript number as far as `Number.isFinite` can tell. */
  datatype JsNumber = Finite(value: real) | NonFinite

  /** `Math.round` on a finite number: to nearest, halves towards +inf. */
  function JsRound(x: real): (r: int)
    ensures r as real - 0.5 <= x < r as real + 0.5
  {
    (x + 0.5).Floor
  }

  predicate IsInteger(x: real) { x.Floor as real == x }

  /** `clampInteger(value, min, max, fallback)`. */
  function ClampInteger(value: JsNumber, min: int, max: int, fallback: int): (r: int)
    ensures value.NonFinite? ==> r == fallback
    ensures value.Finite? && min <= max ==> min <= r <= max
    ensures value.Finite? && IsInteger(value.value) && min as real <= value.value <= max as real ==>
      r as real == value.value
    ensures value.Finite? && min <= JsRound(value.value) <= max ==> r == JsRound(value.value)
    ensures value.Finite? && JsRound(value.value) <= min ==> r == min
    ensures value.Finite? && min <= max && JsRound(value.value) >= max ==> r == max
  {
    match value
    case NonFinite => fallback
    case Finite(v) =>
      RoundInteger(v);
      MaxInt(min, MinInt(max, JsRound(v)))
  }

  lemma RoundInteger(v: real)
    ensures IsInteger(v) ==> JsRound(v) as real == v
  {
    if IsInteger(v) {
      var m, k := v.Floor, (v + 0.5).Floor;
      assert k as real <= v + 0.5 < k as real + 1.0;
      assert m as real == v;
      var d := k - m;
      assert d as real <= 0.5 && d as real > -0.5;
      assert d == 0;
    }
  }

  /** `clampFinite(value, min, max, fallback)`. */
  function ClampFinite(value: JsNumber, min: real, max: real, fallback: real): (r: real)
    ensures value.NonFinite? ==> r == fallback
    ensures value.Finite? && min <= max ==> min <= r <= max
    ensures value.Finite? && min <= value.value <= max ==> r == value.value
    ensures value.Finite? && value.value <= min ==> r == min
    ensures value.Finite? && min <= max && value.value >= max ==> r == max
  {
    match value
    case NonFinite => fallback
    case Finite(v) => MaxReal(min, MinReal(max, v))
  }

  /** The four bytes `setFloat32(offset, x, true)` writes, least significant first. The
      rounding of a double to a float32 is not modelled: the camera state arrives as bit patterns. */
  datatype Float32Bits = Float32Bits(b0: Byte, b1: Byte, b2: Byte, b3: Byte)

  /** Camera position and orientation quaternion as float32 bit patterns. */
  datatype CameraPose = CameraPose(px: Float32Bits, py: Float32Bits, pz: Float32Bits,
                                   qx: Float32Bits, qy: Float32Bits, qz: Float32Bits, qw: Float32Bits)

  /** The settings `encodeSceneStateToHex` reads. */
  datatype SceneSettings = SceneSettings(boidCount: JsNumber, sandboxSize: JsNumber,
                                         birdSizeMultiplier: JsNumber, hawkCount: JsNumber)

  /** What `decodeSceneStateFromHex` returns. */
  datatype SharedState = SharedState(boidCount: int, sandboxSize: int, birdSizePercent: int, hawkCount: int,
                                     cameraX: real, cameraY: real, cameraZ: real,
                                     quatX: JsNumber, quatY: JsNumber, quatZ: JsNumber, quatW: JsNumber)

  /** The current settings and camera position decode falls back on. */
  datatype Fallbacks = Fallbacks(boidCount: int, sandboxSize: int, hawkCount: int,
                                 cameraX: real, cameraY: real, cameraZ: real)

  /** `Math.round(settings.birdSizeMultiplier * 100)`. */
  function Percent(m: JsNumber): JsNumber {
    match m
    case NonFinite => NonFinite
    case Finite(v) => Finite(JsRound(v * 100.0) as real)
  }

  // The four header values encode writes (app.js:336-346).
  function BoidCountField(s: SceneSettings): int { ClampInteger(s.boidCount, MinBirds, MaxBirds, 150) }
  function SandboxSizeField(s: SceneSettings): int { ClampInteger(s.sandboxSize, 100, 10000, 1000) }
  function BirdSizeField(s: SceneSettings): int { ClampInteger(Percent(s.birdSizeMultiplier), 50, 300, 100) }
  function HawkCountField(s: SceneSettings): int { ClampInteger(s.hawkCount, 0, MaxHawks, 0) }

  /** The two bytes `setUint16(offset, v, true)` writes; `% 65536` is its ToUint16 conversion. */
  function Uint16LE(v: int): seq<Byte> {
    var w := v % 65536;
    [w % 256, w / 256]
  }

  /** `getUint16(offset, true)`. */
  function Uint16At(bytes: seq<Byte>, offset: nat): int
    requires offset + 2 <= |bytes|
  {
    bytes[offset] as int + 256 * (bytes[offset + 1] as int)
  }

  function Float32Bytes(f: Float32Bits): seq<Byte> { [f.b0, f.b1, f.b2, f.b3] }

  /** The four bytes `getFloat32(offset, true)` reads. */
  function Float32At(bytes: seq<Byte>, offset: nat): Float32Bits
    requires offset + 4 <= |bytes|
  {
    Float32Bits(bytes[offset], bytes[offset + 1], bytes[offset + 2], bytes[offset + 3])
  }

  /** The 37 bytes of the record, in the order encode writes them. */
  function SceneRecord(s: SceneSettings, cam: CameraPose): seq<Byte> {
    Header(s) + CameraBytes(cam)
  }

  /** Bytes 0-8: the version and the four uint16 header fields. */
  function Header(s: SceneSettings): seq<Byte> {
    [ShareStateVersion]
      + Uint16LE(BoidCountField(s)) + Uint16LE(SandboxSizeField(s))
      + Uint16LE(BirdSizeField(s)) + Uint16LE(HawkCountField(s))
  }

  /** Bytes 9-36: the seven float32 camera slots. */
  function CameraBytes(cam: CameraPose): seq<Byte> {
    Float32Bytes(cam.px) + Float32Bytes(cam.py) + Float32Bytes(cam.pz)
      + Float32Bytes(cam.qx) + Float32Bytes(cam.qy) + Float32Bytes(cam.qz) + Float32Bytes(cam.qw)
  }

  /** The quaternion test of app.js:390-398, the sum taken exactly: finite and of squared length at least 1e-8. */
  predicate QuaternionUsable(x: JsNumber, y: JsNumber, z: JsNumber, w: JsNumber) {
    x.Finite? && y.Finite? && z.Finite? && w.Finite? &&
    x.value * x.value + y.value * y.value + z.value * z.value + w.value * w.value >= Eps
  }

  /** The checks and reads `decodeSceneStateFromHex` makes once `hexToBytes` succeeded. */
  function DecodeRecord(bytes: seq<Byte>, current: Fallbacks, toNumber: Float32Bits -> JsNumber): (r: Option<SharedState>)
    ensures r.Some? ==> 10 <= r.value.boidCount <= 5000 && 100 <= r.value.sandboxSize <= 10000
    ensures r.Some? ==> 50 <= r.value.birdSizePercent <= 300 && 0 <= r.value.hawkCount <= 100
    ensures r.Some? ==> r.value.cameraX == current.cameraX || -500000.0 <= r.value.cameraX <= 500000.0
    ensures r.Some? ==> r.value.cameraY == current.cameraY || -500000.0 <= r.value.cameraY <= 500000.0
    ensures r.Some? ==> r.value.cameraZ == current.cameraZ || -500000.0 <= r.value.cameraZ <= 500000.0
  {
    if |bytes| != ShareStateBytes then None
    else if bytes[0] != ShareStateVersion then None
    else
      var qx, qy, qz, qw := toNumber(Float32At(bytes, 21)), toNumber(Float32At(bytes, 25)),
                            toNumber(Float32At(bytes, 29)), toNumber(Float32At(bytes, 33));
      if !QuaternionUsable(qx, qy, qz, qw) then None
      else Some(SharedState(
        ClampInteger(Finite(Uint16At(bytes, 1) as real), MinBirds, MaxBirds, current.boidCount),
        ClampInteger(Finite(Uint16At(bytes, 3) as real), 100, 10000, current.sandboxSize),
        ClampInteger(Finite(Uint16At(bytes, 5) as real), 50, 300, 100),
        ClampInteger(Finite(Uint16At(bytes, 7) as real), 0, MaxHawks, current.hawkCount),
        ClampFinite(toNumber(Float32At(bytes, 9)), -500000.0, 500000.0, current.cameraX),
        ClampFinite(toNumber(Float32At(bytes, 13)), -500000.0, 500000.0, current.cameraY),
        ClampFinite(toNumber(Float32At(bytes, 17)), -500000.0, 500000.0, current.cameraZ),
        qx, qy, qz, qw))
  }

  /** `decodeSceneStateFromHex`; `toNumber` is `getFloat32`'s reading of four bytes. */
  function DecodeSceneState(hex: string, current: Fallbacks, toNumber: Float32Bits -> JsNumber): Option<SharedState> {
    match DecodeHex(hex)
    case None => None
    case Some(bytes) => DecodeRecord(bytes, current, toNumber)
  }

  /** Decode yields null exactly when the hex is malformed, the length is not 37, the version
      byte is not 1, or the quaternion is unusable. */
  lemma DecodeRejects(hex: string, current: Fallbacks, toNumber: Float32Bits -> JsNumber)
    ensures DecodeSceneState(hex, current, toNumber).None? <==>
      (DecodeHex(hex).None? || |DecodeHex(hex).value| != 37 || DecodeHex(hex).value[0] != 1 ||
       var b := DecodeHex(hex).value;
       !QuaternionUsable(toNumber(Float32At(b, 21)), toNumber(Float32At(b, 25)),
                         toNumber(Float32At(b, 29)), toNumber(Float32At(b, 33))))
  {
  }

  /** Reading back a uint16 written by `setUint16(_, v, true)` yields `v` for every value in range. */
  lemma Uint16RoundTrip(v: int, pre: seq<Byte>, post: seq<Byte>)
    requires 0 <= v < 65536
    ensures Uint16At(pre + Uint16LE(v) + post, |pre|) == v
  {
    var s := pre + Uint16LE(v) + post;
    assert s[|pre|] == v % 256 && s[|pre| + 1] == v / 256;
  }

  lemma HeaderLayout(s: SceneSettings)
    ensures |Header(s)| == 9 && Header(s)[0] == 1
    ensures Uint16At(Header(s), 1) == BoidCountField(s) && Uint16At(Header(s), 3) == SandboxSizeField(s)
    ensures Uint16At(Header(s), 5) == BirdSizeField(s) && Uint16At(Header(s), 7) == HawkCountField(s)
  {
    HeaderBytes(BoidCountField(s), SandboxSizeField(s), BirdSizeField(s), HawkCountField(s));
  }

  /** The version byte and four uint16 values in range, laid out little-endian, read back at 1, 3, 5 and 7. */
  lemma HeaderBytes(b: int, z: int, p: int, k: int)
    requires 0 <= b < 65536 && 0 <= z < 65536 && 0 <= p < 65536 && 0 <= k < 65536
    ensures var h := [ShareStateVersion] + Uint16LE(b) + Uint16LE(z) + Uint16LE(p) + Uint16LE(k);
      |h| == 9 && h[0] == 1 && Uint16At(h, 1) == b && Uint16At(h, 3) == z && Uint16At(h, 5) == p && Uint16At(h, 7) == k
  {
    var h := [ShareStateVersion] + Uint16LE(b) + Uint16LE(z) + Uint16LE(p) + Uint16LE(k);
    assert h[1] == b % 256 && h[2] == b / 256;
    assert h[3] == z % 256 && h[4] == z / 256;
    assert h[5] == p % 256 && h[6] == p / 256;
    assert h[7] == k % 256 && h[8] == k / 256;
  }

  lemma CameraLayout(cam: CameraPose)
    ensures |CameraBytes(cam)| == 28
    ensures Float32At(CameraBytes(cam), 0) == cam.px && Float32At(CameraBytes(cam), 4) == cam.py
    ensures Float32At(CameraBytes(cam), 8) == cam.pz && Float32At(CameraBytes(cam), 12) == cam.qx
    ensures Float32At(CameraBytes(cam), 16) == cam.qy && Float32At(CameraBytes(cam), 20) == cam.qz
    ensures Float32At(CameraBytes(cam), 24) == cam.qw
  {
  }

  /** Reads within either part of a concatenation see that part alone. */
  lemma ReadsInParts(a: seq<Byte>, b: seq<Byte>)
    ensures forall o: nat :: o + 2 <= |a| ==> Uint16At(a + b, o) == Uint16At(a, o)
    ensures forall o: nat :: o + 4 <= |b| ==> Float32At(a + b, |a| + o) == Float32At(b, o)
  {
  }

  /** The byte layout: version at 0, the four clamped header fields as uint16 LE at 1, 3, 5 and 7,
      and the seven float32 slots from offset 9 on. */
  lemma SceneRecordLayout(s: SceneSettings, cam: CameraPose)
    ensures |SceneRecord(s, cam)| == 37 && SceneRecord(s, cam)[0] == 1
    ensures Uint16At(SceneRecord(s, cam), 1) == BoidCountField(s)
    ensures Uint16At(SceneRecord(s, cam), 3) == SandboxSizeField(s)
    ensures Uint16At(SceneRecord(s, cam), 5) == BirdSizeField(s)
    ensures Uint16At(SceneRecord(s, cam), 7) == HawkCountField(s)
    ensures Float32At(SceneRecord(s, cam), 9) == cam.px && Float32At(SceneRecord(s, cam), 13) == cam.py
    ensures Float32At(SceneRecord(s, cam), 17) == cam.pz && Float32At(SceneRecord(s, cam), 21) == cam.qx
    ensures Float32At(SceneRecord(s, cam), 25) == cam.qy && Float32At(SceneRecord(s, cam), 29) == cam.qz
    ensures Float32At(SceneRecord(s, cam), 33) == cam.qw
  {
    HeaderLayout(s);
    CameraLayout(cam);
    ReadsInParts(Header(s), CameraBytes(cam));
  }

  /** Decoding what encode wrote gives back the four clamped header fields exactly, the camera
      position as `clampFinite` leaves it, and the quaternion unchanged. */
  lemma DecodeEncodeRoundTrip(s: SceneSettings, cam: CameraPose, current: Fallbacks, toNumber: Float32Bits -> JsNumber)
    requires QuaternionUsable(toNumber(cam.qx), toNumber(cam.qy), toNumber(cam.qz), toNumber(cam.qw))
    ensures DecodeSceneState(EncodeHex(SceneRecord(s, cam)), current, toNumber) ==
      Some(SharedState(BoidCountField(s), SandboxSizeField(s), BirdSizeField(s), HawkCountField(s),
        ClampFinite(toNumber(cam.px), -500000.0, 500000.0, current.cameraX),
        ClampFinite(toNumber(cam.py), -500000.0, 500000.0, current.cameraY),
        ClampFinite(toNumber(cam.pz), -500000.0, 500000.0, current.cameraZ),
        toNumber(cam.qx), toNumber(cam.qy), toNumber(cam.qz), toNumber(cam.qw)))
  {
    var rec := SceneRecord(s, cam);
    SceneRecordLayout(s, cam);
    RoundTrip(rec);
    assert DecodeHex(EncodeHex(rec)) == Some(rec);
    HeaderFieldReadsBack(BoidCountField(s), MinBirds, MaxBirds, current.boidCount);
    HeaderFieldReadsBack(SandboxSizeField(s), 100, 10000, current.sandboxSize);
    HeaderFieldReadsBack(BirdSizeField(s), 50, 300, 100);
    HeaderFieldReadsBack(HawkCountField(s), 0, MaxHawks, current.hawkCount);
  }

  /** A header field already clamped into its range passes decode's clamp unchanged. */
  lemma HeaderFieldReadsBack(v: int, min: int, max: int, fallback: int)
    requires min <= v <= max
    ensures ClampInteger(Finite(v as real), min, max, fallback) == v
  {
    assert IsInteger(v as real);
  }

  /** The bytes before `offset + |chunk|` after `chunk` is written at `offset` over a prefix `w`. */
  lemma WritePrefix(before: seq<Byte>, offset: nat, chunk: seq<Byte>, w: seq<Byte>)
    requires offset + |chunk| <= |before| && before[..offset] == w
    ensures (before[..offset] + chunk + before[offset + |chunk|..])[..offset + |chunk|] == w + chunk
  {
  }

  /** `view.setUint16(offset, v, true)` on the record's buffer. */
  method SetUint16(bytes: array<Byte>, offset: nat, v: int)
    requires offset + 2 <= bytes.Length
    modifies bytes
    ensures bytes[..] == old(bytes[..offset]) + Uint16LE(v) + old(bytes[offset + 2..])
  {
    var w := v % 65536;
    bytes[offset] := w % 256;
    bytes[offset + 1] := w / 256;
  }

  /** `view.setFloat32(offset, x, true)`, with `x` already a float32 bit pattern. */
  method SetFloat32(bytes: array<Byte>, offset: nat, f: Float32Bits)
    requires offset + 4 <= bytes.Length
    modifies bytes
    ensures bytes[..] == old(bytes[..offset]) + Float32Bytes(f) + old(bytes[offset + 4..])
  {
    bytes[offset] := f.b0;
    bytes[offset + 1] := f.b1;
    bytes[offset + 2] := f.b2;
    bytes[offset + 3] := f.b3;
  }

  /** `encodeSceneStateToHex`: writes the record through a moving offset, then hex-encodes it. */
  method EncodeSceneStateToHex(s: SceneSettings, cam: CameraPose) returns (hex: string)
    ensures hex == EncodeHex(SceneRecord(s, cam))
  {
    var bytes := new Byte[ShareStateBytes];
    var offset := WriteHeader(bytes, s);
    WriteCamera(bytes, offset, cam);
    assert bytes[..] == Header(s) + CameraBytes(cam);
    hex := BytesToHex(bytes[..]);
  }

  /** The first nine writes of `encodeSceneStateToHex`: the version byte and the four uint16 fields. */
  method WriteHeader(bytes: array<Byte>, s: SceneSettings) returns (offset: nat)
    requires bytes.Length == ShareStateBytes
    modifies bytes
    ensures offset == 9
    ensures bytes[..9] == Header(s) && bytes[9..] == old(bytes[9..])
  {
    offset := 0;
    bytes[offset] := ShareStateVersion;
    offset := offset + 1;
    ghost var written: seq<Byte> := [ShareStateVersion];
    ghost var tail := old(bytes[9..]);
    ghost var before: seq<Byte>;
    assert bytes[..offset] == written && bytes[9..] == tail;
    before := bytes[..];
    SetUint16(bytes, offset, BoidCountField(s));
    WritePrefix(before, offset, Uint16LE(BoidCountField(s)), written);
    assert bytes[9..] == before[9..];
    written, offset := written + Uint16LE(BoidCountField(s)), offset + 2;
    before := bytes[..];
    SetUint16(bytes, offset, SandboxSizeField(s));
    WritePrefix(before, offset, Uint16LE(SandboxSizeField(s)), written);
    assert bytes[9..] == before[9..];
    written, offset := written + Uint16LE(SandboxSizeField(s)), offset + 2;
    before := bytes[..];
    SetUint16(bytes, offset, BirdSizeField(s));
    WritePrefix(before, offset, Uint16LE(BirdSizeField(s)), written);
    assert bytes[9..] == before[9..];
    written, offset := written + Uint16LE(BirdSizeField(s)), offset + 2;
    before := bytes[..];
    SetUint16(bytes, offset, HawkCountField(s));
    WritePrefix(before, offset, Uint16LE(HawkCountField(s)), written);
    assert bytes[9..] == before[9..];
    written, offset := written + Uint16LE(HawkCountField(s)), offset + 2;
    assert bytes[..9] == written;
  }

  /** The seven float32 writes of `encodeSceneStateToHex`, from offset 9 on. */
  method WriteCamera(bytes: array<Byte>, offset0: nat, cam: CameraPose)
    requires bytes.Length == ShareStateBytes && offset0 == 9
    modifies bytes
    ensures bytes[..] == old(bytes[..9]) + CameraBytes(cam)
  {
    var offset := offset0;
    ghost var written := bytes[..9];
    WriteSlot(bytes, offset, cam.px, written);
    written, offset := written + Float32Bytes(cam.px), offset + 4;
    WriteSlot(bytes, offset, cam.py, written);
    written, offset := written + Float32Bytes(cam.py), offset + 4;
    WriteSlot(bytes, offset, cam.pz, written);
    written, offset := written + Float32Bytes(cam.pz), offset + 4;
    WriteSlot(bytes, offset, cam.qx, written);
    written, offset := written + Float32Bytes(cam.qx), offset + 4;
    WriteSlot(bytes, offset, cam.qy, written);
    written, offset := written + Float32Bytes(cam.qy), offset + 4;
    WriteSlot(bytes, offset, cam.qz, written);
    written, offset := written + Float32Bytes(cam.qz), offset + 4;
    WriteSlot(bytes, offset, cam.qw, written);
    written, offset := written + Float32Bytes(cam.qw), offset + 4;
    assert bytes[..] == bytes[..37];
    CameraAfterHead(old(bytes[..9]), cam);
  }

  lemma CameraAfterHead(head: seq<Byte>, cam: CameraPose)
    ensures head + Float32Bytes(cam.px) + Float32Bytes(cam.py) + Float32Bytes(cam.pz) + Float32Bytes(cam.qx)
      + Float32Bytes(cam.qy) + Float32Bytes(cam.qz) + Float32Bytes(cam.qw) == head + CameraBytes(cam)
  {
  }

  /** One `setFloat32` of the sequence: the bytes written so far are kept and four more follow. */
  method WriteSlot(bytes: array<Byte>, offset: nat, f: Float32Bits, ghost written: seq<Byte>)
    requires offset + 4 <= bytes.Length && bytes[..offset] == written
    modifies bytes
    ensures bytes[..offset + 4] == written + Float32Bytes(f)
  {
    ghost var before := bytes[..];
    SetFloat32(bytes, offset, f);
    WritePrefix(before, offset, Float32Bytes(f), written);
  }
}
