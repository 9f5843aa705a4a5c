/** Decoded radar data, as the decoder hands it to the pipeline. */
module Radar {
  import opened Wrappers
  import opened Bytes

  datatype RadialStatus =
    | StartOfElevation
    | Intermediate
    | EndOfElevation
    | StartOfVolume
    | EndOfVolume
    | StartOfLastElevation
    | UnknownStatus(code: nat)

  datatype SiteParameters = SiteParameters(latitude: real, longitude: real, siteAmslM: int, vcpNumber: nat)

  datatype ProductKind = Ref | Vel | SpectrumWidth | Zdr | Phi | Rho | Cfp

  datatype ProductData = ProductData(
    gateCount: nat, firstGateM: nat, gateWidthM: nat, wordSize: nat, scale: real, offset: real, data: seq<byte>)

  datatype Radial = Radial(
    siteId: seq<byte>, scanTimeMs: nat, julianDate: nat, azimuthDeg: real, elevationDeg: real,
    azimuthSpacingCode: nat, radialStatus: RadialStatus, elevationNumber: nat,
    unambiguousRangeKm: Option<real>, nyquistVelocityMps: Option<real>,
    siteParameters: Option<SiteParameters>, products: map<ProductKind, ProductData>)

  datatype Sweep = Sweep(
    elevationNumber: nat, elevationDeg: real, nyquistVelocityMps: Option<real>, unambiguousRangeKm: Option<real>,
    radials: seq<Radial>, complete: bool)

  datatype VolumeStatus = InProgress | Complete | Superseded | TimedOut

  datatype VolumeId = VolumeId(julianDate: nat, scanTimeMs: nat)

  datatype VolumeScan = VolumeScan(
    siteId: seq<byte>, scanTimeMs: nat, julianDate: nat, vcpNumber: nat, latitude: real, longitude: real,
    siteAmslM: int, sweeps: seq<Sweep>, status: VolumeStatus)

  datatype ChunkKind = Start | Middle | End

  /** The derived ordering of `VolumeId`: date first, then time of day. */
  predicate NotNewer(a: VolumeId, b: VolumeId) {
    a.julianDate < b.julianDate || (a.julianDate == b.julianDate && a.scanTimeMs <= b.scanTimeMs)
  }

  predicate EndsElevation(s: RadialStatus) {
    s.EndOfElevation? || s.EndOfVolume?
  }

  function IdOf(r: Radial): VolumeId {
    VolumeId(r.julianDate, r.scanTimeMs)
  }

  function IdOfScan(v: VolumeScan): VolumeId {
    VolumeId(v.julianDate, v.scanTimeMs)
  }
}
