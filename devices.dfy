/** `updateDeviceList`: the audio inputs the host reports, reduced to the labels the
    popup offers, written over the stored list. */
module Devices {
  import opened Outcome

  /** A device descriptor as the host's enumeration reports it. */
  datatype DeviceInfo = DeviceInfo(deviceId: string, kind: string, labelText: string)

  /** A stored microphone entry: only the label survives. */
  datatype MicEntry = MicEntry(labelText: string)

  const AudioInput: string := "audioinput"
  /** AirPods appear several times; every entry labelled exactly this is hidden. */
  const HiddenLabel: string := "AirPods"

  predicate Kept(d: DeviceInfo) {
    d.kind == AudioInput && d.labelText != HiddenLabel
  }

  /** The filter and map of the device list. */
  function Mics(devices: seq<DeviceInfo>): (r: seq<MicEntry>)
    ensures |r| <= |devices|
    ensures forall m :: m in r ==> m.labelText != HiddenLabel
    decreases |devices|
  {
    if devices == [] then []
    else (if Kept(devices[0]) then [MicEntry(devices[0].labelText)] else []) + Mics(devices[1..])
  }

  /** The indices of the kept devices, in increasing order (a reference definition
      that does not build the list). */
  function KeptIndices(devices: seq<DeviceInfo>, from: nat): (r: seq<nat>)
    requires from <= |devices|
    decreases |devices| - from
  {
    if from == |devices| then []
    else (if Kept(devices[from]) then [from] else []) + KeptIndices(devices, from + 1)
  }

  predicate StrictlyIncreasing(s: seq<nat>) {
    forall i, j :: 0 <= i < j < |s| ==> s[i] < s[j]
  }

  lemma {:induction false} KeptIndicesShape(devices: seq<DeviceInfo>, from: nat)
    requires from <= |devices|
    ensures StrictlyIncreasing(KeptIndices(devices, from))
    ensures forall i :: i in KeptIndices(devices, from) <==> from <= i < |devices| && Kept(devices[i])
    decreases |devices| - from
  {
    if from < |devices| {
      KeptIndicesShape(devices, from + 1);
      var rest := KeptIndices(devices, from + 1);
      var head: seq<nat> := if Kept(devices[from]) then [from] else [];
      assert forall k :: 0 <= k < |rest| ==> from < rest[k] by {
        forall k | 0 <= k < |rest| ensures from < rest[k] {
          assert rest[k] in rest;
        }
      }
      assert KeptIndices(devices, from) == head + rest;
    }
  }

  lemma {:induction false} MicsAgainstIndices(devices: seq<DeviceInfo>, from: nat)
    requires from <= |devices|
    ensures var r := Mics(devices[from..]); var idx := KeptIndices(devices, from);
      |r| == |idx| && forall j :: 0 <= j < |r| ==> idx[j] < |devices| && r[j] == MicEntry(devices[idx[j]].labelText)
    decreases |devices| - from
  {
    if from < |devices| {
      MicsAgainstIndices(devices, from + 1);
      assert devices[from..][1..] == devices[from + 1..];
    }
  }

  /** The stored list holds, in their original order, exactly the labels of the devices
      whose kind is "audioinput" and whose label is not "AirPods". */
  lemma MicsSpec(devices: seq<DeviceInfo>)
    ensures var r := Mics(devices); var idx := KeptIndices(devices, 0);
      StrictlyIncreasing(idx) &&
      (forall i :: i in idx <==> 0 <= i < |devices| && Kept(devices[i])) &&
      |r| == |idx| &&
      forall j :: 0 <= j < |r| ==> idx[j] < |devices| && r[j] == MicEntry(devices[idx[j]].labelText)
  {
    KeptIndicesShape(devices, 0);
    MicsAgainstIndices(devices, 0);
    assert devices[0..] == devices;
  }

  /** The filter works entry by entry: the list of a concatenation is the
      concatenation of the lists. */
  lemma {:induction false} MicsAppend(a: seq<DeviceInfo>, b: seq<DeviceInfo>)
    ensures Mics(a + b) == Mics(a) + Mics(b)
    decreases |a|
  {
    if a != [] {
      MicsAppend(a[1..], b);
      assert (a + b)[0] == a[0];
      assert (a + b)[1..] == a[1..] + b;
      var head := if Kept(a[0]) then [MicEntry(a[0].labelText)] else [];
      calc {
        Mics(a + b);
        head + Mics(a[1..] + b);
        head + (Mics(a[1..]) + Mics(b));
        (head + Mics(a[1..])) + Mics(b);
      }
    } else {
      assert a + b == b;
    }
  }

  /** Every "AirPods" entry is dropped, not just one: a list of several of them
      yields nothing. */
  lemma {:induction false} AllAirPodsHidden(devices: seq<DeviceInfo>)
    requires forall d :: d in devices ==> d.labelText == HiddenLabel
    ensures Mics(devices) == []
    decreases |devices|
  {
    if devices != [] {
      AllAirPodsHidden(devices[1..]);
    }
  }

  /** `updateDeviceList`: when enumeration succeeds the stored list is replaced by the
      filtered one (no merge with what was stored); when it throws, the error is only
      logged and the stored list stays as it was. */
  function UpdateDeviceList(enumerated: Attempt<seq<DeviceInfo>, string>, stored: Option<seq<MicEntry>>): (r: Option<seq<MicEntry>>)
    ensures enumerated.Threw? ==> r == stored
    ensures enumerated.Returned? ==> r == Some(Mics(enumerated.value))
    ensures enumerated.Returned? ==> r.Some? && |r.value| <= |enumerated.value|
    ensures enumerated.Returned? ==> forall m :: m in r.value ==> m.labelText != HiddenLabel
  {
    match enumerated
    case Returned(devices) => Some(Mics(devices))
    case Threw(_) => stored
  }
}
