/** Devices and the device-to-tray map `updateDeviceTrayMap` derives from the registry
    (src/renderer/src/stores/wms.ts:275-327, electron/src/renderer/src/stores/wms.ts:231-283). */
module Devices {
  import opened Text
  import opened OrderedMaps

  datatype Option<T> = None | Some(value: T)

  /** A device record as the equipment control system reports it. Absent string fields are
      the empty string (both are falsy in the source); an absent child list is []. */
  datatype Device = Device(
    code: string,
    name: string,
    palletCode: string,
    workStatus: Option<int>,
    operationMode: string,
    children: seq<Device>)

  /** A `deviceTrayMap` value (the unused `timestamp` is left out). */
  datatype TrayInfo = TrayInfo(trayCode: string, deviceName: string, location: string)

  /** One `deviceTrayMap.set(key, info)` call. */
  datatype Claim = Claim(key: string, info: TrayInfo)

  /** `p && p != '0' && p.toString().trim() !== ''` */
  predicate ValidPallet(p: string) {
    p != "" && p != "0" && !IsBlank(p)
  }

  /** `workStatus != null && workStatus !== 0` */
  predicate IsWorking(d: Device) {
    d.workStatus.Some? && d.workStatus.value != 0
  }

  /** A device without children claims its own tray only when the tray is valid and the
      device is a `Tran` station or is working. */
  predicate IncludesPlain(code: string, d: Device) {
    ValidPallet(d.palletCode) && (StartsWith(code, "Tran") || IsWorking(d))
  }

  /** `childrenDevice.some(child => watchStationNos.includes(child.code))` */
  predicate HasWatchedChild(d: Device, watched: seq<string>) {
    exists j :: 0 <= j < |d.children| && d.children[j].code in watched
  }

  /** `child.code || `${deviceCode}_child_${index}`` */
  function ChildKey(parentCode: string, child: Device, index: nat): string {
    OrElse(child.code, parentCode + "_child_" + NatToString(index))
  }

  /** The entry the parent records for its child at `index`. */
  function ChildClaim(parentCode: string, parent: Device, index: nat): Claim
    requires index < |parent.children|
  {
    var child := parent.children[index];
    var parentLabel := OrElse(parent.name, parentCode);
    Claim(ChildKey(parentCode, child, index),
          TrayInfo(child.palletCode, OrElse(child.name, parentLabel),
                   parentLabel + "-位置" + NatToString(index + 1)))
  }

  /** The entries recorded for the first `n` children, in order (no `workStatus` test). */
  function ChildClaims(parentCode: string, parent: Device, n: nat): seq<Claim>
    requires n <= |parent.children|
  {
    if n == 0 then []
    else ChildClaims(parentCode, parent, n - 1) +
         (if ValidPallet(parent.children[n - 1].palletCode) then [ChildClaim(parentCode, parent, n - 1)] else [])
  }

  /** The entries one registry record contributes to the tray map, in the order they are set. */
  function DeviceClaims(code: string, d: Device, watched: seq<string>): seq<Claim> {
    if |d.children| > 0 then
      if HasWatchedChild(d, watched) then [] else ChildClaims(code, d, |d.children|)
    else if IncludesPlain(code, d) then
      [Claim(code, TrayInfo(d.palletCode, OrElse(d.name, code), OrElse(d.name, code)))]
    else []
  }

  function ClaimKeys(cs: seq<Claim>): set<string> {
    set c | c in cs :: c.key
  }

  /** Applies the `set` calls in order. */
  function PutAll(m: OMap<TrayInfo>, cs: seq<Claim>): OMap<TrayInfo> {
    if cs == [] then m
    else PutAll(m, cs[..|cs| - 1]).Put(cs[|cs| - 1].key, cs[|cs| - 1].info)
  }

  ghost predicate Registered(devices: map<string, Device>, order: seq<string>) {
    forall i :: 0 <= i < |order| ==> order[i] in devices
  }

  /** The tray map built from the registry records in iteration order. */
  function TrayMapOf(devices: map<string, Device>, order: seq<string>, watched: seq<string>): OMap<TrayInfo>
    requires Registered(devices, order)
  {
    if order == [] then Empty()
    else
      var code := order[|order| - 1];
      PutAll(TrayMapOf(devices, order[..|order| - 1], watched), DeviceClaims(code, devices[code], watched))
  }

  /** `operationMode` after the scan: each non-empty mode overwrites the previous value. */
  function ModeOf(devices: map<string, Device>, order: seq<string>, initial: string): string
    requires Registered(devices, order)
  {
    if order == [] then initial
    else
      var prior := ModeOf(devices, order[..|order| - 1], initial);
      OrElse(devices[order[|order| - 1]].operationMode, prior)
  }

  /** The `updateDeviceTrayMap` loop over `Object.entries(devices)`. */
  method UpdateDeviceTrayMap(devices: OMap<Device>, watched: seq<string>, currentMode: string)
    returns (trayMap: OMap<TrayInfo>, operationMode: string)
    requires devices.Valid()
    ensures Registered(devices.vals, devices.keys)
    ensures trayMap == TrayMapOf(devices.vals, devices.keys, watched)
    ensures operationMode == ModeOf(devices.vals, devices.keys, currentMode)
  {
    trayMap := Empty();
    operationMode := currentMode;
    var i := 0;
    while i < |devices.keys|
      invariant 0 <= i <= |devices.keys|
      invariant trayMap == TrayMapOf(devices.vals, devices.keys[..i], watched)
      invariant operationMode == ModeOf(devices.vals, devices.keys[..i], currentMode)
    {
      var deviceCode := devices.keys[i];
      var device := devices.vals[deviceCode];
      ScanStep(devices.vals, devices.keys, i, watched, currentMode);
      if device.operationMode != "" {
        operationMode := device.operationMode;
      }
      if |device.children| > 0 {
        if !HasWatchedChild(device, watched) {
          trayMap := RecordChildren(trayMap, deviceCode, device);
        }
      } else if IncludesPlain(deviceCode, device) {
        var shown := OrElse(device.name, deviceCode);
        PutOne(trayMap, Claim(deviceCode, TrayInfo(device.palletCode, shown, shown)));
        trayMap := trayMap.Put(deviceCode, TrayInfo(device.palletCode, shown, shown));
      }
      i := i + 1;
    }
    assert devices.keys[..i] == devices.keys;
  }

  /** The `childrenDevice.forEach` loop of a parent none of whose children is watched. */
  method RecordChildren(m: OMap<TrayInfo>, deviceCode: string, device: Device) returns (trayMap: OMap<TrayInfo>)
    ensures trayMap == PutAll(m, ChildClaims(deviceCode, device, |device.children|))
  {
    trayMap := m;
    var j := 0;
    while j < |device.children|
      invariant 0 <= j <= |device.children|
      invariant trayMap == PutAll(m, ChildClaims(deviceCode, device, j))
    {
      var child := device.children[j];
      ghost var done := ChildClaims(deviceCode, device, j);
      if ValidPallet(child.palletCode) {
        var c := ChildClaim(deviceCode, device, j);
        assert (done + [c])[..|done|] == done;
        trayMap := trayMap.Put(c.key, c.info);
      } else {
        assert done + [] == done;
      }
      j := j + 1;
    }
  }

  lemma PutOne(m: OMap<TrayInfo>, c: Claim)
    ensures PutAll(m, [c]) == m.Put(c.key, c.info)
  {
    assert [c][..0] == [];
  }

  lemma ScanStep(devices: map<string, Device>, order: seq<string>, i: nat, watched: seq<string>, initial: string)
    requires Registered(devices, order) && i < |order|
    ensures Registered(devices, order[..i]) && Registered(devices, order[..i + 1])
    ensures TrayMapOf(devices, order[..i + 1], watched) ==
              PutAll(TrayMapOf(devices, order[..i], watched), DeviceClaims(order[i], devices[order[i]], watched))
    ensures ModeOf(devices, order[..i + 1], initial) ==
              OrElse(devices[order[i]].operationMode, ModeOf(devices, order[..i], initial))
  {
    assert order[..i + 1][..i] == order[..i];
  }

  lemma {:induction false} ChildClaimsShape(parentCode: string, parent: Device, n: nat)
    requires n <= |parent.children|
    ensures forall c :: c in ChildClaims(parentCode, parent, n) ==>
              exists j :: 0 <= j < n && ValidPallet(parent.children[j].palletCode) && c == ChildClaim(parentCode, parent, j)
    ensures forall j :: 0 <= j < n && ValidPallet(parent.children[j].palletCode) ==>
              ChildClaim(parentCode, parent, j) in ChildClaims(parentCode, parent, n)
  {
    if n > 0 {
      ChildClaimsShape(parentCode, parent, n - 1);
    }
  }

  /** Every tray a device contributes is a valid pallet code. */
  lemma {:induction false} DeviceClaimsValid(code: string, d: Device, watched: seq<string>)
    ensures forall c :: c in DeviceClaims(code, d, watched) ==> ValidPallet(c.info.trayCode)
  {
    if |d.children| > 0 && !HasWatchedChild(d, watched) {
      ChildClaimsShape(code, d, |d.children|);
    }
  }

  /** A device without children: it claims exactly its own code, and only when its pallet
      code is valid and it is a `Tran` station or has a non-null, non-zero work status. */
  lemma PlainDeviceClaims(code: string, d: Device, watched: seq<string>)
    requires |d.children| == 0
    ensures ClaimKeys(DeviceClaims(code, d, watched)) <= {code}
    ensures code in ClaimKeys(DeviceClaims(code, d, watched)) <==>
              ValidPallet(d.palletCode) && (StartsWith(code, "Tran") || (d.workStatus.Some? && d.workStatus.value != 0))
  {
    if IncludesPlain(code, d) {
      assert DeviceClaims(code, d, watched)[0].key == code;
    }
  }

  /** A device with children: nothing when one of the children is watched on its own;
      otherwise one entry per child with a valid pallet code, whatever its work status,
      keyed by the child's code or by `<parent>_child_<index>`. */
  lemma ParentDeviceClaims(code: string, d: Device, watched: seq<string>)
    requires |d.children| > 0
    ensures HasWatchedChild(d, watched) ==> DeviceClaims(code, d, watched) == []
    ensures !HasWatchedChild(d, watched) ==>
              forall j :: 0 <= j < |d.children| ==>
                (ChildClaim(code, d, j) in DeviceClaims(code, d, watched) <==> ValidPallet(d.children[j].palletCode))
    ensures !HasWatchedChild(d, watched) ==>
              forall c :: c in DeviceClaims(code, d, watched) ==>
                exists j :: 0 <= j < |d.children| && ValidPallet(d.children[j].palletCode) && c == ChildClaim(code, d, j)
  {
    ChildClaimsShape(code, d, |d.children|);
    DeviceClaimsValid(code, d, watched);
  }

  lemma {:induction false} PutAllValid(m: OMap<TrayInfo>, cs: seq<Claim>)
    requires m.Valid()
    ensures PutAll(m, cs).Valid()
  {
    if cs != [] {
      PutAllValid(m, cs[..|cs| - 1]);
    }
  }

  lemma {:induction false} PutAllKey(m: OMap<TrayInfo>, cs: seq<Claim>, k: string)
    ensures k in PutAll(m, cs).vals <==> k in m.vals || k in ClaimKeys(cs)
  {
    if cs != [] {
      var init := cs[..|cs| - 1];
      PutAllKey(m, init, k);
      assert cs == init + [cs[|cs| - 1]];
      assert ClaimKeys(cs) == ClaimKeys(init) + {cs[|cs| - 1].key};
    }
  }

  lemma {:induction false} PutAllValue(m: OMap<TrayInfo>, cs: seq<Claim>, k: string)
    requires k in PutAll(m, cs).vals
    ensures (k in m.vals && PutAll(m, cs).vals[k] == m.vals[k]) || Claim(k, PutAll(m, cs).vals[k]) in cs
  {
    if cs != [] {
      var init := cs[..|cs| - 1];
      var last := cs[|cs| - 1];
      if k != last.key {
        PutAllValue(m, init, k);
        assert cs == init + [last];
      }
    }
  }

  /** Which codes the registry claims: some record in iteration order contributes the key. */
  ghost predicate ClaimedBy(devices: map<string, Device>, code: string, watched: seq<string>, k: string)
    requires code in devices
  {
    k in ClaimKeys(DeviceClaims(code, devices[code], watched))
  }

  lemma {:induction false} TrayMapValid(devices: map<string, Device>, order: seq<string>, watched: seq<string>)
    requires Registered(devices, order)
    ensures TrayMapOf(devices, order, watched).Valid()
  {
    if order != [] {
      var code := order[|order| - 1];
      TrayMapValid(devices, order[..|order| - 1], watched);
      PutAllValid(TrayMapOf(devices, order[..|order| - 1], watched), DeviceClaims(code, devices[code], watched));
    }
  }

  /** The tray map has an entry for a key exactly when some registry record claims it. */
  lemma TrayMapKeys(devices: map<string, Device>, order: seq<string>, watched: seq<string>)
    requires Registered(devices, order)
    ensures forall k :: k in TrayMapOf(devices, order, watched).vals <==>
              exists i :: 0 <= i < |order| && ClaimedBy(devices, order[i], watched, k)
  {
    forall k | k in TrayMapOf(devices, order, watched).vals
      ensures exists i :: 0 <= i < |order| && ClaimedBy(devices, order[i], watched, k)
    {
      var i := TrayMapKeyClaimant(devices, order, watched, k);
    }
    forall k, i | 0 <= i < |order| && ClaimedBy(devices, order[i], watched, k)
      ensures k in TrayMapOf(devices, order, watched).vals
    {
      TrayMapKeyClaimed(devices, order, watched, k, i);
    }
  }

  lemma {:induction false} TrayMapKeyClaimant(devices: map<string, Device>, order: seq<string>, watched: seq<string>, k: string)
    returns (i: nat)
    requires Registered(devices, order)
    requires k in TrayMapOf(devices, order, watched).vals
    ensures i < |order| && ClaimedBy(devices, order[i], watched, k)
  {
    var n := |order| - 1;
    var prev := TrayMapOf(devices, order[..n], watched);
    PutAllKey(prev, DeviceClaims(order[n], devices[order[n]], watched), k);
    if k in prev.vals {
      i := TrayMapKeyClaimant(devices, order[..n], watched, k);
      assert order[..n][i] == order[i];
    } else {
      i := n;
    }
  }

  lemma {:induction false} TrayMapKeyClaimed(devices: map<string, Device>, order: seq<string>, watched: seq<string>, k: string, i: nat)
    requires Registered(devices, order)
    requires i < |order| && ClaimedBy(devices, order[i], watched, k)
    ensures k in TrayMapOf(devices, order, watched).vals
  {
    var n := |order| - 1;
    var prev := TrayMapOf(devices, order[..n], watched);
    PutAllKey(prev, DeviceClaims(order[n], devices[order[n]], watched), k);
    if i < n {
      assert order[..n][i] == order[i];
      TrayMapKeyClaimed(devices, order[..n], watched, k, i);
    }
  }

  /** Every value in the tray map is the claim of some registry record, so every tray code
      in it is a valid pallet code. */
  lemma {:induction false} TrayMapValues(devices: map<string, Device>, order: seq<string>, watched: seq<string>)
    requires Registered(devices, order)
    ensures forall k :: k in TrayMapOf(devices, order, watched).vals ==>
              exists i :: 0 <= i < |order| &&
                Claim(k, TrayMapOf(devices, order, watched).vals[k]) in DeviceClaims(order[i], devices[order[i]], watched)
    ensures forall k :: k in TrayMapOf(devices, order, watched).vals ==>
              ValidPallet(TrayMapOf(devices, order, watched).vals[k].trayCode)
  {
    if order != [] {
      var init := order[..|order| - 1];
      var code := order[|order| - 1];
      TrayMapValues(devices, init, watched);
      var prev := TrayMapOf(devices, init, watched);
      var cs := DeviceClaims(code, devices[code], watched);
      DeviceClaimsValid(code, devices[code], watched);
      var r := TrayMapOf(devices, order, watched);
      forall k | k in r.vals
        ensures exists i :: 0 <= i < |order| && Claim(k, r.vals[k]) in DeviceClaims(order[i], devices[order[i]], watched)
        ensures ValidPallet(r.vals[k].trayCode)
      {
        PutAllValue(prev, cs, k);
        if k in prev.vals && r.vals[k] == prev.vals[k] {
          var i :| 0 <= i < |init| && Claim(k, prev.vals[k]) in DeviceClaims(init[i], devices[init[i]], watched);
          assert init[i] == order[i];
        } else {
          assert Claim(k, r.vals[k]) in cs;
        }
      }
    }
  }

  /** A station or device without children whose code no other record claims: it is in
      the tray map exactly when its own record qualifies, and then with its own pallet. */
  lemma PlainDeviceInTrayMap(devices: map<string, Device>, order: seq<string>, watched: seq<string>, i: nat)
    requires Registered(devices, order)
    requires i < |order| && |devices[order[i]].children| == 0
    requires forall j :: 0 <= j < |order| && order[j] != order[i] ==> !ClaimedBy(devices, order[j], watched, order[i])
    ensures order[i] in TrayMapOf(devices, order, watched).vals <==> IncludesPlain(order[i], devices[order[i]])
    ensures order[i] in TrayMapOf(devices, order, watched).vals ==>
              TrayMapOf(devices, order, watched).vals[order[i]].trayCode == devices[order[i]].palletCode
  {
    var code := order[i];
    var d := devices[code];
    var r := TrayMapOf(devices, order, watched);
    TrayMapKeys(devices, order, watched);
    TrayMapValues(devices, order, watched);
    PlainDeviceClaims(code, d, watched);
    if code in r.vals {
      var i' :| 0 <= i' < |order| && Claim(code, r.vals[code]) in DeviceClaims(order[i'], devices[order[i']], watched);
      assert Claim(code, r.vals[code]).key == code;
      assert ClaimedBy(devices, order[i'], watched, code);
      assert order[i'] == code;
    } else {
      assert !ClaimedBy(devices, order[i], watched, code);
    }
  }

  /** `operationMode` is last-non-empty-wins over the iteration order, and keeps its prior
      value when no record carries one. */
  lemma {:induction false} ModeLastWriteWins(devices: map<string, Device>, order: seq<string>, initial: string)
    requires Registered(devices, order)
    ensures (forall i :: 0 <= i < |order| ==> devices[order[i]].operationMode == "") ==>
              ModeOf(devices, order, initial) == initial
    ensures (exists i :: 0 <= i < |order| && devices[order[i]].operationMode != "") ==>
              exists i :: 0 <= i < |order| && devices[order[i]].operationMode == ModeOf(devices, order, initial) != "" &&
                forall j :: i < j < |order| ==> devices[order[j]].operationMode == ""
  {
    if order != [] {
      var n := |order| - 1;
      var init := order[..n];
      ModeLastWriteWins(devices, init, initial);
      if devices[order[n]].operationMode == "" {
        if exists i :: 0 <= i < |order| && devices[order[i]].operationMode != "" {
          var i :| 0 <= i < |order| && devices[order[i]].operationMode != "";
          assert i < n && init[i] == order[i];
          var w :| 0 <= w < |init| && devices[init[w]].operationMode == ModeOf(devices, init, initial) != "" &&
                   forall j :: w < j < |init| ==> devices[init[j]].operationMode == "";
          assert init[w] == order[w];
          assert forall j :: w < j < |order| ==> devices[order[j]].operationMode == "" by {
            forall j | w < j < |order| ensures devices[order[j]].operationMode == "" {
              if j < n { assert init[j] == order[j]; }
            }
          }
        } else {
          forall i | 0 <= i < |init| ensures devices[init[i]].operationMode == "" {
            assert init[i] == order[i];
          }
        }
      }
    }
  }
}
