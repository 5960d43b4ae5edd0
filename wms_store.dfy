/** The single-station WMS store: the device registry, the derived tray map and containers,
    and the local station's container and goods (src/renderer/src/stores/wms.ts,
    electron/src/renderer/src/stores/wms.ts). */
module WmsStore {
  import opened Text
  import opened OrderedMaps
  import opened Devices
  import opened Containers
  import opened Station

  /** Devices whose own records are polled at start-up. */
  const WatchDeviceCodes: seq<string> := ["Crn2002", "TranLine3000"]

  /** Devices whose updates are always accepted into the registry. */
  const CoordinateDevices: seq<string> := ["Crn2001", "Crn2002", "RGV01"]

  /** The part of the store the registry operations change: the registry itself, the
      watched station list and the displayed station name. */
  datatype Registry = Registry(devices: OMap<Device>, watched: seq<string>, stationName: string)

  /** The registry holds exactly the watched codes. Seeding and updates keep this. */
  ghost predicate Enlisted(r: Registry) {
    r.devices.Valid() && forall k :: k in r.devices.vals <==> k in r.watched
  }

  // ---------------------------------------------------------------------------------------
  // initGetDeviceInfo: seeding the registry from the start-up poll

  /** The devices polled at start-up: `[...new Set([...watchDeviceCodes, ...coordinateDevices])]`. */
  function PolledDevices(): (r: seq<string>)
    ensures forall x :: x in r <==> x in WatchDeviceCodes || x in CoordinateDevices
    ensures NoDup(r)
  {
    DedupMembers(WatchDeviceCodes + CoordinateDevices);
    Dedup(WatchDeviceCodes + CoordinateDevices)
  }

  /** One device record is registered and watched under its own code. */
  function Enlist(r: Registry, d: Device, localStationNo: string): Registry {
    Registry(r.devices.Put(d.code, d), r.watched + [d.code],
             if d.code == localStationNo then OrElse(d.name, d.code) else r.stationName)
  }

  /** The first `n` children enlisted in order. */
  function EnlistAll(r: Registry, ds: seq<Device>, n: nat, localStationNo: string): Registry
    requires n <= |ds|
  {
    if n == 0 then r else Enlist(EnlistAll(r, ds, n - 1, localStationNo), ds[n - 1], localStationNo)
  }

  /** One poll answer: a failed poll (`None`) changes nothing; a parent enlists its children
      instead of itself. */
  function SeedOne(r: Registry, answer: Option<Device>, localStationNo: string): Registry {
    match answer
    case None => r
    case Some(d) =>
      if |d.children| > 0 then EnlistAll(r, d.children, |d.children|, localStationNo)
      else Enlist(r, d, localStationNo)
  }

  /** The poll answers applied in order. */
  function Seed(r: Registry, answers: seq<Option<Device>>, localStationNo: string): Registry {
    if answers == [] then r
    else SeedOne(Seed(r, answers[..|answers| - 1], localStationNo), answers[|answers| - 1], localStationNo)
  }

  lemma {:induction false} SeedAppend(r: Registry, a: seq<Option<Device>>, b: seq<Option<Device>>, localStationNo: string)
    ensures Seed(r, a + b, localStationNo) == Seed(Seed(r, a, localStationNo), b, localStationNo)
  {
    if b != [] {
      var init := b[..|b| - 1];
      SeedAppend(r, a, init, localStationNo);
      assert (a + b)[..|a + b| - 1] == a + init;
    } else {
      assert a + b == a;
    }
  }

  /** A device whose poll fails is skipped and the others are still registered. */
  lemma SeedSkipsFailures(r: Registry, a: seq<Option<Device>>, b: seq<Option<Device>>, localStationNo: string)
    ensures Seed(r, a + [None] + b, localStationNo) == Seed(r, a + b, localStationNo)
  {
    SeedAppend(r, a + [None], b, localStationNo);
    SeedAppend(r, a, b, localStationNo);
    assert (a + [None])[..|a|] == a;
  }

  lemma EnlistEnlisted(r: Registry, d: Device, localStationNo: string)
    requires Enlisted(r)
    ensures Enlisted(Enlist(r, d, localStationNo))
  {
  }

  lemma {:induction false} EnlistAllEnlisted(r: Registry, ds: seq<Device>, n: nat, localStationNo: string)
    requires n <= |ds| && Enlisted(r)
    ensures Enlisted(EnlistAll(r, ds, n, localStationNo))
  {
    if n > 0 {
      EnlistAllEnlisted(r, ds, n - 1, localStationNo);
      EnlistEnlisted(EnlistAll(r, ds, n - 1, localStationNo), ds[n - 1], localStationNo);
    }
  }

  /** Seeding keeps the registry and the watched list in step: every registered code is
      watched and every watched code is registered. */
  lemma {:induction false} SeedEnlisted(r: Registry, answers: seq<Option<Device>>, localStationNo: string)
    requires Enlisted(r)
    ensures Enlisted(Seed(r, answers, localStationNo))
  {
    if answers != [] {
      var prev := Seed(r, answers[..|answers| - 1], localStationNo);
      SeedEnlisted(r, answers[..|answers| - 1], localStationNo);
      match answers[|answers| - 1]
      case None =>
      case Some(d) =>
        if |d.children| > 0 {
          EnlistAllEnlisted(prev, d.children, |d.children|, localStationNo);
        }
    }
  }

  // ---------------------------------------------------------------------------------------
  // updateDevice: admitting a pushed device record

  /** `watchStationNos.includes(deviceNo) || coordinateDevices.includes(deviceNo)` */
  predicate Admitted(r: Registry, deviceNo: string) {
    deviceNo in r.watched || deviceNo in CoordinateDevices
  }

  /** The record itself, when it is admitted. */
  function AdmitRecord(r: Registry, deviceNo: string, newInfo: Device, localStationNo: string): Registry {
    if Admitted(r, deviceNo) then
      r.(devices := r.devices.Put(deviceNo, newInfo),
         stationName := if deviceNo == localStationNo then OrElse(newInfo.name, OrElse(newInfo.code, deviceNo)) else r.stationName)
    else r
  }

  /** The first `n` children, each registered under its own code when that code is watched. */
  function AdmitChildren(r: Registry, children: seq<Device>, n: nat, localStationNo: string): Registry
    requires n <= |children|
  {
    if n == 0 then r
    else
      var prev := AdmitChildren(r, children, n - 1, localStationNo);
      var c := children[n - 1];
      if c.code in prev.watched then
        prev.(devices := prev.devices.Put(c.code, c),
              stationName := if c.code == localStationNo then OrElse(c.name, c.code) else prev.stationName)
      else prev
  }

  /** A coordinate device not yet watched starts being watched. */
  function WatchAfter(watched: seq<string>, deviceNo: string): seq<string> {
    if deviceNo !in watched && deviceNo in CoordinateDevices then watched + [deviceNo] else watched
  }

  /** The registry part of `updateDevice(deviceNo, newInfo)`. */
  function Admit(r: Registry, deviceNo: string, newInfo: Device, localStationNo: string): Registry {
    var a := AdmitChildren(AdmitRecord(r, deviceNo, newInfo, localStationNo), newInfo.children, |newInfo.children|, localStationNo);
    a.(watched := WatchAfter(a.watched, deviceNo))
  }

  lemma {:induction false} AdmitChildrenShape(r: Registry, children: seq<Device>, n: nat, localStationNo: string, k: string)
    requires n <= |children|
    ensures AdmitChildren(r, children, n, localStationNo).watched == r.watched
    ensures r.devices.Valid() ==> AdmitChildren(r, children, n, localStationNo).devices.Valid()
    ensures k in AdmitChildren(r, children, n, localStationNo).devices.vals <==>
              k in r.devices.vals || (k in r.watched && exists j :: 0 <= j < n && children[j].code == k)
    ensures var a := AdmitChildren(r, children, n, localStationNo);
            k in a.devices.vals && (k !in r.devices.vals || a.devices.vals[k] != r.devices.vals[k]) ==>
              k in r.watched && exists j :: 0 <= j < n && children[j] == a.devices.vals[k] && children[j].code == k
  {
    if n > 0 {
      AdmitChildrenShape(r, children, n - 1, localStationNo, k);
    }
  }

  /** `updateDevice` only ever writes an admitted record under its own code, or a watched
      child under the child's code; nothing else in the registry changes. */
  lemma AdmitOnlyWatchedOrCoordinate(r: Registry, deviceNo: string, newInfo: Device, localStationNo: string, k: string)
    ensures var a := Admit(r, deviceNo, newInfo, localStationNo);
            k in a.devices.vals && (k !in r.devices.vals || a.devices.vals[k] != r.devices.vals[k]) ==>
              (k == deviceNo && Admitted(r, deviceNo) && a.devices.vals[k] == newInfo) ||
              (k in r.watched &&
                 exists j :: 0 <= j < |newInfo.children| &&
                   newInfo.children[j] == a.devices.vals[k] && newInfo.children[j].code == k)
  {
    var r1 := AdmitRecord(r, deviceNo, newInfo, localStationNo);
    AdmitChildrenShape(r1, newInfo.children, |newInfo.children|, localStationNo, k);
  }

  /** An admitted record is stored when none of its children carries its code. */
  lemma AdmitStoresRecord(r: Registry, deviceNo: string, newInfo: Device, localStationNo: string)
    requires Admitted(r, deviceNo)
    requires forall j :: 0 <= j < |newInfo.children| ==> newInfo.children[j].code != deviceNo
    ensures deviceNo in Admit(r, deviceNo, newInfo, localStationNo).devices.vals
    ensures Admit(r, deviceNo, newInfo, localStationNo).devices.vals[deviceNo] == newInfo
  {
    var r1 := AdmitRecord(r, deviceNo, newInfo, localStationNo);
    AdmitChildrenShape(r1, newInfo.children, |newInfo.children|, localStationNo, deviceNo);
  }

  /** Updates keep the registry and the watched list in step, and never watch a code twice. */
  lemma AdmitEnlisted(r: Registry, deviceNo: string, newInfo: Device, localStationNo: string)
    requires Enlisted(r)
    ensures Enlisted(Admit(r, deviceNo, newInfo, localStationNo))
    ensures var w := Admit(r, deviceNo, newInfo, localStationNo).watched;
            w == r.watched || (w == r.watched + [deviceNo] && deviceNo !in r.watched && deviceNo in CoordinateDevices)
  {
    var r1 := AdmitRecord(r, deviceNo, newInfo, localStationNo);
    var a := Admit(r, deviceNo, newInfo, localStationNo);
    forall k ensures k in a.devices.vals <==> k in a.watched {
      AdmitChildrenShape(r1, newInfo.children, |newInfo.children|, localStationNo, k);
    }
    AdmitChildrenShape(r1, newInfo.children, |newInfo.children|, localStationNo, deviceNo);
  }

  lemma {:induction false} AdmitChildrenName(r: Registry, children: seq<Device>, n: nat, localStationNo: string)
    requires n <= |children|
    requires forall j :: 0 <= j < n ==> children[j].code != localStationNo
    ensures AdmitChildren(r, children, n, localStationNo).stationName == r.stationName
  {
    if n > 0 {
      AdmitChildrenName(r, children, n - 1, localStationNo);
    }
  }

  /** The station name only changes when the update carries the local station's record. */
  lemma AdmitKeepsName(r: Registry, deviceNo: string, newInfo: Device, localStationNo: string)
    requires deviceNo != localStationNo
    requires forall j :: 0 <= j < |newInfo.children| ==> newInfo.children[j].code != localStationNo
    ensures Admit(r, deviceNo, newInfo, localStationNo).stationName == r.stationName
  {
    AdmitChildrenName(AdmitRecord(r, deviceNo, newInfo, localStationNo), newInfo.children, |newInfo.children|, localStationNo);
  }

  // ---------------------------------------------------------------------------------------
  // The store

  /** The tray code the tray map holds for `stationNo`, if any. */
  function TrayOf(trayMap: OMap<TrayInfo>, stationNo: string): Option<string> {
    if stationNo in trayMap.vals then Some(trayMap.vals[stationNo].trayCode) else None
  }

  /** The store fields `handleInfo` reads or writes. */
  datatype Snapshot = Snapshot(
    devices: OMap<Device>,
    watched: seq<string>,
    localStationNo: string,
    containers: seq<Container>,
    deviceTrayMap: OMap<TrayInfo>,
    operationMode: string,
    view: LocalView)

  /** `handleInfo` has run on `st`, starting from the view `before` and the mode
      `modeBefore`, the goods fetch (if any) answering `o`: an empty registry clears the
      derived state and the station; otherwise the tray map, the mode and the containers
      are derived from the registry and the local station is re-checked. */
  ghost predicate HandledFrom(st: Snapshot, before: LocalView, modeBefore: string, o: FetchOutcome) {
    if |st.devices.keys| == 0 then
      st.containers == [] && st.deviceTrayMap == Empty() && st.operationMode == modeBefore &&
      st.view == Vacated(before)
    else
      Registered(st.devices.vals, st.devices.keys) &&
      st.deviceTrayMap == TrayMapOf(st.devices.vals, st.devices.keys, st.watched) &&
      st.operationMode == ModeOf(st.devices.vals, st.devices.keys, modeBefore) &&
      st.deviceTrayMap.Valid() && ResolvedFrom(st.containers, st.deviceTrayMap, st.localStationNo) &&
      st.view == AfterCheck(before, TrayOf(st.deviceTrayMap, st.localStationNo), o)
  }

  class WMSStore {
    var localStationNo: string
    var stationName: string
    var devices: OMap<Device>
    var containers: seq<Container>
    var currentContainer: string
    var localGoods: seq<Goods>
    var errorMessage: string
    var operationMode: string
    var deviceTrayMap: OMap<TrayInfo>
    var watchStationNos: seq<string>

    ghost predicate Valid()
      reads this
    {
      Enlisted(RegistryOf()) && deviceTrayMap.Valid()
    }

    function RegistryOf(): Registry
      reads this
    {
      Registry(devices, watchStationNos, stationName)
    }

    function View(): LocalView
      reads this
    {
      LocalView(currentContainer, localGoods, errorMessage)
    }

    /** `deviceTrayMap.get(localStationNo)?.trayCode` */
    function LocalTray(): Option<string>
      reads this
    {
      TrayOf(deviceTrayMap, localStationNo)
    }

    /** The fields `handleInfo` reads or writes. */
    function Fields(): Snapshot
      reads this
    {
      Snapshot(devices, watchStationNos, localStationNo, containers, deviceTrayMap, operationMode, View())
    }

    /** What `handleInfo` leaves behind, given the view and operation mode it started from
        and the answer of the goods fetch it may make. */
    ghost predicate Handled(before: LocalView, modeBefore: string, o: FetchOutcome)
      reads this
    {
      HandledFrom(Fields(), before, modeBefore, o)
    }

    constructor()
      ensures Valid()
      ensures localStationNo == "Tran3001" && stationName == "未知站台" && operationMode == "InOut"
      ensures devices == Empty() && watchStationNos == [] && deviceTrayMap == Empty() && containers == []
      ensures View() == LocalView("", [], "")
    {
      localStationNo := "Tran3001";
      stationName := "未知站台";
      devices := Empty();
      containers := [];
      currentContainer := "";
      localGoods := [];
      errorMessage := "";
      operationMode := "InOut";
      deviceTrayMap := Empty();
      watchStationNos := [];
    }

    /** The name comes from the registry record when there is one, else the code itself. */
    method SetLocalStationNo(stationNo: string)
      requires Valid()
      modifies this`localStationNo, this`stationName
      ensures Valid()
      ensures localStationNo == stationNo
      ensures stationNo in devices.vals ==>
                stationName == OrElse(devices.vals[stationNo].name, OrElse(devices.vals[stationNo].code, stationNo))
      ensures stationNo !in devices.vals ==> stationName == stationNo
    {
      localStationNo := stationNo;
      if stationNo in devices.vals {
        var device := devices.vals[stationNo];
        stationName := OrElse(device.name, OrElse(device.code, stationNo));
      } else {
        stationName := stationNo;
      }
    }

    /** `getGoods(containerNo)`; the request answers `o`. */
    method GetGoods(containerNo: string, o: FetchOutcome)
      modifies this`currentContainer, this`localGoods, this`errorMessage
      ensures View() == GoodsLoaded(old(View()), containerNo, o)
    {
      if containerNo == "" || containerNo == "0" {
        localGoods := [];
        currentContainer := "";
        return;
      }
      currentContainer := containerNo;
      match o
      case Response(errCode, errMsg, data) =>
        if errCode == 0 {
          localGoods := if data.Some? then data.value else [];
          errorMessage := "";
        } else {
          errorMessage := OrElse(errMsg, UnknownError);
          localGoods := [];
        }
      case TransportError(message) =>
        errorMessage := OrElse(message, RequestFailed);
        localGoods := [];
    }

    /** `checkCurrentStationTray()`; a fetch, if made, answers `o`. */
    method CheckCurrentStationTray(o: FetchOutcome)
      modifies this`currentContainer, this`localGoods, this`errorMessage
      ensures View() == AfterCheck(old(View()), LocalTray(), o)
    {
      if localStationNo in deviceTrayMap.vals {
        var currentStationTray := deviceTrayMap.vals[localStationNo];
        if currentStationTray.trayCode != currentContainer {
          GetGoods(currentStationTray.trayCode, o);
        }
      } else if currentContainer != "" {
        currentContainer := "";
        localGoods := [];
      }
    }

    /** `handleInfo()`: rebuild the tray map and the containers from the registry, then
        re-check the local station. An empty registry clears everything instead. */
    method HandleInfo(o: FetchOutcome)
      requires Valid()
      modifies this`containers, this`currentContainer, this`localGoods, this`errorMessage,
               this`operationMode, this`deviceTrayMap
      ensures Valid()
      ensures Handled(old(View()), old(operationMode), o)
    {
      if |devices.keys| == 0 {
        containers := [];
        currentContainer := "";
        localGoods := [];
        deviceTrayMap := Empty();
        return;
      }
      Rebuild();
      CheckCurrentStationTray(o);
    }

    /** The non-empty branch of `handleInfo` up to the re-check: the tray map, the
        operation mode and the containers derived from the registry. */
    method Rebuild()
      requires Valid() && |devices.keys| > 0
      modifies this`containers, this`operationMode, this`deviceTrayMap
      ensures Valid()
      ensures Registered(devices.vals, devices.keys)
      ensures deviceTrayMap == TrayMapOf(devices.vals, devices.keys, watchStationNos)
      ensures operationMode == ModeOf(devices.vals, devices.keys, old(operationMode))
      ensures ResolvedFrom(containers, deviceTrayMap, localStationNo)
    {
      var trayMap, mode := UpdateDeviceTrayMap(devices, watchStationNos, operationMode);
      TrayMapValid(devices.vals, devices.keys, watchStationNos);
      var owners := ResolveContainers(trayMap, localStationNo);
      ContainersResolved(owners, trayMap, localStationNo);
      containers := ToContainers(owners);
      operationMode := mode;
      deviceTrayMap := trayMap;
    }

    /** `initGetDeviceInfo()`: answer `i` is the record that the poll of `PolledDevices()[i]`
        returned (`None` when it failed); then `handleInfo`. A record is registered under its
        own code, as in the source, not under the code that was polled. */
    method SeedDevices(answers: seq<Option<Device>>, o: FetchOutcome)
      requires |answers| == |PolledDevices()|
      requires Valid()
      modifies this
      ensures Valid()
      ensures localStationNo == old(localStationNo)
      ensures RegistryOf() == Seed(old(RegistryOf()), answers, localStationNo)
      ensures Handled(old(View()), old(operationMode), o)
    {
      SeedRegistry(answers);
      SeedEnlisted(old(RegistryOf()), answers, localStationNo);
      HandleInfo(o);
    }

    /** The polling loop of `initGetDeviceInfo`. */
    method SeedRegistry(answers: seq<Option<Device>>)
      modifies this`devices, this`watchStationNos, this`stationName
      ensures RegistryOf() == Seed(old(RegistryOf()), answers, localStationNo)
    {
      var i := 0;
      while i < |answers|
        invariant 0 <= i <= |answers|
        invariant RegistryOf() == Seed(old(RegistryOf()), answers[..i], localStationNo)
      {
        assert answers[..i + 1][..i] == answers[..i];
        match answers[i] {
          case None =>
          case Some(deviceInfo) =>
            if |deviceInfo.children| > 0 {
              EnlistChildren(deviceInfo.children);
            } else {
              watchStationNos := watchStationNos + [deviceInfo.code];
              devices := devices.Put(deviceInfo.code, deviceInfo);
              if deviceInfo.code == localStationNo {
                stationName := OrElse(deviceInfo.name, deviceInfo.code);
              }
            }
        }
        i := i + 1;
      }
      assert answers[..i] == answers;
    }

    /** `deviceInfo.childrenDevice.forEach(...)` in `initGetDeviceInfo`. */
    method EnlistChildren(children: seq<Device>)
      modifies this`devices, this`watchStationNos, this`stationName
      ensures RegistryOf() == EnlistAll(old(RegistryOf()), children, |children|, localStationNo)
    {
      var j := 0;
      while j < |children|
        invariant 0 <= j <= |children|
        invariant RegistryOf() == EnlistAll(old(RegistryOf()), children, j, localStationNo)
      {
        var item := children[j];
        watchStationNos := watchStationNos + [item.code];
        devices := devices.Put(item.code, item);
        if item.code == localStationNo {
          stationName := OrElse(item.name, item.code);
        }
        j := j + 1;
      }
    }

    /** `updateDevice(deviceNo, newInfo)`; the goods fetch, if one is made, answers `o`. */
    method UpdateDevice(deviceNo: string, newInfo: Device, o: FetchOutcome)
      requires Valid()
      modifies this`devices, this`watchStationNos, this`stationName, this`containers, this`currentContainer,
               this`localGoods, this`errorMessage, this`operationMode, this`deviceTrayMap
      ensures Valid()
      ensures RegistryOf() == Admit(old(RegistryOf()), deviceNo, newInfo, localStationNo)
      ensures Handled(old(View()), old(operationMode), o)
    {
      var shouldUpdateCurrentStation := AdmitUpdate(deviceNo, newInfo);
      AdmitEnlisted(old(RegistryOf()), deviceNo, newInfo, localStationNo);
      HandleInfo(o);
      if shouldUpdateCurrentStation || deviceNo == localStationNo {
        ghost var handled := Fields();
        SecondCheckNoOp(View(), old(View()), LocalTray(), o);
        CheckCurrentStationTray(o);
        assert Fields() == handled;
      }
    }

    /** The registry part of `updateDevice`; answers whether the local station's record
        was among those written. */
    method AdmitUpdate(deviceNo: string, newInfo: Device) returns (shouldUpdateCurrentStation: bool)
      modifies this`devices, this`watchStationNos, this`stationName
      ensures RegistryOf() == Admit(old(RegistryOf()), deviceNo, newInfo, localStationNo)
    {
      shouldUpdateCurrentStation := false;
      if deviceNo in watchStationNos || deviceNo in CoordinateDevices {
        devices := devices.Put(deviceNo, newInfo);
        if deviceNo == localStationNo {
          stationName := OrElse(newInfo.name, OrElse(newInfo.code, deviceNo));
          shouldUpdateCurrentStation := true;
        }
      }
      ghost var start := RegistryOf();
      var j := 0;
      while j < |newInfo.children|
        invariant 0 <= j <= |newInfo.children|
        invariant RegistryOf() == AdmitChildren(start, newInfo.children, j, localStationNo)
      {
        var child := newInfo.children[j];
        if child.code in watchStationNos {
          devices := devices.Put(child.code, child);
          if child.code == localStationNo {
            stationName := OrElse(child.name, child.code);
            shouldUpdateCurrentStation := true;
          }
        }
        j := j + 1;
      }
      if deviceNo !in watchStationNos && deviceNo in CoordinateDevices {
        watchStationNos := watchStationNos + [deviceNo];
      }
    }

    /** `refreshData()`: clear the error, then `handleInfo`. */
    method RefreshData(o: FetchOutcome)
      requires Valid()
      modifies this`containers, this`currentContainer, this`localGoods, this`errorMessage,
               this`operationMode, this`deviceTrayMap
      ensures Valid()
      ensures Handled(old(View()).(errorMessage := ""), old(operationMode), o)
    {
      errorMessage := "";
      HandleInfo(o);
    }
  }
}
