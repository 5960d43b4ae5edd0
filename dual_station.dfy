/** The two-station view of the store: stations Tran3002 and Tran3003 side by side, each
    showing the container on it and its goods (src/renderer/src/stores/wms.ts:93-115, 507-641).
    In the source this state lives in the same `WMSStore` object as the single-station
    state. Its operations read and write only the two stations and the shared device
    registry, apart from the HTTP interceptors' writes to the single-station `errorMessage`,
    which are not modelled; so it is its own class here. */
module DualStation {
  import opened Text
  import opened OrderedMaps
  import opened Devices
  import opened Containers
  import opened Station
  import opened WmsStore

  /** `SingleStationData` */
  datatype StationData = StationData(
    localStationNo: string,
    stationName: string,
    currentContainer: string,
    localGoods: seq<Goods>,
    isLoading: bool,
    errorMessage: string)

  /** The initial data of a station: its name is its own code. */
  function InitialStation(code: string): StationData {
    StationData(code, code, "", [], false, "")
  }

  /** `stationNo === 'Tran3002' ? 'station3002' : 'station3003'` */
  predicate IsFirstStation(stationNo: string) {
    stationNo == "Tran3002"
  }

  // ---------------------------------------------------------------------------------------
  // initDualStationDeviceInfo

  /** The devices polled: both stations, then the coordinate and watched devices, once each. */
  function DualPolledDevices(): (r: seq<string>)
    ensures forall x :: x in r <==> x in ["Tran3002", "Tran3003"] || x in CoordinateDevices || x in WatchDeviceCodes
    ensures NoDup(r)
  {
    DedupMembers(["Tran3002", "Tran3003"] + CoordinateDevices + WatchDeviceCodes);
    Dedup(["Tran3002", "Tran3003"] + CoordinateDevices + WatchDeviceCodes)
  }

  /** The first `n` children registered under their codes, in order. */
  function RegisterAll(m: OMap<Device>, ds: seq<Device>, n: nat): OMap<Device>
    requires n <= |ds|
  {
    if n == 0 then m else RegisterAll(m, ds, n - 1).Put(ds[n - 1].code, ds[n - 1])
  }

  /** One poll answer: a parent registers its children, any other device itself. */
  function RegisterAnswer(m: OMap<Device>, answer: Option<Device>): OMap<Device> {
    match answer
    case None => m
    case Some(d) => if |d.children| > 0 then RegisterAll(m, d.children, |d.children|) else m.Put(d.code, d)
  }

  function DualSeed(m: OMap<Device>, answers: seq<Option<Device>>): OMap<Device> {
    if answers == [] then m else RegisterAnswer(DualSeed(m, answers[..|answers| - 1]), answers[|answers| - 1])
  }

  /** The codes one poll answer registers. */
  function AnswerCodes(answer: Option<Device>): seq<string> {
    match answer
    case None => []
    case Some(d) =>
      if |d.children| > 0 then seq(|d.children|, j requires 0 <= j < |d.children| => d.children[j].code)
      else [d.code]
  }

  lemma {:induction false} RegisterAllKeys(m: OMap<Device>, ds: seq<Device>, n: nat, k: string)
    requires n <= |ds|
    ensures m.Valid() ==> RegisterAll(m, ds, n).Valid()
    ensures k in RegisterAll(m, ds, n).vals <==> k in m.vals || exists j :: 0 <= j < n && ds[j].code == k
  {
    if n > 0 {
      RegisterAllKeys(m, ds, n - 1, k);
    }
  }

  /** After the poll the registry holds exactly what it held before plus the codes the
      successful answers carry. */
  lemma {:induction false} DualSeedKeys(m: OMap<Device>, answers: seq<Option<Device>>, k: string)
    ensures m.Valid() ==> DualSeed(m, answers).Valid()
    ensures k in DualSeed(m, answers).vals <==>
              k in m.vals || exists i :: 0 <= i < |answers| && k in AnswerCodes(answers[i])
  {
    if answers != [] {
      var n := |answers| - 1;
      var init := answers[..n];
      DualSeedKeys(m, init, k);
      var prev := DualSeed(m, init);
      match answers[n]
      case None =>
      case Some(d) =>
        if |d.children| > 0 {
          RegisterAllKeys(prev, d.children, |d.children|, k);
          if exists j :: 0 <= j < |d.children| && d.children[j].code == k {
            var j :| 0 <= j < |d.children| && d.children[j].code == k;
            assert AnswerCodes(answers[n])[j] == k;
          }
        }
      if exists i :: 0 <= i < n && k in AnswerCodes(answers[i]) {
        var i :| 0 <= i < n && k in AnswerCodes(answers[i]);
        assert init[i] == answers[i];
      }
      if exists i :: 0 <= i < n && k in AnswerCodes(init[i]) {
        var i :| 0 <= i < n && k in AnswerCodes(init[i]);
        assert init[i] == answers[i];
      }
    }
  }

  // ---------------------------------------------------------------------------------------
  // fetchStationData

  /** The pallet the device-map scan finds for the station: the station's own record, when
      its pallet code is valid. */
  function PalletAt(devices: OMap<Device>, stationNo: string): Option<string> {
    if stationNo in devices.vals && ValidPallet(devices.vals[stationNo].palletCode) then
      Some(devices.vals[stationNo].palletCode)
    else None
  }

  /** Before the scan: loading, no error, and the device's name when it has one. */
  function Begin(s: StationData, stationNo: string, devices: OMap<Device>): StationData {
    var named := if stationNo in devices.vals && devices.vals[stationNo].name != "" then
                   s.(stationName := devices.vals[stationNo].name)
                 else s;
    named.(isLoading := true, errorMessage := "")
  }

  /** The scan found `pallet`: show it and apply the goods request's outcome. */
  function Loaded(s: StationData, pallet: string, o: FetchOutcome): StationData {
    var shown := s.(currentContainer := pallet);
    match o
    case Response(errCode, errMsg, data) =>
      if errCode == 0 then shown.(localGoods := if data.Some? then data.value else [])
      else shown.(errorMessage := OrElse(errMsg, UnknownError), localGoods := [])
    case TransportError(message) =>
      shown.(errorMessage := OrElse(message, RequestFailed), localGoods := [])
  }

  /** `fetchStationData` as written: when the scan finds no pallet, the container is only
      cleared if it was already empty, so a tray that has left stays on display. */
  function FetchStationAsWritten(s: StationData, stationNo: string, devices: OMap<Device>, o: FetchOutcome): StationData {
    var b := Begin(s, stationNo, devices);
    var l := match PalletAt(devices, stationNo)
             case Some(p) => Loaded(b, p, o)
             case None => b;
    var c := if l.currentContainer == "" then l.(currentContainer := "", localGoods := []) else l;
    c.(isLoading := false)
  }

  /** `fetchStationData` as intended: no pallet found means no container and no goods. */
  function FetchStation(s: StationData, stationNo: string, devices: OMap<Device>, o: FetchOutcome): StationData {
    var b := Begin(s, stationNo, devices);
    var l := match PalletAt(devices, stationNo)
             case Some(p) => Loaded(b, p, o)
             case None => b.(currentContainer := "", localGoods := []);
    l.(isLoading := false)
  }

  /** A station shows its own valid pallet or nothing, never another device's tray, and the
      fetch always ends with `isLoading` false. */
  lemma FetchShowsOwnPallet(s: StationData, stationNo: string, devices: OMap<Device>, o: FetchOutcome)
    ensures var r := FetchStation(s, stationNo, devices, o);
            r.currentContainer == (if PalletAt(devices, stationNo).Some? then PalletAt(devices, stationNo).value else "") &&
            !r.isLoading && r.localStationNo == s.localStationNo
    ensures var r := FetchStation(s, stationNo, devices, o);
            r.currentContainer != "" ==>
              stationNo in devices.vals && ValidPallet(r.currentContainer) && r.currentContainer == devices.vals[stationNo].palletCode
    ensures var r := FetchStation(s, stationNo, devices, o);
            PalletAt(devices, stationNo).None? ==> r.localGoods == [] && r.errorMessage == ""
  {
  }

  /** The goods shown after a fetch come from this fetch alone, never from an earlier one. */
  lemma FetchGoodsFromThisFetch(s1: StationData, s2: StationData, stationNo: string, devices: OMap<Device>, o: FetchOutcome)
    ensures FetchStation(s1, stationNo, devices, o).localGoods == FetchStation(s2, stationNo, devices, o).localGoods
    ensures FetchStation(s1, stationNo, devices, o).errorMessage == FetchStation(s2, stationNo, devices, o).errorMessage
  {
  }

  /** The station name is replaced only by a non-empty device name; otherwise it keeps
      its previous value (initially the station code). */
  lemma FetchNameOnlyFromDevice(s: StationData, stationNo: string, devices: OMap<Device>, o: FetchOutcome)
    ensures var r := FetchStation(s, stationNo, devices, o);
            r.stationName == s.stationName ||
            (stationNo in devices.vals && devices.vals[stationNo].name != "" && r.stationName == devices.vals[stationNo].name)
  {
  }

  /** The code as written and the intended behaviour agree except when the scan finds no
      pallet while a container is shown. */
  lemma AsWrittenAgreesOtherwise(s: StationData, stationNo: string, devices: OMap<Device>, o: FetchOutcome)
    requires PalletAt(devices, stationNo).Some? || s.currentContainer == ""
    ensures FetchStationAsWritten(s, stationNo, devices, o) == FetchStation(s, stationNo, devices, o)
  {
  }

  /** As written, a tray that has left the station stays displayed with its goods. */
  lemma AsWrittenKeepsDepartedTray(s: StationData, stationNo: string, devices: OMap<Device>, o: FetchOutcome)
    requires PalletAt(devices, stationNo).None? && s.currentContainer != ""
    ensures FetchStationAsWritten(s, stationNo, devices, o).currentContainer == s.currentContainer
    ensures FetchStationAsWritten(s, stationNo, devices, o).localGoods == s.localGoods
    ensures FetchStation(s, stationNo, devices, o).currentContainer == ""
  {
  }

  /** The concrete case: Tran3002 showed tray "P1"; the tray leaves and the station reports
      an empty pallet code. */
  lemma DepartedTrayExample(o: FetchOutcome)
    ensures var devices := OMap(["Tran3002"], map["Tran3002" := Device("Tran3002", "Tran3002", "", Some(0), "", [])]);
            var s := StationData("Tran3002", "Tran3002", "P1", [Goods("G1", "bolt", "M6", 5, "pcs")], false, "");
            FetchStationAsWritten(s, "Tran3002", devices, o).currentContainer == "P1" &&
            FetchStationAsWritten(s, "Tran3002", devices, o).localGoods == s.localGoods &&
            FetchStation(s, "Tran3002", devices, o).currentContainer == "" &&
            FetchStation(s, "Tran3002", devices, o).localGoods == []
  {
    var devices := OMap(["Tran3002"], map["Tran3002" := Device("Tran3002", "Tran3002", "", Some(0), "", [])]);
    assert PalletAt(devices, "Tran3002").None?;
  }

  // ---------------------------------------------------------------------------------------
  // The store

  /** `dualStationState` (connection statuses left out). */
  class DualStationState {
    var station3002: StationData
    var station3003: StationData
    var devices: OMap<Device>

    ghost predicate Valid()
      reads this
    {
      devices.Valid()
    }

    constructor()
      ensures Valid()
      ensures station3002 == InitialStation("Tran3002") && station3003 == InitialStation("Tran3003")
      ensures devices == Empty()
    {
      station3002 := InitialStation("Tran3002");
      station3003 := InitialStation("Tran3003");
      devices := Empty();
    }

    /** `initDualStationDeviceInfo()`: answer `i` is the record that the poll of
        `DualPolledDevices()[i]` returned (`None` when it failed). A record is registered under
        its own code, as in the source, not under the code that was polled. */
    method InitDualStationDeviceInfo(answers: seq<Option<Device>>)
      requires |answers| == |DualPolledDevices()|
      requires Valid()
      modifies this`devices
      ensures Valid()
      ensures devices == DualSeed(old(devices), answers)
    {
      var i := 0;
      while i < |answers|
        invariant 0 <= i <= |answers|
        invariant devices == DualSeed(old(devices), answers[..i])
      {
        assert answers[..i + 1][..i] == answers[..i];
        match answers[i] {
          case None =>
          case Some(deviceInfo) =>
            if |deviceInfo.children| > 0 {
              var j := 0;
              ghost var start := devices;
              while j < |deviceInfo.children|
                invariant 0 <= j <= |deviceInfo.children|
                invariant devices == RegisterAll(start, deviceInfo.children, j)
              {
                var item := deviceInfo.children[j];
                devices := devices.Put(item.code, item);
                j := j + 1;
              }
            } else {
              devices := devices.Put(deviceInfo.code, deviceInfo);
            }
        }
        i := i + 1;
      }
      assert answers[..i] == answers;
      DualSeedKeys(old(devices), answers, "");
    }

    /** `fetchStationData(stationNo)`, with the missing-tray case corrected (see
        `FetchStationAsWritten`); the goods request, if made, answers `o`. Any code other
        than Tran3002 selects station Tran3003. */
    method FetchStationData(stationNo: string, o: FetchOutcome)
      requires Valid()
      modifies this`station3002, this`station3003
      ensures IsFirstStation(stationNo) ==>
                station3002 == FetchStation(old(station3002), stationNo, devices, o) && station3003 == old(station3003)
      ensures !IsFirstStation(stationNo) ==>
                station3003 == FetchStation(old(station3003), stationNo, devices, o) && station3002 == old(station3002)
    {
      var s := if IsFirstStation(stationNo) then station3002 else station3003;
      ghost var before := s;
      s := s.(isLoading := true, errorMessage := "");
      if stationNo in devices.vals && devices.vals[stationNo].name != "" {
        s := s.(stationName := devices.vals[stationNo].name);
      }
      var found := false;
      ghost var pallet := "";
      var i := 0;
      while i < |devices.keys|
        invariant 0 <= i <= |devices.keys|
        invariant !found ==> s == Begin(before, stationNo, devices)
        invariant !found ==> forall j :: 0 <= j < i ==> !(devices.keys[j] == stationNo && ValidPallet(devices.vals[stationNo].palletCode))
        invariant found ==> PalletAt(devices, stationNo) == Some(pallet) && s == Loaded(Begin(before, stationNo, devices), pallet, o)
      {
        var deviceCode := devices.keys[i];
        var deviceInfo := devices.vals[deviceCode];
        if deviceCode == stationNo && ValidPallet(deviceInfo.palletCode) {
          s := s.(currentContainer := deviceInfo.palletCode);
          match o {
            case Response(errCode, errMsg, data) =>
              if errCode == 0 {
                s := s.(localGoods := if data.Some? then data.value else []);
              } else {
                s := s.(errorMessage := OrElse(errMsg, UnknownError), localGoods := []);
              }
            case TransportError(message) =>
              s := s.(errorMessage := OrElse(message, RequestFailed), localGoods := []);
          }
          found := true;
          pallet := deviceInfo.palletCode;
          break;
        }
        i := i + 1;
      }
      if !found {
        s := s.(currentContainer := "", localGoods := []);
      }
      s := s.(isLoading := false);
      if IsFirstStation(stationNo) {
        station3002 := s;
      } else {
        station3003 := s;
      }
    }

    /** `refreshDualStationData()`: both stations fetched, Tran3002's request answering
        `o3002` and Tran3003's `o3003`. */
    method RefreshDualStationData(o3002: FetchOutcome, o3003: FetchOutcome)
      requires Valid()
      modifies this`station3002, this`station3003
      ensures station3002 == FetchStation(old(station3002), "Tran3002", devices, o3002)
      ensures station3003 == FetchStation(old(station3003), "Tran3003", devices, o3003)
    {
      FetchStationData("Tran3002", o3002);
      FetchStationData("Tran3003", o3003);
    }

    /** `initializeDualStation()`: the device poll, then both stations fetched. */
    method InitializeDualStation(answers: seq<Option<Device>>, o3002: FetchOutcome, o3003: FetchOutcome)
      requires |answers| == |DualPolledDevices()|
      requires Valid()
      modifies this
      ensures Valid()
      ensures devices == DualSeed(old(devices), answers)
      ensures station3002 == FetchStation(old(station3002), "Tran3002", devices, o3002)
      ensures station3003 == FetchStation(old(station3003), "Tran3003", devices, o3003)
    {
      InitDualStationDeviceInfo(answers);
      RefreshDualStationData(o3002, o3003);
    }

    /** `updateStationDevice(deviceNo, newInfo)`: a station's record is stored, names the
        station when it has a name, and triggers a fetch for that station (answering `o`);
        a coordinate device's record is stored; any other update is ignored. */
    method UpdateStationDevice(deviceNo: string, newInfo: Device, o: FetchOutcome)
      requires Valid()
      modifies this
      ensures Valid()
      ensures deviceNo == "Tran3002" || deviceNo == "Tran3003" || deviceNo in CoordinateDevices ==>
                devices == old(devices).Put(deviceNo, newInfo)
      ensures !(deviceNo == "Tran3002" || deviceNo == "Tran3003" || deviceNo in CoordinateDevices) ==>
                devices == old(devices) && station3002 == old(station3002) && station3003 == old(station3003)
      ensures deviceNo == "Tran3002" ==>
                station3002 == FetchStation(old(station3002), deviceNo, devices, o) && station3003 == old(station3003)
      ensures deviceNo == "Tran3003" ==>
                station3003 == FetchStation(old(station3003), deviceNo, devices, o) && station3002 == old(station3002)
      ensures deviceNo in CoordinateDevices ==> station3002 == old(station3002) && station3003 == old(station3003)
    {
      if deviceNo == "Tran3002" || deviceNo == "Tran3003" {
        devices := devices.Put(deviceNo, newInfo);
        if newInfo.name != "" {
          if IsFirstStation(deviceNo) {
            station3002 := station3002.(stationName := newInfo.name);
          } else {
            station3003 := station3003.(stationName := newInfo.name);
          }
        }
        FetchStationData(deviceNo, o);
      }
      if deviceNo in CoordinateDevices {
        devices := devices.Put(deviceNo, newInfo);
      }
    }
  }
}
