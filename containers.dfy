/** Collapsing the device-to-tray map into one container per tray code, as the first half
    of `handleInfo` does (src/renderer/src/stores/wms.ts:340-375,
    electron/src/renderer/src/stores/wms.ts:296-331). */
module Containers {
  import opened Text
  import opened OrderedMaps
  import opened Devices

  /** An entry of `state.containers`. */
  datatype Container = Container(code: string, location: string, deviceName: string)

  /** A `trayCodeMap` value: the container and the device that owns it (timestamp left out). */
  datatype Claimant = Claimant(code: string, location: string, deviceName: string, deviceCode: string)

  /** The tray codes of the given tray-map keys, in order. */
  function TrayCodes(m: OMap<TrayInfo>, ks: seq<string>): (r: seq<string>)
    requires forall i :: 0 <= i < |ks| ==> ks[i] in m.vals
    ensures |r| == |ks| && forall i :: 0 <= i < |ks| ==> r[i] == m.vals[ks[i]].trayCode
  {
    seq(|ks|, i requires 0 <= i < |ks| => m.vals[ks[i]].trayCode)
  }

  /** The elements of `s` in order of first appearance. */
  function Dedup(s: seq<string>): seq<string> {
    if s == [] then []
    else if s[|s| - 1] in s[..|s| - 1] then Dedup(s[..|s| - 1])
    else Dedup(s[..|s| - 1]) + [s[|s| - 1]]
  }

  lemma {:induction false} DedupMembers(s: seq<string>)
    ensures forall x :: x in Dedup(s) <==> x in s
    ensures NoDup(Dedup(s))
  {
    if s != [] {
      var init := s[..|s| - 1];
      DedupMembers(init);
      assert s == init + [s[|s| - 1]];
    }
  }

  /** The replacement rule of the `trayCodeMap` loop: the local station takes a tray over
      from any other device; between two other devices the greater code wins. */
  predicate ShouldReplace(existing: string, candidate: string, localStationNo: string) {
    if candidate == localStationNo && existing != localStationNo then true
    else if existing != localStationNo && candidate != localStationNo then StrLess(existing, candidate)
    else false
  }

  /** `d` owns tray `t` among the devices `ks`: it claims `t`, and every other claimant is
      not the local station and, unless `d` is the local station, has a smaller code. */
  ghost predicate IsOwner(m: OMap<TrayInfo>, ks: seq<string>, localStationNo: string, t: string, d: string) {
    d in ks && d in m.vals && m.vals[d].trayCode == t &&
    forall k :: k in ks && k != d && k in m.vals && m.vals[k].trayCode == t ==>
      k != localStationNo && (d == localStationNo || StrLess(k, d))
  }

  /** The owner of a tray is determined by the set of claimants alone, so it does not
      depend on the order in which the tray map is scanned. */
  lemma OwnerUnique(m: OMap<TrayInfo>, ks: seq<string>, localStationNo: string, t: string, d1: string, d2: string)
    requires IsOwner(m, ks, localStationNo, t, d1) && IsOwner(m, ks, localStationNo, t, d2)
    ensures d1 == d2
  {
    if d1 != d2 {
      StrLessAsymmetric(d1, d2);
    }
  }

  /** When the local station claims a tray it owns it; otherwise the greatest claimant does. */
  lemma OwnerIsLocalOrGreatest(m: OMap<TrayInfo>, ks: seq<string>, localStationNo: string, t: string, d: string)
    requires IsOwner(m, ks, localStationNo, t, d)
    ensures localStationNo in ks && localStationNo in m.vals && m.vals[localStationNo].trayCode == t ==> d == localStationNo
    ensures d != localStationNo ==>
              forall k :: k in ks && k in m.vals && m.vals[k].trayCode == t ==> k == d || StrLess(k, d)
  {
  }

  ghost predicate Resolved(m: OMap<TrayInfo>, ks: seq<string>, localStationNo: string, c: Claimant) {
    IsOwner(m, ks, localStationNo, c.code, c.deviceCode) &&
    c.location == m.vals[c.deviceCode].location && c.deviceName == m.vals[c.deviceCode].deviceName
  }

  /** The `trayCodeMap` loop: one entry per distinct tray code, in order of first
      appearance, each held by the tray's owner. */
  method ResolveContainers(m: OMap<TrayInfo>, localStationNo: string) returns (owners: seq<Claimant>)
    requires m.Valid()
    ensures |owners| == |Dedup(TrayCodes(m, m.keys))|
    ensures forall i :: 0 <= i < |owners| ==> owners[i].code == Dedup(TrayCodes(m, m.keys))[i]
    ensures forall i :: 0 <= i < |owners| ==> Resolved(m, m.keys, localStationNo, owners[i])
  {
    var trayCodeMap: OMap<Claimant> := Empty();
    var i := 0;
    while i < |m.keys|
      invariant 0 <= i <= |m.keys|
      invariant Scanned(m, m.keys[..i], localStationNo, trayCodeMap)
    {
      var deviceCode := m.keys[i];
      var item := m.vals[deviceCode];
      var trayCode := item.trayCode;
      ResolveStep(m, i, localStationNo, trayCodeMap);
      if trayCode !in trayCodeMap.vals {
        trayCodeMap := trayCodeMap.Put(trayCode, Claimant(trayCode, item.location, item.deviceName, deviceCode));
      } else {
        var existing := trayCodeMap.vals[trayCode];
        if ShouldReplace(existing.deviceCode, deviceCode, localStationNo) {
          trayCodeMap := trayCodeMap.Put(trayCode, Claimant(trayCode, item.location, item.deviceName, deviceCode));
        }
      }
      i := i + 1;
    }
    assert m.keys[..i] == m.keys;
    owners := Values(trayCodeMap);
  }

  /** `Array.from(trayCodeMap.values())`: the values in key order. */
  function Values(tc: OMap<Claimant>): (r: seq<Claimant>)
    requires tc.Valid()
    ensures |r| == |tc.keys| && forall j :: 0 <= j < |tc.keys| ==> r[j] == tc.vals[tc.keys[j]]
  {
    seq(|tc.keys|, j requires 0 <= j < |tc.keys| => tc.vals[tc.keys[j]])
  }

  /** The invariant of the `trayCodeMap` loop after scanning the devices `ks`: one entry
      per distinct tray code, in order of first appearance, each held by its owner. */
  ghost predicate Scanned(m: OMap<TrayInfo>, ks: seq<string>, localStationNo: string, tc: OMap<Claimant>)
    requires forall k :: k in ks ==> k in m.vals
  {
    tc.Valid() &&
    tc.keys == Dedup(TrayCodes(m, ks)) &&
    forall t :: t in tc.vals ==> tc.vals[t].code == t && Resolved(m, ks, localStationNo, tc.vals[t])
  }

  /** One iteration of the `trayCodeMap` loop: device `m.keys[i]` takes its tray's entry
      when the tray has none yet or when the replacement rule lets it. */
  function Step(m: OMap<TrayInfo>, i: nat, localStationNo: string, tc: OMap<Claimant>): OMap<Claimant>
    requires m.Valid() && i < |m.keys|
  {
    var d := m.keys[i];
    var item := m.vals[d];
    if item.trayCode !in tc.vals || ShouldReplace(tc.vals[item.trayCode].deviceCode, d, localStationNo)
    then tc.Put(item.trayCode, Claimant(item.trayCode, item.location, item.deviceName, d))
    else tc
  }

  /** One iteration of the `trayCodeMap` loop keeps its invariant. */
  lemma ResolveStep(m: OMap<TrayInfo>, i: nat, localStationNo: string, tc: OMap<Claimant>)
    requires m.Valid() && i < |m.keys|
    requires Scanned(m, m.keys[..i], localStationNo, tc)
    ensures Scanned(m, m.keys[..i + 1], localStationNo, Step(m, i, localStationNo, tc))
  {
    StepKeys(m, i, localStationNo, tc);
    StepEntries(m, i, localStationNo, tc);
  }

  /** The step adds the device's tray code exactly when it is new. */
  lemma StepKeys(m: OMap<TrayInfo>, i: nat, localStationNo: string, tc: OMap<Claimant>)
    requires m.Valid() && i < |m.keys|
    requires tc.Valid() && tc.keys == Dedup(TrayCodes(m, m.keys[..i]))
    ensures var next := Step(m, i, localStationNo, tc);
            next.Valid() && next.keys == Dedup(TrayCodes(m, m.keys[..i + 1]))
  {
    var d := m.keys[i];
    var t' := m.vals[d].trayCode;
    var ks := m.keys[..i];
    var ks' := m.keys[..i + 1];
    assert ks' == ks + [d];
    assert TrayCodes(m, ks') == TrayCodes(m, ks) + [t'];
    assert TrayCodes(m, ks')[..i] == TrayCodes(m, ks);
    DedupMembers(TrayCodes(m, ks));
    assert t' in tc.vals <==> t' in TrayCodes(m, ks);
  }

  /** After the step every entry is still held by its tray's owner, now among the devices
      scanned including `m.keys[i]`. */
  lemma StepEntries(m: OMap<TrayInfo>, i: nat, localStationNo: string, tc: OMap<Claimant>)
    requires m.Valid() && i < |m.keys|
    requires Scanned(m, m.keys[..i], localStationNo, tc)
    ensures var next := Step(m, i, localStationNo, tc);
            forall t :: t in next.vals ==> next.vals[t].code == t && Resolved(m, m.keys[..i + 1], localStationNo, next.vals[t])
  {
    var d := m.keys[i];
    var t' := m.vals[d].trayCode;
    var ks := m.keys[..i];
    assert m.keys[..i + 1] == ks + [d];
    assert d !in ks;
    var next := Step(m, i, localStationNo, tc);
    StepOwnEntry(m, i, localStationNo, tc);
    forall t | t in next.vals && t != t'
      ensures next.vals[t].code == t && Resolved(m, ks + [d], localStationNo, next.vals[t])
    {
      assert next.vals[t] == tc.vals[t];
      OtherTrayKept(m, ks, localStationNo, tc.vals[t], d);
    }
  }

  /** A device that claims another tray does not affect an entry's owner. */
  lemma OtherTrayKept(m: OMap<TrayInfo>, ks: seq<string>, localStationNo: string, c: Claimant, d: string)
    requires d in m.vals && d !in ks && m.vals[d].trayCode != c.code
    requires Resolved(m, ks, localStationNo, c)
    ensures Resolved(m, ks + [d], localStationNo, c)
  {
  }

  /** After the step the entry of the device's own tray is held by that tray's owner. */
  lemma StepOwnEntry(m: OMap<TrayInfo>, i: nat, localStationNo: string, tc: OMap<Claimant>)
    requires m.Valid() && i < |m.keys|
    requires Scanned(m, m.keys[..i], localStationNo, tc)
    ensures var t' := m.vals[m.keys[i]].trayCode;
            var next := Step(m, i, localStationNo, tc);
            t' in next.vals && next.vals[t'].code == t' && Resolved(m, m.keys[..i + 1], localStationNo, next.vals[t'])
  {
    var d := m.keys[i];
    var t' := m.vals[d].trayCode;
    var ks := m.keys[..i];
    assert m.keys[..i + 1] == ks + [d];
    assert d !in ks;
    if t' !in tc.vals {
      DedupMembers(TrayCodes(m, ks));
      assert t' !in TrayCodes(m, ks);
      FirstClaimant(m, ks, localStationNo, d);
    } else {
      var e := tc.vals[t'].deviceCode;
      if ShouldReplace(e, d, localStationNo) {
        TakeOver(m, ks, localStationNo, e, d);
      } else {
        KeepOwner(m, ks, localStationNo, e, d);
      }
    }
  }

  /** The first device to claim a tray owns it. */
  lemma FirstClaimant(m: OMap<TrayInfo>, ks: seq<string>, localStationNo: string, d: string)
    requires d in m.vals && forall k :: k in ks ==> k in m.vals
    requires m.vals[d].trayCode !in TrayCodes(m, ks)
    ensures IsOwner(m, ks + [d], localStationNo, m.vals[d].trayCode, d)
  {
    forall k | k in ks
      ensures m.vals[k].trayCode != m.vals[d].trayCode
    {
      var j :| 0 <= j < |ks| && ks[j] == k;
      assert TrayCodes(m, ks)[j] == m.vals[k].trayCode;
    }
  }

  /** A device that the replacement rule lets take a tray over becomes its owner. */
  lemma TakeOver(m: OMap<TrayInfo>, ks: seq<string>, localStationNo: string, e: string, d: string)
    requires d in m.vals && d !in ks
    requires IsOwner(m, ks, localStationNo, m.vals[d].trayCode, e)
    requires ShouldReplace(e, d, localStationNo)
    ensures IsOwner(m, ks + [d], localStationNo, m.vals[d].trayCode, d)
  {
    var t := m.vals[d].trayCode;
    forall k | k in ks + [d] && k != d && k in m.vals && m.vals[k].trayCode == t
      ensures k != localStationNo && (d == localStationNo || StrLess(k, d))
    {
      if k != e && d != localStationNo {
        StrLessTransitive(k, e, d);
      }
    }
  }

  /** A device that the replacement rule turns away leaves the owner in place. */
  lemma KeepOwner(m: OMap<TrayInfo>, ks: seq<string>, localStationNo: string, e: string, d: string)
    requires d in m.vals && d !in ks
    requires IsOwner(m, ks, localStationNo, m.vals[d].trayCode, e)
    requires !ShouldReplace(e, d, localStationNo)
    ensures IsOwner(m, ks + [d], localStationNo, m.vals[d].trayCode, e)
  {
    StrLessTotal(d, e);
  }

  /** The `containers` array: the claimants without their device codes. */
  function ToContainers(owners: seq<Claimant>): (cs: seq<Container>)
    ensures |cs| == |owners|
    ensures forall i :: 0 <= i < |owners| ==>
              cs[i] == Container(owners[i].code, owners[i].location, owners[i].deviceName)
  {
    seq(|owners|, i requires 0 <= i < |owners| => Container(owners[i].code, owners[i].location, owners[i].deviceName))
  }

  function Codes(cs: seq<Container>): (r: seq<string>)
    ensures |r| == |cs| && forall i :: 0 <= i < |cs| ==> r[i] == cs[i].code
  {
    seq(|cs|, i requires 0 <= i < |cs| => cs[i].code)
  }

  /** Each container carries the location and device name of its tray's owner. */
  ghost predicate OwnedEntries(cs: seq<Container>, m: OMap<TrayInfo>, localStationNo: string) {
    forall i :: 0 <= i < |cs| ==>
      exists d :: IsOwner(m, m.keys, localStationNo, cs[i].code, d) &&
        cs[i].location == m.vals[d].location && cs[i].deviceName == m.vals[d].deviceName
  }

  /** `containers` holds one entry per distinct tray code of `m`, in order of first
      appearance, each with the location and device name of the tray's owner. */
  ghost predicate ResolvedFrom(cs: seq<Container>, m: OMap<TrayInfo>, localStationNo: string)
    requires m.Valid()
  {
    Codes(cs) == Dedup(TrayCodes(m, m.keys)) && OwnedEntries(cs, m, localStationNo)
  }

  /** Exactly one container per distinct tray code of the tray map. */
  lemma ContainersOnePerTray(cs: seq<Container>, m: OMap<TrayInfo>)
    requires m.Valid() && Codes(cs) == Dedup(TrayCodes(m, m.keys))
    ensures forall i, j :: 0 <= i < j < |cs| ==> cs[i].code != cs[j].code
    ensures forall k :: k in m.vals ==> exists i :: 0 <= i < |cs| && cs[i].code == m.vals[k].trayCode
  {
    var codes := TrayCodes(m, m.keys);
    DedupMembers(codes);
    forall i, j | 0 <= i < j < |cs| ensures cs[i].code != cs[j].code {
      assert Codes(cs)[i] != Codes(cs)[j];
    }
    forall k | k in m.vals
      ensures exists i :: 0 <= i < |cs| && cs[i].code == m.vals[k].trayCode
    {
      var j :| 0 <= j < |m.keys| && m.keys[j] == k;
      assert codes[j] == m.vals[k].trayCode;
      assert codes[j] in Codes(cs);
      var i :| 0 <= i < |cs| && Codes(cs)[i] == codes[j];
    }
  }
  /** The containers built from the owners `ResolveContainers` returns satisfy `ResolvedFrom`. */
  lemma ContainersResolved(owners: seq<Claimant>, m: OMap<TrayInfo>, localStationNo: string)
    requires m.Valid()
    requires |owners| == |Dedup(TrayCodes(m, m.keys))|
    requires forall i :: 0 <= i < |owners| ==> owners[i].code == Dedup(TrayCodes(m, m.keys))[i]
    requires forall i :: 0 <= i < |owners| ==> Resolved(m, m.keys, localStationNo, owners[i])
    ensures ResolvedFrom(ToContainers(owners), m, localStationNo)
  {
    var cs := ToContainers(owners);
    assert Codes(cs) == Dedup(TrayCodes(m, m.keys));
    forall i | 0 <= i < |cs|
      ensures exists d :: IsOwner(m, m.keys, localStationNo, cs[i].code, d) &&
                cs[i].location == m.vals[d].location && cs[i].deviceName == m.vals[d].deviceName
    {
      assert Resolved(m, m.keys, localStationNo, owners[i]);
      var d := owners[i].deviceCode;
    }
  }
}
