# Warehouse station dashboard — live-state core in Dafny

This project models the core of a warehouse-floor dashboard. An operator's pick/put
station shows which container (pallet, tray) currently sits on it and which goods that
container holds. The data comes from device records that the equipment control system
reports (cranes, conveyors, RGVs and station conveyors, some with child devices).

Three parts of the program are modelled. Each operation is proved against an independent
definition of what it computes.

- **The WMS store** (`WMSStore` in `src/renderer/src/stores/wms.ts` and its older copy
  `electron/src/renderer/src/stores/wms.ts`). It covers:
  - the device registry, which an ordered map models because iteration order matters;
  - the device-to-tray map derived from that registry, and the operation mode;
  - the collapse of that map into one container per tray code;
  - the arrival, swap and departure handling for the local station, including the goods
    fetch and its three outcomes;
  - admission of pushed device updates;
  - seeding at start-up;
  - the two-station variant of the `src/` copy (stations Tran3002 and Tran3003).
- **The 3D model cache** (`Model3DCache` in `src/renderer/src/utils/Model3DCache.ts`). This is
  a geometry cache with reference counts, in-flight loads and age-based eviction. It also
  keeps a registry of render instances that switches the shared animation loop on and off.
- **The preferences store** (`PersistentStore` in `src/main/index.ts` and its compiled copy
  `out/main/index.js`). It holds in-memory data over fixed defaults, with get, set, delete,
  has, clear and snapshot operations, and writes a file after each change.

Network answers, the clock, frame and timer handles, and the outcome of file writes are
parameters of the operations.

Files:
- `text.dfy`: the JavaScript string operations the code relies on: `||`, `trim`,
  `startsWith`, lexicographic `<`, and number formatting.
- `ordered_map.dfy`: an insertion-ordered map, standing for a JavaScript `Map` or object.
- `devices.dfy`: device records and `updateDeviceTrayMap`.
- `containers.dfy`: the tray de-duplication loop of `handleInfo`.
- `station.dfy`: the local station's view, `checkCurrentStationTray` and `getGoods`.
- `wms_store.dfy`: class `WMSStore`.
- `dual_station.dfy`: the two-station state.
- `model3d_cache.dfy`: class `Model3DCache`.
- `persistent_store.dfy`: class `PersistentStore`.

Two behaviours of the code are worth knowing when reading the model:
- On a swap, `getGoods` sets the new `currentContainer` before the answer arrives. It keeps
  the previous goods on display until then (`Station.FetchStarted`).
- No check discards an answer that arrives after the station's tray has changed. Each
  answer is applied as it comes (see the concurrency line under "Left out").

The model departs from the code in one place, on purpose. The two-station fetch has a
defect, recorded under "Findings": the code keeps a departed tray on display. The function
`DualStation.FetchStationAsWritten` models that code as written. The class
`DualStationState` runs the corrected fetch `DualStation.FetchStation` instead. So its
`FetchStationData`, `UpdateStationDevice`, `RefreshDualStationData` and
`InitializeDualStation` differ from src/renderer/src/stores/wms.ts:593-597 in one case: a
station showing a container whose record no longer carries a valid pallet code. There the
class shows no container and no goods, while the code keeps both.

The two copies of each file behave the same in the parts modelled here, so the table
below cites the newer one. In `electron/src/renderer/src/stores/wms.ts` the counterparts
are:
- the constructor state at lines 57-71;
- `setLocalStationNo` at 133-144 and `initGetDeviceInfo` at 188-229;
- `updateDeviceTrayMap` at 231-283 and `handleInfo` at 285-338 (its de-duplication at
  296-331);
- `checkCurrentStationTray` at 340-353, `getGoods` at 355-377, `updateDevice` at 379-418
  and `refreshData` at 420-428.

The older copy has no two-station state. In `out/main/index.js` the counterparts are:
- the defaults at lines 28-30, `load` at 43-59, `save` at 61-70 and `saveAsync` at 72-94;
- `get` at 109-111, `set` at 113-116, `setAsync` at 118-121 and `delete` at 123-126;
- `has` at 128-130, `clear` at 132-135 and `store` at 137-139.

## Model

| member | source | states |
|---|---|---|
| `Text.StrLessAsymmetric` | src/renderer/src/stores/wms.ts:357 | JavaScript's `>` on device codes is a strict order: never both `a < b` and `b < a` |
| `Text.StrLessTransitive` | src/renderer/src/stores/wms.ts:357 | the code order used for tie-breaks is transitive |
| `Text.StrLessTotal` | src/renderer/src/stores/wms.ts:357 | two distinct codes are always ordered one way or the other, so every tie-break has a winner |
| `Text.StrLessIrreflexive` | src/renderer/src/stores/wms.ts:357 | no code is greater than itself |
| `OrderedMaps.OMap.Put` | src/renderer/src/stores/wms.ts:297-302 | `map.set(k, v)` stores `v` under `k`; a new key goes last, an existing key keeps its place; distinct keys stay distinct |
| `Devices.UpdateDeviceTrayMap` | src/renderer/src/stores/wms.ts:275-327 | the loop over `Object.entries(devices)` returns exactly `TrayMapOf` (the claims of each record applied in iteration order) and `ModeOf` |
| `Devices.RecordChildren` | src/renderer/src/stores/wms.ts:293-305 | the `childrenDevice.forEach` loop sets the claim of each child whose pallet code is valid, in child order |
| `Devices.PlainDeviceClaims` | src/renderer/src/stores/wms.ts:309-321 | a device without children claims only its own code, and claims it exactly when its pallet code is non-empty, not `'0'` and not blank, and the code starts with `Tran` or `workStatus` is non-null and non-zero |
| `Devices.ParentDeviceClaims` | src/renderer/src/stores/wms.ts:288-306 | a parent whose child is watched contributes nothing; otherwise each child contributes exactly when its pallet code is valid, whatever its work status, keyed by `child.code` or `<parent>_child_<index>` |
| `Devices.ChildClaimsShape` | src/renderer/src/stores/wms.ts:293-305 | the child claims are exactly those of the children with a valid pallet code |
| `Devices.DeviceClaimsValid` | src/renderer/src/stores/wms.ts:288-321 | every tray code a record contributes passes the pallet validity test |
| `Devices.PutAllKey` | src/renderer/src/stores/wms.ts:297-302 | after a run of `set` calls, a key is present iff it was present before or one of the calls set it |
| `Devices.PutAllValue` | src/renderer/src/stores/wms.ts:297-302 | after a run of `set` calls, each value is the old one or one of the values set |
| `Devices.PutAllValid` | src/renderer/src/stores/wms.ts:297-302 | a run of `set` calls keeps every key present exactly once |
| `Devices.TrayMapValid` | src/renderer/src/stores/wms.ts:276-327 | the derived tray map holds each key once |
| `Devices.TrayMapKeys` | src/renderer/src/stores/wms.ts:281-326 | the tray map has an entry for a key iff some registry record claims that key |
| `Devices.TrayMapKeyClaimant` | src/renderer/src/stores/wms.ts:281-326 | for a key in the tray map, it returns the index of a record that claims it |
| `Devices.TrayMapKeyClaimed` | src/renderer/src/stores/wms.ts:281-326 | a key claimed by any record is in the tray map |
| `Devices.TrayMapValues` | src/renderer/src/stores/wms.ts:281-326 | each tray map value is the claim of some record, and each tray code in it is a valid pallet code |
| `Devices.PlainDeviceInTrayMap` | electron/src/renderer/src/stores/wms.ts:265-278 | a device without children whose code no other record claims is in the tray map iff it qualifies, and then with its own pallet code |
| `Devices.ModeLastWriteWins` | src/renderer/src/stores/wms.ts:277-286 | `operationMode` keeps its prior value when no record has a mode; otherwise it is the mode of the last record that has one |
| `Containers.DedupMembers` | src/renderer/src/stores/wms.ts:340-375 | the tray codes in order of first appearance contain each tray code exactly once |
| `Containers.OwnerUnique` | src/renderer/src/stores/wms.ts:353-358 | a tray has at most one owner, so the owner does not depend on the order in which the tray map is scanned |
| `Containers.OwnerIsLocalOrGreatest` | src/renderer/src/stores/wms.ts:353-358 | the local station owns every tray it claims; otherwise the owner has the greatest code among the claimants |
| `Containers.ResolveContainers` | src/renderer/src/stores/wms.ts:340-375 | the `trayCodeMap` loop yields one entry per distinct tray code, in order of first appearance, each carrying its owner's location and device name |
| `Containers.ResolveStep` | src/renderer/src/stores/wms.ts:343-374 | one iteration of the replacement rule keeps "each entry is held by the owner among the devices scanned so far" |
| `Containers.ToContainers` | src/renderer/src/stores/wms.ts:371-375 | `containers` drops the owner's device code and keeps code, location and device name, in order |
| `Containers.ContainersOnePerTray` | src/renderer/src/stores/wms.ts:340-379 | `containers` has pairwise distinct codes, and every tray in the tray map has a container |
| `Containers.ContainersResolved` | src/renderer/src/stores/wms.ts:371-378 | the containers built from the loop's owners satisfy `ResolvedFrom` |
| `Station.Classify` | src/renderer/src/stores/wms.ts:384-397 | the four cases are exhaustive and exclusive: same tray or nothing on an empty station is unchanged; a new tray on an empty station is an arrival; on an occupied one it is a swap; no tray on an occupied station is a departure |
| `Station.GoodsLoaded` | src/renderer/src/stores/wms.ts:399-421 | an empty or `'0'` code clears goods and container; otherwise the container is set, and `errCode` 0 gives `data` (or `[]`) and no error, a non-zero code gives `errMsg` (or `未知错误`) and no goods, a thrown error gives its message (or `请求失败`) and no goods |
| `Station.CheckIdempotent` | src/renderer/src/stores/wms.ts:384-397 | a second pass with the same tray changes nothing and makes no fetch |
| `Station.SecondCheckNoOp` | src/renderer/src/stores/wms.ts:459-461 | the extra check after an update, which follows the one `handleInfo` already made, changes nothing |
| `Station.FetchOnlyOnChange` | electron/src/renderer/src/stores/wms.ts:340-353 | with a valid tray code, a pass fetches iff the tray differs from `currentContainer`; without a fetch, the only change is clearing a vacated station |
| `Station.NoStaleGoods` | src/renderer/src/stores/wms.ts:399-421 | the goods and container after `getGoods` depend only on its own fetch, not on what was shown before |
| `WmsStore.PolledDevices` | src/renderer/src/stores/wms.ts:241-242 | the start-up poll covers the watched and coordinate devices, each once |
| `WmsStore.SeedAppend` | src/renderer/src/stores/wms.ts:244-270 | seeding from two runs of poll answers equals seeding from the first run and then the second |
| `WmsStore.SeedSkipsFailures` | src/renderer/src/stores/wms.ts:267-269 | a failed poll is skipped, and seeding from the other answers is unaffected |
| `WmsStore.EnlistAllEnlisted` | src/renderer/src/stores/wms.ts:249-257 | registering children one by one keeps the registry and the watched list in step |
| `WmsStore.SeedEnlisted` | src/renderer/src/stores/wms.ts:244-270 | after seeding, a code is registered iff it is watched |
| `WmsStore.AdmitChildrenShape` | src/renderer/src/stores/wms.ts:442-453 | the children loop leaves the watched list alone, keeps keys distinct, adds exactly the watched child codes, and stores under each code a child with that code |
| `WmsStore.AdmitOnlyWatchedOrCoordinate` | src/renderer/src/stores/wms.ts:431-455 | `updateDevice` changes the registry only under an admitted (watched or coordinate) device code, storing `newInfo`, or under a watched child's code, storing that child |
| `WmsStore.AdmitStoresRecord` | src/renderer/src/stores/wms.ts:431-433 | an admitted record is stored as sent, unless one of its children carries the same code |
| `WmsStore.AdmitEnlisted` | src/renderer/src/stores/wms.ts:431-455 | updates keep the registry and the watched list in step; a coordinate code is appended only when absent, so the list gains no duplicate |
| `WmsStore.AdmitKeepsName` | src/renderer/src/stores/wms.ts:434-450 | the station name changes only when the update carries the local station's own record |
| `WmsStore.WMSStore.constructor` | src/renderer/src/stores/wms.ts:77-91 | the initial state: station Tran3001 named `未知站台`, mode `InOut`, everything else empty |
| `WmsStore.WMSStore.SetLocalStationNo` | src/renderer/src/stores/wms.ts:177-188 | sets the station; the name comes from the registry record (`name`, else `code`, else the station code), or is the station code when there is no record |
| `WmsStore.WMSStore.GetGoods` | src/renderer/src/stores/wms.ts:399-421 | the store's view after `getGoods` is `GoodsLoaded` of the view before |
| `WmsStore.WMSStore.CheckCurrentStationTray` | src/renderer/src/stores/wms.ts:384-397 | the store's view after the check is `AfterCheck` of the view before and the local station's tray in the tray map |
| `WmsStore.WMSStore.HandleInfo` | src/renderer/src/stores/wms.ts:329-382 | an empty registry clears the containers, the tray map, the container and the goods, and keeps the mode; otherwise the tray map, the mode and the containers are derived from the registry and the local station is re-checked |
| `WmsStore.WMSStore.Rebuild` | src/renderer/src/stores/wms.ts:338-379 | the tray map is `TrayMapOf` of the registry, the mode is `ModeOf` of it, and the containers satisfy `ResolvedFrom` of the tray map |
| `WmsStore.WMSStore.SeedDevices` | src/renderer/src/stores/wms.ts:232-273 | one answer per code of `PolledDevices()`, in poll order; the registry after the poll is `Seed` of the answers, the registry and the watched list stay in step, then `handleInfo` runs |
| `WmsStore.WMSStore.SeedRegistry` | src/renderer/src/stores/wms.ts:244-270 | the polling loop applies the answers in order |
| `WmsStore.WMSStore.EnlistChildren` | src/renderer/src/stores/wms.ts:249-257 | the children of a polled parent are registered and watched in order |
| `WmsStore.WMSStore.UpdateDevice` | src/renderer/src/stores/wms.ts:423-462 | the registry is updated as `Admit` describes, the invariant is kept, and the derived state is as after `handleInfo` (the extra check is a no-op) |
| `WmsStore.WMSStore.AdmitUpdate` | src/renderer/src/stores/wms.ts:424-455 | the registry part of `updateDevice` is `Admit` |
| `WmsStore.WMSStore.RefreshData` | src/renderer/src/stores/wms.ts:464-472 | clears the error message, then does what `handleInfo` does |
| `DualStation.DualPolledDevices` | src/renderer/src/stores/wms.ts:542-543 | the two-station poll covers both stations and the coordinate and watched devices, each once |
| `DualStation.RegisterAllKeys` | src/renderer/src/stores/wms.ts:550-552 | registering children adds exactly their codes and keeps keys distinct |
| `DualStation.DualSeedKeys` | src/renderer/src/stores/wms.ts:544-559 | after the poll, a code is registered iff it was already registered or a successful answer carries it |
| `DualStation.FetchShowsOwnPallet` | src/renderer/src/stores/wms.ts:562-606 | a station shows its own device's valid pallet code or nothing; with no pallet its goods are empty and it has no error; `isLoading` is false at the end |
| `DualStation.FetchGoodsFromThisFetch` | src/renderer/src/stores/wms.ts:578-591 | the goods and error after the corrected `FetchStation` do not depend on the station's previous data |
| `DualStation.FetchNameOnlyFromDevice` | src/renderer/src/stores/wms.ts:570-573 | the station name is kept, or replaced by the device's non-empty name |
| `DualStation.AsWrittenAgreesOtherwise` | src/renderer/src/stores/wms.ts:562-606 | the code as written and the corrected version agree whenever a pallet is found or no container was shown |
| `DualStation.AsWrittenKeepsDepartedTray` | src/renderer/src/stores/wms.ts:593-597 | as written, when the station has no valid pallet, the previous container and goods stay displayed, while the corrected version shows none |
| `DualStation.DepartedTrayExample` | src/renderer/src/stores/wms.ts:593-597 | the concrete case: Tran3002 showed `P1`, its record now has an empty pallet code, and `P1` stays displayed |
| `DualStation.DualStationState.constructor` | src/renderer/src/stores/wms.ts:93-115 | both stations start named after their own code, with no container, goods or error |
| `DualStation.DualStationState.InitDualStationDeviceInfo` | src/renderer/src/stores/wms.ts:532-560 | one answer per code of `DualPolledDevices()`, in poll order; the registry after the poll is `DualSeed` of the answers |
| `DualStation.DualStationState.FetchStationData` | src/renderer/src/stores/wms.ts:562-606 | `Tran3002` updates station3002 and every other code updates station3003, each to `FetchStation` of its previous data; the other station is untouched. This is the corrected fetch of the Finding, which differs from lines 593-597 when a tray has departed |
| `DualStation.DualStationState.UpdateStationDevice` | src/renderer/src/stores/wms.ts:608-626 | a station's record is stored and that station is fetched with the corrected `FetchStation`; a coordinate device's record is stored; any other update changes nothing |
| `DualStation.DualStationState.RefreshDualStationData` | src/renderer/src/stores/wms.ts:632-641 | both stations are fetched with the corrected `FetchStation`, each with its own answer |
| `DualStation.DualStationState.InitializeDualStation` | src/renderer/src/stores/wms.ts:509-530 | the poll, then both stations are fetched with the corrected `FetchStation` |
| `GeometryCache.LoadGeometryFromServer` | src/renderer/src/utils/Model3DCache.ts:186-212 | a download is accepted iff it is a body of at least 84 bytes; an HTTP error or a shorter body (lines 205-207) is rejected before parsing |
| `GeometryCache.Model3DCache.constructor` | src/renderer/src/utils/Model3DCache.ts:62-65 | empty cache and registry, loop stopped, cleanup timer set |
| `GeometryCache.Model3DCache.GetGeometry` | src/renderer/src/utils/Model3DCache.ts:135-161 | a hit on a loaded entry counts one more reference and sets `lastUsed` to now; an entry still loading is left untouched; a miss inserts a loading placeholder with one reference |
| `GeometryCache.Model3DCache.FinishLoad` | src/renderer/src/utils/Model3DCache.ts:163-180 | a successful load replaces the entry with the geometry, not loading, one reference; a failed load removes the key |
| `GeometryCache.Model3DCache.ReleaseGeometry` | src/renderer/src/utils/Model3DCache.ts:217-222 | the count drops by one only when it is positive; an unknown key or a zero count changes nothing, so counts never go negative |
| `GeometryCache.Model3DCache.CleanupCache` | src/renderer/src/utils/Model3DCache.ts:312-322 | exactly the entries with no references that are older than 300000 ms are removed, and every other entry is kept unchanged |
| `GeometryCache.Model3DCache.Animate` | src/renderer/src/utils/Model3DCache.ts:256-259 | a running loop asks for the next frame; a stopped one does nothing |
| `GeometryCache.Model3DCache.StartAnimation` | src/renderer/src/utils/Model3DCache.ts:281-287 | starting is idempotent; a start runs the loop and holds a frame request |
| `GeometryCache.Model3DCache.StopAnimation` | src/renderer/src/utils/Model3DCache.ts:292-298 | the loop stops and its frame request is dropped |
| `GeometryCache.Model3DCache.RegisterRenderInstance` | src/renderer/src/utils/Model3DCache.ts:227-239 | the instance is stored as active, and the loop runs afterwards (started only if it was stopped) |
| `GeometryCache.Model3DCache.UnregisterRenderInstance` | src/renderer/src/utils/Model3DCache.ts:244-251 | the instance is removed; removing the last one stops the loop and clears `animationId` |
| `GeometryCache.Model3DCache.Destroy` | src/renderer/src/utils/Model3DCache.ts:327-364 | the loop stops, the cleanup timer is cleared, both maps are emptied and the singleton slot is reset |
| `GeometryCache.Model3DCacheSlot.GetInstance` | src/renderer/src/utils/Model3DCache.ts:67-72 | returns the existing instance, or creates one and keeps it |
| `Preferences.Merge` | src/main/index.ts:39-41 | loaded keys override the defaults, and defaults fill in the rest |
| `Preferences.Serialize` | src/main/index.ts:63 | the written file keeps every key except those holding `undefined` |
| `Preferences.GetAfterSet` | src/main/index.ts:117-120 | after `set(k, v)` with `v` not null or undefined, `get(k)` is `v`, and every other key reads as before |
| `Preferences.GetAfterDelete` | src/main/index.ts:129-132 | after `delete(k)`, `k` is absent and `get(k)` is the default; every other key reads as before |
| `Preferences.ReloadPreservesGet` | src/main/index.ts:34-68 | loading back what `save` wrote gives the same `get` for every key |
| `Preferences.PersistentStore.constructor` | src/main/index.ts:34-54 | a parsed file is merged over the defaults; a missing file gives the defaults, which are then written; an unreadable file gives the defaults |
| `Preferences.PersistentStore.Save` | src/main/index.ts:57-68 | a successful write stores the serialized data; a failed one leaves the file as it was |
| `Preferences.PersistentStore.SaveAsync` | src/main/index.ts:71-95 | as `save`, and the caller learns whether the write succeeded |
| `Preferences.PersistentStore.Get` | src/main/index.ts:112-114 | `data[k]` unless it is null or undefined, else `defaults[k]` |
| `Preferences.PersistentStore.Set` | src/main/index.ts:117-120 | only key `k` changes, then the data is saved |
| `Preferences.PersistentStore.SetAsync` | src/main/index.ts:123-126 | only key `k` changes, and the result reports whether the write succeeded |
| `Preferences.PersistentStore.Delete` | src/main/index.ts:129-132 | only key `k` is removed, then the data is saved |
| `Preferences.PersistentStore.Has` | src/main/index.ts:135-137 | true iff the data holds the key; defaults are not consulted |
| `Preferences.PersistentStore.Clear` | src/main/index.ts:140-143 | the data becomes the defaults, then it is saved |
| `Preferences.PersistentStore.Store` | src/main/index.ts:146-148 | a snapshot equal to the data key by key at the top level (nested values are shared in the source; see "Left out") |

## Left out

- HTTP transport is not modelled: the axios instances and interceptors, `getContainerGoods`
  and `getDeviceStatus`. Their answers are inputs (`FetchOutcome`, one optional device per
  poll), and the interceptors' effects on `isLoading` and the connection statuses are not
  modelled.
- The response interceptors' writes to `state.errorMessage` are not modelled
  (src/renderer/src/stores/wms.ts:149, 155, 164, 170). Every answer of either HTTP client
  sets it to `''`, and every failure sets it to `WMS API错误: …` or `WCS API错误: …`. In the
  source, a failed start-up poll therefore leaves `WCS API错误: <message>` on screen, and
  `handleInfo` does not clear it; in the model `SeedDevices` leaves `errorMessage` as it was.
  The two-station fetches also go through these interceptors, so in the source they write the
  single-station `errorMessage` too; `DualStationState` never touches it. `getGoods`' own
  writes come after the interceptor's and decide the final message, so `GetGoods` is exact.
- `initialize`, `initializeDualStation`'s connection-status bookkeeping, the 3-second retry
  timer and the error text that `refreshData` shows when `handleInfo` throws are not
  modelled. In the model nothing inside `handleInfo` can throw.
- Concurrency is not modelled. Each asynchronous operation runs to completion with the
  answers it is given. Interleavings of overlapping fetches (and `Promise.all`) are not
  modelled, so stale answers are not either.
- Vue `reactive` wrapping, the getters and `useWMSStore` are not modelled. The
  two-station state is its own class here, although the source keeps it inside the same
  `WMSStore` object.
- The tray map's `timestamp` fields and the `Date.now()` that seeds them are not modelled,
  because nothing reads them.
- The `if (!device) continue` guard of `updateDeviceTrayMap`
  (src/renderer/src/stores/wms.ts:282) skips `null` or `undefined` registry entries. The model's
  registry holds only device records, so that case does not arise.
- A device record without a `code` field is not modelled. Codes are strings, so an absent
  code and `''` are the same. The source stores a polled child without a code under the key
  `"undefined"` (src/renderer/src/stores/wms.ts:250-251); the model stores it under its code
  as given. `child.code || …` in `ChildKey` treats both alike, as the source does.
- `Object.entries` lists integer-like keys first, in numeric order. The registry model
  keeps plain insertion order, which is exact only for non-numeric device codes.
- Lexicographic string comparison is modelled on Unicode code points. JavaScript compares
  UTF-16 code units, and the two differ only for characters outside the Basic
  Multilingual Plane.
- `key in data` and `data[key]` in `PersistentStore` also see `Object.prototype` members
  such as `toString`. The model sees only the stored keys.
- Preferences.PersistentStore.Store: values are immutable in the model. In the source,
  `store` is a shallow copy (`{ ...this.data }`), and `get` returns the stored object
  itself. So nested arrays and objects are shared with `data`, and mutating one (for
  example `store.list.push(x)`) changes `data` without a save. The model's contract covers
  the top-level keys only.
- A configuration file that parses to something other than a JSON object (a number,
  `null`, a string) is not modelled. The file's key order and JSON text are not modelled
  either.
- Numbers in `PersistentStore` values are integers, so floating point is not modelled.
- File-system effects are not modelled: the user-data directory, the temp-file rename and
  the backup of a corrupted file. The file is reduced to its last written content.
- `Model3DCache` rendering is not modelled: THREE.js materials, the environment map, the
  renderer, `STLLoader.parse` (a parsed geometry is its bytes here), the `clone()` of
  returned geometries, `getStats`, `getSharedMaterial`, `getEnvMap` and the disposal
  calls.
- The cleanup timer is reduced to its handle. `CleanupCache` is the callback it runs
  every 60000 ms.
- `GeometryCache.Model3DCache.Animate`: the 30 fps frame limiter (floating-point
  `1000 / MAX_FPS` and `%`) and the rendering of visible, active instances are not
  modelled. Only the frame request is modelled.
- `GeometryCache.Model3DCache.GetGeometry`: a caller that waits on an in-flight load
  resolves with that load's result, or fails with it. That continuation is not modelled,
  since it does not change the cache.
- The Electron shell, IPC, window and menu code, the preload scripts, the Go servers and
  the build files are not part of this model.

## Findings

| source | as written | input that shows it | evidently intended | confidence | as-written member | corrected member |
|---|---|---|---|---|---|---|
| src/renderer/src/stores/wms.ts:593-597 | When the station's record has no valid pallet code, `fetchStationData` clears the container only if `currentContainer` is already empty. A tray that has left the station therefore stays displayed with its goods. | Station Tran3002 shows container `P1` with goods; its record then arrives with `palletCode` `""`. `fetchStationData('Tran3002')` leaves `currentContainer` `P1` and keeps the goods. | When no tray is found, the station shows no container and no goods, as the comment on line 593 says ("如果没有找到托盘，清空数据": if no tray is found, clear the data). | high (not executed) | `DualStation.AsWrittenKeepsDepartedTray` | `DualStation.FetchShowsOwnPallet` |
