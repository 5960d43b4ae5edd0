/** What the local station shows, and how `checkCurrentStationTray` and `getGoods` change it
    (src/renderer/src/stores/wms.ts:384-421, electron/src/renderer/src/stores/wms.ts:340-377). */
module Station {
  import opened Text
  import opened Devices

  /** A manifest line of a container. */
  datatype Goods = Goods(goodsNo: string, goodsName: string, goodsSpec: string, quantity: int, unit: string)

  /** What `getContainerGoods` yields: the body of an HTTP answer (`errCode`, `errMsg`,
      `data`, where `data` may be absent) or a thrown error with its message. */
  datatype FetchOutcome =
    | Response(errCode: int, errMsg: string, data: Option<seq<Goods>>)
    | TransportError(message: string)

  const UnknownError: string := "未知错误"
  const RequestFailed: string := "请求失败"

  /** The fields of the store state the transitions touch. */
  datatype LocalView = LocalView(currentContainer: string, localGoods: seq<Goods>, errorMessage: string)

  /** How the local station's tray changed since the last pass. */
  datatype Transition = Unchanged | Arrival(tray: string) | Swap(from: string, to: string) | Departure(from: string)

  /** The decision `checkCurrentStationTray` takes from the tray map entry of the local
      station (`tray`) and `currentContainer`. */
  function Classify(current: string, tray: Option<string>): (r: Transition)
    ensures r.Unchanged? <==> tray == Some(current) || (tray.None? && current == "")
    ensures r.Arrival? <==> tray.Some? && tray.value != current && current == ""
    ensures r.Swap? <==> tray.Some? && tray.value != current && current != ""
    ensures r.Departure? <==> tray.None? && current != ""
    ensures r.Arrival? ==> r.tray == tray.value
    ensures r.Swap? ==> r.from == current && r.to == tray.value
    ensures r.Departure? ==> r.from == current
  {
    match tray
    case Some(t) => if t == current then Unchanged else if current == "" then Arrival(t) else Swap(current, t)
    case None => if current != "" then Departure(current) else Unchanged
  }

  /** The station is vacated: no container and no goods; the error message is kept. */
  function Vacated(v: LocalView): LocalView {
    LocalView("", [], v.errorMessage)
  }

  /** `getGoods` before the fetch resolves: only `currentContainer` has changed, so during a
      swap the new container is shown with the previous container's goods. */
  function FetchStarted(v: LocalView, containerNo: string): LocalView {
    v.(currentContainer := containerNo)
  }

  /** The outcome of the fetch applied to the view. */
  function ApplyOutcome(v: LocalView, o: FetchOutcome): LocalView {
    match o
    case Response(errCode, errMsg, data) =>
      if errCode == 0 then
        v.(localGoods := if data.Some? then data.value else [], errorMessage := "")
      else
        v.(errorMessage := OrElse(errMsg, UnknownError), localGoods := [])
    case TransportError(message) =>
      v.(errorMessage := OrElse(message, RequestFailed), localGoods := [])
  }

  /** `getGoods(containerNo)` with the fetch answering `o`. */
  function GoodsLoaded(v: LocalView, containerNo: string, o: FetchOutcome): (r: LocalView)
    ensures containerNo == "" || containerNo == "0" ==> r == Vacated(v)
    ensures containerNo != "" && containerNo != "0" ==> r.currentContainer == containerNo
    ensures containerNo != "" && containerNo != "0" && o.Response? && o.errCode == 0 ==>
              r.errorMessage == "" && r.localGoods == (if o.data.Some? then o.data.value else [])
    ensures containerNo != "" && containerNo != "0" && o.Response? && o.errCode != 0 ==>
              r.errorMessage == OrElse(o.errMsg, UnknownError) && r.localGoods == []
    ensures containerNo != "" && containerNo != "0" && o.TransportError? ==>
              r.errorMessage == OrElse(o.message, RequestFailed) && r.localGoods == []
  {
    if containerNo == "" || containerNo == "0" then Vacated(v)
    else ApplyOutcome(FetchStarted(v, containerNo), o)
  }

  /** `checkCurrentStationTray` with the local station's tray code `tray` and the fetch
      (if one is made) answering `o`. */
  function AfterCheck(v: LocalView, tray: Option<string>, o: FetchOutcome): LocalView {
    match Classify(v.currentContainer, tray)
    case Unchanged => v
    case Arrival(t) => GoodsLoaded(v, t, o)
    case Swap(_, t) => GoodsLoaded(v, t, o)
    case Departure(_) => Vacated(v)
  }

  /** Whether a pass makes a fetch at all. */
  predicate Fetches(v: LocalView, tray: Option<string>) {
    var t := Classify(v.currentContainer, tray);
    (t.Arrival? || t.Swap?) && tray.value != "" && tray.value != "0"
  }

  /** After a pass, a second pass with the same tray makes no fetch and changes nothing:
      recomputation is idempotent. */
  lemma CheckIdempotent(v: LocalView, tray: Option<string>, o1: FetchOutcome, o2: FetchOutcome)
    ensures AfterCheck(AfterCheck(v, tray, o1), tray, o2) == AfterCheck(v, tray, o1)
    ensures tray.None? || ValidPallet(tray.value) ==> !Fetches(AfterCheck(v, tray, o1), tray)
  {
  }

  /** A pass right after a completed pass, or on a vacated station with no tray, changes
      nothing. */
  lemma SecondCheckNoOp(v: LocalView, before: LocalView, tray: Option<string>, o: FetchOutcome)
    requires v == AfterCheck(before, tray, o) || (tray.None? && v.currentContainer == "")
    ensures AfterCheck(v, tray, o) == v
  {
    if v == AfterCheck(before, tray, o) {
      CheckIdempotent(before, tray, o, o);
    }
  }

  /** A pass fetches exactly when the local station holds a tray other than the current one. */
  lemma FetchOnlyOnChange(v: LocalView, tray: Option<string>, o: FetchOutcome)
    requires tray.None? || ValidPallet(tray.value)
    ensures Fetches(v, tray) <==> tray.Some? && tray.value != v.currentContainer
    ensures !Fetches(v, tray) ==> AfterCheck(v, tray, o) == (if tray.None? && v.currentContainer != "" then Vacated(v) else v)
  {
  }

  /** The goods shown after a fetch depend only on the fetch, never on what was shown before
      (in particular not on the previous container's goods). */
  lemma NoStaleGoods(v1: LocalView, v2: LocalView, containerNo: string, o: FetchOutcome)
    ensures GoodsLoaded(v1, containerNo, o).localGoods == GoodsLoaded(v2, containerNo, o).localGoods
    ensures GoodsLoaded(v1, containerNo, o).currentContainer == GoodsLoaded(v2, containerNo, o).currentContainer
  {
  }

}
