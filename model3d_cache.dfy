/** The 3D model resource manager: a geometry cache keyed by goods number with reference
    counts and age-based eviction, and the registry of render instances that drives one
    shared animation loop (src/renderer/src/utils/Model3DCache.ts). Geometries are
    abstract values, the clock is a `now` parameter and frame or timer handles are
    parameters. */
module GeometryCache {

  datatype Option<T> = None | Some(value: T)

  datatype Result<T, E> = Ok(value: T) | Err(error: E)

  /** `CACHE_CLEANUP_INTERVAL`: milliseconds between two cleanup passes. */
  const CacheCleanupInterval: nat := 60000

  /** `CACHE_MAX_AGE`: an unreferenced entry older than this is evicted. */
  const CacheMaxAge: int := 300000

  /** The smallest STL file accepted: an 80-byte header and a 4-byte triangle count. */
  const StlMinBytes: nat := 84

  /** A `THREE.BufferGeometry`: the empty placeholder of an entry still loading, or the
      geometry parsed from a downloaded STL file. */
  datatype Geometry = Placeholder | Parsed(stl: seq<bv8>)

  /** A `GeometryCache` entry; `loading` stands for a pending `loading` promise. */
  datatype Entry = Entry(geometry: Geometry, loading: bool, lastUsed: int, refCount: int)

  /** What the model download yields: a non-OK HTTP status or the body. */
  datatype Download = HttpError(status: int) | Body(bytes: seq<bv8>)

  datatype LoadError = HttpStatus(status: int) | StlTooSmall(byteLength: nat)

  /** `loadGeometryFromServer`: a failed request or a body shorter than 84 bytes is an error;
      anything else is parsed. */
  function LoadGeometryFromServer(d: Download): (r: Result<Geometry, LoadError>)
    ensures r.Ok? <==> d.Body? && |d.bytes| >= StlMinBytes
    ensures r.Ok? ==> r.value == Parsed(d.bytes)
    ensures d.HttpError? ==> r == Err(HttpStatus(d.status))
    ensures d.Body? && |d.bytes| < StlMinBytes ==> r == Err(StlTooSmall(|d.bytes|))
  {
    match d
    case HttpError(status) => Err(HttpStatus(status))
    case Body(bytes) => if |bytes| < StlMinBytes then Err(StlTooSmall(|bytes|)) else Ok(Parsed(bytes))
  }

  /** The synchronous part of `getGeometry`, up to its first `await`. */
  datatype Lookup =
    | Hit(geometry: Geometry)   // a loaded entry: its geometry (the source returns a clone)
    | Wait                      // an entry still loading: the caller awaits that load
    | StartedLoad               // a miss: a placeholder is in the cache and the download is under way

  /** The cleanup rule: unreferenced and older than `CACHE_MAX_AGE`. */
  predicate Expired(e: Entry, now: int) {
    now - e.lastUsed > CacheMaxAge && e.refCount == 0
  }

  /** A `RenderInstance` without its `render` and `checkVisibility` callbacks. */
  datatype RenderInstance = RenderInstance(id: string, isActive: bool)

  class Model3DCache {
    var geometryCache: map<string, Entry>
    var renderInstances: map<string, RenderInstance>
    var animationId: Option<nat>
    var isAnimating: bool
    var cacheCleanupTimer: Option<nat>

    /** Reference counts never go negative; the loop runs exactly while some instance is
        registered, and holds a frame request exactly while it runs. */
    ghost predicate Valid()
      reads this
    {
      (forall k :: k in geometryCache ==> geometryCache[k].refCount >= 0) &&
      (isAnimating <==> |renderInstances| > 0) &&
      (animationId.Some? <==> isAnimating)
    }

    /** The private constructor: shared resources (left out) and the cleanup timer, whose
        handle is `timer`. */
    constructor(timer: nat)
      ensures Valid()
      ensures geometryCache == map[] && renderInstances == map[]
      ensures !isAnimating && animationId == None && cacheCleanupTimer == Some(timer)
    {
      geometryCache := map[];
      renderInstances := map[];
      animationId := None;
      isAnimating := false;
      cacheCleanupTimer := Some(timer);
    }

    /** `getGeometry(goodsNo)` up to the download: a hit counts a reference and refreshes
        `lastUsed`; an entry still loading is left alone; a miss inserts a loading
        placeholder holding one reference. */
    method GetGeometry(goodsNo: string, now: int) returns (step: Lookup)
      requires Valid()
      modifies this`geometryCache
      ensures Valid()
      ensures goodsNo in old(geometryCache) && !old(geometryCache)[goodsNo].loading ==>
                var e := old(geometryCache)[goodsNo];
                step == Hit(e.geometry) &&
                geometryCache == old(geometryCache)[goodsNo := e.(lastUsed := now, refCount := e.refCount + 1)]
      ensures goodsNo in old(geometryCache) && old(geometryCache)[goodsNo].loading ==>
                step == Wait && geometryCache == old(geometryCache)
      ensures goodsNo !in old(geometryCache) ==>
                step == StartedLoad && geometryCache == old(geometryCache)[goodsNo := Entry(Placeholder, true, now, 1)]
    {
      if goodsNo in geometryCache && !geometryCache[goodsNo].loading {
        var cached := geometryCache[goodsNo];
        geometryCache := geometryCache[goodsNo := cached.(lastUsed := now, refCount := cached.refCount + 1)];
        return Hit(cached.geometry);
      }
      if goodsNo in geometryCache && geometryCache[goodsNo].loading {
        return Wait;
      }
      geometryCache := geometryCache[goodsNo := Entry(Placeholder, true, now, 1)];
      step := StartedLoad;
    }

    /** The rest of `getGeometry` after a miss: the download answered `download` at time
        `now`. Success replaces the entry by the loaded geometry with one reference;
        failure removes the key. */
    method FinishLoad(goodsNo: string, now: int, download: Download) returns (r: Result<Geometry, LoadError>)
      requires Valid()
      modifies this`geometryCache
      ensures Valid()
      ensures r == LoadGeometryFromServer(download)
      ensures r.Ok? ==> geometryCache == old(geometryCache)[goodsNo := Entry(r.value, false, now, 1)]
      ensures r.Err? ==> geometryCache == old(geometryCache) - {goodsNo}
    {
      r := LoadGeometryFromServer(download);
      if r.Ok? {
        geometryCache := geometryCache[goodsNo := Entry(r.value, false, now, 1)];
      } else {
        geometryCache := geometryCache - {goodsNo};
      }
    }

    /** `releaseGeometry(goodsNo)`: one reference fewer, never below zero; an unknown key
        changes nothing. */
    method ReleaseGeometry(goodsNo: string)
      requires Valid()
      modifies this`geometryCache
      ensures Valid()
      ensures goodsNo in old(geometryCache) && old(geometryCache)[goodsNo].refCount > 0 ==>
                geometryCache == old(geometryCache)[goodsNo := old(geometryCache)[goodsNo].(refCount := old(geometryCache)[goodsNo].refCount - 1)]
      ensures !(goodsNo in old(geometryCache) && old(geometryCache)[goodsNo].refCount > 0) ==>
                geometryCache == old(geometryCache)
    {
      if goodsNo in geometryCache && geometryCache[goodsNo].refCount > 0 {
        var cached := geometryCache[goodsNo];
        geometryCache := geometryCache[goodsNo := cached.(refCount := cached.refCount - 1)];
      }
    }

    /** `cleanupCache()` at time `now`: exactly the expired entries are removed and every
        other entry is kept as it was. */
    method CleanupCache(now: int)
      requires Valid()
      modifies this`geometryCache
      ensures Valid()
      ensures forall k :: k in geometryCache <==> k in old(geometryCache) && !Expired(old(geometryCache)[k], now)
      ensures forall k :: k in geometryCache ==> geometryCache[k] == old(geometryCache)[k]
    {
      var pending := geometryCache.Keys;
      while pending != {}
        invariant pending <= old(geometryCache).Keys
        invariant forall k :: k in geometryCache ==> k in old(geometryCache) && geometryCache[k] == old(geometryCache)[k]
        invariant forall k :: k in old(geometryCache) && k !in pending ==>
                    (k in geometryCache <==> !Expired(old(geometryCache)[k], now))
        invariant forall k :: k in pending ==> k in geometryCache
        invariant Valid()
        decreases pending
      {
        var key :| key in pending;
        var cached := geometryCache[key];
        if Expired(cached, now) {
          geometryCache := geometryCache - {key};
        }
        pending := pending - {key};
      }
    }

    /** `animate(currentTime)` as far as the loop's own state goes: while running it asks
        for the next frame, whose handle is `frame`. The frame limiter and the rendering
        of visible instances are left out. */
    method Animate(frame: nat)
      modifies this`animationId
      ensures isAnimating ==> animationId == Some(frame)
      ensures !isAnimating ==> animationId == old(animationId)
    {
      if !isAnimating {
        return;
      }
      animationId := Some(frame);
    }

    /** `startAnimation()`: starting a running loop does nothing. */
    method StartAnimation(frame: nat)
      modifies this`isAnimating, this`animationId
      ensures old(isAnimating) ==> isAnimating && animationId == old(animationId)
      ensures !old(isAnimating) ==> isAnimating && animationId == Some(frame)
    {
      if isAnimating {
        return;
      }
      isAnimating := true;
      animationId := Some(frame);
    }

    /** `stopAnimation()`: the loop stops and its pending frame is cancelled. */
    method StopAnimation()
      modifies this`isAnimating, this`animationId
      ensures !isAnimating && animationId == None
    {
      isAnimating := false;
      if animationId != None {
        animationId := None;
      }
    }

    /** `registerRenderInstance(id, ...)`: the instance is stored as active (replacing one
        with the same id) and the loop is started if it was not running; `frame` is the
        handle of the first frame request. */
    method RegisterRenderInstance(id: string, frame: nat)
      requires Valid()
      modifies this`renderInstances, this`isAnimating, this`animationId
      ensures Valid()
      ensures renderInstances == old(renderInstances)[id := RenderInstance(id, true)]
      ensures isAnimating
      ensures animationId == if old(isAnimating) then old(animationId) else Some(frame)
    {
      renderInstances := renderInstances[id := RenderInstance(id, true)];
      assert id in renderInstances.Keys;
      if !isAnimating {
        StartAnimation(frame);
      }
    }

    /** `unregisterRenderInstance(id)`: the instance is removed, and removing the last one
        stops the loop. */
    method UnregisterRenderInstance(id: string)
      requires Valid()
      modifies this`renderInstances, this`isAnimating, this`animationId
      ensures Valid()
      ensures renderInstances == old(renderInstances) - {id}
      ensures |renderInstances| == 0 ==> !isAnimating && animationId == None
      ensures |renderInstances| > 0 ==> isAnimating == old(isAnimating) && animationId == old(animationId)
    {
      renderInstances := renderInstances - {id};
      if |renderInstances| == 0 {
        StopAnimation();
      } else {
        SubsetCard(renderInstances.Keys, old(renderInstances).Keys);
      }
    }

    /** `destroy()`: the loop stops, the cleanup timer is cleared, both maps are emptied
        and the singleton slot is reset. */
    method Destroy(slot: Model3DCacheSlot)
      requires Valid()
      modifies this, slot
      ensures Valid()
      ensures !isAnimating && animationId == None && cacheCleanupTimer == None
      ensures renderInstances == map[] && geometryCache == map[]
      ensures slot.instance == null
    {
      StopAnimation();
      if cacheCleanupTimer != None {
        cacheCleanupTimer := None;
      }
      renderInstances := map[];
      geometryCache := map[];
      slot.instance := null;
    }
  }

  lemma SubsetCard(a: set<string>, b: set<string>)
    requires a <= b
    ensures |a| <= |b|
  {
    assert b == a + (b - a);
  }

  /** `Model3DCache.instance`, the singleton slot. */
  class Model3DCacheSlot {
    var instance: Model3DCache?

    constructor()
      ensures instance == null
    {
      instance := null;
    }

    /** `getInstance()`: the existing instance, or a new one (cleanup timer `timer`). */
    method GetInstance(timer: nat) returns (c: Model3DCache)
      modifies this
      ensures old(instance) != null ==> c == old(instance) && instance == c
      ensures old(instance) == null ==> fresh(c) && instance == c && c.Valid()
      ensures old(instance) == null ==>
                c.geometryCache == map[] && c.renderInstances == map[] && c.cacheCleanupTimer == Some(timer)
    {
      if instance == null {
        instance := new Model3DCache(timer);
      }
      c := instance;
    }
  }
}
