/** The preferences store of the main process: an in-memory record overlaid on fixed
    defaults and written to a JSON file after every change (`PersistentStore` in
    src/main/index.ts and its compiled form out/main/index.js). The file system is
    reduced to the file's last successfully written content and a flag per write saying
    whether it succeeded. */
module Preferences {

  /** A JavaScript value as stored under a key. `Structured` stands for an array or an
      object, by its JSON text. */
  datatype Value = Undefined | Null | Bool(b: bool) | Num(n: int) | Str(s: string) | Structured(json: string)

  /** `value == null`: what `??` replaces. */
  predicate Nullish(v: Value) {
    v.Undefined? || v.Null?
  }

  /** `defaults` */
  const Defaults: map<string, Value> := map["station" := Str("Tran3001")]

  /** The configuration file as `load` finds it: absent, not valid JSON, or a JSON object
      (which holds no `undefined`). */
  datatype ConfigFile = Missing | Unparsable | Parsed(entries: map<string, Value>)

  /** `data[key] ?? defaults[key]`, where a key absent from both reads as `undefined`. */
  function Lookup(data: map<string, Value>, key: string): Value {
    if key in data && !Nullish(data[key]) then data[key]
    else if key in Defaults then Defaults[key]
    else Undefined
  }

  /** `{ ...defaults, ...loaded }`: the file's keys override the defaults. */
  function Merge(loaded: map<string, Value>): (r: map<string, Value>)
    ensures forall k :: k in r <==> k in Defaults || k in loaded
    ensures forall k :: k in loaded ==> r[k] == loaded[k]
    ensures forall k :: k in Defaults && k !in loaded ==> r[k] == Defaults[k]
  {
    Defaults + loaded
  }

  /** What `JSON.stringify(data)` keeps: every key whose value is not `undefined`. */
  function Serialize(data: map<string, Value>): (r: map<string, Value>)
    ensures forall k :: k in r <==> k in data && !data[k].Undefined?
    ensures forall k :: k in r ==> r[k] == data[k]
  {
    map k | k in data && !data[k].Undefined? :: data[k]
  }

  /** After `set(key, value)` with a value other than `null`/`undefined`, `get(key)` is that
      value; every other key reads as before. */
  lemma GetAfterSet(data: map<string, Value>, key: string, value: Value, other: string)
    ensures !Nullish(value) ==> Lookup(data[key := value], key) == value
    ensures other != key ==> Lookup(data[key := value], other) == Lookup(data, other)
  {
  }

  /** After `delete(key)`, `has(key)` is false and `get(key)` falls back to the default;
      every other key reads as before. */
  lemma GetAfterDelete(data: map<string, Value>, key: string, other: string)
    ensures key !in data - {key}
    ensures Lookup(data - {key}, key) == (if key in Defaults then Defaults[key] else Undefined)
    ensures other != key ==> Lookup(data - {key}, other) == Lookup(data, other)
  {
  }

  /** Writing the data and loading it back reads every key the same: `get` survives a
      restart, although `has` may not (keys holding `undefined` are dropped and missing
      default keys come back). */
  lemma {:induction false} ReloadPreservesGet(data: map<string, Value>, key: string)
    ensures Lookup(Merge(Serialize(data)), key) == Lookup(data, key)
  {
    var merged := Merge(Serialize(data));
    if key in data && data[key].Undefined? {
      assert key !in Serialize(data);
    }
  }

  /** What a successful write stores. */
  function Written(data: map<string, Value>): ConfigFile {
    Parsed(Serialize(data))
  }

  class PersistentStore {
    var data: map<string, Value>
    /** The configuration file's content. */
    var file: ConfigFile

    /** The constructor's `load()`: a readable file is merged over the defaults; a missing
        file means the defaults, which are then written (`writeOk` says whether that
        write succeeds); an unreadable file means the defaults and the file is left as is
        (its backup copy is left out). */
    constructor(existing: ConfigFile, writeOk: bool)
      ensures existing.Parsed? ==> data == Merge(existing.entries) && file == existing
      ensures existing.Missing? ==> data == Defaults && file == (if writeOk then Written(Defaults) else Missing)
      ensures existing.Unparsable? ==> data == Defaults && file == Unparsable
    {
      file := existing;
      match existing
      case Parsed(loadedData) =>
        data := Merge(loadedData);
      case Missing =>
        data := Defaults;
        if writeOk {
          file := Written(Defaults);
        }
      case Unparsable =>
        data := Defaults;
    }

    /** `save()`: the data is written when the write succeeds; a failure is only logged. */
    method Save(writeOk: bool)
      modifies this`file
      ensures file == if writeOk then Written(data) else old(file)
    {
      if writeOk {
        file := Written(data);
      }
    }

    /** `saveAsync()`: as `save`, but the failure is reported to the caller. */
    method SaveAsync(writeOk: bool) returns (ok: bool)
      modifies this`file
      ensures ok == writeOk
      ensures file == if writeOk then Written(data) else old(file)
    {
      if writeOk {
        file := Written(data);
      }
      ok := writeOk;
    }

    /** `get(key)` */
    method Get(key: string) returns (v: Value)
      ensures v == Lookup(data, key)
      ensures key in data && !Nullish(data[key]) ==> v == data[key]
      ensures !(key in data && !Nullish(data[key])) ==> v == (if key in Defaults then Defaults[key] else Undefined)
    {
      if key in data && !Nullish(data[key]) {
        v := data[key];
      } else if key in Defaults {
        v := Defaults[key];
      } else {
        v := Undefined;
      }
    }

    /** `set(key, value)` */
    method Set(key: string, value: Value, writeOk: bool)
      modifies this
      ensures data == old(data)[key := value]
      ensures file == if writeOk then Written(data) else old(file)
    {
      data := data[key := value];
      Save(writeOk);
    }

    /** `setAsync(key, value)`: resolves exactly when the write succeeds. */
    method SetAsync(key: string, value: Value, writeOk: bool) returns (ok: bool)
      modifies this
      ensures data == old(data)[key := value]
      ensures ok == writeOk
      ensures file == if writeOk then Written(data) else old(file)
    {
      data := data[key := value];
      ok := SaveAsync(writeOk);
    }

    /** `delete(key)` */
    method Delete(key: string, writeOk: bool)
      modifies this
      ensures data == old(data) - {key}
      ensures file == if writeOk then Written(data) else old(file)
    {
      data := data - {key};
      Save(writeOk);
    }

    /** `has(key)`: only the data counts, never the defaults. */
    method Has(key: string) returns (b: bool)
      ensures b <==> key in data
    {
      b := key in data;
    }

    /** `clear()`: back to the defaults. */
    method Clear(writeOk: bool)
      modifies this
      ensures data == Defaults
      ensures file == if writeOk then Written(Defaults) else old(file)
    {
      data := Defaults;
      Save(writeOk);
    }

    /** `store`: a copy of the data, equal to it key by key. The source's copy is shallow, so
        nested values are shared with `data`; values here are immutable. */
    method Store() returns (snapshot: map<string, Value>)
      ensures snapshot == data
    {
      snapshot := data;
    }
  }
}
