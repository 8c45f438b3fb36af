/** A set that is written through to a store (mailpile/packing.py:94-147, 218-234). */
module StorageBacked {
  import opened Wrappers
  import opened BitMask
  import opened Packing

  type Storage = map<string, Bytes>

  /** What loading gives: the empty set if nothing is stored, None if the data cannot be unpacked. */
  function Loaded(z: Zlib, storage: Storage, key: string): Option<set<nat>> {
    UnpackIntSet(z, if key in storage then storage[key] else [])
  }

  /** The members of a set in the order in which they are walked. */
  predicate Walks(order: seq<nat>, s: set<nat>) {
    Members(order) == s
  }

  /** Can the set be saved, walked in this order, and loaded again? */
  predicate Storable(order: seq<nat>) {
    && (|order| > MAX_PLAIN || Below(order, 0x1_0000_0000))
    && !LooksCompressed(order, 4, 0xffff_ffff)
  }

  class StorageBackedSet {
    const zlib: Zlib
    const key: string
    var storage: Storage
    var obj: set<nat>
    var dirty: bool
    var autoSave: bool
    var interval: real
    var lastSave: real

    /** Unless marked as dirty, the set is what loading would give. */
    ghost predicate InStep()
      reads this
    {
      !dirty ==> Loaded(zlib, storage, key) == Some(obj)
    }

    constructor (z: Zlib, stored: Storage, skey: string, now: real)
      requires Loaded(z, stored, skey).Some?
      ensures zlib == z && key == skey && storage == stored && obj == Loaded(z, stored, skey).value && InStep()
      ensures autoSave && interval == -1.0 && lastSave == now
    {
      zlib, key, storage, obj := z, skey, stored, Loaded(z, stored, skey).value;
      dirty, autoSave, interval, lastSave := false, true, -1.0, now;
    }

    /** False stands for struct.error. A set that was saved is in step just in case it can be loaded again. */
    method Save(maybe: bool, order: seq<nat>) returns (ok: bool)
      requires Sound(zlib) && Walks(order, obj)
      modifies this`storage, this`dirty
      ensures maybe && !old(dirty) ==> ok && storage == old(storage) && !dirty
      ensures !(maybe && !old(dirty)) ==>
                && (ok <==> |order| > MAX_PLAIN || Below(order, 0x1_0000_0000))
                && (ok ==> !dirty && (Loaded(zlib, storage, key) == Some(obj) <==> Storable(order)))
                && (!ok ==> storage == old(storage) && dirty == old(dirty))
    {
      if maybe && !dirty {
        return true;
      }
      var data := PackIntSet(zlib, order);
      if data.None? {
        return false;
      }
      storage := storage[key := data.value];
      dirty := false;
      IntSetRoundTripExactly(zlib, order);
      ok := true;
    }

    /** A method that writes: the object changes, and is saved if that is due. */
    method Write(value: set<nat>, order: seq<nat>, now: real) returns (ok: bool)
      requires Sound(zlib) && Walks(order, value) && InStep()
      modifies this`obj, this`storage, this`dirty
      ensures obj == value
      ensures InStep() <==> dirty || Storable(order)
      ensures dirty <==> !ok || !autoSave || !(interval < 1.0 || lastSave < now - interval)
      ensures autoSave && interval < 1.0 && Storable(order) ==> ok && Loaded(zlib, storage, key) == Some(obj)
    {
      obj := value;
      dirty := true;
      ok := true;
      if autoSave && (interval < 1.0 || lastSave < now - interval) {
        ok := Save(false, order);
      }
    }
  }
}
