/** An object store with conditional PUT, as the BlobStore contract describes it. */
module Store {
  import opened Bytes

  predicate HasPrefix(s: string, prefix: string) {
    prefix <= s
  }

  class MemStore<T> {
    var objects: map<string, T>

    constructor ()
      ensures objects == map[]
    {
      objects := map[];
    }

    method Get(key: string) returns (r: Option<T>)
      ensures r == if key in objects then Some(objects[key]) else None
    {
      r := if key in objects then Some(objects[key]) else None;
    }

    /** With If-None-Match: * an existing object makes the PUT fail and stays as it is. */
    method Put(key: string, body: T, ifNoneMatch: bool) returns (ok: bool)
      modifies this
      ensures ok == !(ifNoneMatch && key in old(objects))
      ensures objects == if ok then old(objects)[key := body] else old(objects)
    {
      if ifNoneMatch && key in objects {
        return false;
      }
      objects := objects[key := body];
      return true;
    }

    method Delete(key: string)
      modifies this
      ensures objects == old(objects) - {key}
    {
      objects := objects - {key};
    }

    /** Every key with the prefix once, in no particular order. */
    method List(prefix: string) returns (keys: seq<string>)
      ensures forall k :: k in keys <==> k in objects && HasPrefix(k, prefix)
      ensures forall i, j | 0 <= i < j < |keys| :: keys[i] != keys[j]
    {
      keys := [];
      var rest := objects.Keys;
      while rest != {}
        invariant rest <= objects.Keys
        invariant forall k :: k in keys <==> k in objects && k !in rest && HasPrefix(k, prefix)
        invariant forall i, j | 0 <= i < j < |keys| :: keys[i] != keys[j]
        decreases |rest|
      {
        var k :| k in rest;
        rest := rest - {k};
        if HasPrefix(k, prefix) {
          keys := keys + [k];
        }
      }
    }
  }
}
