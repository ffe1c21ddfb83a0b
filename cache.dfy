/** The in-memory cache that maps check aliases to check tokens and never forgets an entry.
    The reader/writer lock of the Go type is left out: this model is sequential. */
module Cache {

  class MemoryCache {

    /** The stored entries, key to value. */
    var items: map<string, string>

    /** `NewMemoryCache`: a cache with no entries, so `Has` is false for every key. */
    constructor ()
      ensures items == map[]
      ensures forall k :: k !in items
    {
      items := map[];
    }

    /** Whether a value was stored for `key`. Changes nothing. */
    method Has(key: string) returns (has: bool)
      ensures has <==> key in items
    {
      has := key in items;
    }

    /** Stores `value` for `key`, overwriting any earlier value; every other key keeps
        its presence and its value. */
    method Put(key: string, value: string)
      modifies this
      ensures items == old(items)[key := value]
      ensures key in items && items[key] == value
      ensures forall k :: k != key ==> (k in items <==> k in old(items))
      ensures forall k :: k != key && k in items ==> items[k] == old(items)[k]
    {
      items := items[key := value];
    }

    /** The value stored for `key` and whether there was one; an absent key yields
        `(false, "")`, the zero value of a Go string. Agrees with `Has` and changes nothing. */
    method Get(key: string) returns (has: bool, value: string)
      ensures has <==> key in items
      ensures has ==> value == items[key]
      ensures !has ==> value == ""
    {
      has := key in items;
      value := if has then items[key] else "";
    }
  }

  /** The scenario of the cache's unit test: a fresh cache does not have "foo"; after
      storing "bar" under "foo" it has it, and `Get` returns it. */
  method FreshPutGet() returns (hadBefore: bool, hasAfter: bool, found: bool, value: string)
    ensures !hadBefore && hasAfter && found && value == "bar"
  {
    var c := new MemoryCache();
    hadBefore := c.Has("foo");
    c.Put("foo", "bar");
    hasAfter := c.Has("foo");
    found, value := c.Get("foo");
  }

  /** Two writes to one key: the second value is the one read back, on any cache. */
  method PutTwice(c: MemoryCache, key: string, v1: string, v2: string) returns (found: bool, value: string)
    modifies c
    ensures c.items == old(c.items)[key := v2]
    ensures found && value == v2
  {
    c.Put(key, v1);
    c.Put(key, v2);
    found, value := c.Get(key);
  }
}
