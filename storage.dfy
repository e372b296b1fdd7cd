/**
 * The expiring key-value wrapper over `localStorage`.  The backing store is
 * a map from keys to what `JSON.parse` makes of the stored text; the clock
 * (`Date.now()`, in milliseconds) is a parameter of every operation that
 * reads it.
 */
module Storage {
  import opened Wrappers

  /** A stored value: `null`, or the JSON text of any other value. */
  datatype Value = Null | Json(text: string)

  /**
   * A `localStorage` entry: a record `{ value, expire? }` as `set` writes
   * it, or text that does not parse as one (including the empty string,
   * which `get` turns away before parsing).
   */
  datatype Item = Record(value: Value, expire: Option<int>) | Malformed

  /** The deadline `set` records: `expire ? now + expire * 1000 : undefined` (any non-zero expiry counts, negative ones too). */
  function Deadline(expire: Option<int>, now: int): (r: Option<int>)
    ensures r.None? <==> expire.None? || expire.value == 0
    ensures r.Some? ==> r.value - now == expire.value * 1000
  {
    if expire.Some? && expire.value != 0 then Some(now + expire.value * 1000) else None
  }

  /** `data.expire && data.expire < now`: a deadline of exactly 0 is falsy and never expires. */
  predicate Expired(item: Item, now: int)
    ensures Expired(item, now) ==> item.Record? && item.expire.Some? && item.expire.value < now
    ensures item.Record? && item.expire.Some? && item.expire.value == 0 ==> !Expired(item, now)
  {
    item.Record? && item.expire.Some? && item.expire.value != 0 && item.expire.value < now
  }

  /** What `get(key)` returns at time `now`. */
  function Lookup(items: map<string, Item>, key: string, now: int): (r: Value)
    ensures key in items && items[key].Record? && !Expired(items[key], now) ==> r == items[key].value
    ensures key !in items || items[key].Malformed? || Expired(items[key], now) ==> r == Null
  {
    if key !in items then Null
    else match items[key]
      case Malformed => Null
      case Record(value, _) => if Expired(items[key], now) then Null else value
  }

  /** The backing store after `get(key)` at time `now`: an expired entry is removed, nothing else changes. */
  function AfterGet(items: map<string, Item>, key: string, now: int): (r: map<string, Item>)
    ensures key in r <==> key in items && !Expired(items[key], now)
    ensures forall k :: k != key ==> (k in r <==> k in items)
    ensures forall k :: k in r ==> r[k] == items[k]
  {
    if key in items && Expired(items[key], now) then items - {key} else items
  }

  /** Once expired, an entry stays expired: the clock only makes `get` forget. */
  lemma ExpiredStaysExpired(item: Item, now: int, later: int)
    requires now <= later
    ensures Expired(item, now) ==> Expired(item, later)
  {
  }

  /** `set` without an expiry (or with 0): `get` returns the value at any later time. */
  lemma SetWithoutExpiry(items: map<string, Item>, key: string, value: Value, expire: Option<int>, now: int, later: int)
    requires expire.None? || expire.value == 0
    ensures var stored := items[key := Record(value, Deadline(expire, now))];
            Lookup(stored, key, later) == value && AfterGet(stored, key, later) == stored
  {
  }

  /**
   * `set` with a positive expiry of `e` seconds: `get` returns the value
   * while `now + e * 1000 >= later`; after that it returns null and drops
   * exactly that key.
   */
  lemma SetWithExpiry(items: map<string, Item>, key: string, value: Value, e: int, now: int, later: int)
    requires e > 0 && now >= 0
    ensures var stored := items[key := Record(value, Deadline(Some(e), now))];
            (later <= now + e * 1000 ==> Lookup(stored, key, later) == value && AfterGet(stored, key, later) == stored) &&
            (later > now + e * 1000 ==> Lookup(stored, key, later) == Null && AfterGet(stored, key, later) == items - {key})
  {
    var stored := items[key := Record(value, Deadline(Some(e), now))];
    assert stored - {key} == items - {key};
  }

  /** A negative expiry is truthy too: the entry is already expired one millisecond later, unless its deadline is exactly 0. */
  lemma NegativeExpiry(items: map<string, Item>, key: string, value: Value, e: int, now: int)
    requires e < 0
    ensures var stored := items[key := Record(value, Deadline(Some(e), now))];
            Lookup(stored, key, now + 1) == (if now + e * 1000 == 0 then value else Null)
  {
  }

  /** `get` of a missing key or of an entry that does not parse returns null and changes nothing. */
  lemma GetMissingOrMalformed(items: map<string, Item>, key: string, now: int)
    requires key !in items || items[key] == Malformed
    ensures Lookup(items, key, now) == Null && AfterGet(items, key, now) == items
  {
  }

  /** Asking twice at the same time gives the same answer, and the second `get` changes nothing. */
  lemma GetTwice(items: map<string, Item>, key: string, now: int)
    ensures Lookup(AfterGet(items, key, now), key, now) == Lookup(items, key, now)
    ensures AfterGet(AfterGet(items, key, now), key, now) == AfterGet(items, key, now)
  {
  }

  /** `get` never touches another key. */
  lemma GetKeepsOtherKeys(items: map<string, Item>, key: string, other: string, now: int)
    requires other != key
    ensures other in AfterGet(items, key, now) <==> other in items
    ensures other in items ==> AfterGet(items, key, now)[other] == items[other]
  {
  }

  /** After `remove(key)` or `clear()`, `get(key)` returns null at any time; `remove` keeps every other entry. */
  lemma RemovedKeyIsGone(items: map<string, Item>, key: string, other: string, now: int)
    ensures Lookup(items - {key}, key, now) == Null
    ensures Lookup(map[], key, now) == Null
    ensures other != key ==> Lookup(items - {key}, other, now) == Lookup(items, other, now)
  {
  }

  /** The singleton storage helper over `localStorage`. */
  class Storage {
    var items: map<string, Item>

    /** The helper wraps whatever `localStorage` already holds. */
    constructor (backing: map<string, Item>)
      ensures items == backing
    {
      items := backing;
    }

    /** `set(key, value, expire)` at time `now`. */
    method Set(key: string, value: Value, expire: Option<int>, now: int)
      modifies this
      ensures items == old(items)[key := Record(value, Deadline(expire, now))]
    {
      var deadline := if expire.Some? && expire.value != 0 then Some(now + expire.value * 1000) else None;
      items := items[key := Record(value, deadline)];
    }

    /** `get(key)` at time `now`; an expired entry is removed on the way. */
    method Get(key: string, now: int) returns (r: Value)
      modifies this
      ensures r == Lookup(old(items), key, now)
      ensures items == AfterGet(old(items), key, now)
    {
      if key !in items {
        return Null;
      }
      var item := items[key];
      if item.Malformed? {
        return Null;
      }
      if item.expire.Some? && item.expire.value != 0 && item.expire.value < now {
        Remove(key);
        return Null;
      }
      r := item.value;
    }

    /** `remove(key)`: only `key` goes. */
    method Remove(key: string)
      modifies this
      ensures items == old(items) - {key}
    {
      items := items - {key};
    }

    /** `clear()`. */
    method Clear()
      modifies this
      ensures items == map[]
    {
      items := map[];
    }

    /** `has(key)`: `get(key) !== null`, with `get`'s removal of an expired entry. */
    method Has(key: string, now: int) returns (present: bool)
      modifies this
      ensures present <==> Lookup(old(items), key, now) != Null
      ensures items == AfterGet(old(items), key, now)
    {
      var v := Get(key, now);
      present := v != Null;
    }
  }
}
