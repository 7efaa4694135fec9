/** The part of a Redis server that the cache relies on: one key space holding text
    values and sets of names, an optional deadline per key, and a clock.
    A key is gone at the instant its deadline is reached. */
module Redis {
  import opened Options

  datatype Item<V> =
    | Text(value: V, expiry: Option<int>)
    | Names(members: set<string>, expiry: Option<int>)

  type Db<V> = map<string, Item<V>>

  predicate Alive<V>(item: Item<V>, now: int) {
    item.expiry.None? || now < item.expiry.value
  }

  /** What is left of a key space when the clock shows `now`. */
  function Purged<V>(db: Db<V>, now: int): Db<V> {
    map k | k in db && Alive(db[k], now) :: db[k]
  }

  /** The members of the set at a key; a missing key reads as the empty set. */
  function MembersOf<V>(db: Db<V>, key: string): set<string> {
    if key in db && db[key].Names? then db[key].members else {}
  }

  function Elements(names: seq<string>): set<string> {
    set n | n in names
  }

  class Server<V> {
    var now: int
    var db: Db<V>

    /** Reads and writes never see a key whose deadline has passed. */
    ghost predicate Valid()
      reads this
    {
      forall k :: k in db ==> Alive(db[k], now)
    }

    constructor (start: int)
      ensures Valid() && now == start && db == map[]
    {
      now, db := start, map[];
    }

    /** SET with a positive time to live: replaces whatever the key held. */
    method Set(key: string, value: V, ttl: int)
      requires Valid() && ttl > 0
      modifies this`db
      ensures Valid() && db == old(db)[key := Text(value, Some(now + ttl))]
    {
      db := db[key := Text(value, Some(now + ttl))];
    }

    /** GET: a key holding a set would be a type error, which the caller rules out. */
    method Get(key: string) returns (r: Option<V>)
      requires Valid() && (key in db ==> db[key].Text?)
      ensures r == if key in db then Some(db[key].value) else None
    {
      r := if key in db then Some(db[key].value) else None;
    }

    method Exists(key: string) returns (found: bool)
      requires Valid()
      ensures found <==> key in db
    {
      found := key in db;
    }

    /** DEL of any number of keys; missing ones are ignored. */
    method Del(keys: seq<string>)
      requires Valid()
      modifies this`db
      ensures Valid() && db == old(db) - Elements(keys)
    {
      db := db - Elements(keys);
    }

    /** SADD: a missing set is created without a deadline, an existing one keeps its own. */
    method SAdd(key: string, names: seq<string>)
      requires Valid() && names != [] && (key in db ==> db[key].Names?)
      modifies this`db
      ensures Valid()
      ensures db == old(db)[key := Names(MembersOf(old(db), key) + Elements(names),
                                         if key in old(db) then old(db)[key].expiry else None)]
    {
      var expiry := if key in db then db[key].expiry else None;
      db := db[key := Names(MembersOf(db, key) + Elements(names), expiry)];
    }

    /** EXPIRE with a positive time to live on a key that holds a set. */
    method Expire(key: string, ttl: int)
      requires Valid() && ttl > 0 && key in db && db[key].Names?
      modifies this`db
      ensures Valid() && db == old(db)[key := Names(old(db)[key].members, Some(now + ttl))]
    {
      db := db[key := Names(db[key].members, Some(now + ttl))];
    }

    /** SMEMBERS: every member once, in an order the server chooses. */
    method SMembers(key: string) returns (names: seq<string>)
      requires Valid() && (key in db ==> db[key].Names?)
      ensures Elements(names) == MembersOf(db, key)
      ensures forall i, j :: 0 <= i < j < |names| ==> names[i] != names[j]
    {
      var left := MembersOf(db, key);
      names := [];
      while left != {}
        invariant Elements(names) !! left && Elements(names) + left == MembersOf(db, key)
        invariant forall i, j :: 0 <= i < j < |names| ==> names[i] != names[j]
        decreases left
      {
        var n :| n in left;
        assert n !in Elements(names);
        ghost var before := names;
        names, left := names + [n], left - {n};
        assert Elements(names) == Elements(before) + {n};
      }
    }

    /** Time passes; keys whose deadline is reached disappear. */
    method Tick(duration: nat)
      requires Valid()
      modifies this
      ensures Valid() && now == old(now) + duration && db == Purged(old(db), now)
    {
      now := now + duration;
      db := Purged(db, now);
    }
  }
}
