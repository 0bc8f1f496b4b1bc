/** The part of Redis that the two limiters use: counters with an optional expiry, and a clock.
    A key is gone once the clock has passed its deadline; at the very instant of the deadline it may
    be seen either way, which is why eviction at the deadline is a separate step. */
module Redis {
  import opened Common

  /** The stored text: an integer as INCR writes it; other text that Lua's tonumber() reads as an integer
      but INCR refuses, such as "1e3" or "5.0"; or anything else. */
  datatype Raw = Int(n: int) | LuaInt(n: int) | Other

  datatype Entry = Entry(raw: Raw, deadline: Option<nat>)

  datatype Store = Store(now: nat, db: map<string, Entry>)

  /** No key outlives its deadline. */
  ghost predicate Current(s: Store) {
    forall k | k in s.db && s.db[k].deadline.Some? :: s.now <= s.db[k].deadline.value
  }

  function Advance(s: Store, ms: nat): Store {
    var t := s.now + ms;
    Store(t, map k | k in s.db && (s.db[k].deadline.None? || t <= s.db[k].deadline.value) :: s.db[k])
  }

  function Evict(s: Store, key: string): Store {
    if key in s.db && s.db[key].deadline == Some(s.now) then s.(db := s.db - {key}) else s
  }

  function SetPx(s: Store, key: string, n: int, px: nat): Store {
    s.(db := s.db[key := Entry(Int(n), Some(s.now + px))])
  }

  function Incr(s: Store, key: string): (Store, Option<int>) {
    if key !in s.db then (s.(db := s.db[key := Entry(Int(1), None)]), Some(1))
    else match s.db[key].raw
      case Int(n) => (s.(db := s.db[key := Entry(Int(n + 1), s.db[key].deadline)]), Some(n + 1))
      case _ => (s, None)
  }

  function Expire(s: Store, key: string, ms: nat): Store {
    if key in s.db then s.(db := s.db[key := Entry(s.db[key].raw, Some(s.now + ms))]) else s
  }

  function Pttl(s: Store, key: string): int {
    if key !in s.db then -2
    else match s.db[key].deadline
      case None => -1
      case Some(d) => d - s.now
  }

  /** The server itself: commands change it in place. */
  class Server {
    var now: nat
    var db: map<string, Entry>

    constructor (t: nat)
      ensures View() == Store(t, map[])
    {
      now, db := t, map[];
    }

    ghost function View(): Store
      reads this
    {
      Store(now, db)
    }

    method Get(key: string) returns (raw: Option<Raw>)
      ensures raw == if key in db then Some(db[key].raw) else None
    {
      if key in db {
        raw := Some(db[key].raw);
      } else {
        raw := None;
      }
    }

    method CallPttl(key: string) returns (ttl: int)
      ensures ttl == Pttl(View(), key)
    {
      if key !in db {
        ttl := -2;
      } else {
        match db[key].deadline {
          case None => ttl := -1;
          case Some(d) => ttl := d - now;
        }
      }
    }

    method CallSetPx(key: string, n: int, px: nat)
      modifies this`db
      ensures View() == SetPx(old(View()), key, n, px)
    {
      db := db[key := Entry(Int(n), Some(now + px))];
    }

    method CallIncr(key: string) returns (n: Option<int>)
      modifies this`db
      ensures (View(), n) == Incr(old(View()), key)
    {
      if key !in db {
        db := db[key := Entry(Int(1), None)];
        return Some(1);
      }
      match db[key].raw {
        case Int(m) =>
          db := db[key := Entry(Int(m + 1), db[key].deadline)];
          n := Some(m + 1);
        case _ =>
          n := None;
      }
    }

    method CallExpire(key: string, ms: nat)
      modifies this`db
      ensures View() == Expire(old(View()), key, ms)
    {
      if key in db {
        db := db[key := Entry(db[key].raw, Some(now + ms))];
      }
    }
  }
}
