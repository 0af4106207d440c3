/** The part of Redis that the affinity store uses: string entries with a deadline, and five
    commands that each run atomically. */
module Redis {
  datatype Entry = Entry(value: string, deadline: int)

  /** `entries` holds the live keys only: an entry whose deadline has come is gone. */
  datatype Db = Db(entries: map<string, Entry>, now: int) {
    predicate Has(key: string) { key in entries }

    predicate Holds(key: string, value: string) { key in entries && entries[key].value == value }

    ghost predicate Timely() { forall k <- entries :: now < entries[k].deadline }
  }

  datatype Command =
    | Get(key: string)
    | Expire(key: string, ttl: nat)
    | SetNx(key: string, value: string, ttl: nat)
    | Set(key: string, value: string, ttl: nat)
    | Del(key: string)

  datatype Reply = Nil | Bulk(value: string) | Okay | Failed

  /** What the network does to one command: nothing, lose it before it runs, lose the reply after it
      has run, or hold it back so that it runs only after the client has given up on it. The client
      cannot tell the last three apart. */
  datatype Fault = NoFault | Dropped | ReplyLost | Delayed {
    /** The command runs before the client hears of a result or a failure. */
    predicate Runs() { NoFault? || ReplyLost? }
  }

  /** One command on the server. `SET ... EX 0` is refused, and `EXPIRE key 0` deletes the key. */
  function Apply(db: Db, c: Command): (Db, Reply) {
    match c
    case Get(k) =>
      (db, if k in db.entries then Bulk(db.entries[k].value) else Nil)
    case Expire(k, ttl) =>
      if k !in db.entries then (db, Nil)
      else if ttl == 0 then (db.(entries := db.entries - {k}), Okay)
      else (db.(entries := db.entries[k := Entry(db.entries[k].value, db.now + ttl)]), Okay)
    case SetNx(k, v, ttl) =>
      if ttl == 0 then (db, Failed)
      else if k in db.entries then (db, Nil)
      else (db.(entries := db.entries[k := Entry(v, db.now + ttl)]), Okay)
    case Set(k, v, ttl) =>
      if ttl == 0 then (db, Failed)
      else (db.(entries := db.entries[k := Entry(v, db.now + ttl)]), Okay)
    case Del(k) =>
      (db.(entries := db.entries - {k}), Okay)
  }

  /** One command as the client experiences it; a delayed one runs later. */
  function Exec(db: Db, c: Command, fault: Fault): (Db, Reply) {
    (if fault.Runs() then Apply(db, c).0 else db, if fault.NoFault? then Apply(db, c).1 else Failed)
  }

  /** Time passes; entries whose deadline has come disappear. */
  function Tick(db: Db, d: nat): Db {
    Db(map k | k in db.entries && db.now + d < db.entries[k].deadline :: db.entries[k], db.now + d)
  }

  /** The entry under `key` is the same in both. */
  ghost predicate SameAt(a: Db, b: Db, key: string) {
    (key in a.entries <==> key in b.entries) && (key in a.entries ==> a.entries[key] == b.entries[key])
  }

  /** A command concerns no key but its own, and takes no time. */
  lemma ApplyElsewhere(db: Db, c: Command, key: string)
    requires key != c.key
    ensures SameAt(db, Apply(db, c).0, key) && Apply(db, c).0.now == db.now
  {
  }

  lemma ApplyTimely(db: Db, c: Command)
    requires db.Timely()
    ensures Apply(db, c).0.Timely()
  {
  }
}
