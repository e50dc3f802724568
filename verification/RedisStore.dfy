/**
  The Redis key space behind `src/modules/cache/cache.service.ts`: one map from strings to entries,
  where an entry is a text value with an optional expiry moment or a set of strings. The clock is a
  parameter. An expired entry is invisible to every command; a set that becomes empty is removed.
 */
module RedisStore {
  import opened Options

  datatype Entry<V> = Text(value: V, expireAt: Option<int>) | Members(members: set<string>)

  type Db<V> = map<string, Entry<V>>

  /** The answer of a command: its value, or the error Redis gives for a key of the other type. */
  datatype Reply<+T> = Value(value: T) | WrongType

  predicate Unexpired(expireAt: Option<int>, now: int) {
    expireAt.Some? ==> now < expireAt.value
  }

  predicate Visible<V>(db: Db<V>, key: string, now: int) {
    key in db && (db[key].Text? ==> Unexpired(db[key].expireAt, now))
  }

  /** `set`: a missing or zero ttl stores without expiry, a negative one stores nothing. */
  function SetOp<V>(db: Db<V>, key: string, value: V, ttl: Option<int>, now: int): Db<V> {
    if ttl.None? || ttl.value == 0 then db[key := Text(value, None)]
    else if ttl.value < 0 then db
    else db[key := Text(value, Some(now + ttl.value * 1000))]
  }

  function GetOp<V>(db: Db<V>, key: string, now: int): Reply<Option<V>> {
    if !Visible(db, key, now) then Value(None)
    else match db[key]
      case Text(value, _) => Value(Some(value))
      case Members(_) => WrongType
  }

  function SmembersOp<V>(db: Db<V>, key: string, now: int): Reply<set<string>> {
    if !Visible(db, key, now) then Value({})
    else match db[key]
      case Text(_, _) => WrongType
      case Members(members) => Value(members)
  }

  /** The key space in which `key` holds exactly `members`; an empty set is no key at all. */
  function PutMembers<V>(db: Db<V>, key: string, members: set<string>): Db<V> {
    if members == {} then db - {key} else db[key := Members(members)]
  }

  function SaddOp<V>(db: Db<V>, key: string, member: string, now: int): Db<V> {
    match SmembersOp(db, key, now)
    case WrongType => db
    case Value(members) => PutMembers(db, key, members + {member})
  }

  function SremOp<V>(db: Db<V>, key: string, member: string, now: int): Db<V> {
    if !Visible(db, key, now) then db
    else match db[key]
      case Text(_, _) => db
      case Members(members) => PutMembers(db, key, members - {member})
  }

  /**
    What a `get` finds after a `set`: for ever what was written without a ttl or with 0, until the ttl has passed what
    was written with a positive one, and whatever was there before after a negative one. Other keys read as before.
   */
  lemma GetAfterSet<V>(db: Db<V>, key: string, value: V, ttl: Option<int>, now: int, other: string, later: int)
    ensures GetOp(SetOp(db, key, value, ttl, now), other, later) ==
              if other != key || (ttl.Some? && ttl.value < 0) then GetOp(db, other, later)
              else if ttl.None? || ttl.value == 0 || later - now < ttl.value * 1000 then Value(Some(value))
              else Value(None)
  {
  }

  /** Sets hold the members added and not removed since; a text key refuses both commands and keeps its text. */
  lemma SmembersAfterSaddSrem<V>(db: Db<V>, key: string, member: string, now: int)
    requires key in db && db[key].Members? ==> db[key].members != {}
    ensures match SmembersOp(db, key, now)
            case WrongType => SaddOp(db, key, member, now) == SremOp(db, key, member, now) == db
            case Value(members) =>
              && SmembersOp(SaddOp(db, key, member, now), key, now) == Value(members + {member})
              && SmembersOp(SremOp(db, key, member, now), key, now) == Value(members - {member})
              && (member !in members ==> SmembersOp(SremOp(SaddOp(db, key, member, now), key, member, now), key, now)
                                           == Value(members))
    ensures forall other | other != key ::
              && (GetOp(SaddOp(db, key, member, now), other, now) == GetOp(db, other, now))
              && (GetOp(SremOp(db, key, member, now), other, now) == GetOp(db, other, now))
              && (SmembersOp(SaddOp(db, key, member, now), other, now) == SmembersOp(db, other, now))
              && (SmembersOp(SremOp(db, key, member, now), other, now) == SmembersOp(db, other, now))
  {
    var none: set<string> := {};
    assert none - {member} == none;
    var reply := SmembersOp(db, key, now);
    if reply.Value? && member !in reply.value {
      assert reply.value + {member} - {member} == reply.value;
    }
  }

  class RedisService<V(==)> {
    var db: Db<V>

    constructor ()
      ensures db == map[]
    {
      db := map[];
    }

    method Set(key: string, value: V, ttl: Option<int>, now: int)
      modifies this
      ensures db == SetOp(old(db), key, value, ttl, now)
    {
      if ttl.Some? && ttl.value != 0 {
        if ttl.value <= 0 {
          return;
        }
        db := db[key := Text(value, Some(now + ttl.value * 1000))];
      } else {
        db := db[key := Text(value, None)];
      }
    }

    method Get(key: string, now: int) returns (reply: Reply<Option<V>>)
      ensures reply == GetOp(db, key, now)
    {
      reply := GetOp(db, key, now);
    }

    method Del(key: string)
      modifies this
      ensures db == old(db) - {key}
    {
      db := db - {key};
    }

    method Sadd(key: string, member: string, now: int) returns (ok: bool)
      modifies this
      ensures db == SaddOp(old(db), key, member, now)
      ensures ok <==> SmembersOp(old(db), key, now).Value?
    {
      ok := SmembersOp(db, key, now).Value?;
      db := SaddOp(db, key, member, now);
    }

    method Srem(key: string, member: string, now: int) returns (ok: bool)
      modifies this
      ensures db == SremOp(old(db), key, member, now)
      ensures ok <==> SmembersOp(old(db), key, now).Value?
    {
      ok := SmembersOp(db, key, now).Value?;
      db := SremOp(db, key, member, now);
    }

    method Smembers(key: string, now: int) returns (reply: Reply<set<string>>)
      ensures reply == SmembersOp(db, key, now)
    {
      reply := SmembersOp(db, key, now);
    }
  }
}
