/** `src/modules/key/key.service.ts` and `key-rotation.service.ts`. */
module KeyServices {
  import opened Options
  import opened Uuids
  import opened KeyModel

  class KeyService {
    var rows: Keys
    var isKeyBeingCreated: bool

    constructor ()
      ensures rows == map[] && !isKeyBeingCreated
    {
      rows, isKeyBeingCreated := map[], false;
    }

    /** A missing or empty id is refused before the table is read, and one that is no UUID by the database. */
    method GetKeyById(id: Option<string>) returns (r: Outcome<Option<Key>>)
      ensures r.Thrown? <==> id.None? || !IsUuid(id.value)
      ensures r.Returned? ==> r.value == if id.value in rows then Some(rows[id.value]) else None
    {
      if id.None? || id.value == "" {
        return Thrown;
      }
      r := LookUp(rows, id);
    }

    /** `kid` and `createdAt` are what the database assigns; `saved` says whether the `try` block completes. */
    method AddKeyPair(kind: KeyType, kid: string, createdAt: int, saved: bool) returns (r: Option<string>)
      modifies this
      ensures isKeyBeingCreated == old(isKeyBeingCreated)
      ensures r == if !isKeyBeingCreated && saved then Some(kid) else None
      ensures rows == if r.Some? then AddKey(old(rows), kind, kid, createdAt) else old(rows)
    {
      if isKeyBeingCreated {
        return None;
      }
      isKeyBeingCreated := true;
      if saved {
        rows := AddKey(rows, kind, kid, createdAt);
        r := Some(kid);
      } else {
        r := None;
      }
      isKeyBeingCreated := false;
    }

    method RemoveOldKeys(kind: KeyType, retentionDays: int, now: int)
      modifies this`rows
      ensures rows == RemoveOld(old(rows), kind, retentionDays, now)
    {
      var retentionDate := now - retentionDays * DAY;
      rows := map kid | kid in rows && !(rows[kid].kind == kind && rows[kid].createdAt < retentionDate) :: rows[kid];
    }

    /** The newest usable key; without one a key is created, and if that fails too the call throws. */
    method GetCurrentKey(kind: KeyType, newKid: string, now: int, saved: bool) returns (r: Outcome<string>)
      modifies this
      ensures isKeyBeingCreated == old(isKeyBeingCreated)
      ensures r.Thrown? <==> NoneUsable(old(rows), kind) && (isKeyBeingCreated || !saved)
      ensures r.Thrown? ==> rows == old(rows)
      ensures r.Returned? ==>
                if NoneUsable(old(rows), kind)
                then r.value == newKid && rows == AddKey(old(rows), kind, newKid, now)
                else rows == old(rows) && IsCurrent(rows, kind, r.value)
    {
      var key := FindNewest(kind);
      if key.None? {
        key := AddKeyPair(kind, newKid, now, saved);
      }
      r := if key.Some? then Returned(key.value) else Thrown;
    }

    method FindNewest(kind: KeyType) returns (r: Option<string>)
      ensures r.None? <==> NoneUsable(rows, kind)
      ensures r.Some? ==> IsCurrent(rows, kind, r.value)
    {
      var usable := set kid | kid in rows && Usable(rows, kind, kid);
      assert forall kid :: Usable(rows, kind, kid) <==> kid in usable;
      if usable == {} {
        return None;
      }
      var pick :| pick in usable;
      assert Usable(rows, kind, pick);
      CurrentExists(rows, kind);
      ghost var best :| IsCurrent(rows, kind, best);
      assert best in usable;
      var kid :| kid in usable && forall other | other in usable :: rows[other].createdAt <= rows[kid].createdAt;
      forall other | Usable(rows, kind, other) ensures rows[other].createdAt <= rows[kid].createdAt {
        assert other in usable;
      }
      r := Some(kid);
    }
  }

  class KeyRotationService {
    const keyService: KeyService

    constructor (keyService: KeyService)
      ensures this.keyService == keyService
    {
      this.keyService := keyService;
    }

    /**
      The monthly job; `clock` is read once by each of its eight calls. While a creation of any type is in progress
      it adds nothing and still deletes, so a type whose usable keys are all past retention is left without one.
     */
    method HandleCron(kids: seq<string>, saved: seq<bool>, clock: seq<int>)
      requires FreshKids(keyService.rows, kids) && |saved| == 4 && |clock| == 8
      modifies keyService
      ensures keyService.isKeyBeingCreated == old(keyService.isKeyBeingCreated)
      ensures var added := if keyService.isKeyBeingCreated then NONE else saved;
              keyService.rows == Rotated(old(keyService.rows), kids, added, clock)
      ensures keyService.isKeyBeingCreated ==> OnlyPurged(old(keyService.rows), keyService.rows, clock)
      ensures DeletesTooOld(old(keyService.rows), keyService.rows, clock)
    {
      ghost var rows := keyService.rows;
      ghost var added := if keyService.isKeyBeingCreated then NONE else saved;
      AddAll(kids, saved, clock);
      RemoveAllOld(clock);
      RotationSkipped(rows, kids, clock);
      RotationDeletesExactly(rows, kids, added, clock);
    }

    /** Its four additions. */
    method AddAll(kids: seq<string>, saved: seq<bool>, clock: seq<int>)
      requires |kids| == 4 && |saved| == 4 && |clock| == 8
      modifies keyService
      ensures keyService.isKeyBeingCreated == old(keyService.isKeyBeingCreated)
      ensures var added := if keyService.isKeyBeingCreated then NONE else saved;
              keyService.rows == Grown(old(keyService.rows), kids, added, clock, 4)
    {
      ghost var rows := keyService.rows;
      ghost var added := if keyService.isKeyBeingCreated then NONE else saved;
      var a := keyService.AddKeyPair(AccessKey, kids[0], clock[0], saved[0]);
      assert keyService.rows == Grown(rows, kids, added, clock, 1);
      var r := keyService.AddKeyPair(RefreshKey, kids[1], clock[1], saved[1]);
      assert keyService.rows == Grown(rows, kids, added, clock, 2);
      var c := keyService.AddKeyPair(ConfirmationUserKey, kids[2], clock[2], saved[2]);
      assert keyService.rows == Grown(rows, kids, added, clock, 3);
      var p := keyService.AddKeyPair(ResetPasswordKey, kids[3], clock[3], saved[3]);
    }

    /** Its four removals, with the retention periods in days. */
    method RemoveAllOld(clock: seq<int>)
      requires |clock| == 8
      modifies keyService`rows
      ensures keyService.rows == Purged(old(keyService.rows), clock, 4)
    {
      ghost var grown := keyService.rows;
      keyService.RemoveOldKeys(AccessKey, 31, clock[4]);
      assert keyService.rows == Purged(grown, clock, 1);
      keyService.RemoveOldKeys(RefreshKey, 61, clock[5]);
      assert keyService.rows == Purged(grown, clock, 2);
      keyService.RemoveOldKeys(ConfirmationUserKey, 31, clock[6]);
      assert keyService.rows == Purged(grown, clock, 3);
      keyService.RemoveOldKeys(ResetPasswordKey, 31, clock[7]);
    }
  }
}
