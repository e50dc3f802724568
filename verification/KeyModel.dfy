/**
  The key table of `src/modules/key`: rows with a type and a creation moment (ms), added by rotation or on
  demand and deleted when older than their type's retention period. A day is 86400 seconds.
 */
module KeyModel {
  import opened Options
  import opened Uuids

  datatype KeyType = AccessKey | RefreshKey | ConfirmationUserKey | ResetPasswordKey

  datatype Key = Key(kind: KeyType, createdAt: int, isActive: bool)

  type Keys = map<string, Key>

  const DAY := 86_400_000

  /** Retention in days, as the rotation job passes it. */
  function RetentionDays(kind: KeyType): int {
    if kind.RefreshKey? then 61 else 31
  }

  predicate Usable(keys: Keys, kind: KeyType, kid: string) {
    kid in keys && keys[kid].kind == kind && keys[kid].isActive
  }

  /** A row by its id: the id column holds UUIDs, and a text that is none makes the query throw, like a missing id. */
  function LookUp(keys: Keys, id: Option<string>): Outcome<Option<Key>> {
    if id.None? || !IsUuid(id.value) then Thrown
    else Returned(if id.value in keys then Some(keys[id.value]) else None)
  }

  /** `kid` may be the row that `ORDER BY created_at DESC` finds first. */
  ghost predicate IsCurrent(keys: Keys, kind: KeyType, kid: string) {
    && Usable(keys, kind, kid)
    && forall other | Usable(keys, kind, other) :: keys[other].createdAt <= keys[kid].createdAt
  }

  ghost predicate NoneUsable(keys: Keys, kind: KeyType) {
    forall kid :: !Usable(keys, kind, kid)
  }

  function AddKey(keys: Keys, kind: KeyType, kid: string, now: int): Keys {
    keys[kid := Key(kind, now, true)]
  }

  /** `DELETE ... WHERE type = kind AND created_at < now - days`. */
  function RemoveOld(keys: Keys, kind: KeyType, days: int, now: int): Keys {
    map kid | kid in keys && !(keys[kid].kind == kind && keys[kid].createdAt < now - days * DAY) :: keys[kid]
  }

  /** A table with a usable key of a type has a newest one. */
  lemma {:induction false} CurrentExists(keys: Keys, kind: KeyType)
    requires !NoneUsable(keys, kind)
    ensures exists kid :: IsCurrent(keys, kind, kid)
    decreases |keys|
  {
    var some :| Usable(keys, kind, some);
    var rest := keys - {some};
    if NoneUsable(rest, kind) {
      forall other | Usable(keys, kind, other) ensures other == some {
        assert other != some ==> Usable(rest, kind, other);
      }
      assert IsCurrent(keys, kind, some);
    } else {
      CurrentExists(rest, kind);
      var best :| IsCurrent(rest, kind, best);
      var kid := if keys[best].createdAt < keys[some].createdAt then some else best;
      forall other | Usable(keys, kind, other) ensures keys[other].createdAt <= keys[kid].createdAt {
        assert other != some ==> Usable(rest, kind, other);
      }
      assert IsCurrent(keys, kind, kid);
    }
  }

  /** A removal takes a lower part of a type in creation order, so the newest key goes only if all of them go. */
  lemma RemovalIsDownwardClosed(keys: Keys, kind: KeyType, days: int, now: int, kid: string)
    requires IsCurrent(keys, kind, kid)
    ensures var after := RemoveOld(keys, kind, days, now);
            && (forall a, b | a in keys && a !in after && b in keys && keys[b].kind == kind
                  && keys[b].createdAt <= keys[a].createdAt :: b !in after)
            && (if kid in after then IsCurrent(after, kind, kid) else NoneUsable(after, kind))
  {
    var after := RemoveOld(keys, kind, days, now);
    forall other | Usable(after, kind, other) ensures Usable(keys, kind, other) {
    }
  }

  // ---------- One rotation ----------

  const KINDS: seq<KeyType> := [AccessKey, RefreshKey, ConfirmationUserKey, ResetPasswordKey]

  /** The table after `handleCron`: four additions, at clock[0..4], then four removals, at clock[4..8]. */
  function Rotated(keys: Keys, kids: seq<string>, added: seq<bool>, clock: seq<int>): Keys
    requires |kids| == 4 && |added| == 4 && |clock| == 8
  {
    Purged(Grown(keys, kids, added, clock, 4), clock, 4)
  }

  function Grown(keys: Keys, kids: seq<string>, added: seq<bool>, clock: seq<int>, n: nat): Keys
    requires |kids| == 4 && |added| == 4 && |clock| == 8 && n <= 4
  {
    if n == 0 then keys
    else
      var before := Grown(keys, kids, added, clock, n - 1);
      if added[n - 1] then AddKey(before, KINDS[n - 1], kids[n - 1], clock[n - 1]) else before
  }

  function Purged(keys: Keys, clock: seq<int>, n: nat): Keys
    requires |clock| == 8 && n <= 4
  {
    if n == 0 then keys
    else RemoveOld(Purged(keys, clock, n - 1), KINDS[n - 1], RetentionDays(KINDS[n - 1]), clock[3 + n])
  }

  function KindIndex(kind: KeyType): (i: nat)
    ensures i < 4 && KINDS[i] == kind
  {
    match kind
    case AccessKey => 0
    case RefreshKey => 1
    case ConfirmationUserKey => 2
    case ResetPasswordKey => 3
  }

  /** New identifiers for the four keys of a rotation. */
  predicate FreshKids(keys: Keys, kids: seq<string>) {
    && |kids| == 4 && (forall i | 0 <= i < 4 :: kids[i] !in keys)
    && (forall i, j | 0 <= i < j < 4 :: kids[i] != kids[j])
  }

  /** The clock never goes back, and no key is younger than the rotation's start. */
  predicate ClockedFrom(keys: Keys, clock: seq<int>) {
    && |clock| == 8 && (forall i | 0 <= i < 7 :: clock[i] <= clock[i + 1])
    && (forall kid | kid in keys :: keys[kid].createdAt <= clock[0])
  }

  /** Whichever of the additions happen, they are what the table gains. */
  lemma {:induction false} GrownRows(keys: Keys, kids: seq<string>, added: seq<bool>, clock: seq<int>, n: nat)
    requires FreshKids(keys, kids) && |added| == 4 && |clock| == 8 && n <= 4
    ensures var grown := Grown(keys, kids, added, clock, n);
            && (forall i | 0 <= i < n && added[i] ::
                  kids[i] in grown && grown[kids[i]] == Key(KINDS[i], clock[i], true))
            && (forall kid | kid in keys :: kid in grown && grown[kid] == keys[kid])
            && (forall kid | kid in grown :: kid in keys || exists i :: 0 <= i < n && added[i] && kids[i] == kid)
  {
    if n > 0 {
      GrownRows(keys, kids, added, clock, n - 1);
      if added[n - 1] {
        assert kids[n - 1] in Grown(keys, kids, added, clock, n);
      }
    }
  }

  lemma {:induction false} PurgedRows(keys: Keys, clock: seq<int>, n: nat)
    requires |clock| == 8 && n <= 4
    ensures forall kid :: kid in Purged(keys, clock, n) <==>
              kid in keys && (KindIndex(keys[kid].kind) < n ==>
                clock[4 + KindIndex(keys[kid].kind)] <= keys[kid].createdAt + RetentionDays(keys[kid].kind) * DAY)
    ensures forall kid | kid in Purged(keys, clock, n) :: Purged(keys, clock, n)[kid] == keys[kid]
  {
    if n > 0 {
      PurgedRows(keys, clock, n - 1);
      forall kid | kid in keys ensures KindIndex(keys[kid].kind) == n - 1 <==> keys[kid].kind == KINDS[n - 1] {
        assert KINDS[0] == AccessKey && KINDS[1] == RefreshKey && KINDS[2] == ConfirmationUserKey;
      }
    }
  }

  /** The rows of one type before the removals: those there were and, if its addition happened, the rotation's own. */
  lemma GrownOfKind(keys: Keys, kids: seq<string>, added: seq<bool>, clock: seq<int>, kind: KeyType)
    requires FreshKids(keys, kids) && |added| == 4 && |clock| == 8
    ensures var grown, i := Grown(keys, kids, added, clock, 4), KindIndex(kind);
            && (added[i] ==> Usable(grown, kind, kids[i]) && grown[kids[i]].createdAt == clock[i])
            && (forall kid | Usable(keys, kind, kid) :: Usable(grown, kind, kid) && grown[kid] == keys[kid])
            && (forall kid | Usable(grown, kind, kid) :: Usable(keys, kind, kid) || (added[i] && kid == kids[i]))
  {
    var grown, i := Grown(keys, kids, added, clock, 4), KindIndex(kind);
    GrownRows(keys, kids, added, clock, 4);
    forall kid | Usable(grown, kind, kid) && kid !in keys ensures added[i] && kid == kids[i] {
      var j :| 0 <= j < 4 && added[j] && kids[j] == kid;
      assert KINDS[j] == kind;
      assert j == i;
    }
  }

  /** The removal that a rotation makes at clock[4 + i] leaves this row of the i-th type alone. */
  predicate Retained(key: Key, clock: seq<int>)
    requires |clock| == 8
  {
    clock[4 + KindIndex(key.kind)] <= key.createdAt + RetentionDays(key.kind) * DAY
  }

  /**
    If the addition of a type succeeds, whatever happens to the other three, the new key is the type's newest. It is
    there exactly if the type's removal runs no later than the retention period after its creation, and then no
    other row ties with it unless it was created at the same moment.
   */
  lemma RotationKeepsSigningKey(keys: Keys, kids: seq<string>, added: seq<bool>, clock: seq<int>, kind: KeyType)
    requires FreshKids(keys, kids) && ClockedFrom(keys, clock) && |added| == 4 && added[KindIndex(kind)]
    ensures var after, i := Rotated(keys, kids, added, clock), KindIndex(kind);
            && (kids[i] in after <==> clock[4 + i] <= clock[i] + RetentionDays(kind) * DAY)
            && (kids[i] in after ==> IsCurrent(after, kind, kids[i]))
            && (forall kid | IsCurrent(after, kind, kid) && kids[i] in after ::
                  kid == kids[i] || after[kid].createdAt == clock[i])
  {
    var grown, i := Grown(keys, kids, added, clock, 4), KindIndex(kind);
    GrownOfKind(keys, kids, added, clock, kind);
    PurgedRows(grown, clock, 4);
    assert clock[0] <= clock[1] <= clock[2] <= clock[3];
    var after := Rotated(keys, kids, added, clock);
    assert forall other | Usable(after, kind, other) :: Usable(grown, kind, other);
  }

  /**
    Whichever additions succeed, a rotation leaves a type without any key to sign with exactly if the type's own new
    key is missing or already past retention, and so is every usable key that the table held before.
   */
  lemma RotationLeavesNoneExactly(keys: Keys, kids: seq<string>, added: seq<bool>, clock: seq<int>, kind: KeyType)
    requires FreshKids(keys, kids) && |added| == 4 && |clock| == 8
    ensures var after, i := Rotated(keys, kids, added, clock), KindIndex(kind);
            NoneUsable(after, kind) <==>
              && (!added[i] || !Retained(Key(kind, clock[i], true), clock))
              && (forall kid | Usable(keys, kind, kid) :: !Retained(keys[kid], clock))
  {
    var grown, after, i := Grown(keys, kids, added, clock, 4), Rotated(keys, kids, added, clock), KindIndex(kind);
    GrownOfKind(keys, kids, added, clock, kind);
    PurgedRows(grown, clock, 4);
    forall kid ensures Usable(after, kind, kid) <==> Usable(grown, kind, kid) && Retained(grown[kid], clock) {
    }
    if added[i] && Retained(grown[kids[i]], clock) {
      assert Usable(after, kind, kids[i]);
    }
  }

  /** At `moment` the row is older than rows of its type are kept: 61 days for refresh keys, 31 for the others. */
  predicate TooOld(key: Key, moment: int) {
    moment - key.createdAt > (if key.kind == RefreshKey then 61 else 31) * 24 * 3600 * 1000
  }

  ghost predicate DeletesTooOld(keys: Keys, after: Keys, clock: seq<int>)
    requires |clock| == 8
  {
    forall kid | kid in keys ::
      && (kid in after <==> !TooOld(keys[kid], clock[4 + KindIndex(keys[kid].kind)]))
      && (kid in after ==> after[kid] == keys[kid])
  }

  /** Of the rows that a rotation finds, exactly those go that are too old when their type's removal runs. */
  lemma RotationDeletesExactly(keys: Keys, kids: seq<string>, added: seq<bool>, clock: seq<int>)
    requires FreshKids(keys, kids) && |added| == 4 && |clock| == 8
    ensures DeletesTooOld(keys, Rotated(keys, kids, added, clock), clock)
  {
    GrownRows(keys, kids, added, clock, 4);
    PurgedRows(Grown(keys, kids, added, clock, 4), clock, 4);
  }

  const NONE: seq<bool> := [false, false, false, false]

  /** A rotation that adds nothing: the table shrinks, and a type is left without keys if all its keys are too old. */
  ghost predicate OnlyPurged(keys: Keys, after: Keys, clock: seq<int>)
    requires |clock| == 8
  {
    && (forall kid | kid in after :: kid in keys && after[kid] == keys[kid])
    && (forall kind :: NoneUsable(after, kind) <==> forall kid | Usable(keys, kind, kid) :: !Retained(keys[kid], clock))
  }

  lemma RotationSkipped(keys: Keys, kids: seq<string>, clock: seq<int>)
    requires FreshKids(keys, kids) && |clock| == 8
    ensures OnlyPurged(keys, Rotated(keys, kids, NONE, clock), clock)
  {
    GrownRows(keys, kids, NONE, clock, 4);
    PurgedRows(Grown(keys, kids, NONE, clock, 4), clock, 4);
    forall kind
      ensures NoneUsable(Rotated(keys, kids, NONE, clock), kind) <==>
                forall kid | Usable(keys, kind, kid) :: !Retained(keys[kid], clock)
    {
      RotationLeavesNoneExactly(keys, kids, NONE, clock, kind);
    }
  }
}
