/**
  Key creation at the grain of single `await` points in one process: the rotation job and requests without a key
  call `addKeyPair` at any moment, and the one flag they share is set before, and cleared after, the saving of a row.
 */
module KeyCreation {
  import opened Options
  import opened KeyModel

  /** A call past the guard, waiting for its row to be saved; generating the pair itself does not wait. */
  datatype Creation = Creation(kind: KeyType, kid: string)

  /** `saved` and `removed` count the rows ever saved and deleted. */
  datatype Process = Process(
    rows: Keys, isKeyBeingCreated: bool, creations: map<nat, Creation>, saved: nat, removed: nat)

  datatype Act =
    | Calls(f: nat, kind: KeyType, kid: string, generated: bool)
    | Saves(f: nat, ok: bool, now: int)
    | Deletes(kind: KeyType, days: int, now: int)

  predicate Possible(p: Process, a: Act) {
    match a
    case Calls(f, _, kid, _) =>
      f !in p.creations && kid !in p.rows && forall g | g in p.creations :: p.creations[g].kid != kid
    case Saves(f, _, _) => f in p.creations
    case Deletes(_, _, _) => true
  }

  /** A call finds the flag set and returns, or sets it; a pair that cannot be generated clears it at once. */
  function Do(p: Process, a: Act): Process
    requires Possible(p, a)
  {
    match a
    case Calls(f, kind, kid, generated) =>
      if p.isKeyBeingCreated then p
      else if !generated then p.(isKeyBeingCreated := false)
      else p.(isKeyBeingCreated := true, creations := p.creations[f := Creation(kind, kid)])
    case Saves(f, ok, now) =>
      var done := p.(creations := p.creations - {f}, isKeyBeingCreated := false);
      if ok
      then done.(rows := AddKey(p.rows, p.creations[f].kind, p.creations[f].kid, now), saved := p.saved + 1)
      else done
    case Deletes(kind, days, now) =>
      var rest := RemoveOld(p.rows, kind, days, now);
      RemovalShrinks(p.rows, kind, days, now);
      p.(rows := rest, removed := p.removed + |p.rows| - |rest|)
  }

  ghost predicate Behaviour(ps: seq<Process>, acts: seq<Act>) {
    && |ps| == |acts| + 1
    && ps[0].creations == map[] && !ps[0].isKeyBeingCreated && ps[0].saved == ps[0].removed == 0
    && forall i | 0 <= i < |acts| :: Happens(ps, acts, i)
  }

  ghost predicate Happens(ps: seq<Process>, acts: seq<Act>, i: nat)
    requires |ps| == |acts| + 1 && i < |acts|
  {
    Possible(ps[i], acts[i]) && ps[i + 1] == Do(ps[i], acts[i])
  }

  ghost predicate Guarded(p: Process) {
    && |p.creations| == (if p.isKeyBeingCreated then 1 else 0)
    && forall f | f in p.creations :: p.creations[f].kid !in p.rows
  }

  lemma RemovalShrinks(keys: Keys, kind: KeyType, days: int, now: int)
    ensures |RemoveOld(keys, kind, days, now)| <= |keys|
  {
    var rest := RemoveOld(keys, kind, days, now);
    SubsetSize(rest.Keys, keys.Keys);
  }

  lemma SubsetSize<T>(a: set<T>, b: set<T>)
    requires a <= b
    ensures |a| <= |b|
  {
    assert |b| == |a| + |b - a| by {
      assert b == a + (b - a);
    }
  }

  lemma ActKeepsGuarded(p: Process, a: Act)
    requires Guarded(p) && Possible(p, a)
    ensures Guarded(Do(p, a))
    ensures |Do(p, a).rows| + Do(p, a).removed - Do(p, a).saved == |p.rows| + p.removed - p.saved
  {
    match a
    case Calls(f, kind, kid, generated) =>
      if !p.isKeyBeingCreated {
        assert p.creations.Keys == {};
        assert p.creations[f := Creation(kind, kid)].Keys == {f};
      }
    case Saves(f, ok, now) =>
      assert p.creations.Keys == {f} by {
        SubsetSize({f}, p.creations.Keys);
        if g :| g in p.creations && g != f {
          SubsetSize({f, g}, p.creations.Keys);
        }
      }
      assert (p.creations - {f}).Keys == {};
      assert p.creations[f].kid !in p.rows;
    case Deletes(kind, days, now) =>
      RemovalShrinks(p.rows, kind, days, now);
  }

  /**
    At every moment the flag is set exactly while one creation is in flight, there are never two, and the rows in
    the table are those there were, plus one for each saved creation, less those deleted.
   */
  lemma {:induction false} OneCreationAtATime(ps: seq<Process>, acts: seq<Act>, k: nat)
    requires Behaviour(ps, acts) && k < |ps|
    ensures Guarded(ps[k])
    ensures |ps[k].creations| <= 1 && (ps[k].isKeyBeingCreated <==> |ps[k].creations| == 1)
    ensures |ps[k].rows| == |ps[0].rows| + ps[k].saved - ps[k].removed
  {
    if k > 0 {
      OneCreationAtATime(ps, acts, k - 1);
      assert Happens(ps, acts, k - 1);
      ActKeepsGuarded(ps[k - 1], acts[k - 1]);
    }
  }

  // ---------- The rotation's turn of one type ----------

  /** The rows of one type. */
  function RowsOf(keys: Keys, kind: KeyType): Keys {
    map kid | kid in keys && keys[kid].kind == kind :: keys[kid]
  }

  /** When the call made at `call` had saved its row before the `t`-th act, if it had. */
  function SavedAt(acts: seq<Act>, f: nat, call: nat, t: nat): Option<int>
    requires call < t <= |acts|
  {
    if t == call + 1 then None
    else match acts[t - 1]
      case Saves(g, true, now) => if g == f then Some(now) else SavedAt(acts, f, call, t - 1)
      case _ => SavedAt(acts, f, call, t - 1)
  }

  /** An act by somebody else, or the saving of the turn's own row. */
  predicate LeavesTurn(p: Process, a: Act, f: nat, kind: KeyType) {
    match a
    case Calls(g, _, _, _) => g != f
    case Saves(g, _, _) => g == f || (g in p.creations ==> p.creations[g].kind != kind)
    case Deletes(other, _, _) => other != kind
  }

  /** Between the rotation's call and its removal nobody else saves or deletes rows of the type. */
  ghost predicate OwnTurn(ps: seq<Process>, acts: seq<Act>, f: nat, kind: KeyType, call: nat, del: nat)
    requires |ps| == |acts| + 1 && call < del <= |acts|
  {
    forall t | call < t < del :: LeavesTurn(ps[t], acts[t], f, kind)
  }

  function WithSaved(rows: Keys, creation: Creation, saved: Option<int>): Keys {
    if saved.None? then rows else rows[creation.kid := Key(creation.kind, saved.value, true)]
  }

  /** How a turn that met `before` stands in `p`: its row is saved, in flight, or will never be. */
  ghost predicate TurnStands(before: Process, p: Process, f: nat, creation: Creation, generated: bool,
                             saved: Option<int>)
  {
    && RowsOf(p.rows, creation.kind) == WithSaved(RowsOf(before.rows, creation.kind), creation, saved)
    && (f in p.creations ==> saved.None? && p.creations[f] == creation)
    && (f in p.creations || saved.Some? ==> generated && !before.isKeyBeingCreated)
  }

  lemma TurnGoesOn(before: Process, p: Process, a: Act, f: nat, creation: Creation, generated: bool, saved: Option<int>)
    requires TurnStands(before, p, f, creation, generated, saved)
    requires Guarded(p) && Possible(p, a) && LeavesTurn(p, a, f, creation.kind)
    ensures TurnStands(before, Do(p, a), f, creation, generated,
                       if a.Saves? && a.ok && a.f == f then Some(a.now) else saved)
  {
    TurnStep(p, a, f, creation.kind);
  }

  /** What one act of somebody else, or the saving of the turn's own row, does to the rows of a type. */
  lemma TurnStep(p: Process, a: Act, f: nat, kind: KeyType)
    requires Guarded(p) && Possible(p, a) && LeavesTurn(p, a, f, kind)
    ensures RowsOf(Do(p, a).rows, kind) ==
              if a.Saves? && a.ok && p.creations[a.f].kind == kind
              then RowsOf(p.rows, kind)[p.creations[a.f].kid := Key(kind, a.now, true)]
              else RowsOf(p.rows, kind)
  {
  }

  lemma TurnStarts(p: Process, f: nat, creation: Creation, generated: bool)
    requires Guarded(p) && Possible(p, Calls(f, creation.kind, creation.kid, generated))
    ensures TurnStands(p, Do(p, Calls(f, creation.kind, creation.kid, generated)), f, creation, generated, None)
  {
  }

  lemma TurnStartsAt(ps: seq<Process>, acts: seq<Act>, f: nat, creation: Creation, generated: bool, call: nat)
    requires Behaviour(ps, acts) && call < |acts| && acts[call] == Calls(f, creation.kind, creation.kid, generated)
    ensures TurnStands(ps[call], ps[call + 1], f, creation, generated, None)
  {
    var p, a := ps[call], acts[call];
    assert Guarded(p) && Possible(p, a) by {
      ActsFollow(ps, acts, call);
    }
    assert TurnStands(p, Do(p, a), f, creation, generated, None) by {
      TurnStarts(p, f, creation, generated);
    }
    assert ps[call + 1] == Do(p, a) by {
      ActsFollow(ps, acts, call);
    }
  }

  lemma ActsFollow(ps: seq<Process>, acts: seq<Act>, t: nat)
    requires Behaviour(ps, acts) && t < |acts|
    ensures Guarded(ps[t]) && Possible(ps[t], acts[t]) && ps[t + 1] == Do(ps[t], acts[t])
  {
    OneCreationAtATime(ps, acts, t);
    assert Happens(ps, acts, t);
  }

  lemma SavedNext(acts: seq<Act>, f: nat, call: nat, t: nat)
    requires call + 1 < t <= |acts|
    ensures SavedAt(acts, f, call, t) ==
              if acts[t - 1].Saves? && acts[t - 1].ok && acts[t - 1].f == f then Some(acts[t - 1].now)
              else SavedAt(acts, f, call, t - 1)
  {
  }

  lemma OwnTurnSoFar(ps: seq<Process>, acts: seq<Act>, f: nat, kind: KeyType, call: nat, t: nat)
    requires |ps| == |acts| + 1 && call + 1 < t <= |acts| && OwnTurn(ps, acts, f, kind, call, t)
    ensures OwnTurn(ps, acts, f, kind, call, t - 1) && LeavesTurn(ps[t - 1], acts[t - 1], f, kind)
  {
  }

  lemma TurnGoesOnAt(ps: seq<Process>, acts: seq<Act>, f: nat, creation: Creation, generated: bool, call: nat, t: nat)
    requires Behaviour(ps, acts) && call + 1 < t <= |acts| && OwnTurn(ps, acts, f, creation.kind, call, t)
    requires TurnStands(ps[call], ps[t - 1], f, creation, generated, SavedAt(acts, f, call, t - 1))
    ensures TurnStands(ps[call], ps[t], f, creation, generated, SavedAt(acts, f, call, t))
  {
    var before, p, a := ps[call], ps[t - 1], acts[t - 1];
    var saved, saved' := SavedAt(acts, f, call, t - 1), SavedAt(acts, f, call, t);
    assert Guarded(p) && Possible(p, a) by {
      ActsFollow(ps, acts, t - 1);
    }
    assert LeavesTurn(p, a, f, creation.kind) by {
      OwnTurnSoFar(ps, acts, f, creation.kind, call, t);
    }
    assert saved' == if a.Saves? && a.ok && a.f == f then Some(a.now) else saved by {
      SavedNext(acts, f, call, t);
    }
    assert TurnStands(before, Do(p, a), f, creation, generated, saved') by {
      TurnGoesOn(before, p, a, f, creation, generated, saved);
    }
    assert ps[t] == Do(p, a) by {
      ActsFollow(ps, acts, t - 1);
    }
  }

  /** Up to its removal a turn adds the row its call saved, if any; a call that met the flag saves none. */
  lemma {:induction false} TurnSoFar(ps: seq<Process>, acts: seq<Act>, f: nat, creation: Creation, generated: bool,
                                     call: nat, t: nat)
    requires Behaviour(ps, acts) && call < t <= |acts|
    requires acts[call] == Calls(f, creation.kind, creation.kid, generated)
    requires OwnTurn(ps, acts, f, creation.kind, call, t)
    ensures TurnStands(ps[call], ps[t], f, creation, generated, SavedAt(acts, f, call, t))
  {
    if t == call + 1 {
      TurnStartsAt(ps, acts, f, creation, generated, call);
    } else {
      OwnTurnSoFar(ps, acts, f, creation.kind, call, t);
      TurnSoFar(ps, acts, f, creation, generated, call, t - 1);
      TurnGoesOnAt(ps, acts, f, creation, generated, call, t);
    }
  }

  /**
    The turn of one type in a rotation, amid any other calls of the process: it leaves the type without a key to sign
    with exactly if the row it saved, if it saved one, and every usable row before it are past retention when its
    removal runs; and a call that meets the flag, set by a creation of whatever type, saves none.
   */
  lemma TurnLeavesNoneExactly(ps: seq<Process>, acts: seq<Act>, f: nat, kind: KeyType, kid: string, generated: bool,
                              call: nat, del: nat, now: int)
    requires Behaviour(ps, acts) && call < del < |acts| && acts[call] == Calls(f, kind, kid, generated)
    requires acts[del] == Deletes(kind, RetentionDays(kind), now) && OwnTurn(ps, acts, f, kind, call, del)
    requires kid !in ps[call].rows
    ensures var saved, limit := SavedAt(acts, f, call, del), now - RetentionDays(kind) * DAY;
            && (ps[call].isKeyBeingCreated ==> saved.None?)
            && (NoneUsable(ps[del + 1].rows, kind) <==>
                  && (saved.Some? ==> saved.value < limit)
                  && (forall k | Usable(ps[call].rows, kind, k) :: ps[call].rows[k].createdAt < limit))
  {
    TurnSoFar(ps, acts, f, Creation(kind, kid), generated, call, del);
    ActsFollow(ps, acts, del);
    var saved, limit := SavedAt(acts, f, call, del), now - RetentionDays(kind) * DAY;
    var before, rows, after := ps[call].rows, ps[del].rows, ps[del + 1].rows;
    forall k ensures Usable(after, kind, k) <==> Usable(rows, kind, k) && rows[k].createdAt >= limit {
    }
    forall k
      ensures Usable(rows, kind, k) <==> Usable(before, kind, k) || (saved.Some? && k == kid)
      ensures Usable(before, kind, k) ==> rows[k] == before[k]
    {
      assert Usable(rows, kind, k) <==> Usable(RowsOf(rows, kind), kind, k);
      assert Usable(before, kind, k) <==> Usable(RowsOf(before, kind), kind, k);
      assert Usable(before, kind, k) ==> RowsOf(before, kind)[k] == before[k];
    }
    if saved.Some? {
      assert RowsOf(rows, kind)[kid] == Key(kind, saved.value, true);
      assert rows[kid] == Key(kind, saved.value, true);
    }
  }

  /** A call for one type, made while a key of another type is being saved. */
  function SkippedTurn(kind: KeyType, other: KeyType, k: string, l: string, now: int): seq<Act> {
    [Calls(0, other, l, true), Calls(1, kind, k, true), Deletes(kind, RetentionDays(kind), now), Saves(0, true, now)]
  }

  /**
    It happens: while a key of one type is being saved, a rotation's call for another type does nothing and its
    removal deletes that type's last usable keys.
   */
  lemma SkippedTurnRuns(rows: Keys, kind: KeyType, other: KeyType, k: string, l: string, now: int)
    returns (ps: seq<Process>)
    requires kind != other && k !in rows && l !in rows && k != l
    requires forall row | Usable(rows, kind, row) :: rows[row].createdAt < now - RetentionDays(kind) * DAY
    ensures Behaviour(ps, SkippedTurn(kind, other, k, l, now)) && ps[0].rows == rows
    ensures NoneUsable(ps[4].rows, kind) && Usable(ps[4].rows, other, l)
  {
    var acts := SkippedTurn(kind, other, k, l, now);
    var p0 := Process(rows, false, map[], 0, 0);
    var p1 := Do(p0, acts[0]);
    assert p1 == p0.(isKeyBeingCreated := true, creations := map[0 := Creation(other, l)]);
    var p3 := Do(p1, acts[2]);
    var p4 := Do(p3, acts[3]);
    ps := [p0, p1, p1, p3, p4];
    assert Happens(ps, acts, 0) && Happens(ps, acts, 1) && Happens(ps, acts, 2) && Happens(ps, acts, 3);
    TurnLeavesNoneExactly(ps, acts, 1, kind, k, true, 1, 2, now);
    forall row ensures !Usable(p4.rows, kind, row) {
      assert !Usable(p3.rows, kind, row);
    }
  }
}
