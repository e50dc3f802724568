/** How long issued tokens keep being accepted while keys rotate, over every run of whole requests. */
module TokenTheorems {
  import opened Options
  import opened Uuids
  import opened SessionModel
  import opened KeyModel
  import opened Tokens
  import opened AuthSystem
  import opened SessionTheorems

  /** Keys of `kind` are created at most `gap` ms apart: its newest key is never older than that. */
  ghost predicate GapBounded(ss: seq<State>, kind: KeyType, gap: int) {
    forall k: nat, kid | k < |ss| && IsCurrent(ss[k].keys, kind, kid) :: ss[k].now - ss[k].keys[kid].createdAt <= gap
  }

  ghost predicate FreshEnough(s: State, kind: KeyType, gap: int) {
    forall kid | IsCurrent(s.keys, kind, kid) :: s.now - s.keys[kid].createdAt <= gap
  }

  // ---------- Retention covers lifetime ----------

  /** Until it expires, each token of `kind` has its key in the table, and outlives its retention by no moment. */
  ghost predicate Covered(s: State, kind: KeyType) {
    forall t | t in s.issued && t.kind == kind && s.now < t.token.claims.exp * 1000 ::
      && t.token.signedBy in s.keys
      && t.token.claims.exp * 1000 <= s.keys[t.token.signedBy].createdAt + RetentionDays(kind) * DAY + 1
  }

  lemma SigningKeepsCovered(c: Config, s: State, signed: KeyType, kid: string, jti: string, subject: Subject,
                            sid: Option<string>, kind: KeyType, gap: int)
    requires CanSign(s, signed, kid, jti) && (IsMailKey(signed) ==> subject.sub.Some?)
    requires Inv(s) && Covered(s, kind) && FreshEnough(s, kind, gap) && 0 <= gap
    requires gap + c.Life(kind) * 1000 <= RetentionDays(kind) * DAY + 1
    ensures var t := AfterSigning(c, s, signed, kid, jti, subject, sid);
            Inv(t) && Covered(t, kind) && FreshEnough(t, kind, gap)
  {
    SigningKeeps(c, s, signed, kid, jti, subject, sid);
    var t := AfterSigning(c, s, signed, kid, jti, subject, sid);
    assert (NowSeconds(s.now) + c.Life(kind)) * 1000 <= s.now + c.Life(kind) * 1000;
    forall k | IsCurrent(t.keys, kind, k) ensures t.now - t.keys[k].createdAt <= gap {
      if k in s.keys {
        assert forall other | Usable(s.keys, kind, other) :: Usable(t.keys, kind, other);
        assert IsCurrent(s.keys, kind, k);
      }
    }
    forall u | u in t.issued && u.kind == kind && t.now < u.token.claims.exp * 1000
      ensures u.token.signedBy in t.keys
      ensures u.token.claims.exp * 1000 <= t.keys[u.token.signedBy].createdAt + RetentionDays(kind) * DAY + 1
    {
      if u !in s.issued {
        assert u == Issued(signed, NewToken(c, s, signed, kid, jti, subject, sid));
        assert t.now - t.keys[kid].createdAt <= gap;
      }
    }
  }

  lemma TokensKeepCovered(c: Config, s: State, subject: Subject, sid: string, ids: PairIds, kind: KeyType, gap: int)
    requires Inv(s) && CanSignTokens(c, s, subject, sid, ids)
    requires Covered(s, kind) && FreshEnough(s, kind, gap) && 0 <= gap
    requires gap + c.Life(kind) * 1000 <= RetentionDays(kind) * DAY + 1
    ensures Covered(AfterTokens(c, s, subject, sid, ids), kind)
  {
    SigningKeepsCovered(c, s, RefreshKey, ids.refreshKid, ids.refreshJti, subject, Some(sid), kind, gap);
    SigningKeepsCovered(c, AfterRefreshToken(c, s, subject, sid, ids), AccessKey, ids.accessKid, ids.accessJti,
                        subject, Some(sid), kind, gap);
  }

  lemma StepKeepsCovered(c: Config, s: State, e: Event, kind: KeyType, gap: int)
    requires Inv(s) && Enabled(c, s, e) && Covered(s, kind) && FreshEnough(s, kind, gap) && 0 <= gap
    requires gap + c.Life(kind) * 1000 <= RetentionDays(kind) * DAY + 1
    ensures Covered(Apply(c, s, e), kind)
  {
    match e
    case Login(user, client, sid, ids) =>
      TokensKeepCovered(c, WithUuid(s, sid), SubjectOf(user), sid, ids, kind, gap);
    case RefreshTokens(sid, caller, ids) => TokensKeepCovered(c, s, caller, sid, ids, kind, gap);
    case SignMailToken(k, user, kid, jti) => SigningKeepsCovered(c, s, k, kid, jti, SubjectOf(user), None, kind, gap);
    case _ =>
  }

  lemma {:induction false} RunKeepsCovered(c: Config, ss: seq<State>, es: seq<Event>, k: nat, kind: KeyType, gap: int)
    requires Run(c, ss, es) && k < |ss| && GapBounded(ss, kind, gap) && 0 <= gap
    requires gap + c.Life(kind) * 1000 <= RetentionDays(kind) * DAY + 1
    ensures Covered(ss[k], kind)
  {
    if k > 0 {
      RunKeepsCovered(c, ss, es, k - 1, kind, gap);
      RunKeepsInv(c, ss, es, k - 1);
      assert Happens(c, ss, es, k - 1);
      StepKeepsCovered(c, ss[k - 1], es[k - 1], kind, gap);
    }
  }

  /** Every token of `kind` issued in `s` verifies, with the claims it was signed with, until its `exp`. */
  ghost predicate TokensVerify(s: State, kind: KeyType) {
    forall t | t in s.issued && t.kind == kind && s.now < t.token.claims.exp * 1000 ::
      Verify(s.keys, t.token, kind, s.now) == Returned(Some(t.token.claims))
  }

  /**
    If the gap between creations and the lifetime fit into the retention period, tokens verify until they expire. The
    last millisecond is granted since a key is deleted only when strictly older than its retention.
   */
  lemma RetentionCoversLifetime(c: Config, ss: seq<State>, es: seq<Event>, k: nat, kind: KeyType, gap: int)
    requires Run(c, ss, es) && k < |ss| && GapBounded(ss, kind, gap) && 0 <= gap
    requires gap + c.Life(kind) * 1000 <= RetentionDays(kind) * DAY + 1
    ensures TokensVerify(ss[k], kind)
  {
    RunKeepsInv(c, ss, es, k);
    RunKeepsCovered(c, ss, es, k, kind, gap);
  }

  // ---------- The bound is exact ----------

  /** A token that lives for no second has expired when it is signed. */
  lemma {:induction false} ShortTokensAreDead(c: Config, ss: seq<State>, es: seq<Event>, k: nat, kind: KeyType)
    requires Run(c, ss, es) && k < |ss| && c.Life(kind) <= 0
    ensures forall t | t in ss[k].issued && t.kind == kind :: t.token.claims.exp * 1000 <= ss[k].now
  {
    if k > 0 {
      ShortTokensAreDead(c, ss, es, k - 1, kind);
      assert Happens(c, ss, es, k - 1);
    }
  }

  /** A stretch of a run over UUIDs in which keys of `kind` are created at most `gap` ms apart. */
  ghost predicate Stretch(c: Config, ss: seq<State>, es: seq<Event>, kind: KeyType, gap: int) {
    && |ss| == |es| + 1
    && (forall i | 0 <= i < |es| :: UuidStep(c, ss, es, i))
    && (forall i | 0 <= i < |ss| :: FreshAt(ss, i, kind, gap))
  }

  ghost predicate UuidStep(c: Config, ss: seq<State>, es: seq<Event>, i: nat)
    requires |ss| == |es| + 1 && i < |es|
  {
    Happens(c, ss, es, i) && DrawsUuids(es[i])
  }

  ghost predicate FreshAt(ss: seq<State>, i: nat, kind: KeyType, gap: int)
    requires i < |ss|
  {
    FreshEnough(ss[i], kind, gap)
  }

  lemma OneStep(c: Config, s: State, e: Event, kind: KeyType, gap: int)
    requires Enabled(c, s, e) && DrawsUuids(e) && FreshEnough(s, kind, gap) && FreshEnough(Apply(c, s, e), kind, gap)
    ensures Stretch(c, [s, Apply(c, s, e)], [e], kind, gap)
  {
  }

  lemma Glued(c: Config, ss: seq<State>, es: seq<Event>, ts: seq<State>, fs: seq<Event>, kind: KeyType, gap: int)
    requires Stretch(c, ss, es, kind, gap) && Stretch(c, ts, fs, kind, gap) && ts[0] == ss[|es|]
    ensures Stretch(c, ss + ts[1..], es + fs, kind, gap)
    ensures (ss + ts[1..])[0] == ss[0] && (ss + ts[1..])[|es + fs|] == ts[|fs|]
  {
    var us, gs := ss + ts[1..], es + fs;
    forall i | 0 <= i < |gs| ensures UuidStep(c, us, gs, i) {
      if i < |es| {
        assert UuidStep(c, ss, es, i);
      } else {
        assert UuidStep(c, ts, fs, i - |es|);
        assert us[i] == ts[i - |es|] && gs[i] == fs[i - |es|];
      }
    }
    forall i | 0 <= i < |us| ensures FreshAt(us, i, kind, gap) {
      if i >= |ss| {
        assert FreshAt(ts, i - |es|, kind, gap) && us[i] == ts[i - |es|];
      } else {
        assert FreshAt(ss, i, kind, gap);
      }
    }
  }

  /** A stretch from an empty system is a run. */
  lemma StretchIsRun(c: Config, ss: seq<State>, es: seq<Event>, kind: KeyType, gap: int)
    requires Stretch(c, ss, es, kind, gap) && Init(ss[0])
    ensures UuidRun(c, ss, es) && GapBounded(ss, kind, gap)
  {
    forall i | 0 <= i < |es| ensures Happens(c, ss, es, i) && DrawsUuids(es[i]) {
      assert UuidStep(c, ss, es, i);
    }
    forall k: nat, kid | k < |ss| && IsCurrent(ss[k].keys, kind, kid)
      ensures ss[k].now - ss[k].keys[kid].createdAt <= gap
    {
      assert FreshAt(ss, k, kind, gap);
    }
  }

  /** Identifiers not drawn before. */
  ghost predicate Unused(ids: seq<string>, drawn: set<string>) {
    && AllUuids(IdSet(ids)) && IdSet(ids) !! drawn
    && (forall i, j | 0 <= i < j < |ids| :: ids[i] != ids[j])
  }

  lemma UnusedAt(ids: seq<string>, drawn: set<string>, i: nat)
    requires Unused(ids, drawn) && i < |ids|
    ensures IsUuid(ids[i]) && ids[i] !in drawn
    ensures forall j | 0 <= j < |ids| && j != i :: ids[j] != ids[i]
  {
    assert ids[i] in IdSet(ids);
  }

  lemma UnusedAfter(ids: seq<string>, drawn: set<string>, n: nat, more: set<string>)
    requires Unused(ids, drawn) && n <= |ids| && forall id | id in more :: exists i :: 0 <= i < n && id == ids[i]
    ensures Unused(ids[n..], drawn + more)
  {
    forall id | id in IdSet(ids[n..]) ensures id in IdSet(ids) && id !in more {
      var j :| 0 <= j < |ids| - n && ids[n..][j] == id;
      assert ids[n + j] == id;
    }
  }

  /** One usable key of age at most `gap` bounds the age of the newest. */
  lemma YoungKeyBoundsAge(s: State, kind: KeyType, kid: string, gap: int)
    requires Usable(s.keys, kind, kid) && s.now - s.keys[kid].createdAt <= gap
    ensures FreshEnough(s, kind, gap)
  {
  }

  /** `s` a stretch later: a new key has just been made, the old keys are there, and no token was signed. */
  ghost predicate KeptFresh(s: State, t: State, kind: KeyType, kid: string, until: int) {
    && t.now == until && Usable(t.keys, kind, kid) && t.keys[kid].createdAt == until
    && (forall k | k in s.keys :: k in t.keys && t.keys[k] == s.keys[k]) && t.issued == s.issued
  }

  lemma OneLess(gap: int, n: nat)
    ensures gap * n == gap + gap * (n - 1)
  {
  }

  /** The identifiers it takes to keep creating keys for a type's retention: one for each gap, and seven more. */
  function Supply(kind: KeyType, gap: int): int
    requires gap >= 1
  {
    RetentionDays(kind) * DAY / gap + 7
  }

  lemma SupplySuffices(retention: nat, gap: int, n: nat)
    requires gap >= 1 && n >= retention / gap + 2
    ensures retention + 1 <= gap * (n - 1)
  {
    assert retention == gap * (retention / gap) + retention % gap;
    MoreIsMore(gap, retention / gap + 1, n - 1);
    assert gap * (retention / gap + 1) == gap * (retention / gap) + gap;
  }

  lemma MoreIsMore(gap: int, a: int, b: int)
    requires gap >= 1 && a <= b
    ensures gap * a <= gap * b
  {
  }

  /** For as long as the identifiers last, new keys can be created `gap` apart. */
  lemma {:induction false} KeepFresh(c: Config, s: State, kind: KeyType, gap: int, until: int, ids: seq<string>)
    returns (ss: seq<State>, es: seq<Event>, kid: string)
    requires 1 <= gap && |ids| > 0 && s.now <= until <= s.now + gap * (|ids| - 1)
    requires Unused(ids, s.uuids) && s.keys.Keys <= s.uuids
    requires FreshEnough(s, kind, gap)
    ensures Stretch(c, ss, es, kind, gap) && ss[0] == s && KeptFresh(s, ss[|es|], kind, kid, until)
    decreases until - s.now
  {
    UnusedAt(ids, s.uuids, 0);
    kid := ids[0];
    var e := CreateKey(kind, kid);
    var s1 := Apply(c, s, e);
    YoungKeyBoundsAge(s1, kind, kid, gap);
    OneStep(c, s, e, kind, gap);
    ss, es := [s, s1], [e];
    if s.now < until {
      var wait := if until - s.now < gap then until - s.now else gap;
      var s2 := Apply(c, s1, Advance(wait));
      YoungKeyBoundsAge(s2, kind, kid, gap);
      OneStep(c, s1, Advance(wait), kind, gap);
      Glued(c, ss, es, [s1, s2], [Advance(wait)], kind, gap);
      ss, es := ss + [s1, s2][1..], es + [Advance(wait)];
      UnusedAfter(ids, s.uuids, 1, {ids[0]});
      OneLess(gap, |ids| - 1);
      var ts, fs;
      ts, fs, kid := KeepFresh(c, s2, kind, gap, until, ids[1..]);
      Glued(c, ss, es, ts, fs, kind, gap);
      ss, es := ss + ts[1..], es + fs;
    }
  }

  /** Signs a token of `kind` with the key `ids[0]`; access and refresh tokens are signed in pairs. */
  function SignOf(kind: KeyType, user: User, ids: seq<string>): Event
    requires |ids| >= 5
  {
    match kind
    case RefreshKey => Login(user, Client("", "", "", ""), ids[4], PairIds(ids[0], ids[1], ids[2], ids[3]))
    case AccessKey => Login(user, Client("", "", "", ""), ids[4], PairIds(ids[2], ids[3], ids[0], ids[1]))
    case _ => SignMailToken(kind, user, ids[0], ids[1])
  }

  /** A system whose one key is as old as the gap allows, at the start of a second. */
  function Aged(kind: KeyType, gap: int, kid: string): State {
    State(1000 * gap, map[kid := Key(kind, 999 * gap, true)], Sessions(map[], map[]), {kid}, {})
  }

  /** `u` is a token of `kind` just signed by the key `kid`, which is still the only one of its type. */
  ghost predicate JustSigned(c: Config, s: State, kind: KeyType, gap: int, ids: seq<string>, u: Issued)
    requires |ids| >= 5
  {
    && s.now == 1000 * gap && s.keys.Keys <= s.uuids <= IdSet(ids[..5])
    && Usable(s.keys, kind, ids[0]) && s.keys[ids[0]].createdAt == 999 * gap
    && u in s.issued && u.kind == kind && u.token.kid == Some(ids[0])
    && u.token.claims.exp == gap + c.Life(kind)
  }

  lemma FirstFive(ids: seq<string>)
    requires |ids| >= 5 && Unused(ids, {})
    ensures IdSet(ids[..5]) == {ids[0], ids[1], ids[2], ids[3], ids[4]}
    ensures AllUuids({ids[0], ids[1], ids[2], ids[3], ids[4]})
    ensures ids[0] !in {ids[1], ids[2], ids[3], ids[4]} && ids[1] !in {ids[2], ids[3], ids[4]}
    ensures ids[2] !in {ids[3], ids[4]} && ids[3] != ids[4]
  {
    var five := ids[..5];
    assert five[0] == ids[0] && five[1] == ids[1] && five[2] == ids[2] && five[3] == ids[3] && five[4] == ids[4];
    forall i | 0 <= i < 5 ensures IsUuid(ids[i]) {
      UnusedAt(ids, {}, i);
    }
  }

  lemma SignRefreshAged(c: Config, gap: int, user: User, ids: seq<string>) returns (u: Issued)
    requires |ids| >= 5 && Unused(ids, {})
    ensures Enabled(c, Aged(RefreshKey, gap, ids[0]), SignOf(RefreshKey, user, ids))
    ensures JustSigned(c, Apply(c, Aged(RefreshKey, gap, ids[0]), SignOf(RefreshKey, user, ids)), RefreshKey, gap,
                       ids, u)
  {
    FirstFive(ids);
    var s, subject := WithUuid(Aged(RefreshKey, gap, ids[0]), ids[4]), SubjectOf(user);
    assert Usable(s.keys, RefreshKey, ids[0]) && CanSign(s, RefreshKey, ids[0], ids[1]);
    var t := AfterSigning(c, s, RefreshKey, ids[0], ids[1], subject, Some(ids[4]));
    assert t.keys == s.keys && CanSign(t, AccessKey, ids[2], ids[3]);
    u := Issued(RefreshKey, NewToken(c, s, RefreshKey, ids[0], ids[1], subject, Some(ids[4])));
  }

  lemma SignAccessAged(c: Config, gap: int, user: User, ids: seq<string>) returns (u: Issued)
    requires |ids| >= 5 && Unused(ids, {})
    ensures Enabled(c, Aged(AccessKey, gap, ids[0]), SignOf(AccessKey, user, ids))
    ensures JustSigned(c, Apply(c, Aged(AccessKey, gap, ids[0]), SignOf(AccessKey, user, ids)), AccessKey, gap, ids, u)
  {
    FirstFive(ids);
    var s, subject := WithUuid(Aged(AccessKey, gap, ids[0]), ids[4]), SubjectOf(user);
    assert CanSign(s, RefreshKey, ids[2], ids[3]);
    var t := AfterSigning(c, s, RefreshKey, ids[2], ids[3], subject, Some(ids[4]));
    assert Usable(t.keys, AccessKey, ids[0]) && IsCurrent(t.keys, AccessKey, ids[0]);
    assert CanSign(t, AccessKey, ids[0], ids[1]);
    u := Issued(AccessKey, NewToken(c, t, AccessKey, ids[0], ids[1], subject, Some(ids[4])));
  }

  lemma SignAged(c: Config, kind: KeyType, gap: int, user: User, ids: seq<string>) returns (u: Issued)
    requires |ids| >= 5 && Unused(ids, {}) && IsUuid(user.id)
    ensures Enabled(c, Aged(kind, gap, ids[0]), SignOf(kind, user, ids)) && DrawsUuids(SignOf(kind, user, ids))
    ensures JustSigned(c, Apply(c, Aged(kind, gap, ids[0]), SignOf(kind, user, ids)), kind, gap, ids, u)
  {
    FirstFive(ids);
    if kind == RefreshKey {
      u := SignRefreshAged(c, gap, user, ids);
    } else if kind == AccessKey {
      u := SignAccessAged(c, gap, user, ids);
    } else {
      var s := Aged(kind, gap, ids[0]);
      assert Usable(s.keys, kind, ids[0]) && CanSign(s, kind, ids[0], ids[1]);
      u := Issued(kind, NewToken(c, s, kind, ids[0], ids[1], SubjectOf(user), None));
    }
  }

  /** From an empty system: a key is created and ages as far as the gap allows. */
  lemma UpToAged(c: Config, kind: KeyType, gap: int, kid: string) returns (ss: seq<State>, es: seq<Event>)
    requires 1 <= gap && IsUuid(kid)
    ensures Stretch(c, ss, es, kind, gap) && Init(ss[0]) && ss[|es|] == Aged(kind, gap, kid)
  {
    var s0 := State(999 * gap, map[], Sessions(map[], map[]), {}, {});
    var s1, s2 := Apply(c, s0, CreateKey(kind, kid)), Aged(kind, gap, kid);
    assert s2 == Apply(c, s1, Advance(gap));
    YoungKeyBoundsAge(s1, kind, kid, gap);
    YoungKeyBoundsAge(s2, kind, kid, gap);
    OneStep(c, s0, CreateKey(kind, kid), kind, gap);
    OneStep(c, s1, Advance(gap), kind, gap);
    Glued(c, [s0, s1], [CreateKey(kind, kid)], [s1, s2], [Advance(gap)], kind, gap);
    ss, es := [s0, s1] + [s1, s2][1..], [CreateKey(kind, kid)] + [Advance(gap)];
  }

  /** Then it signs a token. */
  lemma SigningRuns(c: Config, kind: KeyType, gap: int, user: User, ids: seq<string>)
    returns (ss: seq<State>, es: seq<Event>, u: Issued)
    requires 1 <= gap && |ids| >= 5 && Unused(ids, {}) && IsUuid(user.id)
    ensures Stretch(c, ss, es, kind, gap) && Init(ss[0]) && JustSigned(c, ss[|es|], kind, gap, ids, u)
  {
    UnusedAt(ids, {}, 0);
    var e, s := SignOf(kind, user, ids), Aged(kind, gap, ids[0]);
    ss, es := UpToAged(c, kind, gap, ids[0]);
    u := SignAged(c, kind, gap, user, ids);
    YoungKeyBoundsAge(s, kind, ids[0], gap);
    YoungKeyBoundsAge(Apply(c, s, e), kind, ids[0], gap);
    OneStep(c, s, e, kind, gap);
    Glued(c, ss, es, [s, Apply(c, s, e)], [e], kind, gap);
    ss, es := ss + [s, Apply(c, s, e)][1..], es + [e];
  }

  /** The moment just after the retention of a key created at 999 * gap ends, or the present one if that is later. */
  function Late(kind: KeyType, gap: int): int {
    if 999 * gap + RetentionDays(kind) * DAY + 1 < 1000 * gap then 1000 * gap
    else 999 * gap + RetentionDays(kind) * DAY + 1
  }

  lemma LateInReach(kind: KeyType, gap: int, n: nat)
    requires 1 <= gap && n >= Supply(kind, gap) - 5
    ensures 1000 * gap <= Late(kind, gap) <= 1000 * gap + gap * (n - 1)
  {
    SupplySuffices(RetentionDays(kind) * DAY, gap, n);
  }

  lemma RestUnused(ids: seq<string>, drawn: set<string>)
    requires |ids| >= 5 && Unused(ids, {}) && drawn <= IdSet(ids[..5])
    ensures Unused(ids[5..], drawn)
  {
    FirstFive(ids);
    UnusedAfter(ids, {}, 5, drawn);
    assert {} + drawn == drawn;
  }

  /** Keys go on being created until `until`, and then the removal runs. */
  lemma RemovedAt(c: Config, s: State, kind: KeyType, gap: int, until: int, ids: seq<string>)
    returns (ss: seq<State>, es: seq<Event>, t: State, kid: string)
    requires 1 <= gap && |ids| > 0 && s.now <= until <= s.now + gap * (|ids| - 1)
    requires Unused(ids, s.uuids) && s.keys.Keys <= s.uuids && FreshEnough(s, kind, gap)
    ensures Stretch(c, ss, es, kind, gap) && ss[0] == s && KeptFresh(s, t, kind, kid, until)
    ensures ss[|es|] == t.(keys := RemoveOld(t.keys, kind, RetentionDays(kind), t.now))
  {
    ss, es, kid := KeepFresh(c, s, kind, gap, until, ids);
    t := ss[|es|];
    var ts, fs := RemovalRuns(c, t, kind, gap, kid);
    Glued(c, ss, es, ts, fs, kind, gap);
    ss, es := ss + ts[1..], es + fs;
  }

  /** A moment after the signing key's retention ends, the removal takes the key of a token that has not expired. */
  lemma RemovedTooEarly(c: Config, s: State, kind: KeyType, gap: int, ids: seq<string>, u: Issued)
    returns (ss: seq<State>, es: seq<Event>)
    requires 1 <= gap && |ids| >= Supply(kind, gap) && Unused(ids, {}) && JustSigned(c, s, kind, gap, ids, u)
    requires c.Life(kind) >= 1 && gap + c.Life(kind) * 1000 > RetentionDays(kind) * DAY + 1
    ensures Stretch(c, ss, es, kind, gap) && ss[0] == s && !TokensVerify(ss[|es|], kind)
  {
    var until := Late(kind, gap);
    assert s.now <= until <= s.now + gap * (|ids[5..]| - 1) by {
      LateInReach(kind, gap, |ids[5..]|);
    }
    RestUnused(ids, s.uuids);
    YoungKeyBoundsAge(s, kind, ids[0], gap);
    var t, kid;
    ss, es, t, kid := RemovedAt(c, s, kind, gap, until, ids[5..]);
    LateTokenFails(c, s, t, kind, gap, ids, u, kid);
  }

  lemma LateTokenFails(c: Config, s: State, t: State, kind: KeyType, gap: int, ids: seq<string>, u: Issued, kid: string)
    requires 1 <= gap && |ids| >= 5 && JustSigned(c, s, kind, gap, ids, u)
    requires KeptFresh(s, t, kind, kid, Late(kind, gap))
    requires c.Life(kind) >= 1 && gap + c.Life(kind) * 1000 > RetentionDays(kind) * DAY + 1
    ensures !TokensVerify(t.(keys := RemoveOld(t.keys, kind, RetentionDays(kind), t.now)), kind)
  {
    var t' := t.(keys := RemoveOld(t.keys, kind, RetentionDays(kind), t.now));
    assert ids[0] !in t'.keys;
    assert u in t'.issued && t'.now < u.token.claims.exp * 1000;
  }

  /** A removal with a brand new key in the table. */
  lemma RemovalRuns(c: Config, t: State, kind: KeyType, gap: int, kid: string) returns (ts: seq<State>, fs: seq<Event>)
    requires 1 <= gap && Usable(t.keys, kind, kid) && t.keys[kid].createdAt == t.now
    ensures Stretch(c, ts, fs, kind, gap) && fs == [RemoveOldKeys(kind)] && |ts| == 2 && ts[0] == t
    ensures ts[1] == t.(keys := RemoveOld(t.keys, kind, RetentionDays(kind), t.now))
  {
    var t' := Apply(c, t, RemoveOldKeys(kind));
    YoungKeyBoundsAge(t, kind, kid, gap);
    YoungKeyBoundsAge(t', kind, kid, gap);
    OneStep(c, t, RemoveOldKeys(kind), kind, gap);
    ts, fs := [t, t'], [RemoveOldKeys(kind)];
  }

  /** A token that lives longer can outlive its key, with creations no further apart than the gap. */
  lemma LongTokensOutliveKeys(c: Config, kind: KeyType, gap: int, user: User, ids: seq<string>)
    requires 1 <= gap && |ids| >= Supply(kind, gap) && Unused(ids, {}) && IsUuid(user.id)
    requires c.Life(kind) >= 1 && gap + c.Life(kind) * 1000 > RetentionDays(kind) * DAY + 1
    ensures exists ss: seq<State>, es: seq<Event>, k: nat | k < |ss| ::
              UuidRun(c, ss, es) && GapBounded(ss, kind, gap) && !TokensVerify(ss[k], kind)
  {
    var ss, es, u := SigningRuns(c, kind, gap, user, ids);
    var ts, fs := RemovedTooEarly(c, ss[|es|], kind, gap, ids, u);
    Glued(c, ss, es, ts, fs, kind, gap);
    var us, gs := ss + ts[1..], es + fs;
    StretchIsRun(c, us, gs, kind, gap);
    assert !TokensVerify(us[|gs|], kind);
  }

  /**
    For any gap between the creations of a type, all its tokens verify until they expire in every run exactly if the
    gap and the lifetime fit into the type's retention, or there is no lifetime to speak of. `exp` is a whole second,
    rounded down, so the worst token is one signed at the start of a second. `user` and `ids` are the identifiers a
    run may draw.
   */
  lemma LifetimeBoundExactly(c: Config, kind: KeyType, gap: int, user: User, ids: seq<string>)
    requires 1 <= gap && |ids| >= Supply(kind, gap) && Unused(ids, {}) && IsUuid(user.id)
    ensures (forall ss: seq<State>, es: seq<Event>, k: nat
               | k < |ss| && UuidRun(c, ss, es) && GapBounded(ss, kind, gap) :: TokensVerify(ss[k], kind))
              <==> c.Life(kind) <= 0 || gap + c.Life(kind) * 1000 <= RetentionDays(kind) * DAY + 1
  {
    if c.Life(kind) <= 0 || gap + c.Life(kind) * 1000 <= RetentionDays(kind) * DAY + 1 {
      forall ss: seq<State>, es: seq<Event>, k: nat
          | k < |ss| && UuidRun(c, ss, es) && GapBounded(ss, kind, gap) ensures TokensVerify(ss[k], kind) {
        if c.Life(kind) <= 0 {
          ShortTokensAreDead(c, ss, es, k, kind);
        } else {
          RetentionCoversLifetime(c, ss, es, k, kind, gap);
        }
      }
    } else {
      LongTokensOutliveKeys(c, kind, gap, user, ids);
    }
  }

  const MONTH := 31 * DAY

  /** With creations at most 31 days apart: 30 days for refresh tokens, nothing for the other types. */
  lemma MonthlyBoundExactly(c: Config, kind: KeyType, user: User, ids: seq<string>)
    requires |ids| >= Supply(kind, MONTH) && Unused(ids, {}) && IsUuid(user.id)
    ensures (forall ss: seq<State>, es: seq<Event>, k: nat
               | k < |ss| && UuidRun(c, ss, es) && GapBounded(ss, kind, MONTH) :: TokensVerify(ss[k], kind))
              <==> c.Life(kind) <= if kind.RefreshKey? then 30 * 86400 else 0
  {
    LifetimeBoundExactly(c, kind, MONTH, user, ids);
  }

  // ---------- Keys over runs ----------

  /** A rotation never removes the newest key of a type before the next one is created. */
  lemma RemovalSparesCurrent(c: Config, ss: seq<State>, es: seq<Event>, k: nat, kind: KeyType, gap: int, kid: string)
    requires Run(c, ss, es) && k < |es| && GapBounded(ss, kind, gap) && gap <= RetentionDays(kind) * DAY
    requires IsCurrent(ss[k].keys, kind, kid) && es[k].RemoveOldKeys?
    ensures IsCurrent(ss[k + 1].keys, kind, kid)
  {
    assert Happens(c, ss, es, k);
    assert forall other | Usable(ss[k + 1].keys, kind, other) :: Usable(ss[k].keys, kind, other);
  }

  /** A usable key of `kind` was created at `since` or later, or there is no usable key of `kind` at all. */
  ghost predicate NoOlderCurrent(keys: Keys, kind: KeyType, since: int) {
    (exists kid :: UsableSince(keys, kind, kid, since)) || NoneUsable(keys, kind)
  }

  predicate UsableSince(keys: Keys, kind: KeyType, kid: string, since: int) {
    Usable(keys, kind, kid) && keys[kid].createdAt >= since
  }

  lemma WithKeyKeepsOrder(s: State, kind: KeyType, kid: string, any: KeyType, since: int)
    requires NoOlderCurrent(s.keys, any, since) && since <= s.now
    ensures NoOlderCurrent(WithKey(s, kind, kid).keys, any, since)
  {
    var t := WithKey(s, kind, kid);
    if some :| UsableSince(s.keys, any, some, since) {
      assert UsableSince(t.keys, any, some, since);
    } else if kind == any && kid !in s.keys {
      assert UsableSince(t.keys, any, kid, since);
    } else {
      assert forall other :: Usable(t.keys, any, other) ==> Usable(s.keys, any, other);
    }
  }

  lemma StepKeepsOrder(c: Config, s: State, e: Event, kind: KeyType, since: int)
    requires NoOlderCurrent(s.keys, kind, since) && since <= s.now
    ensures NoOlderCurrent(Apply(c, s, e).keys, kind, since) && since <= Apply(c, s, e).now
  {
    match e
    case Login(user, client, sid, ids) =>
      var t := WithUuid(s, sid);
      WithKeyKeepsOrder(t, RefreshKey, ids.refreshKid, kind, since);
      WithKeyKeepsOrder(AfterRefreshToken(c, t, SubjectOf(user), sid, ids), AccessKey, ids.accessKid, kind, since);
    case RefreshTokens(sid, caller, ids) =>
      WithKeyKeepsOrder(s, RefreshKey, ids.refreshKid, kind, since);
      WithKeyKeepsOrder(AfterRefreshToken(c, s, caller, sid, ids), AccessKey, ids.accessKid, kind, since);
    case SignMailToken(k, user, kid, jti) => WithKeyKeepsOrder(s, k, kid, kind, since);
    case CreateKey(k, kid) => WithKeyKeepsOrder(s, k, kid, kind, since);
    case RemoveOldKeys(k) =>
      var after := RemoveOld(s.keys, k, RetentionDays(k), s.now);
      assert forall other :: Usable(after, kind, other) ==> Usable(s.keys, kind, other);
      if some :| UsableSince(s.keys, kind, some, since) {
        if some in after {
          assert UsableSince(after, kind, some, since);
        } else if rest :| Usable(after, kind, rest) {
          assert UsableSince(after, kind, rest, since);
        }
      }
    case _ =>
  }

  /** The moment the key in use was created never moves back, even if all keys of the type go in between. */
  lemma {:induction false} CurrentNeverOlder(c: Config, ss: seq<State>, es: seq<Event>, i: nat, k: nat, kind: KeyType,
                                             kid: string)
    requires Run(c, ss, es) && i <= k < |ss| && IsCurrent(ss[i].keys, kind, kid)
    ensures NoOlderCurrent(ss[k].keys, kind, ss[i].keys[kid].createdAt) && ss[i].keys[kid].createdAt <= ss[k].now
    ensures forall later | IsCurrent(ss[k].keys, kind, later) ::
              ss[i].keys[kid].createdAt <= ss[k].keys[later].createdAt
  {
    if i == k {
      RunKeepsInv(c, ss, es, i);
      assert UsableSince(ss[i].keys, kind, kid, ss[i].keys[kid].createdAt);
    } else {
      CurrentNeverOlder(c, ss, es, i, k - 1, kind, kid);
      assert Happens(c, ss, es, k - 1);
      StepKeepsOrder(c, ss[k - 1], es[k - 1], kind, ss[i].keys[kid].createdAt);
    }
  }

  /**
    In every state an issued token verifies under the type it was issued as and no other, until `exp` or until its
    key is removed, and yields the claims it was signed with; as a session token it passes its own strategy only.
   */
  lemma IssuedVerifiesExactly(c: Config, ss: seq<State>, es: seq<Event>, k: nat, t: Issued, kind: KeyType)
    requires Run(c, ss, es) && k < |ss| && t in ss[k].issued
    ensures Verify(ss[k].keys, t.token, kind, ss[k].now) ==
              if kind == t.kind && t.token.signedBy in ss[k].keys && ss[k].now < t.token.claims.exp * 1000
              then Returned(Some(t.token.claims)) else Returned(None)
    ensures !t.kind.AccessKey? ==> !JwtStrategyAccepts(ss[k].keys, ss[k].sessions, t.token, ss[k].now)
    ensures !t.kind.RefreshKey? ==> !RefreshStrategyAccepts(ss[k].keys, ss[k].sessions, t.token, ss[k].now)
  {
    RunKeepsInv(c, ss, es, k);
  }

  // ---------- From issue to expiry ----------

  /** The events that issue a refresh token, the session they issue it for, and the token. */
  predicate Issues(e: Event) {
    e.Login? || e.RefreshTokens?
  }

  function IssuedRefreshToken(c: Config, s: State, e: Event): Token
    requires Issues(e)
  {
    match e
    case Login(user, _, sid, ids) =>
      NewToken(c, WithUuid(s, sid), RefreshKey, ids.refreshKid, ids.refreshJti, SubjectOf(user), Some(sid))
    case RefreshTokens(sid, caller, ids) =>
      NewToken(c, s, RefreshKey, ids.refreshKid, ids.refreshJti, caller, Some(sid))
  }

  function IssuedAccessToken(c: Config, s: State, e: Event): Token
    requires Issues(e)
  {
    match e
    case Login(user, _, sid, ids) =>
      NewToken(c, AfterRefreshToken(c, WithUuid(s, sid), SubjectOf(user), sid, ids), AccessKey, ids.accessKid,
               ids.accessJti, SubjectOf(user), Some(sid))
    case RefreshTokens(sid, caller, ids) =>
      NewToken(c, AfterRefreshToken(c, s, caller, sid, ids), AccessKey, ids.accessKid, ids.accessJti, caller, Some(sid))
  }

  /** Whether the event removes the session or refreshes it. */
  predicate Touches(s: State, e: Event, sid: string) {
    match e
    case RefreshTokens(id, _, _) => id == sid
    case Logout(id) => id == sid
    case LogoutAll(uid) => sid in IndexOf(s.sessions, uid)
    case LogoutSessions(_, sids) => sid in sids
    case _ => false
  }

  /** The record that issuing `e` left still stands, and so does the token. */
  ghost predicate Stands(s: State, sid: string, stored: Stored, token: Token) {
    && sid in s.sessions.records && s.sessions.records[sid] == stored
    && Issued(RefreshKey, token) in s.issued
  }

  lemma IssueStands(c: Config, s: State, e: Event)
    requires Inv(s) && Enabled(c, s, e) && Issues(e) && c.refresh >= 2
    ensures var t, token := Apply(c, s, e), IssuedRefreshToken(c, s, e);
            && e.sid in t.sessions.records
            && var stored := t.sessions.records[e.sid];
            && Stands(t, e.sid, stored, token)
            && token.claims.sessionId == Some(e.sid)
            && token.claims.jti == Some(stored.data.jwtRefreshId)
            && token.claims.exp == stored.data.expRef
            && ExpiresWithToken(stored) && Live(t.sessions, e.sid, t.now)
  {
    match e
    case Login(user, client, sid, ids) =>
      var r := WithUuid(s, sid);
      SigningKeeps(c, r, RefreshKey, ids.refreshKid, ids.refreshJti, SubjectOf(user), Some(sid));
      TokensKeep(c, r, SubjectOf(user), sid, ids);
      WriteOutcome(s.sessions, sid, NewSessionData(c, s, user, client, sid, ids), s.now);
    case RefreshTokens(sid, caller, ids) =>
      SigningKeeps(c, s, RefreshKey, ids.refreshKid, ids.refreshJti, caller, Some(sid));
      TokensKeep(c, s, caller, sid, ids);
      WriteOutcome(s.sessions, sid, RefreshedData(c, s, s.sessions.records[sid].data, ids), s.now);
  }

  lemma StepKeepsStanding(c: Config, s: State, e: Event, sid: string, stored: Stored, token: Token)
    requires Inv(s) && Enabled(c, s, e) && Stands(s, sid, stored, token) && !Touches(s, e, sid)
    ensures Stands(Apply(c, s, e), sid, stored, token)
  {
    match e
    case RefreshTokens(id, caller, ids) =>
      assert s.sessions.records[id].data.sessionId == id;
    case _ =>
  }

  lemma {:induction false} UntouchedStands(c: Config, ss: seq<State>, es: seq<Event>, i: nat, k: nat, sid: string,
                                           stored: Stored, token: Token)
    requires Run(c, ss, es) && i <= k < |ss| && Stands(ss[i], sid, stored, token)
    requires forall j | i <= j < k :: !Touches(ss[j], es[j], sid)
    ensures Stands(ss[k], sid, stored, token)
  {
    if i < k {
      UntouchedStands(c, ss, es, i, k - 1, sid, stored, token);
      RunKeepsInv(c, ss, es, k - 1);
      assert Happens(c, ss, es, k - 1);
      StepKeepsStanding(c, ss[k - 1], es[k - 1], sid, stored, token);
    }
  }

  /** The refresh strategy accepts `token` in `s` exactly while the session is live, which it is until `moment`. */
  ghost predicate AcceptedUntil(s: State, token: Token, sid: string, moment: int) {
    && (RefreshStrategyAccepts(s.keys, s.sessions, token, s.now) <==> s.now < moment)
    && (Live(s.sessions, sid, s.now) <==> s.now < moment)
  }

  ghost predicate OnlyAccepted(s: State, token: Token, sid: string) {
    forall t | t in s.issued && t.token != token && SessionIdText(t.token.claims) == sid ::
      !RefreshStrategyAccepts(s.keys, s.sessions, t.token, s.now)
  }

  lemma StandingIsAccepted(s: State, sid: string, stored: Stored, token: Token)
    requires Inv(s) && Stands(s, sid, stored, token) && TokensVerify(s, RefreshKey) && ExpiresWithToken(stored)
    requires token.claims.sessionId == Some(sid) && token.claims.jti == Some(stored.data.jwtRefreshId)
    requires token.claims.exp == stored.data.expRef
    ensures AcceptedUntil(s, token, sid, stored.expireAt.value) && OnlyAccepted(s, token, sid)
  {
    var t := Issued(RefreshKey, token);
    assert t in s.issued && t.token == token;
    if s.now < stored.expireAt.value {
      assert Verify(s.keys, t.token, RefreshKey, s.now) == Returned(Some(token.claims));
    }
    forall u | u in s.issued && u.token != token && SessionIdText(u.token.claims) == sid
      ensures !RefreshStrategyAccepts(s.keys, s.sessions, u.token, s.now)
    {
      assert u.token.claims.jti != token.claims.jti;
    }
  }

  /**
    The last refresh token issued for a session that is neither removed nor refreshed since is accepted exactly
    until the expiry of the record that was written with it, which is within a second of the token's own, whatever
    else the system does in between, key rotation included; and no other issued token is accepted for that session.
   */
  lemma LastRefreshTokenIsAccepted(c: Config, ss: seq<State>, es: seq<Event>, i: nat, k: nat, gap: int)
    requires Run(c, ss, es) && i < k < |ss| && Issues(es[i])
    requires forall j | i < j < k :: !Touches(ss[j], es[j], es[i].sid)
    requires GapBounded(ss, RefreshKey, gap) && 0 <= gap
    requires 2 <= c.refresh && gap + c.refresh * 1000 <= RetentionDays(RefreshKey) * DAY + 1
    ensures var token := IssuedRefreshToken(c, ss[i], es[i]);
            && es[i].sid in ss[i + 1].sessions.records
            && var expireAt := ss[i + 1].sessions.records[es[i].sid].expireAt;
            && expireAt.Some? && token.claims.exp * 1000 - 1000 < expireAt.value <= token.claims.exp * 1000
            && AcceptedUntil(ss[k], token, es[i].sid, expireAt.value)
            && OnlyAccepted(ss[k], token, es[i].sid)
  {
    var token, sid := IssuedRefreshToken(c, ss[i], es[i]), es[i].sid;
    RunKeepsInv(c, ss, es, i);
    assert Happens(c, ss, es, i);
    IssueStands(c, ss[i], es[i]);
    var stored := ss[i + 1].sessions.records[sid];
    UntouchedStands(c, ss, es, i + 1, k, sid, stored, token);
    RetentionCoversLifetime(c, ss, es, k, RefreshKey, gap);
    RunKeepsInv(c, ss, es, k);
    StandingIsAccepted(ss[k], sid, stored, token);
  }

  lemma AccessTokenIsIssued(c: Config, s: State, e: Event)
    requires Inv(s) && Enabled(c, s, e) && Issues(e) && c.refresh >= 2
    ensures var t, token := Apply(c, s, e), IssuedAccessToken(c, s, e);
            && Issued(AccessKey, token) in t.issued && token.claims.sessionId == Some(e.sid)
            && e.sid in t.sessions.records && token.claims.jti == Some(t.sessions.records[e.sid].data.jwtAccessId)
  {
    match e
    case Login(user, client, sid, ids) =>
      var r := WithUuid(s, sid);
      SigningKeeps(c, r, RefreshKey, ids.refreshKid, ids.refreshJti, SubjectOf(user), Some(sid));
      SigningKeeps(c, AfterRefreshToken(c, r, SubjectOf(user), sid, ids), AccessKey, ids.accessKid, ids.accessJti,
                   SubjectOf(user), Some(sid));
      WriteOutcome(s.sessions, sid, NewSessionData(c, s, user, client, sid, ids), s.now);
    case RefreshTokens(sid, caller, ids) =>
      SigningKeeps(c, s, RefreshKey, ids.refreshKid, ids.refreshJti, caller, Some(sid));
      SigningKeeps(c, AfterRefreshToken(c, s, caller, sid, ids), AccessKey, ids.accessKid, ids.accessJti, caller,
                   Some(sid));
      WriteOutcome(s.sessions, sid, RefreshedData(c, s, s.sessions.records[sid].data, ids), s.now);
  }

  /** A pair just issued for a session is accepted by both strategies at once. */
  lemma IssueIsAccepted(c: Config, s: State, e: Event)
    requires Inv(s) && Enabled(c, s, e) && Issues(e) && c.refresh >= 2
    ensures var t := Apply(c, s, e);
            && RefreshStrategyAccepts(t.keys, t.sessions, IssuedRefreshToken(c, s, e), t.now)
            && (c.access >= 1 ==> JwtStrategyAccepts(t.keys, t.sessions, IssuedAccessToken(c, s, e), t.now))
  {
    var t := Apply(c, s, e);
    IssueStands(c, s, e);
    AccessTokenIsIssued(c, s, e);
    StepKeepsInv(c, s, e);
    var refresh, access := IssuedRefreshToken(c, s, e), IssuedAccessToken(c, s, e);
    KeysAreThere(c, s, e);
    assert Issued(RefreshKey, refresh) in t.issued && Issued(AccessKey, access) in t.issued;
  }

  lemma KeysAreThere(c: Config, s: State, e: Event)
    requires Inv(s) && Enabled(c, s, e) && Issues(e)
    ensures IssuedRefreshToken(c, s, e).signedBy in Apply(c, s, e).keys
    ensures IssuedAccessToken(c, s, e).signedBy in Apply(c, s, e).keys
  {
  }

  lemma {:induction false} IssuedStays(c: Config, ss: seq<State>, es: seq<Event>, i: nat, k: nat, t: Issued)
    requires Run(c, ss, es) && i <= k < |ss| && t in ss[i].issued
    ensures t in ss[k].issued
  {
    if i < k {
      IssuedStays(c, ss, es, i, k - 1, t);
      assert Happens(c, ss, es, k - 1);
    }
  }

  /**
    The access token signed beside that refresh token is accepted exactly while the session lives, the token has not
    expired and its key has not been rotated away; and no other issued token passes as this session's access token.
   */
  lemma LastAccessTokenIsAccepted(c: Config, ss: seq<State>, es: seq<Event>, i: nat, k: nat)
    requires Run(c, ss, es) && i < k < |ss| && Issues(es[i]) && c.refresh >= 2
    requires forall j | i < j < k :: !Touches(ss[j], es[j], es[i].sid)
    ensures var s, token, sid := ss[k], IssuedAccessToken(c, ss[i], es[i]), es[i].sid;
            && (JwtStrategyAccepts(s.keys, s.sessions, token, s.now) <==>
                  Live(s.sessions, sid, s.now) && s.now < token.claims.exp * 1000 && token.signedBy in s.keys)
            && (forall t | t in s.issued && t.token != token && SessionIdText(t.token.claims) == sid ::
                  !JwtStrategyAccepts(s.keys, s.sessions, t.token, s.now))
  {
    var s, token, sid := ss[k], IssuedAccessToken(c, ss[i], es[i]), es[i].sid;
    RunKeepsInv(c, ss, es, i);
    assert Happens(c, ss, es, i);
    IssueStands(c, ss[i], es[i]);
    AccessTokenIsIssued(c, ss[i], es[i]);
    var stored := ss[i + 1].sessions.records[sid];
    UntouchedStands(c, ss, es, i + 1, k, sid, stored, IssuedRefreshToken(c, ss[i], es[i]));
    IssuedStays(c, ss, es, i + 1, k, Issued(AccessKey, token));
    RunKeepsInv(c, ss, es, k);
    StandingAccess(s, sid, stored, token);
  }

  lemma StandingAccess(s: State, sid: string, stored: Stored, token: Token)
    requires Inv(s) && sid in s.sessions.records && s.sessions.records[sid] == stored
    requires Issued(AccessKey, token) in s.issued
    requires token.claims.sessionId == Some(sid) && token.claims.jti == Some(stored.data.jwtAccessId)
    ensures JwtStrategyAccepts(s.keys, s.sessions, token, s.now) <==>
              Live(s.sessions, sid, s.now) && s.now < token.claims.exp * 1000 && token.signedBy in s.keys
    ensures forall t | t in s.issued && t.token != token && SessionIdText(t.token.claims) == sid ::
              !JwtStrategyAccepts(s.keys, s.sessions, t.token, s.now)
  {
    var t := Issued(AccessKey, token);
    assert t.token == token;
    assert NowSeconds(s.now) < token.claims.exp <==> s.now < token.claims.exp * 1000;
    forall u | u in s.issued && u.token != token && SessionIdText(u.token.claims) == sid
      ensures !JwtStrategyAccepts(s.keys, s.sessions, u.token, s.now)
    {
      assert u.token.claims.jti != token.claims.jti;
    }
  }
}
