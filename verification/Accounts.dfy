/**
  User rows and the protocol together, at the grain of whole requests: which requests about users the mail links and
  their tokens let through, and what becomes of a user who was created blocked.
 */
module Accounts {
  import opened Options
  import opened KeyModel
  import opened Tokens
  import opened UserModel
  import opened AuthSystem
  import opened MailLinks

  /** `ids` are the ids that rows ever had. */
  datatype World = World(system: State, rows: Rows, ids: set<string>)

  datatype Deed = Serves(request: Request) | Does(event: Event)

  /** A link issued for the user, and of this kind, works. */
  ghost predicate HasLink(w: World, kind: KeyType, id: string) {
    exists t | t in w.system.issued ::
      && t.kind == kind && t.token.claims.subject.sub == Some(id)
      && LinkWorks(w.system.keys, w.rows, t.token, kind, w.system.now)
  }

  /**
    A new row gets a new id. Verifying an address and resetting a password take a link. A confirmation link is signed
    for a live user who is neither active nor blocked: registration has just made such a row, and a repeated one asks.
   */
  ghost predicate May(c: Config, w: World, d: Deed) {
    match d
    case Serves(Create(id, _)) => id !in w.ids
    case Serves(Register(id, _, _, _)) => id !in w.ids
    case Serves(VerifyEmail(id)) => HasLink(w, ConfirmationUserKey, id)
    case Serves(ResetPassword(id, _)) => HasLink(w, ResetPasswordKey, id)
    case Serves(_) => true
    case Does(SignMailToken(kind, user, kid, jti)) =>
      && Enabled(c, w.system, d.event) && Found(w.rows, user.id)
      && (kind.ConfirmationUserKey? ==> w.rows[user.id].status == Inactive)
    case Does(e) => Enabled(c, w.system, e)
  }

  function After(c: Config, w: World, d: Deed): World {
    match d
    case Serves(r) => var rows := Handled(w.rows, r); w.(rows := rows, ids := w.ids + rows.Keys)
    case Does(e) => w.(system := Apply(c, w.system, e))
  }

  ghost predicate Lives(c: Config, ws: seq<World>, ds: seq<Deed>) {
    && |ws| == |ds| + 1 && Init(ws[0].system) && ws[0].rows == map[] && ws[0].ids == {}
    && forall i | 0 <= i < |ds| :: Occurs(c, ws, ds, i)
  }

  ghost predicate Occurs(c: Config, ws: seq<World>, ds: seq<Deed>, i: nat)
    requires |ws| == |ds| + 1 && i < |ds|
  {
    May(c, ws[i], ds[i]) && ws[i + 1] == After(c, ws[i], ds[i])
  }

  predicate IsBlocked(w: World, id: string) {
    id in w.rows && w.rows[id].status == Blocked
  }

  predicate ConfirmationFor(t: Issued, id: string) {
    t.kind.ConfirmationUserKey? && t.token.claims.subject.sub == Some(id)
  }

  /** Confirmation tokens are about users that there are or were, none of them blocked. */
  ghost predicate NoneForBlocked(w: World) {
    && w.rows.Keys <= w.ids
    && forall t, id | t in w.system.issued && ConfirmationFor(t, id) :: id in w.ids && !IsBlocked(w, id)
  }

  /** What an event issues as confirmation tokens. */
  lemma EventIssues(c: Config, s: State, e: Event, t: Issued, id: string)
    requires t in Apply(c, s, e).issued && t !in s.issued && ConfirmationFor(t, id)
    ensures e.SignMailToken? && e.kind.ConfirmationUserKey? && e.user.id == id
  {
  }

  lemma DeedKeepsNoneForBlocked(c: Config, w: World, d: Deed)
    requires NoneForBlocked(w) && May(c, w, d)
    ensures NoneForBlocked(After(c, w, d))
  {
    var v := After(c, w, d);
    forall t, id | t in v.system.issued && ConfirmationFor(t, id) ensures id in v.ids && !IsBlocked(v, id) {
      if t !in w.system.issued {
        EventIssues(c, w.system, d.event, t, id);
      }
    }
  }

  lemma {:induction false} NeverForBlocked(c: Config, ws: seq<World>, ds: seq<Deed>, k: nat)
    requires Lives(c, ws, ds) && k < |ws|
    ensures NoneForBlocked(ws[k])
    decreases k
  {
    if k > 0 {
      NeverForBlocked(c, ws, ds, k - 1);
      assert Occurs(c, ws, ds, k - 1);
      DeedKeepsNoneForBlocked(c, ws[k - 1], ds[k - 1]);
    }
  }

  lemma DeedKeepsBlocked(c: Config, w: World, d: Deed, id: string)
    requires NoneForBlocked(w) && May(c, w, d) && BlockedOrGone(w, id)
    ensures BlockedOrGone(After(c, w, d), id)
  {
    var v := After(c, w, d);
    forall t | t in v.system.issued ensures !ConfirmationFor(t, id) {
      if t !in w.system.issued && ConfirmationFor(t, id) {
        EventIssues(c, w.system, d.event, t, id);
      }
    }
  }

  /** The id was given, no confirmation token was issued for it, and the row, if it is still there, is blocked. */
  ghost predicate BlockedOrGone(w: World, id: string) {
    && id in w.ids && (id in w.rows ==> IsBlocked(w, id))
    && forall t | t in w.system.issued :: !ConfirmationFor(t, id)
  }

  /**
    A user who is blocked, which only a creation can make it, stays blocked for as long as the row exists, and no
    confirmation token is ever issued for it.
   */
  lemma {:induction false} BlockedStaysBlocked(c: Config, ws: seq<World>, ds: seq<Deed>, i: nat, k: nat, id: string)
    requires Lives(c, ws, ds) && i <= k < |ws| && IsBlocked(ws[i], id)
    ensures BlockedOrGone(ws[k], id)
    ensures !HasLink(ws[k], ConfirmationUserKey, id)
    decreases k
  {
    NeverForBlocked(c, ws, ds, k);
    if i < k {
      BlockedStaysBlocked(c, ws, ds, i, k - 1, id);
      assert Occurs(c, ws, ds, k - 1);
      NeverForBlocked(c, ws, ds, k - 1);
      DeedKeepsBlocked(c, ws[k - 1], ds[k - 1], id);
    }
  }

  // ---------- Each half of a joint run ----------

  function EventsOf(ds: seq<Deed>): seq<Event> {
    if ds == [] then []
    else
      var last := ds[|ds| - 1];
      EventsOf(ds[..|ds| - 1]) + if last.Does? then [last.event] else []
  }

  function RequestsOf(ds: seq<Deed>): seq<Request> {
    if ds == [] then []
    else
      var last := ds[|ds| - 1];
      RequestsOf(ds[..|ds| - 1]) + if last.Serves? then [last.request] else []
  }

  lemma RunGoesOn(c: Config, ss: seq<State>, es: seq<Event>, e: Event)
    requires Run(c, ss, es) && Enabled(c, ss[|es|], e)
    ensures Run(c, ss + [Apply(c, ss[|es|], e)], es + [e])
  {
    var us, gs := ss + [Apply(c, ss[|es|], e)], es + [e];
    forall i | 0 <= i < |gs| ensures Happens(c, us, gs, i) {
      if i < |es| {
        assert Happens(c, ss, es, i);
      }
    }
  }

  /** The protocol's half of a joint run is a run of the protocol, by exactly the run's events. */
  lemma {:induction false} EventsRun(c: Config, ws: seq<World>, ds: seq<Deed>, k: nat) returns (ss: seq<State>)
    requires Lives(c, ws, ds) && k < |ws|
    ensures Run(c, ss, EventsOf(ds[..k])) && ss[|EventsOf(ds[..k])|] == ws[k].system
    decreases k
  {
    if k == 0 {
      ss := [ws[0].system];
    } else {
      ss := EventsRun(c, ws, ds, k - 1);
      assert Occurs(c, ws, ds, k - 1) && ds[..k][..k - 1] == ds[..k - 1];
      if ds[k - 1].Does? {
        RunGoesOn(c, ss, EventsOf(ds[..k - 1]), ds[k - 1].event);
        ss := ss + [ws[k].system];
        assert EventsOf(ds[..k]) == EventsOf(ds[..k - 1]) + [ds[k - 1].event];
      } else {
        assert EventsOf(ds[..k]) == EventsOf(ds[..k - 1]);
      }
    }
  }

  lemma ServiceGoesOn(tables: seq<Rows>, rs: seq<Request>, r: Request)
    requires Served(tables, rs) && NeverUsed(tables, r)
    ensures Served(tables + [Handled(tables[|rs|], r)], rs + [r])
  {
    var after, all := tables + [Handled(tables[|rs|], r)], rs + [r];
    forall i | 0 <= i < |all| ensures NeverUsed(after[..i + 1], all[i]) && after[i + 1] == Handled(after[i], all[i]) {
      assert after[..i + 1] == tables[..i + 1];
      if i < |rs| {
        assert NeverUsed(tables[..i + 1], rs[i]);
      } else {
        assert tables[..i + 1] == tables;
      }
    }
  }

  /** The rows' half is served by exactly the run's requests, and no id that any table had is given again. */
  lemma {:induction false} RequestsServe(c: Config, ws: seq<World>, ds: seq<Deed>, k: nat) returns (tables: seq<Rows>)
    requires Lives(c, ws, ds) && k < |ws|
    ensures Served(tables, RequestsOf(ds[..k])) && tables[0] == map[] && tables[|RequestsOf(ds[..k])|] == ws[k].rows
    ensures forall i | 0 <= i < |tables| :: tables[i].Keys <= ws[k].ids
    decreases k
  {
    if k == 0 {
      tables := [ws[0].rows];
    } else {
      tables := RequestsServe(c, ws, ds, k - 1);
      assert Occurs(c, ws, ds, k - 1) && ds[..k][..k - 1] == ds[..k - 1];
      if ds[k - 1].Serves? {
        ServiceGoesOn(tables, RequestsOf(ds[..k - 1]), ds[k - 1].request);
        tables := tables + [ws[k].rows];
      }
    }
  }
}
