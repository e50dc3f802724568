/** The links that go out by mail, to confirm an address and to reset a password: how long and how often they work. */
module MailLinks {
  import opened Options
  import opened KeyModel
  import opened Tokens
  import opened UserModel
  import opened AuthSystem
  import opened TokenTheorems

  /** What following a link asks of the user service; the new password comes with the request. */
  function LinkRequest(kind: KeyType, id: string, password: string): Request {
    if kind.ConfirmationUserKey? then VerifyEmail(id) else ResetPassword(id, password)
  }

  /** The token of a link verifies under the link's key type, and the user service does not refuse its `sub`. */
  predicate LinkWorks(keys: Keys, rows: Rows, token: Token, kind: KeyType, now: int) {
    && Verify(keys, token, kind, now) == Returned(Some(token.claims))
    && token.claims.subject.sub.Some?
    && Refuses(rows, LinkRequest(kind, token.claims.subject.sub.value, "")) == None
  }

  /** Wherever an issued link stands, it works exactly as its own kind, in time, and for a user who can still use it. */
  lemma LinkWorksExactly(c: Config, ss: seq<State>, es: seq<Event>, k: nat, t: Issued, kind: KeyType, rows: Rows)
    requires Run(c, ss, es) && k < |ss| && t in ss[k].issued && IsMailKey(t.kind) && IsMailKey(kind)
    ensures t.token.claims.subject.sub.Some?
    ensures var s, id := ss[k], t.token.claims.subject.sub.value;
            LinkWorks(s.keys, rows, t.token, kind, s.now) <==>
              && kind == t.kind && t.token.signedBy in s.keys && s.now < t.token.claims.exp * 1000
              && Found(rows, id) && (kind.ConfirmationUserKey? ==> rows[id].status != Active)
  {
    RunKeepsInv(c, ss, es, k);
    IssuedVerifiesExactly(c, ss, es, k, t, kind);
  }

  /** Once a confirmation link has been followed, no confirmation link of that user works again, then or later. */
  lemma ConfirmationWorksOnce(tables: seq<Rows>, rs: seq<Request>, i: nat, k: nat, id: string, keys: Keys, token: Token,
                              now: int)
    requires Served(tables, rs) && i < k < |tables| && token.claims.subject.sub == Some(id)
    requires rs[i] == VerifyEmail(id) && Refuses(tables[i], rs[i]) == None
    ensures !LinkWorks(keys, tables[k], token, ConfirmationUserKey, now)
  {
    VerifiedOnce(tables, rs, i, k, id);
  }

  /** Requests that follow reset links, or do anything else that deletes no user. */
  predicate KeepsUser(r: Request, id: string) {
    r != SoftDelete(id) && r != Delete(id)
  }

  /**
    A reset link is not used up: while its user is not deleted it works, however often it or any other link has been
    followed before, until `exp` or until its key is removed.
   */
  lemma {:induction false} ResetWorksUntilExpiry(c: Config, ss: seq<State>, es: seq<Event>, j: nat, t: Issued,
                                                 tables: seq<Rows>, rs: seq<Request>, k: nat, id: string)
    requires Run(c, ss, es) && j < |ss| && t in ss[j].issued && t.kind.ResetPasswordKey?
    requires t.token.claims.subject.sub == Some(id)
    requires Served(tables, rs) && k < |tables| && Found(tables[0], id)
    requires forall i | 0 <= i < k :: KeepsUser(rs[i], id)
    ensures Found(tables[k], id)
    ensures LinkWorks(ss[j].keys, tables[k], t.token, ResetPasswordKey, ss[j].now) <==>
              t.token.signedBy in ss[j].keys && ss[j].now < t.token.claims.exp * 1000
  {
    if k > 0 {
      ResetWorksUntilExpiry(c, ss, es, j, t, tables, rs, k - 1, id);
      IdsAreFresh(tables, rs, k - 1, k - 1);
      assert tables[k] == Handled(tables[k - 1], rs[k - 1]) && KeepsUser(rs[k - 1], id);
    }
    LinkWorksExactly(c, ss, es, j, t, ResetPasswordKey, tables[k]);
  }
}
