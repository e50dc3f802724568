/** The rows of `src/modules/user` and what each whole request does to them; a soft-deleted row stays in the table. */
module UserModel {
  import opened Options

  datatype Role = Admin | Member

  datatype Status = Active | Inactive | Blocked

  /** Only hashes are stored; which text a hash came from is all that is known of it. */
  datatype Password = Hash(of: string)

  datatype UserRow = UserRow(email: string, password: Password, name: string, role: Role, status: Status, deleted: bool)

  type Rows = map<string, UserRow>

  datatype CreateUser = CreateUser(email: string, password: string, name: string, role: Role, status: Status)

  /** A missing part is left as it is, and so is an empty text. */
  datatype UpdateUser = UpdateUser(email: string, password: string, name: string, role: Option<Role>)

  datatype Refusal = NotFound | Conflict | BadRequest

  datatype Answer = Done(id: string) | Refused(why: Refusal)

  datatype Request =
    | Create(id: string, dto: CreateUser)
    | Register(id: string, email: string, password: string, name: string)
    | Update(id: string, patch: UpdateUser)
    | SoftDelete(id: string)
    | Restore(id: string)
    | Delete(id: string)
    | VerifyEmail(id: string)
    | ResetPassword(id: string, password: string)

  /** The existence check looks at soft-deleted rows too. */
  predicate ExistsByEmail(rows: Rows, email: string) {
    exists id | id in rows :: rows[id].email == email
  }

  /** Lookups by id skip soft-deleted rows unless told otherwise. */
  predicate Found(rows: Rows, id: string) {
    id in rows && !rows[id].deleted
  }

  function NewRow(dto: CreateUser): UserRow {
    UserRow(dto.email, Hash(dto.password), dto.name, dto.role, dto.status, false)
  }

  function Registration(email: string, password: string, name: string): CreateUser {
    CreateUser(email, password, name, Member, Inactive)
  }

  function Patched(row: UserRow, patch: UpdateUser): UserRow {
    row.(email := if patch.email != "" then patch.email else row.email,
         password := if patch.password != "" then Hash(patch.password) else row.password,
         name := if patch.name != "" then patch.name else row.name,
         role := if patch.role.Some? then patch.role.value else row.role)
  }

  /** Why a request is refused, if it is. */
  function Refuses(rows: Rows, r: Request): Option<Refusal> {
    match r
    case Create(_, dto) => if ExistsByEmail(rows, dto.email) then Some(Conflict) else None
    case Register(_, email, _, _) => if ExistsByEmail(rows, email) then Some(Conflict) else None
    case Update(id, patch) =>
      if !Found(rows, id) then Some(NotFound)
      else if patch.email != "" && patch.email != rows[id].email && ExistsByEmail(rows, patch.email) then Some(Conflict)
      else None
    case SoftDelete(id) => if !Found(rows, id) then Some(NotFound) else None
    case Restore(id) =>
      if id !in rows then Some(NotFound) else if !rows[id].deleted then Some(BadRequest) else None
    case Delete(id) => if !Found(rows, id) then Some(NotFound) else None
    case VerifyEmail(id) =>
      if !Found(rows, id) then Some(NotFound) else if rows[id].status == Active then Some(BadRequest) else None
    case ResetPassword(id, _) => if !Found(rows, id) then Some(NotFound) else None
  }

  function Handled(rows: Rows, r: Request): Rows {
    if Refuses(rows, r).Some? then rows
    else match r
      case Create(id, dto) => rows[id := NewRow(dto)]
      case Register(id, email, password, name) => rows[id := NewRow(Registration(email, password, name))]
      case Update(id, patch) => rows[id := Patched(rows[id], patch)]
      case SoftDelete(id) => rows[id := rows[id].(deleted := true)]
      case Restore(id) => rows[id := rows[id].(deleted := false)]
      case Delete(id) => rows - {id}
      case VerifyEmail(id) => rows[id := rows[id].(status := Active)]
      case ResetPassword(id, password) => rows[id := rows[id].(password := Hash(password))]
  }

  ghost predicate EmailsUnique(rows: Rows) {
    forall a, b | a in rows && b in rows && rows[a].email == rows[b].email :: a == b
  }

  /** The database gives a new row an id no row has. */
  predicate FreshIds(rows: Rows, r: Request) {
    r.Create? || r.Register? ==> r.id !in rows
  }

  /** The database never gives an id twice, not even that of a deleted row. */
  ghost predicate NeverUsed(tables: seq<Rows>, r: Request) {
    forall i | 0 <= i < |tables| :: FreshIds(tables[i], r)
  }

  ghost predicate Served(tables: seq<Rows>, rs: seq<Request>) {
    && |tables| == |rs| + 1
    && forall i | 0 <= i < |rs| :: NeverUsed(tables[..i + 1], rs[i]) && tables[i + 1] == Handled(tables[i], rs[i])
  }

  lemma IdsAreFresh(tables: seq<Rows>, rs: seq<Request>, i: nat, k: nat)
    requires Served(tables, rs) && i <= k < |rs|
    ensures FreshIds(tables[i], rs[k])
  {
    assert tables[..k + 1][i] == tables[i];
  }

  lemma RequestKeepsEmailsUnique(rows: Rows, r: Request)
    requires EmailsUnique(rows) && FreshIds(rows, r)
    ensures EmailsUnique(Handled(rows, r))
  {
    var after := Handled(rows, r);
    forall a, b | a in after && b in after && after[a].email == after[b].email ensures a == b {
      if a in rows && b in rows {
        assert rows[a].email == rows[b].email ==> a == b;
      }
    }
  }

  /** No two rows, live or soft-deleted, share an e-mail after any sequence of requests. */
  lemma {:induction false} EmailsStayUnique(tables: seq<Rows>, rs: seq<Request>, k: nat)
    requires Served(tables, rs) && EmailsUnique(tables[0]) && k < |tables|
    ensures EmailsUnique(tables[k])
  {
    if k > 0 {
      EmailsStayUnique(tables, rs, k - 1);
      IdsAreFresh(tables, rs, k - 1, k - 1);
      RequestKeepsEmailsUnique(tables[k - 1], rs[k - 1]);
    }
  }

  /**
    A soft-deleted user keeps its e-mail reserved: until it is restored every request that would give the e-mail to a
    row, by creation, registration or update, is refused,
    and restoring it then brings back the row as it was.
   */
  lemma {:induction false} DeletedEmailStaysReserved(tables: seq<Rows>, rs: seq<Request>, k: nat, id: string)
    requires Served(tables, rs) && k < |tables| && Found(tables[0], id)
    requires |rs| > 0 && rs[0] == SoftDelete(id) && k >= 1
    requires forall i | 0 <= i < k :: rs[i] != Restore(id)
    ensures id in tables[k] && tables[k][id] == tables[0][id].(deleted := true)
    ensures forall other, dto: CreateUser | dto.email == tables[0][id].email ::
              Refuses(tables[k], Create(other, dto)) == Some(Conflict)
    ensures forall other, password, name ::
              Refuses(tables[k], Register(other, tables[0][id].email, password, name)) == Some(Conflict)
    ensures forall other, patch: UpdateUser |
              EmailsUnique(tables[0]) && patch.email == tables[0][id].email && patch.email != "" ::
              Refuses(tables[k], Update(other, patch)) == Some(if Found(tables[k], other) then Conflict else NotFound)
    ensures Refuses(tables[k], Restore(id)) == None && Handled(tables[k], Restore(id))[id] == tables[0][id]
  {
    if EmailsUnique(tables[0]) {
      EmailsStayUnique(tables, rs, k);
    }
    if k > 1 {
      DeletedEmailStaysReserved(tables, rs, k - 1, id);
      IdsAreFresh(tables, rs, k - 1, k - 1);
    }
  }

  /** A user once verified is never verified again: no later request makes it inactive, and its id is not reused. */
  lemma {:induction false} VerifiedOnce(tables: seq<Rows>, rs: seq<Request>, i: nat, k: nat, id: string)
    requires Served(tables, rs) && i < k < |tables|
    requires rs[i] == VerifyEmail(id) && Refuses(tables[i], rs[i]) == None
    ensures id in tables[k] ==> tables[k][id].status == Active
    ensures Refuses(tables[k], VerifyEmail(id)) == Some(if Found(tables[k], id) then BadRequest else NotFound)
  {
    if k > i + 1 {
      VerifiedOnce(tables, rs, i, k - 1, id);
      IdsAreFresh(tables, rs, i, k - 1);
      assert tables[k] == Handled(tables[k - 1], rs[k - 1]);
    }
  }

  // ---------- What requests do to the rows ----------

  /** `after` is `rows` but for one row. */
  ghost predicate OthersKept(rows: Rows, after: Rows, id: string) {
    && after.Keys + {id} == rows.Keys + {id}
    && forall other | other in rows && other != id :: after[other] == rows[other]
  }

  /** A login as this user is accepted: there is a live row with the e-mail and the password's hash. */
  predicate Credentials(rows: Rows, id: string, email: string, password: string) {
    Found(rows, id) && rows[id].email == email && rows[id].password == Hash(password)
  }

  /** A reset changes the password and nothing else: from then on the new one is accepted, and only it. */
  lemma ResetSetsPassword(rows: Rows, id: string, password: string)
    requires Found(rows, id)
    ensures var after := Handled(rows, ResetPassword(id, password));
            && OthersKept(rows, after, id) && Found(after, id)
            && after[id].email == rows[id].email && after[id].name == rows[id].name
            && after[id].role == rows[id].role && after[id].status == rows[id].status
            && (forall q :: Credentials(after, id, rows[id].email, q) <==> q == password)
  {
    assert forall q :: Hash(q) == Hash(password) <==> q == password;
  }

  /** An accepted update changes the parts given, a password to be accepted from then on, and nothing else. */
  lemma UpdateSetsParts(rows: Rows, id: string, patch: UpdateUser)
    requires Refuses(rows, Update(id, patch)) == None
    ensures var after := Handled(rows, Update(id, patch));
            && OthersKept(rows, after, id) && Found(rows, id) && Found(after, id)
            && after[id].status == rows[id].status
            && (patch.email == "" ==> after[id].email == rows[id].email)
            && (patch.email != "" ==> after[id].email == patch.email)
            && (patch.name == "" ==> after[id].name == rows[id].name)
            && (patch.name != "" ==> after[id].name == patch.name)
            && (patch.role.None? ==> after[id].role == rows[id].role)
            && (patch.role.Some? ==> after[id].role == patch.role.value)
            && (patch.password == "" ==> after[id].password == rows[id].password)
            && (patch.password != "" ==>
                  forall q :: Credentials(after, id, after[id].email, q) <==> q == patch.password)
  {
    assert forall q :: Hash(q) == Hash(patch.password) <==> q == patch.password;
  }

  /** A hard deletion takes the row and gives its e-mail free, as a soft one does not. */
  lemma DeleteFreesEmail(rows: Rows, id: string)
    requires EmailsUnique(rows) && Found(rows, id)
    ensures var after := Handled(rows, Delete(id));
            && id !in after && OthersKept(rows, after, id)
            && (forall dto: CreateUser, newId | dto.email == rows[id].email ::
                  Refuses(after, Create(newId, dto)) == None)
            && (forall password, name, newId :: Refuses(after, Register(newId, rows[id].email, password, name)) == None)
  {
    var after := Handled(rows, Delete(id));
    forall other | other in after ensures after[other].email != rows[id].email {
      assert other in rows && other != id;
    }
  }

  /** A registered user is an inactive member whose address can be confirmed, once; the row says what was asked for. */
  lemma RegisteredCanConfirm(rows: Rows, id: string, email: string, password: string, name: string)
    requires !ExistsByEmail(rows, email) && id !in rows
    ensures var after := Handled(rows, Register(id, email, password, name));
            && OthersKept(rows, after, id) && Found(after, id)
            && after[id].email == email && after[id].name == name
            && after[id].role == Member && after[id].status == Inactive
            && (forall q :: Credentials(after, id, email, q) <==> q == password)
            && Refuses(after, VerifyEmail(id)) == None
            && Handled(after, VerifyEmail(id)) == after[id := after[id].(status := Active)]
            && Refuses(Handled(after, VerifyEmail(id)), VerifyEmail(id)) == Some(BadRequest)
  {
    assert forall q :: Hash(q) == Hash(password) <==> q == password;
  }

  /** The password that the last accepted request of the first `k` set for the user, if one did. */
  function LastPassword(tables: seq<Rows>, rs: seq<Request>, k: nat, id: string): Option<string>
    requires |tables| == |rs| + 1 && k <= |rs|
  {
    if k == 0 then None
    else
      var before := LastPassword(tables, rs, k - 1, id);
      if rs[k - 1].id != id || Refuses(tables[k - 1], rs[k - 1]).Some? then before
      else match rs[k - 1]
        case Create(_, dto) => Some(dto.password)
        case Register(_, _, password, _) => Some(password)
        case Update(_, patch) => if patch.password != "" then Some(patch.password) else before
        case ResetPassword(_, password) => Some(password)
        case _ => before
  }

  /**
    Over any sequence of requests from an empty table: a live user's login is accepted with exactly the password that
    was set last, by creation, registration, update or reset.
   */
  lemma {:induction false} LoginTakesLastPassword(tables: seq<Rows>, rs: seq<Request>, k: nat, id: string)
    requires Served(tables, rs) && tables[0] == map[] && k < |tables|
    ensures id in tables[k] ==>
              && LastPassword(tables, rs, k, id).Some?
              && tables[k][id].password == Hash(LastPassword(tables, rs, k, id).value)
    ensures Found(tables[k], id) ==>
              forall q :: Credentials(tables[k], id, tables[k][id].email, q) <==>
                            LastPassword(tables, rs, k, id) == Some(q)
    decreases k
  {
    if k > 0 {
      LoginTakesLastPassword(tables, rs, k - 1, id);
      IdsAreFresh(tables, rs, k - 1, k - 1);
      assert tables[k] == Handled(tables[k - 1], rs[k - 1]);
    }
  }
}
