/** The writing half of `src/modules/user/user.service.ts`. */
module UserServices {
  import opened Options
  import opened UserModel

  class UserService {
    var rows: Rows

    /** No two rows share an e-mail, soft-deleted ones included. */
    ghost predicate Valid()
      reads this
    {
      EmailsUnique(rows)
    }

    constructor ()
      ensures Valid() && rows == map[]
    {
      rows := map[];
    }

    /** The live row with this e-mail, of which there is at most one. */
    method FindByEmail(email: string) returns (r: Option<string>)
      requires Valid()
      ensures r.Some? ==> Found(rows, r.value) && rows[r.value].email == email
      ensures r.None? ==> forall id | Found(rows, id) :: rows[id].email != email
      ensures forall id | Found(rows, id) && rows[id].email == email :: r == Some(id)
    {
      var ids := set id | id in rows && Found(rows, id) && rows[id].email == email;
      if ids == {} {
        assert forall id | Found(rows, id) :: rows[id].email == email ==> id in ids;
        return None;
      }
      var id :| id in ids;
      r := Some(id);
    }

    method CreateHandler(createDto: CreateUser, id: string) returns (r: Answer)
      requires Valid() && id !in rows
      modifies this
      ensures Valid()
      ensures rows == Handled(old(rows), Create(id, createDto))
      ensures r == var why := Refuses(old(rows), Create(id, createDto));
                   if why.Some? then Refused(why.value) else Done(id)
      ensures if exists other | other in old(rows) :: old(rows)[other].email == createDto.email
              then r == Refused(Conflict) && rows == old(rows)
              else r == Done(id) && rows == old(rows)[id := UserRow(createDto.email, Hash(createDto.password),
                                                                    createDto.name, createDto.role, createDto.status,
                                                                    false)]
    {
      RequestKeepsEmailsUnique(rows, Create(id, createDto));
      if ExistsByEmail(rows, createDto.email) {
        return Refused(Conflict);
      }
      rows := rows[id := NewRow(createDto)];
      r := Done(id);
    }

    method Register(email: string, password: string, name: string, id: string) returns (r: Answer)
      requires Valid() && id !in rows
      modifies this
      ensures Valid()
      ensures rows == Handled(old(rows), UserModel.Register(id, email, password, name))
      ensures if exists other | other in old(rows) :: old(rows)[other].email == email
              then r == Refused(Conflict) && rows == old(rows)
              else
                && r == Done(id)
                && rows == old(rows)[id := UserRow(email, Hash(password), name, Member, Inactive, false)]
    {
      r := CreateHandler(Registration(email, password, name), id);
    }

    method UpdateHandler(id: string, updateDto: UpdateUser) returns (r: Answer)
      requires Valid()
      modifies this
      ensures Valid()
      ensures rows == Handled(old(rows), Update(id, updateDto))
      ensures r == var why := Refuses(old(rows), Update(id, updateDto));
                   if why.Some? then Refused(why.value) else Done(id)
      ensures r.Refused? ==> rows == old(rows)
      ensures r == Refused(NotFound) <==> !Found(old(rows), id)
      ensures r == Refused(Conflict) <==>
                && Found(old(rows), id) && updateDto.email != ""
                && exists other | other in old(rows) && other != id :: old(rows)[other].email == updateDto.email
      ensures r.Done? ==>
                && OthersKept(old(rows), rows, id) && Found(rows, id)
                && var before, after := old(rows)[id], rows[id];
                && after.email == (if updateDto.email != "" then updateDto.email else before.email)
                && after.password == (if updateDto.password != "" then Hash(updateDto.password) else before.password)
                && after.name == (if updateDto.name != "" then updateDto.name else before.name)
                && after.role == (if updateDto.role.Some? then updateDto.role.value else before.role)
                && after.status == before.status
    {
      RequestKeepsEmailsUnique(rows, Update(id, updateDto));
      if !Found(rows, id) {
        return Refused(NotFound);
      }
      var user := rows[id];
      if updateDto.email != "" && updateDto.email != user.email {
        if ExistsByEmail(rows, updateDto.email) {
          return Refused(Conflict);
        }
        user := user.(email := updateDto.email);
      }
      if updateDto.password != "" {
        user := user.(password := Hash(updateDto.password));
      }
      if updateDto.name != "" {
        user := user.(name := updateDto.name);
      }
      if updateDto.role.Some? {
        user := user.(role := updateDto.role.value);
      }
      rows := rows[id := user];
      r := Done(id);
    }

    method SoftDeleteHandler(id: string) returns (r: Answer)
      requires Valid()
      modifies this
      ensures Valid()
      ensures rows == Handled(old(rows), SoftDelete(id))
      ensures r == if Found(old(rows), id) then Done(id) else Refused(NotFound)
      ensures rows == if r.Done? then old(rows)[id := old(rows)[id].(deleted := true)] else old(rows)
    {
      RequestKeepsEmailsUnique(rows, SoftDelete(id));
      if !Found(rows, id) {
        return Refused(NotFound);
      }
      rows := rows[id := rows[id].(deleted := true)];
      r := Done(id);
    }

    method RestoreHandler(id: string) returns (r: Answer)
      requires Valid()
      modifies this
      ensures Valid()
      ensures rows == Handled(old(rows), Restore(id))
      ensures r == var why := Refuses(old(rows), Restore(id));
                   if why.Some? then Refused(why.value) else Done(id)
      ensures r == if id !in old(rows) then Refused(NotFound)
                   else if old(rows)[id].deleted then Done(id) else Refused(BadRequest)
      ensures rows == if r.Done? then old(rows)[id := old(rows)[id].(deleted := false)] else old(rows)
    {
      RequestKeepsEmailsUnique(rows, Restore(id));
      if id !in rows {
        return Refused(NotFound);
      }
      if !rows[id].deleted {
        return Refused(BadRequest);
      }
      rows := rows[id := rows[id].(deleted := false)];
      r := Done(id);
    }

    method DeleteHandler(id: string) returns (r: Answer)
      requires Valid()
      modifies this
      ensures Valid()
      ensures rows == Handled(old(rows), Delete(id))
      ensures r == if Found(old(rows), id) then Done(id) else Refused(NotFound)
      ensures rows == if r.Done? then old(rows) - {id} else old(rows)
    {
      RequestKeepsEmailsUnique(rows, Delete(id));
      if !Found(rows, id) {
        return Refused(NotFound);
      }
      rows := rows - {id};
      r := Done(id);
    }

    method VerifyEmail(id: string) returns (r: Answer)
      requires Valid()
      modifies this
      ensures Valid()
      ensures rows == Handled(old(rows), UserModel.VerifyEmail(id))
      ensures r == var why := Refuses(old(rows), UserModel.VerifyEmail(id));
                   if why.Some? then Refused(why.value) else Done(id)
      ensures r == if !Found(old(rows), id) then Refused(NotFound)
                   else if old(rows)[id].status == Active then Refused(BadRequest) else Done(id)
      ensures rows == if r.Done? then old(rows)[id := old(rows)[id].(status := Active)] else old(rows)
    {
      RequestKeepsEmailsUnique(rows, UserModel.VerifyEmail(id));
      if !Found(rows, id) {
        return Refused(NotFound);
      }
      if rows[id].status == Active {
        return Refused(BadRequest);
      }
      rows := rows[id := rows[id].(status := Active)];
      r := Done(id);
    }

    method ResetPassword(id: string, password: string) returns (r: Answer)
      requires Valid()
      modifies this
      ensures Valid()
      ensures rows == Handled(old(rows), UserModel.ResetPassword(id, password))
      ensures r == if Found(old(rows), id) then Done(id) else Refused(NotFound)
      ensures rows == if r.Done? then old(rows)[id := old(rows)[id].(password := Hash(password))] else old(rows)
    {
      RequestKeepsEmailsUnique(rows, UserModel.ResetPassword(id, password));
      if !Found(rows, id) {
        return Refused(NotFound);
      }
      rows := rows[id := rows[id].(password := Hash(password))];
      r := Done(id);
    }
  }
}
