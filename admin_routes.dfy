/** The administrator's faculty routes: the spreadsheet upload that turns rows
    into teacher documents, the listing without passwords, the update that
    never changes the admin flag, and the delete that refuses to remove the
    caller's own account. The teacher collection is a map from document id to
    the stored document, as the `Teacher` schema shapes it. */
module AdminRoutes {
  import opened Common

  const UploadSucceeded: string := "Faculty data uploaded successfully"
  const UploadFailed: string := "Error processing faculty data"
  const ServerError: string := "Server error"
  const MemberNotFound: string := "Faculty member not found"
  const CannotDeleteSelf: string := "Cannot delete your own account"
  const MemberDeleted: string := "Faculty member deleted successfully"

  /** The `department` enum of the teacher schema. */
  predicate IsDepartment(d: string)
  {
    || d == "CSE" || d == "AIDS" || d == "AIML" || d == "IT" || d == "CYBER_SECURITY"
    || d == "ECE" || d == "EEE" || d == "CIVIL" || d == "MECH"
  }

  /** The schema's `minlength` for passwords. */
  const MinPasswordLength: nat := 6

  /** One row of the first sheet by column heading; a missing cell is `None`. */
  datatype SheetRow = SheetRow(name: Option<string>, email: Option<string>, facultyId: Option<string>,
                               department: Option<string>, password: Option<string>)

  /** The plain object built for a row before it reaches the database. */
  datatype FacultyRow = FacultyRow(name: Option<string>, email: Option<string>, facultyId: Option<string>,
                                   department: Option<string>, password: Option<string>, isAdmin: bool)

  /** The row mapping of the upload: the cells are copied, a blank password
      falls back to the faculty id, and nobody is made an administrator. */
  function MapRow(row: SheetRow): (f: FacultyRow)
    ensures !f.isAdmin
    ensures f.name == row.name && f.email == row.email && f.facultyId == row.facultyId
            && f.department == row.department
    ensures Truthy(row.password) ==> f.password == row.password
    ensures !Truthy(row.password) ==> f.password == row.facultyId
    ensures Truthy(f.password) <==> Truthy(row.password) || Truthy(row.facultyId)
  {
    FacultyRow(row.name, row.email, row.facultyId, row.department,
               if Truthy(row.password) then row.password else row.facultyId, false)
  }

  /** `facultyData.map(...)` */
  function MapRows(rows: seq<SheetRow>): (r: seq<FacultyRow>)
    ensures |r| == |rows|
  {
    if rows == [] then [] else [MapRow(rows[0])] + MapRows(rows[1..])
  }

  lemma {:induction false} MapRowsAt(rows: seq<SheetRow>, k: nat)
    requires k < |rows|
    ensures MapRows(rows)[k] == MapRow(rows[k])
  {
    if k > 0 {
      MapRowsAt(rows[1..], k - 1);
    }
  }

  /** No row of a spreadsheet yields an administrator. */
  lemma NoRowBecomesAdmin(rows: seq<SheetRow>)
    ensures forall f :: f in MapRows(rows) ==> !f.isAdmin
  {
    forall f | f in MapRows(rows)
      ensures !f.isAdmin
    {
      var k :| 0 <= k < |MapRows(rows)| && MapRows(rows)[k] == f;
      MapRowsAt(rows, k);
    }
  }

  /** A stored teacher document: the schema's paths, with no `isAdmin`. */
  datatype Teacher = Teacher(email: string, password: string, name: string, department: string,
                             facultyId: string, createdAt: nat)

  /** A teacher as `select('-password')` returns it. */
  datatype PublicTeacher = PublicTeacher(id: string, email: string, name: string, department: string,
                                         facultyId: string, createdAt: nat)

  function Public(id: string, t: Teacher): (p: PublicTeacher)
    ensures p.id == id && p.email == t.email && p.name == t.name && p.department == t.department
            && p.facultyId == t.facultyId && p.createdAt == t.createdAt
  {
    PublicTeacher(id, t.email, t.name, t.department, t.facultyId, t.createdAt)
  }

  /** The email setters: `lowercase` and `trim`. */
  function CastEmail(e: string): string
  {
    ToLower(Trim(e))
  }

  /** What the schema accepts of a row: every required path present and not
      blank once trimmed, a department of the enum, and a password of at
      least six UTF-16 code units (passwords are not trimmed). */
  predicate Admissible(f: FacultyRow)
  {
    && f.email.Some? && Trim(f.email.value) != ""
    && f.password.Some? && Utf16Length(f.password.value) >= MinPasswordLength
    && f.name.Some? && Trim(f.name.value) != ""
    && f.department.Some? && IsDepartment(Trim(f.department.value))
    && f.facultyId.Some? && Trim(f.facultyId.value) != ""
  }

  /** Casting a row to a teacher document: the setters run, the validators
      decide, `createdAt` defaults to the current time and `isAdmin` is
      dropped because the schema has no such path. */
  function Cast(f: FacultyRow, now: nat): (r: Option<Teacher>)
    ensures r.Some? <==> Admissible(f)
    ensures r.Some? ==> && r.value.email == CastEmail(f.email.value)
                        && r.value.password == f.password.value
                        && r.value.name == Trim(f.name.value)
                        && r.value.department == Trim(f.department.value)
                        && r.value.facultyId == Trim(f.facultyId.value)
                        && r.value.createdAt == now
  {
    if !Admissible(f) then None
    else Some(Teacher(CastEmail(f.email.value), f.password.value, Trim(f.name.value),
                      Trim(f.department.value), Trim(f.facultyId.value), now))
  }

  /** A row without a password whose faculty id is shorter than six
      characters is refused: the fallback password is too short. */
  lemma ShortFacultyIdNeedsPassword(row: SheetRow, now: nat)
    requires !Truthy(row.password) && row.facultyId.Some? && Utf16Length(row.facultyId.value) < MinPasswordLength
    ensures Cast(MapRow(row), now) == None
  {
  }

  /** The unique index on `email`. */
  ghost predicate EmailsUnique(teachers: map<string, Teacher>)
  {
    forall a, b :: a in teachers && b in teachers && teachers[a].email == teachers[b].email ==> a == b
  }

  predicate EmailTaken(teachers: map<string, Teacher>, email: string)
  {
    exists id :: id in teachers && teachers[id].email == email
  }

  /** The documents `insertMany` is given: each row cast, `None` where
      validation refuses it. */
  function CastAll(rows: seq<FacultyRow>, now: nat): (r: seq<Option<Teacher>>)
    ensures |r| == |rows|
  {
    if rows == [] then [] else [Cast(rows[0], now)] + CastAll(rows[1..], now)
  }

  lemma {:induction false} CastAllAt(rows: seq<FacultyRow>, now: nat, k: nat)
    requires k < |rows|
    ensures CastAll(rows, now)[k] == Cast(rows[k], now)
  {
    if k > 0 {
      CastAllAt(rows[1..], now, k - 1);
    }
  }

  lemma NotTakenMeansDifferent(teachers: map<string, Teacher>, email: string)
    requires !EmailTaken(teachers, email)
    ensures forall id :: id in teachers ==> teachers[id].email != email
  {
  }

  /** Whether one document goes in: it passed validation, and neither its id
      nor its email is already in the collection. */
  predicate Inserts(teachers: map<string, Teacher>, doc: Option<Teacher>, id: string)
  {
    doc.Some? && id !in teachers && !EmailTaken(teachers, doc.value.email)
  }

  /** `insertMany(docs, { ordered: false })`: every document is tried in
      turn, `ids` being the object ids generated for them; the result is
      the new collection and the number of documents that failed. */
  function InsertAll(teachers: map<string, Teacher>, docs: seq<Option<Teacher>>, ids: seq<string>)
    : (r: (map<string, Teacher>, nat))
    requires |ids| == |docs|
    ensures r.1 <= |docs|
    decreases |docs|
  {
    if docs == [] then (teachers, 0)
    else
      var ok := Inserts(teachers, docs[0], ids[0]);
      var next := if ok then teachers[ids[0] := docs[0].value] else teachers;
      var rest := InsertAll(next, docs[1..], ids[1..]);
      (rest.0, rest.1 + if ok then 0 else 1)
  }

  /** Inserting never removes or changes a document already there. */
  lemma {:induction false} InsertAllKeepsExisting(teachers: map<string, Teacher>, docs: seq<Option<Teacher>>,
                                                  ids: seq<string>)
    requires |ids| == |docs|
    ensures var r := InsertAll(teachers, docs, ids).0;
            forall id :: id in teachers ==> id in r && r[id] == teachers[id]
    decreases |ids|
  {
    if docs != [] {
      var ok := Inserts(teachers, docs[0], ids[0]);
      var next := if ok then teachers[ids[0] := docs[0].value] else teachers;
      InsertAllKeepsExisting(next, docs[1..], ids[1..]);
    }
  }

  /** Inserting keeps emails unique. */
  lemma {:induction false} InsertAllKeepsEmailsUnique(teachers: map<string, Teacher>, docs: seq<Option<Teacher>>,
                                                      ids: seq<string>)
    requires |ids| == |docs|
    requires EmailsUnique(teachers)
    ensures EmailsUnique(InsertAll(teachers, docs, ids).0)
    decreases |ids|
  {
    if docs != [] {
      var ok := Inserts(teachers, docs[0], ids[0]);
      var next := if ok then teachers[ids[0] := docs[0].value] else teachers;
      if ok {
        NotTakenMeansDifferent(teachers, docs[0].value.email);
        assert EmailsUnique(next);
      }
      InsertAllKeepsEmailsUnique(next, docs[1..], ids[1..]);
    }
  }

  /** Every document is either inserted or counted as failed. */
  lemma {:induction false} InsertAllAccounts(teachers: map<string, Teacher>, docs: seq<Option<Teacher>>,
                                             ids: seq<string>)
    requires |ids| == |docs|
    ensures var r := InsertAll(teachers, docs, ids);
            |r.0.Keys| + r.1 == |teachers.Keys| + |docs|
    decreases |ids|
  {
    if docs != [] {
      var ok := Inserts(teachers, docs[0], ids[0]);
      var next := if ok then teachers[ids[0] := docs[0].value] else teachers;
      if ok {
        assert next.Keys == teachers.Keys + {ids[0]};
      }
      InsertAllAccounts(next, docs[1..], ids[1..]);
    }
  }

  /** Valid documents with fresh ids and emails distinct from each other
      and from the collection's all go in. */
  lemma {:induction false} InsertAllDistinct(teachers: map<string, Teacher>, docs: seq<Option<Teacher>>,
                                             ids: seq<string>)
    requires |ids| == |docs|
    requires forall k :: 0 <= k < |docs| ==> docs[k].Some? && !EmailTaken(teachers, docs[k].value.email)
    requires forall k :: 0 <= k < |ids| ==> ids[k] !in teachers
    requires forall j, k :: 0 <= j < k < |ids| ==> ids[j] != ids[k]
    requires forall j, k :: 0 <= j < k < |docs| ==> docs[j].value.email != docs[k].value.email
    ensures InsertAll(teachers, docs, ids).1 == 0
    decreases |ids|
  {
    if docs != [] {
      var t := docs[0].value;
      assert Inserts(teachers, docs[0], ids[0]);
      var next := teachers[ids[0] := t];
      forall k | 0 <= k < |docs[1..]|
        ensures docs[1..][k].Some? && !EmailTaken(next, docs[1..][k].value.email)
      {
        assert docs[1..][k] == docs[k + 1];
        NotTakenMeansDifferent(teachers, docs[k + 1].value.email);
      }
      forall k | 0 <= k < |ids[1..]|
        ensures ids[1..][k] !in next
      {
        assert ids[1..][k] == ids[k + 1];
      }
      InsertAllDistinct(next, docs[1..], ids[1..]);
    }
  }

  /** The replies of the routes. */
  datatype Reply =
    | Message(status: nat, message: string)
    | Member(member: PublicTeacher)
    | Members(members: map<string, PublicTeacher>)

  /** The upload's outcome on a collection: without a file the handler
      throws on `req.file.buffer`; otherwise the mapped rows are inserted,
      and any failed row makes `insertMany` throw after the others went in. */
  function UploadOutcome(teachers: map<string, Teacher>, file: Option<seq<SheetRow>>, ids: seq<string>, now: nat)
    : (r: (map<string, Teacher>, Reply))
    requires file.Some? ==> |ids| == |file.value|
    ensures file.None? ==> r == (teachers, Message(500, UploadFailed))
    ensures file.Some? ==> r.0 == InsertAll(teachers, CastAll(MapRows(file.value), now), ids).0
    ensures file.Some? ==> (r.1 == Message(200, UploadSucceeded)
                            <==> InsertAll(teachers, CastAll(MapRows(file.value), now), ids).1 == 0)
    ensures r.1 == Message(200, UploadSucceeded) || r.1 == Message(500, UploadFailed)
  {
    if file.None? then (teachers, Message(500, UploadFailed))
    else
      var r := InsertAll(teachers, CastAll(MapRows(file.value), now), ids);
      (r.0, if r.1 == 0 then Message(200, UploadSucceeded) else Message(500, UploadFailed))
  }

  /** The route as mounted: `auth` and `isAdmin` only, no multer middleware,
      so `req.file` is undefined whatever the client sends. */
  function FileSeenAsWritten(sent: Option<seq<SheetRow>>): (seen: Option<seq<SheetRow>>)
    ensures seen.None?
  {
    None
  }

  /** As written, the upload never inserts anything and always answers 500. */
  lemma UploadAsWrittenAlwaysFails(teachers: map<string, Teacher>, sent: Option<seq<SheetRow>>,
                                   ids: seq<string>, now: nat)
    ensures UploadOutcome(teachers, FileSeenAsWritten(sent), ids, now) == (teachers, Message(500, UploadFailed))
  {
  }

  /** The email a row would be stored under. */
  function RowEmail(row: SheetRow): string
  {
    if row.email.Some? then CastEmail(row.email.value) else ""
  }

  /** With the file handed to the route, a spreadsheet of admissible rows
      with fresh ids and emails distinct from each other and from the
      collection's is stored in full. */
  lemma AdmissibleRowsAllInserted(teachers: map<string, Teacher>, rows: seq<SheetRow>,
                                  ids: seq<string>, now: nat)
    requires |ids| == |rows|
    requires forall k :: 0 <= k < |rows| ==> Admissible(MapRow(rows[k]))
    requires forall k :: 0 <= k < |ids| ==> ids[k] !in teachers
    requires forall j, k :: 0 <= j < k < |ids| ==> ids[j] != ids[k]
    requires forall k :: 0 <= k < |rows| ==> !EmailTaken(teachers, RowEmail(rows[k]))
    requires forall j, k :: 0 <= j < k < |rows| ==> RowEmail(rows[j]) != RowEmail(rows[k])
    ensures UploadOutcome(teachers, Some(rows), ids, now).1 == Message(200, UploadSucceeded)
  {
    var docs := CastAll(MapRows(rows), now);
    forall k | 0 <= k < |rows|
      ensures docs[k].Some? && docs[k].value.email == RowEmail(rows[k])
    {
      MapRowsAt(rows, k);
      CastAllAt(MapRows(rows), now, k);
    }
    InsertAllDistinct(teachers, docs, ids);
  }

  /** The update document: the body without `isAdmin`. */
  function UpdatePayload(body: map<string, string>): (updateData: map<string, string>)
    ensures "isAdmin" !in updateData
    ensures forall k :: k in updateData <==> k in body && k != "isAdmin"
    ensures forall k :: k in updateData ==> updateData[k] == body[k]
  {
    body - {"isAdmin"}
  }

  /** The route's copy of the body, `{ ...req.body }`, from which `isAdmin`
      is then deleted in place. */
  method StripAdmin(body: map<string, string>) returns (updateData: map<string, string>)
    ensures updateData == UpdatePayload(body)
    ensures "isAdmin" !in updateData && |updateData| <= |body|
  {
    updateData := body;
    if "isAdmin" in updateData {
      updateData := updateData - {"isAdmin"};
    }
  }

  /** Whether the body's `createdAt`, if any, casts to a date: `castDate`
      stands for Mongoose's cast of a string to a `Date`, `None` where it
      throws a CastError. */
  predicate DateCasts(body: map<string, string>, castDate: string -> Option<nat>)
  {
    "createdAt" in body ==> castDate(body["createdAt"]).Some?
  }

  /** `findByIdAndUpdate` with the (stripped) body: strict mode keeps only
      the schema's paths, the setters trim and lower-case as on insert, the
      validators do not run, and the password is stored as given because
      the hashing hook runs on `save` only. `createdAt` is a schema path
      too: it is cast to a date, and a value that does not cast makes the
      whole update fail. */
  function ApplyUpdate(t: Teacher, body: map<string, string>, castDate: string -> Option<nat>): (u: Option<Teacher>)
    ensures u.None? <==> !DateCasts(body, castDate)
    ensures u.Some? ==>
      && u.value.email == (if "email" in body then CastEmail(body["email"]) else t.email)
      && u.value.password == (if "password" in body then body["password"] else t.password)
      && u.value.name == (if "name" in body then Trim(body["name"]) else t.name)
      && u.value.department == (if "department" in body then Trim(body["department"]) else t.department)
      && u.value.facultyId == (if "facultyId" in body then Trim(body["facultyId"]) else t.facultyId)
      && u.value.createdAt == (if "createdAt" in body then castDate(body["createdAt"]).value else t.createdAt)
  {
    if !DateCasts(body, castDate) then None
    else
      Some(Teacher(if "email" in body then CastEmail(body["email"]) else t.email,
                   if "password" in body then body["password"] else t.password,
                   if "name" in body then Trim(body["name"]) else t.name,
                   if "department" in body then Trim(body["department"]) else t.department,
                   if "facultyId" in body then Trim(body["facultyId"]) else t.facultyId,
                   if "createdAt" in body then castDate(body["createdAt"]).value else t.createdAt))
  }

  /** Whatever `isAdmin` the body carries, the update is the same as without it. */
  lemma UpdateIgnoresAdminFlag(t: Teacher, body: map<string, string>, flag: string, castDate: string -> Option<nat>)
    ensures ApplyUpdate(t, UpdatePayload(body["isAdmin" := flag]), castDate)
         == ApplyUpdate(t, UpdatePayload(body), castDate)
  {
  }

  /** The schema paths an update can set. */
  const SchemaPaths: set<string> := {"email", "password", "name", "department", "facultyId", "createdAt"}

  /** A body naming no schema path leaves the document as it was. */
  lemma UpdateWithoutSchemaKeysIsIdentity(t: Teacher, body: map<string, string>, castDate: string -> Option<nat>)
    requires forall k :: k in body ==> k !in SchemaPaths
    ensures ApplyUpdate(t, body, castDate) == Some(t)
  {
  }

  /** A body's creation time replaces the stored one when it casts; one
      that does not cast fails the update whatever else the body says. */
  lemma UpdateSetsCreatedAt(t: Teacher, body: map<string, string>, castDate: string -> Option<nat>)
    requires "createdAt" in body
    ensures castDate(body["createdAt"]).Some? ==>
      ApplyUpdate(t, body, castDate).Some? && ApplyUpdate(t, body, castDate).value.createdAt == castDate(body["createdAt"]).value
    ensures castDate(body["createdAt"]).None? ==> ApplyUpdate(t, body, castDate) == None
  {
  }

  /** The enum is checked on insert but not on update: a department the
      upload refuses is stored by the update. */
  lemma UpdateSkipsDepartmentEnum(t: Teacher, dept: string, f: FacultyRow, now: nat, castDate: string -> Option<nat>)
    requires !IsDepartment(Trim(dept)) && f.department == Some(dept)
    ensures Cast(f, now) == None
    ensures ApplyUpdate(t, map["department" := dept], castDate) == Some(t.(department := Trim(dept)))
  {
    UpdateDepartmentOnly(t, dept, castDate);
  }

  /** A body naming only the department replaces the department alone. */
  lemma UpdateDepartmentOnly(t: Teacher, dept: string, castDate: string -> Option<nat>)
    ensures ApplyUpdate(t, map["department" := dept], castDate) == Some(t.(department := Trim(dept)))
  {
    var body := map["department" := dept];
    assert body.Keys == {"department"};
    assert "createdAt" !in body && "email" !in body && "password" !in body;
    assert "name" !in body && "facultyId" !in body;
    var u := ApplyUpdate(t, body, castDate);
    assert u.Some?;
    assert u.value == t.(department := Trim(dept));
  }

  /** Another teacher already uses the email this update would give `id`. */
  predicate EmailClash(teachers: map<string, Teacher>, id: string, u: Teacher)
  {
    exists other :: other in teachers && other != id && teachers[other].email == u.email
  }

  /** Updating one document keeps emails unique unless the update clashes. */
  lemma UpdateKeepsEmailsUnique(teachers: map<string, Teacher>, id: string, u: Teacher)
    requires EmailsUnique(teachers) && id in teachers && !EmailClash(teachers, id, u)
    ensures EmailsUnique(teachers[id := u])
  {
    assert forall other :: other in teachers && other != id ==> teachers[other].email != u.email;
  }

  /** The listing: every teacher, without the password. */
  function Listing(teachers: map<string, Teacher>): (r: map<string, PublicTeacher>)
    ensures r.Keys == teachers.Keys
    ensures forall id :: id in r ==> r[id].id == id && r[id].email == teachers[id].email
  {
    map id | id in teachers :: Public(id, teachers[id])
  }

  /** The teacher collection behind the admin routes. */
  class FacultyDirectory {
    var teachers: map<string, Teacher>

    ghost predicate Valid()
      reads this
    {
      EmailsUnique(teachers)
    }

    constructor ()
      ensures Valid() && teachers == map[]
    {
      teachers := map[];
    }

    /** `POST /api/admin/faculty/upload`, given the sheet the request carries
        (as if multer handed it to the route) and the ids generated for its rows. */
    method UploadFaculty(file: Option<seq<SheetRow>>, ids: seq<string>, now: nat) returns (reply: Reply)
      requires Valid()
      requires file.Some? ==> |ids| == |file.value|
      modifies this
      ensures Valid()
      ensures (teachers, reply) == UploadOutcome(old(teachers), file, ids, now)
    {
      var outcome := UploadOutcome(teachers, file, ids, now);
      if file.Some? {
        InsertAllKeepsEmailsUnique(teachers, CastAll(MapRows(file.value), now), ids);
      }
      teachers := outcome.0;
      reply := outcome.1;
    }

    /** `GET /api/admin/faculty` */
    method ListFaculty() returns (reply: Reply)
      ensures reply.Members? && reply.members.Keys == teachers.Keys
      ensures forall id :: id in teachers ==> reply.members[id] == Public(id, teachers[id])
    {
      reply := Members(Listing(teachers));
    }

    /** `PUT /api/admin/faculty/:id`. The update is cast before the
        document is looked up, so a `createdAt` that does not cast answers
        500 even for an unknown id. */
    method UpdateFaculty(id: string, body: map<string, string>, castDate: string -> Option<nat>) returns (reply: Reply)
      requires Valid()
      modifies this
      ensures Valid()
      ensures !DateCasts(UpdatePayload(body), castDate) ==>
                reply == Message(500, ServerError) && teachers == old(teachers)
      ensures DateCasts(UpdatePayload(body), castDate) && id !in old(teachers) ==>
                reply == Message(404, MemberNotFound) && teachers == old(teachers)
      ensures DateCasts(UpdatePayload(body), castDate) && id in old(teachers) ==>
                var u := ApplyUpdate(old(teachers)[id], UpdatePayload(body), castDate).value;
                if EmailClash(old(teachers), id, u)
                then reply == Message(500, ServerError) && teachers == old(teachers)
                else reply == Member(Public(id, u)) && teachers == old(teachers)[id := u]
    {
      var updateData := StripAdmin(body);
      if !DateCasts(updateData, castDate) {
        return Message(500, ServerError);
      }
      if id !in teachers {
        return Message(404, MemberNotFound);
      }
      var u := ApplyUpdate(teachers[id], updateData, castDate).value;
      if EmailClash(teachers, id, u) {
        return Message(500, ServerError);
      }
      UpdateKeepsEmailsUnique(teachers, id, u);
      teachers := teachers[id := u];
      reply := Member(Public(id, u));
    }

    /** `DELETE /api/admin/faculty/:id` by the teacher `selfId`. */
    method DeleteFaculty(id: string, selfId: string) returns (reply: Reply)
      requires Valid()
      modifies this
      ensures Valid()
      ensures id == selfId ==> reply == Message(400, CannotDeleteSelf) && teachers == old(teachers)
      ensures id != selfId && id !in old(teachers) ==>
                reply == Message(404, MemberNotFound) && teachers == old(teachers)
      ensures id != selfId && id in old(teachers) ==>
                reply == Message(200, MemberDeleted) && teachers == old(teachers) - {id}
    {
      if id == selfId {
        return Message(400, CannotDeleteSelf);
      }
      if id !in teachers {
        return Message(404, MemberNotFound);
      }
      teachers := teachers - {id};
      reply := Message(200, MemberDeleted);
    }
  }
}
