/** The `users` collection: who may use the admin panel, who may create,
    read, update and delete user documents, who may read and write the
    `role` field, and which profile fields a stored user must carry. */
module Users {
  import opened Values

  /** The options of the `role` select field. */
  datatype Role = Admin | Member | Reviewer {
    /** Stored value of the option. */
    function Value(): string {
      match this
      case Admin => "admin"
      case Member => "user"
      case Reviewer => "reviewer"
    }
  }

  /** Reads a stored `role` value back into an option, if it is one. */
  function ParseRole(s: string): (r: Option<Role>)
    ensures r.Some? ==> r.value.Value() == s
    ensures forall role: Role :: role.Value() == s ==> r == Some(role)
  {
    if s == "admin" then Some(Admin)
    else if s == "user" then Some(Member)
    else if s == "reviewer" then Some(Reviewer)
    else None
  }

  /** The options of the optional `gender` select field. */
  const GenderOptions: set<string> := {"male", "female", "other"}

  /** The value `role` takes when a user is created. */
  const DefaultRole: Role := Member

  /** The authenticated user of a request, if any. */
  datatype Caller = Anonymous | SignedIn(id: string, role: Role)

  /** `user?.role === 'admin'` */
  predicate IsAdmin(c: Caller) {
    c.SignedIn? && c.role == Admin
  }

  datatype Operation = Create | Read | Update | Delete

  /** What a collection access rule returns: nothing, everything, or only the
      document whose id equals the given one (the `{ id: { equals } }` query). */
  datatype Access = Denied | All | OnlyId(id: string)

  /** Whether an access result admits the document with id `target`. */
  predicate Permits(a: Access, target: string) {
    a.All? || (a.OnlyId? && a.id == target)
  }

  /** The `access.admin` rule: only admins may enter the admin panel. */
  function AdminPanelAccess(c: Caller): (allowed: bool)
    ensures allowed <==> c.SignedIn? && c.role == Admin
  {
    IsAdmin(c)
  }

  /** The collection-level `access` rules. */
  function CollectionAccess(op: Operation, c: Caller): (a: Access)
    ensures op == Create ==> a == All
    ensures op == Delete ==> (a == All <==> IsAdmin(c)) && (a == Denied <==> !IsAdmin(c))
    ensures op == Read || op == Update ==>
              (IsAdmin(c) ==> a == All)
              && (c.Anonymous? ==> a == Denied)
              && (c.SignedIn? && !IsAdmin(c) ==> a == OnlyId(c.id))
  {
    match op
    case Create => All
    case Delete => if IsAdmin(c) then All else Denied
    case Read | Update =>
      if IsAdmin(c) then All
      else if c.SignedIn? then OnlyId(c.id)
      else Denied
  }

  /** Read and update reach a user document exactly when the caller is an
      admin or is that user; an anonymous caller reaches none. */
  lemma ReadUpdateScope(op: Operation, c: Caller, target: string)
    requires op == Read || op == Update
    ensures Permits(CollectionAccess(op, c), target) <==> IsAdmin(c) || (c.SignedIn? && c.id == target)
    ensures c.Anonymous? ==> !Permits(CollectionAccess(op, c), target)
  {
  }

  /** Anyone, signed in or not, may create; only admins may delete. */
  lemma CreateOpenDeleteAdminOnly(c: Caller, target: string)
    ensures Permits(CollectionAccess(Create, c), target)
    ensures Permits(CollectionAccess(Delete, c), target) <==> IsAdmin(c)
  {
  }

  datatype FieldOperation = FieldRead | FieldCreate | FieldUpdate

  /** The field-level `access` rules of `role`. */
  function RoleFieldAccess(op: FieldOperation, c: Caller): (allowed: bool)
    ensures op == FieldRead ==> allowed
    ensures op == FieldCreate ==> !allowed
    ensures op == FieldUpdate ==> (allowed <==> IsAdmin(c))
  {
    match op
    case FieldRead => true
    case FieldCreate => false
    case FieldUpdate => IsAdmin(c)
  }

  /** A stored user's profile (the authentication fields belong to the framework). */
  datatype UserDoc = UserDoc(
    id: string,
    name: string,
    gender: Option<string>,
    birthday: string,
    phone: string,
    organization: string,
    jobTitle: string,
    role: Role)

  /** The field schema: required texts are non-empty, `gender` is absent or one of its options. */
  predicate ValidUser(u: UserDoc) {
    && u.name != ""
    && u.birthday != ""
    && u.phone != ""
    && u.organization != ""
    && u.jobTitle != ""
    && (u.gender.Some? ==> u.gender.value in GenderOptions)
  }

  /** The data of a create or update request; an absent key is `None`. */
  datatype UserInput = UserInput(
    name: Option<string>,
    gender: Option<string>,
    birthday: Option<string>,
    phone: Option<string>,
    organization: Option<string>,
    jobTitle: Option<string>,
    role: Option<string>)

  /** Why a write was refused. */
  datatype WriteError = Forbidden | Invalid(fields: set<string>)

  /** Names of the schema fields a candidate document violates. */
  function Violations(u: UserDoc): (bad: set<string>)
    ensures bad == {} <==> ValidUser(u)
  {
    (if u.name == "" then {"name"} else {})
    + (if u.birthday == "" then {"birthday"} else {})
    + (if u.phone == "" then {"phone"} else {})
    + (if u.organization == "" then {"organization"} else {})
    + (if u.jobTitle == "" then {"jobTitle"} else {})
    + (if u.gender.Some? && u.gender.value !in GenderOptions then {"gender"} else {})
  }

  /** The document a create request describes: an absent text is empty and the
      role is the default. */
  function Draft(id: string, input: UserInput): UserDoc {
    UserDoc(id, input.name.GetOr(""), input.gender, input.birthday.GetOr(""),
            input.phone.GetOr(""), input.organization.GetOr(""), input.jobTitle.GetOr(""), DefaultRole)
  }

  /** Creates a user. Create access is open to every caller; the `role` key is
      dropped because its create access is false, so the default applies. */
  function CreateUser(c: Caller, id: string, input: UserInput): (r: Result<UserDoc, WriteError>)
    ensures r.Ok? ==> ValidUser(r.value) && r.value.role == DefaultRole && r.value.id == id
    ensures r.Ok? ==> && Some(r.value.name) == input.name
                      && r.value.gender == input.gender
                      && Some(r.value.birthday) == input.birthday
                      && Some(r.value.phone) == input.phone
                      && Some(r.value.organization) == input.organization
                      && Some(r.value.jobTitle) == input.jobTitle
    ensures r.Err? ==> r.error == Invalid(Violations(Draft(id, input))) && r.error.fields != {}
    ensures r.Ok? <==>
              && input.name.GetOr("") != ""
              && input.birthday.GetOr("") != ""
              && input.phone.GetOr("") != ""
              && input.organization.GetOr("") != ""
              && input.jobTitle.GetOr("") != ""
              && (input.gender.Some? ==> input.gender.value in GenderOptions)
  {
    var data := if RoleFieldAccess(FieldCreate, c) then input else input.(role := None);
    var role := match data.role
                case None => DefaultRole
                case Some(v) => ParseRole(v).GetOr(DefaultRole);
    var doc := UserDoc(id, data.name.GetOr(""), data.gender, data.birthday.GetOr(""),
                       data.phone.GetOr(""), data.organization.GetOr(""), data.jobTitle.GetOr(""), role);
    if !Permits(CollectionAccess(Create, c), id) then Err(Forbidden)
    else if Violations(doc) != {} then Err(Invalid(Violations(doc)))
    else Ok(doc)
  }

  /** Whatever role a create request asks for, the new user is a plain user. */
  lemma CreateIgnoresRole(c: Caller, id: string, input: UserInput, asked: string)
    ensures CreateUser(c, id, input.(role := Some(asked))) == CreateUser(c, id, input.(role := None))
  {
  }

  /** A text field after an update: the value sent, or the stored one when the
      key was left out. */
  predicate Merged(stored: string, sent: Option<string>, now: string) {
    if sent.Some? then now == sent.value else now == stored
  }

  /** The profile an update describes, role aside: every key the request
      carries takes the sent value, every other field keeps its stored value. */
  function Merge(stored: UserDoc, patch: UserInput): (u: UserDoc)
    ensures u.id == stored.id && u.role == stored.role
    ensures && Merged(stored.name, patch.name, u.name)
            && Merged(stored.birthday, patch.birthday, u.birthday)
            && Merged(stored.phone, patch.phone, u.phone)
            && Merged(stored.organization, patch.organization, u.organization)
            && Merged(stored.jobTitle, patch.jobTitle, u.jobTitle)
            && u.gender == (if patch.gender.Some? then patch.gender else stored.gender)
  {
    UserDoc(
      stored.id,
      patch.name.GetOr(stored.name),
      if patch.gender.Some? then patch.gender else stored.gender,
      patch.birthday.GetOr(stored.birthday),
      patch.phone.GetOr(stored.phone),
      patch.organization.GetOr(stored.organization),
      patch.jobTitle.GetOr(stored.jobTitle),
      stored.role)
  }

  /** The caller may update this user: an admin, or the user themself. */
  predicate MayUpdate(c: Caller, stored: UserDoc) {
    IsAdmin(c) || (c.SignedIn? && c.id == stored.id)
  }

  /** The update asks for a role the `role` select does not offer, and the
      caller's `role` key is not dropped. */
  predicate RoleRejected(c: Caller, patch: UserInput) {
    IsAdmin(c) && patch.role.Some? && ParseRole(patch.role.value).None?
  }

  /** Updates a user. Keys left out keep their stored value; the `role` key is
      dropped unless the caller is an admin; a value the `role` select does not
      offer is a validation error. */
  function UpdateUser(c: Caller, stored: UserDoc, patch: UserInput): (r: Result<UserDoc, WriteError>)
    ensures r == Err(Forbidden) <==> !MayUpdate(c, stored)
    ensures r.Ok? <==> MayUpdate(c, stored) && !RoleRejected(c, patch) && ValidUser(Merge(stored, patch))
    ensures r.Ok? ==> ValidUser(r.value) && r.value.id == stored.id
    ensures r.Ok? ==> r.value.(role := stored.role) == Merge(stored, patch)
    ensures r.Ok? && !IsAdmin(c) ==> r.value.role == stored.role
    ensures r.Ok? && IsAdmin(c) && patch.role.Some? ==> r.value.role.Value() == patch.role.value
    ensures r.Ok? && IsAdmin(c) && patch.role.None? ==> r.value.role == stored.role
    ensures r.Err? && r.error.Invalid? ==>
              r.error.fields == Violations(Merge(stored, patch)) + (if RoleRejected(c, patch) then {"role"} else {})
  {
    var roleWritable := RoleFieldAccess(FieldUpdate, c) && patch.role.Some?;
    var role := if roleWritable then ParseRole(patch.role.value) else Some(stored.role);
    var doc := Merge(stored, patch).(role := role.GetOr(stored.role));
    if !Permits(CollectionAccess(Update, c), stored.id) then Err(Forbidden)
    else if role.None? then Err(Invalid({"role"} + Violations(doc)))
    else if Violations(doc) != {} then Err(Invalid(Violations(doc)))
    else Ok(doc)
  }

  /** Only an admin can change a user's role: a non-admin's update keeps it
      whatever the request carries. */
  lemma RoleChangeNeedsAdmin(c: Caller, stored: UserDoc, patch: UserInput)
    requires UpdateUser(c, stored, patch).Ok?
    requires UpdateUser(c, stored, patch).value.role != stored.role
    ensures IsAdmin(c)
  {
  }
}
