/**
  The User schema: who may log in, with which role, and how the stored
  password is derived from the one supplied.
 */
module UserModel {
  import opened Wrappers
  import opened Documents

  /** The roles the schema's enum admits. */
  datatype Role = Student | Staff | ComputerEngineering | MechanicalEngineering | Admin

  /** The string a role is stored and sent as. */
  function RoleName(r: Role): string
  {
    match r
    case Student => "student"
    case Staff => "staff"
    case ComputerEngineering => "computer_engineering"
    case MechanicalEngineering => "mechanical_engineering"
    case Admin => "admin"
  }

  /** Mongoose's enum check on `role`: exactly the listed names are accepted. */
  function ParseRole(name: string): (r: Option<Role>)
    ensures r.Some? ==> RoleName(r.value) == name
    ensures r.None? ==> forall role :: RoleName(role) != name
  {
    if name == "student" then Some(Student)
    else if name == "staff" then Some(Staff)
    else if name == "computer_engineering" then Some(ComputerEngineering)
    else if name == "mechanical_engineering" then Some(MechanicalEngineering)
    else if name == "admin" then Some(Admin)
    else None
  }

  /** The role a user gets when none is given. */
  const DefaultRole: Role := Student

  /** A stored user document. `password` holds whatever the pre-save hook produced. */
  datatype User = User(id: Id, name: string, email: string, password: string, role: Role)

  /** The fields handed to `User.create`; any of them may be missing. */
  datatype UserInput = UserInput(name: Option<string>, email: Option<string>, password: Option<string>, role: Option<string>)

  /** bcrypt's `hash(password, 10)`, as an uninterpreted function. */
  type Hash = string -> string

  /** bcrypt's `compare(password, hashed)`, as an uninterpreted function. */
  type Compare = (string, string) -> bool

  /** Printable ASCII, space to tilde: no NUL, one byte per character. */
  predicate Printable(s: string)
  {
    forall c :: c in s ==> ' ' <= c <= '~'
  }

  /**
    bcrypt hashes are 60 characters long, so never empty, and are written in
    printable ASCII (`$`, `.`, `/`, letters and digits).
   */
  ghost predicate HashShape(hash: Hash)
  {
    forall p :: |hash(p)| == 60 && Printable(hash(p))
  }

  /**
    What the model assumes of bcrypt: a hash has the shape above, a password
    matches its own hash, and a printable ASCII password of at most 72
    characters does not match the hash of a printable ASCII string of
    another length of at most 72 characters. For such strings bcrypt's key
    (the password and a NUL terminator, repeated up to 72 bytes) differs
    with the length. Strings with a NUL or with multi-byte characters, or
    longer than 72 bytes, can share a key, so nothing is assumed of them.
   */
  ghost predicate Bcrypt(hash: Hash, compare: Compare)
  {
    && HashShape(hash)
    && (forall p :: compare(p, hash(p)))
    && (forall p, q :: Printable(p) && Printable(q) && |p| <= 72 && |q| <= 72 && |p| != |q| ==>
                         !compare(p, hash(q)))
  }

  /** A printable character for the length of a string, capped at 73. */
  function LengthTag(p: string): char
  {
    (33 + if |p| <= 72 then |p| else 73) as char
  }

  /** A hash that records only the capped length of the password, padded to 60 characters. */
  function TagHash(p: string): (h: string)
    ensures |h| == 60 && Printable(h)
  {
    [LengthTag(p)] + seq(59, _ => '$')
  }

  /** The comparison that goes with `TagHash`. */
  function TagCompare(p: string, h: string): bool
  {
    |h| == 60 && h[0] == LengthTag(p)
  }

  /** The assumptions `Bcrypt` makes can all be met at once. */
  lemma BcryptSatisfiable()
    ensures Bcrypt(TagHash, TagCompare)
  {
    forall p, q | Printable(p) && Printable(q) && |p| <= 72 && |q| <= 72 && |p| != |q|
      ensures !TagCompare(p, TagHash(q))
    {
      assert TagHash(q)[0] == LengthTag(q);
    }
  }

  /**
    A printable password of at most 72 characters, other than 60 long, does
    not match the hash of its own hash.
   */
  lemma RehashMismatch(hash: Hash, compare: Compare, p: string)
    requires Bcrypt(hash, compare)
    requires Printable(p) && |p| <= 72 && |p| != 60
    ensures !compare(p, hash(hash(p)))
  {
    var q := hash(p);
    assert |q| == 60 && Printable(q);
  }

  /**
    The pre-save hook: a document whose password was not modified is saved as
    it is; a modified password is replaced by its hash. Nothing else changes.
   */
  function PreSave(u: User, passwordModified: bool, hash: Hash): (r: User)
    ensures !passwordModified ==> r == u
    ensures passwordModified ==> r.password == hash(u.password)
    ensures r.(password := u.password) == u
  {
    if passwordModified then u.(password := hash(u.password)) else u
  }

  /**
    `User.create(input)` before the store's unique index is consulted: schema
    validation (required name, email and password; role within the enum,
    student by default), then the pre-save hook, for which the password of a
    new document always counts as modified.
   */
  function NewUser(input: UserInput, id: Id, hash: Hash): (r: Result<User, DbError>)
    ensures r.Success? <==>
              && PresentString(input.name) && PresentString(input.email) && PresentString(input.password)
              && (input.role.None? || ParseRole(input.role.value).Some?)
    ensures r.Failure? ==> r.error == ValidationFailed
    ensures r.Success? ==>
              && r.value.id == id
              && r.value.name == input.name.value
              && r.value.email == input.email.value
              && r.value.password == hash(input.password.value)
              && (input.role.None? ==> r.value.role == Student)
              && (input.role.Some? ==> RoleName(r.value.role) == input.role.value)
  {
    if !(PresentString(input.name) && PresentString(input.email) && PresentString(input.password)) then
      Failure(ValidationFailed)
    else if input.role.Some? && ParseRole(input.role.value).None? then
      Failure(ValidationFailed)
    else
      var role := if input.role.None? then DefaultRole else ParseRole(input.role.value).value;
      var doc := User(id, input.name.value, input.email.value, input.password.value, role);
      Success(PreSave(doc, true, hash))
  }
}
