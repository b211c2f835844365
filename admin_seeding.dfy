/**
  `User.createAdmins`: for each of three fixed accounts, create the user
  unless one with that email already exists.
 */
module AdminSeeding {
  import opened Wrappers
  import opened UserModel
  import opened Store
  import LoginRoute

  /** One seeded account as the source lists it. */
  datatype Account = Account(name: string, email: string, password: string, role: string)

  /** The three accounts, in the order they are seeded. */
  const Admins: seq<Account> := [
    Account("Admin ", "blerona.tmava@umib.net", "Umib.2025", "computer_engineering"),
    Account("Admin ", "habib.tmava@umib.net", "Umib.2025", "mechanical_engineering"),
    Account("SuperAdmin", "bleronatmava12@gmail.com", "Umib.2025", "staff")
  ]

  /** An account that passes the User schema once its password is (possibly) hashed. */
  predicate AccountValid(a: Account)
  {
    a.name != "" && a.email != "" && a.password != "" && ParseRole(a.role).Some?
  }

  /**
    What is handed to `create` for an account. As written, the password is
    hashed here first (`prehash`) and the pre-save hook hashes it again; with
    `prehash` false the hook alone hashes it, once.
   */
  function SeedInput(a: Account, hash: Hash, prehash: bool): UserInput
  {
    UserInput(Some(a.name), Some(a.email), Some(if prehash then hash(a.password) else a.password), Some(a.role))
  }

  /** One iteration: skip an account whose email exists, create it otherwise. */
  function SeedOne(t: Tables, a: Account, hash: Hash, prehash: bool): (r: Tables)
    ensures t.users <= r.users
    ensures r.events == t.events && r.registrations == t.registrations
    ensures t.nextId <= r.nextId
    ensures Consistent(t) ==> Consistent(r)
  {
    if EmailTaken(t.users, a.email) then t else AddUser(t, SeedInput(a, hash, prehash), hash).after
  }

  /**
    The loop over `accounts`, in order. Existing users are kept, as a prefix
    of the new table, and the other collections are untouched.
   */
  function Seed(t: Tables, accounts: seq<Account>, hash: Hash, prehash: bool): (r: Tables)
    ensures t.users <= r.users
    ensures r.events == t.events && r.registrations == t.registrations
    ensures t.nextId <= r.nextId
    ensures Consistent(t) ==> Consistent(r)
    decreases |accounts|
  {
    if accounts == [] then t
    else SeedOne(Seed(t, accounts[..|accounts| - 1], hash, prehash), accounts[|accounts| - 1], hash, prehash)
  }

  /** Once an email is present, seeding more accounts keeps it present. */
  lemma EmailStays(t: Tables, accounts: seq<Account>, hash: Hash, prehash: bool, email: string)
    requires EmailTaken(t.users, email)
    ensures EmailTaken(Seed(t, accounts, hash, prehash).users, email)
  {
    var r := Seed(t, accounts, hash, prehash);
    var u :| u in t.users && u.email == email;
    assert u in r.users;
  }

  /** After seeding, every seeded account's email exists. */
  lemma {:induction false} SeedCoversEmails(t: Tables, accounts: seq<Account>, hash: Hash, prehash: bool)
    requires forall a :: a in accounts ==> AccountValid(a)
    requires HashShape(hash)
    ensures forall a :: a in accounts ==> EmailTaken(Seed(t, accounts, hash, prehash).users, a.email)
  {
    if accounts != [] {
      var init := accounts[..|accounts| - 1];
      var last := accounts[|accounts| - 1];
      var mid := Seed(t, init, hash, prehash);
      SeedCoversEmails(t, init, hash, prehash);
      var r := SeedOne(mid, last, hash, prehash);
      assert EmailTaken(r.users, last.email) by {
        if !EmailTaken(mid.users, last.email) {
          var c := AddUser(mid, SeedInput(last, hash, prehash), hash);
          assert last in accounts && |hash(last.password)| == 60;
          assert c.result.Success?;
          assert c.result.value in r.users;
        }
      }
      forall a | a in accounts
        ensures EmailTaken(r.users, a.email)
      {
        if a != last {
          assert a in init;
          EmailStays(mid, [last], hash, prehash, a.email);
          assert Seed(mid, [last], hash, prehash) == r by {
            assert [last][..0] == [];
          }
        }
      }
    }
  }

  /** Seeding accounts whose emails all exist changes nothing. */
  lemma {:induction false} SeedSkipsPresent(t: Tables, accounts: seq<Account>, hash: Hash, prehash: bool)
    requires forall a :: a in accounts ==> EmailTaken(t.users, a.email)
    ensures Seed(t, accounts, hash, prehash) == t
  {
    if accounts != [] {
      SeedSkipsPresent(t, accounts[..|accounts| - 1], hash, prehash);
    }
  }

  /** Running the seeding twice gives the same store as running it once. */
  lemma SeedIdempotent(t: Tables, hash: Hash, prehash: bool)
    requires HashShape(hash)
    ensures Seed(Seed(t, Admins, hash, prehash), Admins, hash, prehash) == Seed(t, Admins, hash, prehash)
  {
    SeedCoversEmails(t, Admins, hash, prehash);
    SeedSkipsPresent(Seed(t, Admins, hash, prehash), Admins, hash, prehash);
  }

  /** The seeding loop against the shared store, as the source writes it (password hashed before `create`). */
  method CreateAdmins(db: Db, hash: Hash)
    requires db.Valid()
    modifies db
    ensures db.Valid()
    ensures db.State() == Seed(old(db.State()), Admins, hash, true)
  {
    var admins := Admins;
    for i := 0 to |admins|
      invariant db.Valid()
      invariant db.State() == Seed(old(db.State()), admins[..i], hash, true)
    {
      var admin := admins[i];
      var existing := FindUserByEmail(db.users, admin.email);
      if existing.None? {
        var hashed := hash(admin.password);
        var created := db.CreateUser(UserInput(Some(admin.name), Some(admin.email), Some(hashed), Some(admin.role)), hash);
      }
      assert admins[..i + 1][..i] == admins[..i];
    }
    assert admins[..|admins|] == admins;
  }

  /** The password of a seeded account as it ends up in the store. */
  function StoredPassword(a: Account, hash: Hash, prehash: bool): string
  {
    if prehash then hash(hash(a.password)) else hash(a.password)
  }

  /** Seeding an empty store puts the first account first, under id 0. */
  lemma {:induction false} FirstSeeded(hash: Hash, prehash: bool)
    requires HashShape(hash)
    ensures var users := Seed(Empty, Admins, hash, prehash).users;
            |users| > 0 &&
            users[0] == User(0, Admins[0].name, Admins[0].email, StoredPassword(Admins[0], hash, prehash), ComputerEngineering)
  {
    var a := Admins;
    assert a[..1][..0] == [];
    assert a[..2][..1] == a[..1];
    assert a[..3][..2] == a[..2];
    assert a[..3] == a;
    var s1 := Seed(Empty, a[..1], hash, prehash);
    assert |a[..1]| == 1 && a[..1][0] == a[0];
    assert Seed(Empty, a[..1][..0], hash, prehash) == Empty;
    assert s1 == SeedOne(Empty, a[0], hash, prehash);
    FirstAccountOnEmpty(hash, prehash);
    var s2 := Seed(Empty, a[..2], hash, prehash);
    assert s2 == SeedOne(s1, a[1], hash, prehash);
    var s3 := Seed(Empty, a, hash, prehash);
    assert s3 == SeedOne(s2, a[2], hash, prehash);
  }

  /** The first iteration on an empty store creates the first account under id 0. */
  lemma FirstAccountOnEmpty(hash: Hash, prehash: bool)
    requires HashShape(hash)
    ensures SeedOne(Empty, Admins[0], hash, prehash).users
         == [User(0, Admins[0].name, Admins[0].email, StoredPassword(Admins[0], hash, prehash), ComputerEngineering)]
  {
    var a := Admins[0];
    assert |hash(a.password)| == 60;
    assert ParseRole(a.role) == Some(ComputerEngineering);
    assert !EmailTaken(Empty.users, a.email);
  }

  /** The configured administrator password is printable ASCII. */
  lemma AdminPasswordPrintable()
    ensures Printable(Admins[0].password) && |Admins[0].password| == 9
  {
    var pw := Admins[0].password;
    forall c | c in pw
      ensures ' ' <= c <= '~'
    {
      var k :| 0 <= k < |pw| && pw[k] == c;
    }
  }

  /**
    As written, a freshly seeded administrator cannot log in with the
    configured password: the stored value is the hash of its hash.
   */
  lemma SeededAdminLoginFails(hash: Hash, compare: Compare, secret: Option<string>, sign: LoginRoute.Signer)
    requires Bcrypt(hash, compare)
    ensures LoginRoute.Login(true, Seed(Empty, Admins, hash, true).users, Admins[0].email, Admins[0].password,
                             compare, secret, sign) == LoginRoute.InvalidCredentials
  {
    FirstSeeded(hash, true);
    var pw := Admins[0].password;
    AdminPasswordPrintable();
    RehashMismatch(hash, compare, pw);
  }

  /** Hashed once, as intended, the seeded administrator logs in with the configured password. */
  lemma SeededAdminLoginSucceeds(hash: Hash, compare: Compare, secret: string, sign: LoginRoute.Signer)
    requires Bcrypt(hash, compare)
    requires secret != ""
    ensures LoginRoute.Login(true, Seed(Empty, Admins, hash, false).users, Admins[0].email, Admins[0].password,
                             compare, Some(secret), sign).status == 200
  {
    FirstSeeded(hash, false);
    var users := Seed(Empty, Admins, hash, false).users;
    assert compare(Admins[0].password, users[0].password);
    LoginRoute.FirstUserLogsIn(users, Admins[0].password, compare, secret, sign);
  }
}
