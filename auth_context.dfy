/**
 * The mock session store of `AuthContext.tsx`: a credential list that only
 * grows, the current identity, the authenticated flag, and the one
 * browser-storage slot (key `user`) that persists the identity.
 *
 * The transitions are first given as pure functions over a `Session`
 * snapshot, where the lemmas about them live; the class `AuthStore` holds
 * the same state in fields and its methods are proved to perform exactly
 * those transitions.
 */
module AuthContext {
  import opened Common

  /** A stored credential; `isAdmin` is an optional property. */
  datatype Credential = Credential(id: string, name: string, email: string, password: string, isAdmin: Option<bool>)

  /** The session identity: a credential without its password. */
  datatype User = User(id: string, name: string, email: string, isAdmin: Option<bool>)

  /** The storage slot: nothing there, text that parses as a user, or text
      that does not parse. */
  datatype Stored = Absent | Present(user: User) | Malformed

  /** How the returned promise settles. */
  datatype Outcome = Resolved | Rejected(message: string)

  datatype Session = Session(creds: seq<Credential>, user: Option<User>, isAuthenticated: bool, stored: Stored)

  datatype Step = Step(next: Session, outcome: Outcome)

  const InvalidCredentials := "Invalid email or password"
  const EmailInUse := "Email already in use"

  /** The two seeded accounts. */
  const Seed: seq<Credential> := [
    Credential("1", "Admin User", "admin@example.com", "password123", Some(true)),
    Credential("2", "Test User", "test@example.com", "password123", None)
  ]

  /** The state at start-up, before the stored identity is restored. */
  function Initial(slot: Stored): Session {
    Session(Seed, None, false, slot)
  }

  /** `const { password: _, ...safeUserData } = c`: every other field is kept. */
  function Strip(c: Credential): (u: User)
    ensures u.id == c.id && u.name == c.name && u.email == c.email && u.isAdmin == c.isAdmin
  {
    User(c.id, c.name, c.email, c.isAdmin)
  }

  /** The password is the only thing stripping forgets: two credentials give
      the same identity exactly when they differ at most in their password. */
  lemma StripForgetsOnlyPassword(c: Credential, d: Credential)
    ensures Strip(c) == Strip(d) <==> d.(password := c.password) == c
  {
  }

  predicate Matches(c: Credential, email: string, password: string) {
    c.email == email && c.password == password
  }

  /** The `find` of `login`: exact, case-sensitive comparison of both fields. */
  function FindLogin(creds: seq<Credential>, email: string, password: string): Option<nat> {
    FirstIndex(creds, (c: Credential) => Matches(c, email, password))
  }

  /** The `find` of `register`: a credential with this exact email. */
  function FindEmail(creds: seq<Credential>, email: string): Option<nat> {
    FirstIndex(creds, (c: Credential) => c.email == email)
  }

  /** `login(email, password)`: succeeds exactly when a credential matches;
      the identity is then the first match without its password, and it is
      both current and stored. A failure changes nothing. */
  function LoginStep(s: Session, email: string, password: string): (r: Step)
    ensures r.outcome.Resolved? <==> exists k | 0 <= k < |s.creds| :: Matches(s.creds[k], email, password)
    ensures r.outcome.Resolved? ==>
      exists k | 0 <= k < |s.creds| ::
        && Matches(s.creds[k], email, password)
        && (forall j | 0 <= j < k :: !Matches(s.creds[j], email, password))
        && r.next == Session(s.creds, Some(Strip(s.creds[k])), true, Present(Strip(s.creds[k])))
    ensures r.outcome.Rejected? ==> r.outcome.message == InvalidCredentials && r.next == s
  {
    match FindLogin(s.creds, email, password)
    case Some(k) =>
      var u := Strip(s.creds[k]);
      Step(Session(s.creds, Some(u), true, Present(u)), Resolved)
    case None =>
      Step(s, Rejected(InvalidCredentials))
  }

  /** The credential `register` appends to a list of `count` entries. */
  function NewCredential(count: nat, name: string, email: string, password: string): Credential {
    Credential(DecimalString(count + 1), name, email, password, None)
  }

  /** `register(name, email, password)`: fails exactly when the email is
      already present, and then changes nothing; otherwise appends one
      credential with id `String(length + 1)` and logs it in. */
  function RegisterStep(s: Session, name: string, email: string, password: string): (r: Step)
    ensures r.outcome.Rejected? <==> exists k | 0 <= k < |s.creds| :: s.creds[k].email == email
    ensures r.outcome.Rejected? ==> r.outcome.message == EmailInUse && r.next == s
    ensures r.outcome.Resolved? ==>
      && |r.next.creds| == |s.creds| + 1
      && r.next.creds[..|s.creds|] == s.creds
      && r.next.creds[|s.creds|] == Credential(DecimalString(|s.creds| + 1), name, email, password, None)
      && r.next.user == Some(User(DecimalString(|s.creds| + 1), name, email, None))
      && r.next.isAuthenticated
      && r.next.stored == Present(User(DecimalString(|s.creds| + 1), name, email, None))
  {
    if FindEmail(s.creds, email).Some? then
      Step(s, Rejected(EmailInUse))
    else
      var c := NewCredential(|s.creds|, name, email, password);
      var u := Strip(c);
      Step(Session(s.creds + [c], Some(u), true, Present(u)), Resolved)
  }

  /** `logout()`: no identity, not authenticated, storage cleared. */
  function LogoutStep(s: Session): (r: Session)
    ensures r.user == None && !r.isAuthenticated && r.stored == Absent
    ensures r.creds == s.creds
  {
    Session(s.creds, None, false, Absent)
  }

  /** The start-up restore: a parsed identity becomes current, unparseable
      text is removed, an empty slot changes nothing. */
  function RestoreStep(s: Session): (r: Session)
    ensures s.stored.Present? ==> r.user == Some(s.stored.user) && r.isAuthenticated && r.stored == s.stored
    ensures s.stored.Malformed? ==> r.stored == Absent && r.user == s.user && r.isAuthenticated == s.isAuthenticated
    ensures s.stored.Absent? ==> r == s
    ensures r.creds == s.creds
  {
    match s.stored
    case Present(u) => s.(user := Some(u), isAuthenticated := true)
    case Malformed => s.(stored := Absent)
    case Absent => s
  }

  /** No two credentials share an email. */
  predicate DistinctEmails(creds: seq<Credential>) {
    forall i, j | 0 <= i < j < |creds| :: creds[i].email != creds[j].email
  }

  /** Entry `k` has id `String(k + 1)`. */
  predicate SequentialIds(creds: seq<Credential>) {
    forall k | 0 <= k < |creds| :: creds[k].id == DecimalString(k + 1)
  }

  /** The flag agrees with the identity, and the slot holds exactly the
      current identity. */
  predicate Consistent(s: Session) {
    && (s.isAuthenticated <==> s.user.Some?)
    && s.stored == (if s.user.Some? then Present(s.user.value) else Absent)
  }

  lemma SeedWellFormed()
    ensures DistinctEmails(Seed) && SequentialIds(Seed)
  {
    assert DecimalString(1) == "1";
    assert DecimalString(2) == "2";
  }

  lemma RegisterKeepsEmailsDistinct(s: Session, name: string, email: string, password: string)
    requires DistinctEmails(s.creds)
    ensures DistinctEmails(RegisterStep(s, name, email, password).next.creds)
  {
    var r := RegisterStep(s, name, email, password);
    if r.outcome.Resolved? {
      var c := r.next.creds;
      forall i, j | 0 <= i < j < |c| ensures c[i].email != c[j].email {
        if j < |s.creds| {
          assert c[i] == s.creds[i] && c[j] == s.creds[j];
        } else {
          assert c[i] == s.creds[i];
        }
      }
    }
  }

  lemma RegisterKeepsSequentialIds(s: Session, name: string, email: string, password: string)
    requires SequentialIds(s.creds)
    ensures SequentialIds(RegisterStep(s, name, email, password).next.creds)
  {
    var r := RegisterStep(s, name, email, password);
    if r.outcome.Resolved? {
      var c := r.next.creds;
      forall k | 0 <= k < |c| ensures c[k].id == DecimalString(k + 1) {
        if k < |s.creds| {
          assert c[k] == s.creds[k];
        }
      }
    }
  }

  /** Sequential ids are pairwise distinct. */
  lemma SequentialIdsAreDistinct(creds: seq<Credential>)
    requires SequentialIds(creds)
    ensures forall i, j | 0 <= i < j < |creds| :: creds[i].id != creds[j].id
  {
    forall i, j | 0 <= i < j < |creds| ensures creds[i].id != creds[j].id {
      DecimalStringInjective(i + 1, j + 1);
    }
  }

  /** After a successful `register(name, email, password)`,
      `login(email, password)` succeeds with the new identity. */
  lemma RegisterThenLogin(s: Session, name: string, email: string, password: string)
    requires RegisterStep(s, name, email, password).outcome.Resolved?
    ensures LoginStep(RegisterStep(s, name, email, password).next, email, password).outcome.Resolved?
    ensures LoginStep(RegisterStep(s, name, email, password).next, email, password).next.user
         == Some(User(DecimalString(|s.creds| + 1), name, email, None))
  {
    var t := RegisterStep(s, name, email, password).next;
    var n := |s.creds|;
    assert Matches(t.creds[n], email, password);
    assert forall j | 0 <= j < n :: t.creds[j] == s.creds[j];
    var l := LoginStep(t, email, password);
    var k :| 0 <= k < |t.creds| && Matches(t.creds[k], email, password)
      && l.next == Session(t.creds, Some(Strip(t.creds[k])), true, Present(Strip(t.creds[k])));
    assert k == n;
  }

  lemma LogoutIdempotent(s: Session)
    ensures LogoutStep(LogoutStep(s)) == LogoutStep(s)
  {
  }

  /** Login, register and logout keep the session consistent. */
  lemma StepsKeepConsistent(s: Session, name: string, email: string, password: string)
    requires Consistent(s)
    ensures Consistent(LoginStep(s, email, password).next)
    ensures Consistent(RegisterStep(s, name, email, password).next)
    ensures Consistent(LogoutStep(s))
  {
  }

  /** Whatever the slot holds at start-up, the restore leaves a consistent session. */
  lemma RestoreMakesConsistent(slot: Stored)
    ensures Consistent(RestoreStep(Initial(slot)))
  {
  }

  /** Reloading the page (fresh state, same slot, then restore) gives back
      the identity that was persisted. The credential list returns to the seed. */
  lemma ReloadRestoresIdentity(s: Session)
    requires Consistent(s)
    ensures RestoreStep(Initial(s.stored)).user == s.user
    ensures RestoreStep(Initial(s.stored)).isAuthenticated == s.isAuthenticated
    ensures RestoreStep(Initial(s.stored)).creds == Seed
  {
  }

  /** Reloading after a logout gives an unauthenticated session with an
      empty slot. */
  lemma LogoutThenReload(s: Session)
    ensures RestoreStep(Initial(LogoutStep(s).stored)).user == None
    ensures !RestoreStep(Initial(LogoutStep(s).stored)).isAuthenticated
    ensures RestoreStep(Initial(LogoutStep(s).stored)).stored == Absent
  {
    assert Consistent(LogoutStep(s));
    ReloadRestoresIdentity(LogoutStep(s));
  }

  /** The seeded accounts are still the first two, and emails still
      distinct: true at start-up and kept by every step. */
  predicate SeedIntact(s: Session) {
    |s.creds| >= 2 && s.creds[..2] == Seed && DistinctEmails(s.creds)
  }

  lemma SeedIntactInitially(slot: Stored)
    ensures SeedIntact(Initial(slot))
  {
    SeedWellFormed();
  }

  lemma StepsKeepSeedIntact(s: Session, name: string, email: string, password: string)
    requires SeedIntact(s)
    ensures SeedIntact(RegisterStep(s, name, email, password).next)
    ensures SeedIntact(LoginStep(s, email, password).next)
    ensures SeedIntact(LogoutStep(s))
    ensures SeedIntact(RestoreStep(s))
  {
    RegisterKeepsEmailsDistinct(s, name, email, password);
    var c := RegisterStep(s, name, email, password).next.creds;
    assert c[..2] == c[..|s.creds|][..2];
  }

  /** Each seeded account can log in, and the identity carries no password. */
  lemma SeedLogins(slot: Stored)
    ensures LoginStep(Initial(slot), "admin@example.com", "password123").next.user
         == Some(User("1", "Admin User", "admin@example.com", Some(true)))
    ensures LoginStep(Initial(slot), "test@example.com", "password123").next.user
         == Some(User("2", "Test User", "test@example.com", None))
  {
    assert Matches(Seed[0], "admin@example.com", "password123");
    assert Matches(Seed[1], "test@example.com", "password123");
  }

  /** A wrong password for a seeded email is rejected, in any session whose
      seed is intact (so after any number of registers too). */
  lemma SeedWrongPassword(s: Session, password: string)
    requires SeedIntact(s) && password != "password123"
    ensures LoginStep(s, "admin@example.com", password).outcome == Rejected(InvalidCredentials)
    ensures LoginStep(s, "test@example.com", password).outcome == Rejected(InvalidCredentials)
  {
    forall k | 0 <= k < |s.creds|
      ensures !Matches(s.creds[k], "admin@example.com", password)
      ensures !Matches(s.creds[k], "test@example.com", password)
    {
      assert s.creds[0] == Seed[0] && s.creds[1] == Seed[1];
      if k >= 2 {
        assert s.creds[0].email != s.creds[k].email && s.creds[1].email != s.creds[k].email;
      }
    }
  }

  /** The store as the provider holds it. */
  class AuthStore {
    var creds: seq<Credential>
    var user: Option<User>
    var isAuthenticated: bool
    var stored: Stored

    function State(): Session
      reads this
    {
      Session(creds, user, isAuthenticated, stored)
    }

    /** A fresh provider over the seed, with `slot` as the storage content. */
    constructor (slot: Stored)
      ensures State() == Initial(slot)
    {
      creds := Seed;
      user := None;
      isAuthenticated := false;
      stored := slot;
    }

    method Restore()
      modifies this
      ensures State() == RestoreStep(old(State()))
    {
      match stored
      case Present(u) =>
        user := Some(u);
        isAuthenticated := true;
      case Malformed =>
        stored := Absent;
      case Absent =>
    }

    method Login(email: string, password: string) returns (r: Outcome)
      modifies this
      ensures State() == LoginStep(old(State()), email, password).next
      ensures r == LoginStep(old(State()), email, password).outcome
    {
      var found := FindLogin(creds, email, password);
      if found.Some? {
        var u := Strip(creds[found.value]);
        user := Some(u);
        isAuthenticated := true;
        stored := Present(u);
        r := Resolved;
      } else {
        r := Rejected(InvalidCredentials);
      }
    }

    method Register(name: string, email: string, password: string) returns (r: Outcome)
      modifies this
      ensures State() == RegisterStep(old(State()), name, email, password).next
      ensures r == RegisterStep(old(State()), name, email, password).outcome
    {
      var existing := FindEmail(creds, email);
      if existing.Some? {
        r := Rejected(EmailInUse);
        return;
      }
      var c := NewCredential(|creds|, name, email, password);
      creds := creds + [c];
      var u := Strip(c);
      user := Some(u);
      isAuthenticated := true;
      stored := Present(u);
      r := Resolved;
    }

    method Logout()
      modifies this
      ensures State() == LogoutStep(old(State()))
    {
      user := None;
      isAuthenticated := false;
      stored := Absent;
    }
  }
}
