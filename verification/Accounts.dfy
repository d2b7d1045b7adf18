/** Accounts, their social identities and pending sign-ups: what each sign-in operation does to them.
    Each operation is taken as one step. */
module Accounts {

  datatype Option<+T> = None | Some(value: T)

  predicate IsDigit(c: char) {
    '0' <= c <= '9'
  }

  /** The text starts like a bcrypt hash. */
  predicate IsBcryptHash(s: string) {
    && |s| >= 7
    && s[0] == '$' && s[1] == '2' && s[2] in "aby" && s[3] == '$'
    && IsDigit(s[4]) && IsDigit(s[5]) && s[6] == '$'
  }

  const EXAMPLE_HASH := "$2b$10$"

  type BcryptHash = s: string | IsBcryptHash(s) witness EXAMPLE_HASH

  function LowerChar(c: char): char {
    if 'A' <= c <= 'Z' then c - 'A' + 'a' else c
  }

  function Lower(s: string): string {
    seq(|s|, i requires 0 <= i < |s| => LowerChar(s[i]))
  }

  datatype Provider = Google | Microsoft | Apple

  datatype User = User(email: string, passwordHash: Option<string>, emailVerified: bool, tokenVersion: nat)

  datatype Identity = Identity(userId: string, provider: Provider, providerUserId: string)

  datatype Profile = Profile(provider: Provider, providerUserId: string, email: string, emailVerified: bool)

  /** `pending` holds the password hashes of sign-ups that wait for their code. */
  datatype Directory = Directory(
    users: map<string, User>, identities: map<string, Identity>, pending: map<string, BcryptHash>)

  datatype Error = BadRequest | Conflict | Unauthorized | UnverifiedProfile

  datatype Outcome = Done(userId: string) | Accepted | Rejected(error: Error)

  // ----- reading -----

  predicate IsLocalPasswordAccount(u: User) {
    u.passwordHash.Some? && IsBcryptHash(u.passwordHash.value)
  }

  function IdentitiesOf(d: Directory, userId: string): set<string> {
    set i | i in d.identities && d.identities[i].userId == userId
  }

  predicate HasProvider(d: Directory, userId: string, provider: Provider) {
    exists i :: i in d.identities && d.identities[i].userId == userId && d.identities[i].provider == provider
  }

  function IdsWithEmail(d: Directory, email: string): set<string> {
    set u | u in d.users && d.users[u].email == Lower(email)
  }

  function IdsWithIdentity(d: Directory, provider: Provider, providerUserId: string): set<string> {
    set i |
      i in d.identities && d.identities[i].provider == provider && d.identities[i].providerUserId == providerUserId
  }

  // ----- the database's unique constraints -----

  ghost predicate UniqueEmails(d: Directory) {
    forall a, b :: a in d.users && b in d.users && d.users[a].email == d.users[b].email ==> a == b
  }

  /** No social account belongs to two identities. */
  ghost predicate UniqueSubjects(d: Directory) {
    forall i, j ::
      i in d.identities && j in d.identities && d.identities[i].provider == d.identities[j].provider &&
      d.identities[i].providerUserId == d.identities[j].providerUserId
      ==> i == j
  }

  /** No account has two identities of one provider. */
  ghost predicate UniqueProviders(d: Directory) {
    forall i, j ::
      i in d.identities && j in d.identities && d.identities[i].userId == d.identities[j].userId &&
      d.identities[i].provider == d.identities[j].provider
      ==> i == j
  }

  ghost predicate OwnersExist(d: Directory) {
    forall i :: i in d.identities ==> d.identities[i].userId in d.users
  }

  ghost predicate Consistent(d: Directory) {
    UniqueEmails(d) && UniqueSubjects(d) && UniqueProviders(d) && OwnersExist(d)
  }

  // ----- operations; `fresh` identifiers are drawn unused -----

  function LocalSignup(d: Directory, email: string, hash: BcryptHash): (Directory, Outcome) {
    if exists u :: u in IdsWithEmail(d, email) && d.users[u].emailVerified then (d, Accepted)
    else (d.(pending := d.pending[Lower(email) := hash]), Accepted)
  }

  /** The unique element, when there is one. */
  function TheOnly(s: set<string>): (r: Option<string>)
    requires forall a, b :: a in s && b in s ==> a == b
    ensures r.Some? <==> s != {}
    ensures r.Some? ==> r.value in s
  {
    if s == {} then None else
      var x :| x in s;
      Some(x)
  }

  function UserByEmail(d: Directory, email: string): (r: Option<string>)
    requires UniqueEmails(d)
    ensures r.Some? ==> r.value in d.users && d.users[r.value].email == Lower(email)
    ensures r.None? ==> forall u :: u in d.users ==> d.users[u].email != Lower(email)
  {
    var r := TheOnly(IdsWithEmail(d, email));
    assert forall u :: u in d.users && u !in IdsWithEmail(d, email) ==> d.users[u].email != Lower(email);
    r
  }

  function IdentityBySubject(d: Directory, provider: Provider, providerUserId: string): (r: Option<string>)
    requires UniqueSubjects(d)
    ensures r.Some? ==> r.value in d.identities && d.identities[r.value].provider == provider &&
                        d.identities[r.value].providerUserId == providerUserId
    ensures r.None? ==> forall i :: i in d.identities ==>
                        d.identities[i].provider != provider || d.identities[i].providerUserId != providerUserId
  {
    var r := TheOnly(IdsWithIdentity(d, provider, providerUserId));
    assert forall i :: i in d.identities && i !in IdsWithIdentity(d, provider, providerUserId) ==>
              d.identities[i].provider != provider || d.identities[i].providerUserId != providerUserId;
    r
  }

  function VerifyEmail(d: Directory, email: string, codeValid: bool, newId: string): (Directory, Outcome)
    requires UniqueEmails(d)
  {
    if !codeValid || Lower(email) !in d.pending then (d, Rejected(BadRequest))
    else
      var hash := d.pending[Lower(email)];
      var d' := d.(pending := d.pending - {Lower(email)});
      match UserByEmail(d, email)
      case None => (d'.(users := d.users[newId := User(Lower(email), Some(hash), true, 0)]), Done(newId))
      case Some(u) =>
        if d.users[u].emailVerified then (d', Rejected(BadRequest))
        else
          var activated := d.users[u].(passwordHash := Some(hash), emailVerified := true);
          (d'.(users := d.users[u := activated]), Done(u))
  }

  function SetPassword(d: Directory, u: string, hash: BcryptHash): Directory
    requires u in d.users
  {
    var user := d.users[u];
    d.(users := d.users[u := user.(passwordHash := Some(hash), tokenVersion := user.tokenVersion + 1)])
  }

  predicate MayManagePassword(d: Directory, u: string)
    requires u in d.users
  {
    IsLocalPasswordAccount(d.users[u]) && d.users[u].emailVerified
  }

  /** `same`: the new password is the current one. */
  function ResetPassword(d: Directory, email: string, codeValid: bool, same: bool, hash: BcryptHash):
    (Directory, Outcome)
    requires UniqueEmails(d)
  {
    if !codeValid then (d, Rejected(BadRequest))
    else
      match UserByEmail(d, email)
      case None => (d, Rejected(BadRequest))
      case Some(u) =>
        if !MayManagePassword(d, u) || same then (d, Rejected(Conflict))
        else (SetPassword(d, u, hash), Done(u))
  }

  function ChangePassword(d: Directory, userId: string, passwordValid: bool, same: bool, hash: BcryptHash):
    (Directory, Outcome)
  {
    if userId !in d.users then (d, Rejected(BadRequest))
    else if !MayManagePassword(d, userId) then (d, Rejected(Conflict))
    else if !passwordValid then (d, Rejected(Unauthorized))
    else if same then (d, Rejected(Conflict))
    else (SetPassword(d, userId, hash), Done(userId))
  }

  function OAuthAuthenticate(d: Directory, p: Profile, newUserId: string, newIdentityId: string): (Directory, Outcome)
    requires UniqueSubjects(d) && UniqueEmails(d)
  {
    if !p.emailVerified then (d, Rejected(UnverifiedProfile))
    else
      match IdentityBySubject(d, p.provider, p.providerUserId)
      case Some(i) => (d, Done(d.identities[i].userId))
      case None =>
        if UserByEmail(d, p.email).Some? then (d, Rejected(Conflict))
        else
          (d.(users := d.users[newUserId := User(Lower(p.email), None, p.emailVerified, 0)],
              identities := d.identities[newIdentityId := Identity(newUserId, p.provider, p.providerUserId)]),
           Done(newUserId))
  }

  function LinkOAuthProvider(d: Directory, userId: string, p: Profile, newIdentityId: string): (Directory, Outcome)
    requires UniqueSubjects(d)
  {
    if userId !in d.users then (d, Rejected(BadRequest))
    else if !p.emailVerified then (d, Rejected(UnverifiedProfile))
    else
      var existing := IdentityBySubject(d, p.provider, p.providerUserId);
      if existing.Some? && d.identities[existing.value].userId != userId then (d, Rejected(Conflict))
      else if existing.Some? || HasProvider(d, userId, p.provider) then (d, Done(userId))
      else
        (d.(identities := d.identities[newIdentityId := Identity(userId, p.provider, p.providerUserId)]), Done(userId))
  }

  /** Deletes every identity of the account with the provider. */
  function WithoutProvider(identities: map<string, Identity>, userId: string, provider: Provider):
    map<string, Identity>
  {
    map i | i in identities && !(identities[i].userId == userId && identities[i].provider == provider) :: identities[i]
  }

  function UnlinkOAuthProvider(d: Directory, userId: string, provider: Provider): (Directory, Outcome) {
    if userId !in d.users then (d, Rejected(BadRequest))
    else if !HasProvider(d, userId, provider) then (d, Done(userId))
    else if !IsLocalPasswordAccount(d.users[userId]) && |IdentitiesOf(d, userId)| <= 1 then (d, Rejected(Conflict))
    else (d.(identities := WithoutProvider(d.identities, userId, provider)), Done(userId))
  }
}
