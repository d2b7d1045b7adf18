/** The sign-in operations as the service and its repository carry them out on the stored tables. */
module AccountService {
  import opened A = Accounts

  class AuthService {
    var users: map<string, User>
    var identities: map<string, Identity>
    var pendingSignups: map<string, BcryptHash>

    constructor ()
      ensures Contents() == Directory(map[], map[], map[])
    {
      users, identities, pendingSignups := map[], map[], map[];
    }

    function Contents(): Directory
      reads this
    {
      Directory(users, identities, pendingSignups)
    }

    method FindUserByEmail(email: string) returns (found: Option<string>)
      requires UniqueEmails(Contents())
      ensures found == UserByEmail(Contents(), email)
    {
      found := None;
      var rest := users.Keys;
      while rest != {} && found.None?
        invariant rest <= users.Keys
        invariant found.None? ==> forall u :: u in users && u !in rest ==> users[u].email != Lower(email)
        invariant found.Some? ==> found.value in users && users[found.value].email == Lower(email)
        decreases |rest|
      {
        var u :| u in rest;
        if users[u].email == Lower(email) {
          found := Some(u);
        }
        rest := rest - {u};
      }
    }

    method FindOAuthIdentity(provider: Provider, providerUserId: string) returns (found: Option<string>)
      requires UniqueSubjects(Contents())
      ensures found == IdentityBySubject(Contents(), provider, providerUserId)
    {
      found := None;
      var rest := identities.Keys;
      while rest != {} && found.None?
        invariant rest <= identities.Keys
        invariant found.None? ==> forall i :: i in identities && i !in rest ==>
                    identities[i].provider != provider || identities[i].providerUserId != providerUserId
        invariant found.Some? ==>
                    && found.value in identities
                    && identities[found.value].provider == provider
                    && identities[found.value].providerUserId == providerUserId
        decreases |rest|
      {
        var i :| i in rest;
        if identities[i].provider == provider && identities[i].providerUserId == providerUserId {
          found := Some(i);
        }
        rest := rest - {i};
      }
    }

    method LocalSignup(email: string, hash: BcryptHash) returns (outcome: Outcome)
      requires UniqueEmails(Contents())
      modifies this`pendingSignups
      ensures (Contents(), outcome) == A.LocalSignup(old(Contents()), email, hash)
    {
      hide Lower;
      var existing := FindUserByEmail(email);
      if existing.Some? && users[existing.value].emailVerified {
        assert existing.value in IdsWithEmail(Contents(), email);
        return Accepted;
      }
      pendingSignups := pendingSignups[Lower(email) := hash];
      outcome := Accepted;
    }

    method VerifyEmail(email: string, codeValid: bool, newId: string) returns (outcome: Outcome)
      requires UniqueEmails(Contents())
      modifies this`users, this`pendingSignups
      ensures (Contents(), outcome) == A.VerifyEmail(old(Contents()), email, codeValid, newId)
    {
      hide Lower, UserByEmail;
      if !codeValid {
        return Rejected(BadRequest);
      }
      if Lower(email) !in pendingSignups {
        return Rejected(BadRequest);
      }
      var hash := pendingSignups[Lower(email)];
      var existing := FindUserByEmail(email);
      if existing.None? {
        users := users[newId := User(Lower(email), Some(hash), false, 0)];
        users := users[newId := users[newId].(emailVerified := true)];
        assert users == old(users)[newId := User(Lower(email), Some(hash), true, 0)];
        outcome := Done(newId);
      } else if users[existing.value].emailVerified {
        outcome := Rejected(BadRequest);
      } else {
        users := users[existing.value := users[existing.value].(passwordHash := Some(hash), emailVerified := true)];
        outcome := Done(existing.value);
      }
      pendingSignups := pendingSignups - {Lower(email)};
    }

    method UpdatePasswordHash(userId: string, hash: BcryptHash)
      requires userId in users
      modifies this`users
      ensures users == old(users)[userId := old(users)[userId].(passwordHash := Some(hash))]
    {
      users := users[userId := users[userId].(passwordHash := Some(hash))];
    }

    method RotateTokenVersion(userId: string)
      requires userId in users
      modifies this`users
      ensures users == old(users)[userId := old(users)[userId].(tokenVersion := old(users)[userId].tokenVersion + 1)]
    {
      users := users[userId := users[userId].(tokenVersion := users[userId].tokenVersion + 1)];
    }

    method ResetPassword(email: string, codeValid: bool, same: bool, hash: BcryptHash) returns (outcome: Outcome)
      requires UniqueEmails(Contents())
      modifies this`users
      ensures (Contents(), outcome) == A.ResetPassword(old(Contents()), email, codeValid, same, hash)
    {
      hide UserByEmail, MayManagePassword;
      if !codeValid {
        return Rejected(BadRequest);
      }
      var user := FindUserByEmail(email);
      if user.None? {
        return Rejected(BadRequest);
      }
      if !MayManagePassword(Contents(), user.value) {
        return Rejected(Conflict);
      }
      if same {
        return Rejected(Conflict);
      }
      UpdatePasswordHash(user.value, hash);
      RotateTokenVersion(user.value);
      assert Contents() == SetPassword(old(Contents()), user.value, hash);
      outcome := Done(user.value);
    }

    method ChangePassword(userId: string, passwordValid: bool, same: bool, hash: BcryptHash) returns (outcome: Outcome)
      modifies this`users
      ensures (Contents(), outcome) == A.ChangePassword(old(Contents()), userId, passwordValid, same, hash)
    {
      hide MayManagePassword;
      if userId !in users {
        return Rejected(BadRequest);
      }
      if !MayManagePassword(Contents(), userId) {
        return Rejected(Conflict);
      }
      if !passwordValid {
        return Rejected(Unauthorized);
      }
      if same {
        return Rejected(Conflict);
      }
      UpdatePasswordHash(userId, hash);
      RotateTokenVersion(userId);
      assert Contents() == SetPassword(old(Contents()), userId, hash);
      outcome := Done(userId);
    }

    method AuthenticateOAuthProfile(p: Profile, newUserId: string, newIdentityId: string) returns (outcome: Outcome)
      requires UniqueSubjects(Contents()) && UniqueEmails(Contents())
      modifies this`users, this`identities
      ensures (Contents(), outcome) == A.OAuthAuthenticate(old(Contents()), p, newUserId, newIdentityId)
    {
      hide UserByEmail, IdentityBySubject;
      if !p.emailVerified {
        return Rejected(UnverifiedProfile);
      }
      var linked := FindOAuthIdentity(p.provider, p.providerUserId);
      if linked.Some? {
        return Done(identities[linked.value].userId);
      }
      var taken := FindUserByEmail(p.email);
      if taken.Some? {
        return Rejected(Conflict);
      }
      users := users[newUserId := User(Lower(p.email), None, p.emailVerified, 0)];
      identities := identities[newIdentityId := Identity(newUserId, p.provider, p.providerUserId)];
      outcome := Done(newUserId);
    }

    method LinkOAuthProvider(userId: string, p: Profile, newIdentityId: string) returns (outcome: Outcome)
      requires UniqueSubjects(Contents())
      modifies this`identities
      ensures (Contents(), outcome) == A.LinkOAuthProvider(old(Contents()), userId, p, newIdentityId)
    {
      hide IdentityBySubject;
      if userId !in users {
        return Rejected(BadRequest);
      }
      if !p.emailVerified {
        return Rejected(UnverifiedProfile);
      }
      var existing := FindOAuthIdentity(p.provider, p.providerUserId);
      if existing.Some? && identities[existing.value].userId != userId {
        return Rejected(Conflict);
      }
      if existing.Some? || HasProvider(Contents(), userId, p.provider) {
        return Done(userId);
      }
      identities := identities[newIdentityId := Identity(userId, p.provider, p.providerUserId)];
      outcome := Done(userId);
    }

    method UnlinkOAuthProvider(userId: string, provider: Provider) returns (outcome: Outcome)
      modifies this`identities
      ensures (Contents(), outcome) == A.UnlinkOAuthProvider(old(Contents()), userId, provider)
    {
      if userId !in users {
        return Rejected(BadRequest);
      }
      if !HasProvider(Contents(), userId, provider) {
        return Done(userId);
      }
      if !IsLocalPasswordAccount(users[userId]) && |IdentitiesOf(Contents(), userId)| <= 1 {
        return Rejected(Conflict);
      }
      UnlinkOAuthIdentity(userId, provider);
      outcome := Done(userId);
    }

    /** Deletes the matching rows one by one. */
    method UnlinkOAuthIdentity(userId: string, provider: Provider)
      modifies this`identities
      ensures identities == WithoutProvider(old(identities), userId, provider)
    {
      var rest := identities.Keys;
      while rest != {}
        invariant rest <= identities.Keys
        invariant forall i :: i in identities <==>
                    && i in old(identities)
                    && (i in rest || !(old(identities)[i].userId == userId && old(identities)[i].provider == provider))
        invariant forall i :: i in identities ==> identities[i] == old(identities)[i]
        decreases |rest|
      {
        var i :| i in rest;
        if identities[i].userId == userId && identities[i].provider == provider {
          identities := identities - {i};
        }
        rest := rest - {i};
      }
    }
  }
}
