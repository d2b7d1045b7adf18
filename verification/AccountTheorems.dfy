/** Every account keeps a way to sign in, and nobody else's actions change an account's credentials. */
module AccountTheorems {
  import opened Accounts

  datatype Op =
    | Signup(email: string, hash: BcryptHash)
    | PendingLapses(email: string)
    | Verify(email: string, codeValid: bool, newUserId: string)
    | SocialSignIn(profile: Profile, newUserId: string, newIdentityId: string)
    | Link(userId: string, profile: Profile, newIdentityId: string)
    | Unlink(userId: string, provider: Provider)
    | Change(userId: string, passwordValid: bool, same: bool, hash: BcryptHash)
    | Reset(email: string, codeValid: bool, same: bool, hash: BcryptHash)

  /** New identifiers are drawn unused. */
  predicate Unused(d: Directory, op: Op) {
    && ((op.Verify? || op.SocialSignIn?) ==> op.newUserId !in d.users)
    && ((op.SocialSignIn? || op.Link?) ==> op.newIdentityId !in d.identities)
  }

  function Step(d: Directory, op: Op): (Directory, Outcome)
    requires UniqueEmails(d) && UniqueSubjects(d)
  {
    if !Unused(d, op) then (d, Rejected(Conflict))
    else
      match op
      case Signup(email, hash) => LocalSignup(d, email, hash)
      case PendingLapses(email) => (d.(pending := d.pending - {Lower(email)}), Accepted)
      case Verify(email, codeValid, newUserId) => VerifyEmail(d, email, codeValid, newUserId)
      case SocialSignIn(p, u, i) => OAuthAuthenticate(d, p, u, i)
      case Link(u, p, i) => LinkOAuthProvider(d, u, p, i)
      case Unlink(u, provider) => UnlinkOAuthProvider(d, u, provider)
      case Change(u, passwordValid, same, hash) => ChangePassword(d, u, passwordValid, same, hash)
      case Reset(email, codeValid, same, hash) => ResetPassword(d, email, codeValid, same, hash)
  }

  // ----- the constraints are kept -----

  lemma NewUserKeeps(d: Directory, id: string, u: User)
    requires UniqueEmails(d) && id !in d.users && forall o :: o in d.users ==> d.users[o].email != u.email
    ensures UniqueEmails(d.(users := d.users[id := u]))
  {
  }

  lemma SameEmailKeeps(d: Directory, id: string, u: User)
    requires UniqueEmails(d) && id in d.users && u.email == d.users[id].email
    ensures UniqueEmails(d.(users := d.users[id := u]))
  {
  }

  lemma NewIdentityKeeps(d: Directory, id: string, v: Identity)
    requires UniqueSubjects(d) && UniqueProviders(d) && id !in d.identities
    requires forall i :: i in d.identities ==>
               d.identities[i].provider != v.provider || d.identities[i].providerUserId != v.providerUserId
    requires !HasProvider(d, v.userId, v.provider)
    ensures UniqueSubjects(d.(identities := d.identities[id := v]))
    ensures UniqueProviders(d.(identities := d.identities[id := v]))
  {
  }

  lemma {:induction false} ConsistentKept(d: Directory, op: Op)
    requires Consistent(d)
    ensures Consistent(Step(d, op).0)
  {
    hide UserByEmail, IdentityBySubject, Lower, UniqueEmails, UniqueSubjects, UniqueProviders, HasProvider;
    if Unused(d, op) {
      match op
      case Verify(email, codeValid, id) =>
        if codeValid && Lower(email) in d.pending {
          var hash := d.pending[Lower(email)];
          ConsistentIgnoresPending(d, Step(d, op).0);
          match UserByEmail(d, email)
          case None => NewUserKeeps(d, id, User(Lower(email), Some(hash), true, 0));
          case Some(u) => SameEmailKeeps(d, u, d.users[u].(passwordHash := Some(hash), emailVerified := true));
        }
      case SocialSignIn(p, id, i) =>
        if IdentityBySubject(d, p.provider, p.providerUserId).None? && UserByEmail(d, p.email).None? {
          NewUserKeeps(d, id, User(Lower(p.email), None, p.emailVerified, 0));
          NobodysIdentities(d, id, p.provider);
          NewIdentityKeeps(d, i, Identity(id, p.provider, p.providerUserId));
          ConsistentIgnoresPending(d, Step(d, op).0);
        }
      case Link(u, p, i) =>
        if u in d.users && IdentityBySubject(d, p.provider, p.providerUserId).None? && !HasProvider(d, u, p.provider) {
          NewIdentityKeeps(d, i, Identity(u, p.provider, p.providerUserId));
          ConsistentIgnoresPending(d, Step(d, op).0);
        }
      case Unlink(u, provider) => FewerIdentitiesKeep(d, WithoutProvider(d.identities, u, provider));
      case Change(u, _, _, hash) => if u in d.users { PasswordKeeps(d, u, hash); }
      case Reset(email, _, _, hash) =>
        if UserByEmail(d, email).Some? { PasswordKeeps(d, UserByEmail(d, email).value, hash); }
      case Signup(_, _) => ConsistentIgnoresPending(d, Step(d, op).0);
      case PendingLapses(_) => ConsistentIgnoresPending(d, Step(d, op).0);
    }
  }

  lemma PasswordKeeps(d: Directory, u: string, hash: BcryptHash)
    requires Consistent(d) && u in d.users
    ensures Consistent(SetPassword(d, u, hash))
  {
  }

  lemma FewerIdentitiesKeep(d: Directory, fewer: map<string, Identity>)
    requires Consistent(d) && forall i :: i in fewer ==> i in d.identities && fewer[i] == d.identities[i]
    ensures Consistent(d.(identities := fewer))
  {
  }

  /** The constraints look at users' addresses and at identities only. */
  lemma ConsistentIgnoresPending(d: Directory, d': Directory)
    ensures UniqueEmails(d') <==> UniqueEmails(d.(users := d'.users))
    ensures UniqueSubjects(d') <==> UniqueSubjects(d.(identities := d'.identities))
    ensures UniqueProviders(d') <==> UniqueProviders(d.(identities := d'.identities))
  {
  }

  lemma NobodysIdentities(d: Directory, id: string, provider: Provider)
    requires OwnersExist(d) && id !in d.users
    ensures !HasProvider(d, id, provider)
  {
  }

  // ----- a way to sign in -----

  ghost predicate CanSignIn(d: Directory, userId: string)
    requires userId in d.users
  {
    IsLocalPasswordAccount(d.users[userId]) || IdentitiesOf(d, userId) != {}
  }

  ghost predicate EveryoneCanSignIn(d: Directory) {
    forall u :: u in d.users ==> CanSignIn(d, u)
  }

  /** Some identity of the account is with another provider. */
  ghost predicate HasAnother(d: Directory, userId: string, provider: Provider) {
    exists i :: i in IdentitiesOf(d, userId) && d.identities[i].provider != provider
  }

  /** With no constraint assumed: an unlink that goes through leaves the account a way to sign in exactly
      when it has a password or an identity with another provider. */
  lemma UnlinkKeepsSignInExactly(d: Directory, userId: string, provider: Provider)
    requires userId in d.users && UnlinkOAuthProvider(d, userId, provider).1.Done? && HasProvider(d, userId, provider)
    ensures var d' := UnlinkOAuthProvider(d, userId, provider).0;
            userId in d'.users &&
            (CanSignIn(d', userId) <==> IsLocalPasswordAccount(d.users[userId]) || HasAnother(d, userId, provider))
  {
    var d' := UnlinkOAuthProvider(d, userId, provider).0;
    if IdentitiesOf(d', userId) != {} {
      var i :| i in IdentitiesOf(d', userId);
      assert i in IdentitiesOf(d, userId);
    }
    if HasAnother(d, userId, provider) {
      var i :| i in IdentitiesOf(d, userId) && d.identities[i].provider != provider;
      assert i in IdentitiesOf(d', userId);
    }
  }

  /** With one identity per provider, having two means having another. */
  lemma TwoMeansAnother(d: Directory, userId: string, provider: Provider)
    requires UniqueProviders(d) && |IdentitiesOf(d, userId)| > 1
    ensures HasAnother(d, userId, provider)
  {
    var i :| i in IdentitiesOf(d, userId);
    assert |IdentitiesOf(d, userId) - {i}| > 0;
    var j :| j in IdentitiesOf(d, userId) - {i};
    assert d.identities[i].provider != d.identities[j].provider;
    assert d.identities[i].provider != provider || d.identities[j].provider != provider;
  }

  lemma UnlinkKeepsSignIn(d: Directory, userId: string, provider: Provider)
    requires Consistent(d) && EveryoneCanSignIn(d)
    ensures EveryoneCanSignIn(UnlinkOAuthProvider(d, userId, provider).0)
  {
    var (d', outcome) := UnlinkOAuthProvider(d, userId, provider);
    forall u | u in d'.users ensures CanSignIn(d', u) {
      assert CanSignIn(d, u);
      if u != userId {
        assert IdentitiesOf(d', u) == IdentitiesOf(d, u);
      } else if outcome.Done? && HasProvider(d, userId, provider) {
        UnlinkKeepsSignInExactly(d, userId, provider);
        if !IsLocalPasswordAccount(d.users[userId]) { TwoMeansAnother(d, userId, provider); }
      }
    }
  }

  /** An account keeps its way to sign in if it keeps its identities and does not lose a password. */
  lemma StillCanSignIn(d: Directory, d': Directory, u: string)
    requires u in d.users && u in d'.users && CanSignIn(d, u)
    requires IdentitiesOf(d, u) <= IdentitiesOf(d', u)
    requires IsLocalPasswordAccount(d.users[u]) ==> IsLocalPasswordAccount(d'.users[u])
    ensures CanSignIn(d', u)
  {
  }

  /** Apart from unlinking, no operation takes away an identity or a password, and a new account has one
      or the other. */
  lemma OnlyUnlinkTakes(d: Directory, op: Op, u: string)
    requires Consistent(d) && !op.Unlink? && u in Step(d, op).0.users
    ensures var d' := Step(d, op).0;
            if u in d.users then
              IdentitiesOf(d, u) <= IdentitiesOf(d', u) &&
              (IsLocalPasswordAccount(d.users[u]) ==> IsLocalPasswordAccount(d'.users[u]))
            else CanSignIn(d', u)
  {
    hide UserByEmail, IdentityBySubject, Lower, UniqueEmails, UniqueSubjects, UniqueProviders, HasProvider,
         IsBcryptHash;
    var d' := Step(d, op).0;
    if op.SocialSignIn? && u == op.newUserId && u !in d.users {
      assert op.newIdentityId in IdentitiesOf(d', u);
    }
  }

  lemma StepKeepsSignIn(d: Directory, op: Op)
    requires Consistent(d) && EveryoneCanSignIn(d)
    ensures EveryoneCanSignIn(Step(d, op).0)
  {
    hide CanSignIn, IdentitiesOf, IsLocalPasswordAccount;
    if op.Unlink? {
      UnlinkKeepsSignIn(d, op.userId, op.provider);
    } else {
      hide Step;
      var d' := Step(d, op).0;
      forall u | u in d'.users ensures CanSignIn(d', u) {
        OnlyUnlinkTakes(d, op, u);
        if u in d.users { StillCanSignIn(d, d', u); }
      }
    }
  }

  function Run(d: Directory, ops: seq<Op>): (r: Directory)
    requires Consistent(d)
    ensures Consistent(r)
  {
    if ops == [] then d
    else
      var before := Run(d, ops[..|ops| - 1]);
      ConsistentKept(before, ops[|ops| - 1]);
      Step(before, ops[|ops| - 1]).0
  }

  /** Over all runs of sign-up, social sign-in, link, unlink and password change, every account has a
      password or an identity. */
  lemma {:induction false} EveryAccountKeepsSignIn(d: Directory, ops: seq<Op>)
    requires Consistent(d) && EveryoneCanSignIn(d)
    ensures EveryoneCanSignIn(Run(d, ops))
  {
    if ops != [] {
      hide EveryoneCanSignIn, Consistent, Step;
      EveryAccountKeepsSignIn(d, ops[..|ops| - 1]);
      StepKeepsSignIn(Run(d, ops[..|ops| - 1]), ops[|ops| - 1]);
    }
  }

  /** The constraint is needed: with two identities of one provider, an account can unlink both at once. */
  lemma TwoOfOneProviderStrand()
    ensures exists d: Directory, u: string, p: Provider ::
              EveryoneCanSignIn(d) && UniqueEmails(d) && UniqueSubjects(d) && OwnersExist(d) &&
              !EveryoneCanSignIn(UnlinkOAuthProvider(d, u, p).0)
  {
    var d := Directory(map["u" := User("a", None, true, 0)],
                       map["i" := Identity("u", Google, "s"), "j" := Identity("u", Google, "t")], map[]);
    assert IdentitiesOf(d, "u") == {"i", "j"};
    assert "i" in d.identities && HasProvider(d, "u", Google);
    var d' := UnlinkOAuthProvider(d, "u", Google).0;
    assert IdentitiesOf(d', "u") == {};
    assert !CanSignIn(d', "u");
    assert EveryoneCanSignIn(d);
  }

  // ----- credentials change only by the account's own actions -----

  /** The account's own session acts, with the current password where one is asked for, or whoever holds
      the code sent to its address. */
  predicate ActsFor(d: Directory, op: Op, u: string)
    requires u in d.users
  {
    match op
    case Link(id, _, _) => id == u
    case Unlink(id, _) => id == u
    case Change(id, passwordValid, _, _) => id == u && passwordValid
    case Reset(email, codeValid, _, _) => d.users[u].email == Lower(email) && codeValid
    case _ => false
  }

  /** A verified account's password and identities are changed by nobody's sign-up, verification,
      social sign-in, link, unlink or password change but its own. */
  lemma OthersLeaveCredentials(d: Directory, op: Op, u: string)
    requires Consistent(d) && u in d.users && d.users[u].emailVerified && !ActsFor(d, op, u)
    ensures var d' := Step(d, op).0;
            u in d'.users && d'.users[u] == d.users[u] &&
            (forall i :: i in d.identities && d.identities[i].userId == u ==> i in d'.identities) &&
            (forall i :: i in d'.identities && d'.identities[i].userId == u ==>
               i in d.identities && d'.identities[i] == d.identities[i])
  {
    hide UserByEmail, IdentityBySubject, Lower, UniqueEmails, UniqueSubjects, UniqueProviders, HasProvider,
         IsLocalPasswordAccount, IdentitiesOf;
  }

  /** After a link, signing in with the profile leads to the account; after unlinking it again, the
      account's identities are as before. */
  lemma LinkThenUnlink(d: Directory, u: string, p: Profile, newIdentityId: string)
    requires Consistent(d) && u in d.users && p.emailVerified && newIdentityId !in d.identities
    requires IdentityBySubject(d, p.provider, p.providerUserId).None? && !HasProvider(d, u, p.provider)
    requires CanSignIn(d, u)
    ensures var d1 := LinkOAuthProvider(d, u, p, newIdentityId).0;
            && Consistent(d1)
            && (forall a, b :: OAuthAuthenticate(d1, p, a, b) == (d1, Done(u)))
            && UnlinkOAuthProvider(d1, u, p.provider) == (d, Done(u))
  {
    ConsistentKept(d, Link(u, p, newIdentityId));
    var d1 := LinkOAuthProvider(d, u, p, newIdentityId).0;
    LinkedThenSignsIn(d, u, p, newIdentityId);
    hide IdentityBySubject, Consistent, OAuthAuthenticate;
    assert newIdentityId in d1.identities && HasProvider(d1, u, p.provider);
    assert IdentitiesOf(d1, u) == IdentitiesOf(d, u) + {newIdentityId};
    assert WithoutProvider(d1.identities, u, p.provider) == d.identities;
  }

  lemma LinkedThenSignsIn(d: Directory, u: string, p: Profile, newIdentityId: string)
    requires Consistent(d) && u in d.users && p.emailVerified && newIdentityId !in d.identities
    requires IdentityBySubject(d, p.provider, p.providerUserId).None? && !HasProvider(d, u, p.provider)
    ensures var d1 := LinkOAuthProvider(d, u, p, newIdentityId).0;
            Consistent(d1) && forall a, b :: OAuthAuthenticate(d1, p, a, b) == (d1, Done(u))
  {
    ConsistentKept(d, Link(u, p, newIdentityId));
    var d1 := LinkOAuthProvider(d, u, p, newIdentityId).0;
    var i := IdentityBySubject(d1, p.provider, p.providerUserId);
    assert newIdentityId in d1.identities;
    assert i == Some(newIdentityId);
  }
}
