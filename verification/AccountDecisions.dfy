/** What decides each sign-in operation, and what it leaves, in the fields of the tables themselves. */
module AccountDecisions {
  import opened Accounts
  import opened AccountTheorems

  // ----- addresses and hashes -----

  /** Addresses are compared without the case of ASCII letters. */
  lemma LowerMeans(s: string)
    ensures |Lower(s)| == |s|
    ensures forall i :: 0 <= i < |s| ==>
              if 'A' <= s[i] <= 'Z' then Lower(s)[i] as int == s[i] as int + 32 else Lower(s)[i] == s[i]
    ensures Lower(Lower(s)) == Lower(s)
  {
  }

  /** A bcrypt hash begins with a version 2a, 2b or 2y and a two-digit cost, each between dollar signs. */
  lemma BcryptMeans(s: string)
    ensures IsBcryptHash(s) <==>
              exists v, a, b :: v in {'a', 'b', 'y'} && '0' <= a <= '9' && '0' <= b <= '9' &&
                ['$', '2', v, '$', a, b, '$'] <= s
  {
    if IsBcryptHash(s) {
      assert ['$', '2', s[2], '$', s[4], s[5], '$'] <= s;
    }
  }

  ghost predicate HasPassword(u: User) {
    u.passwordHash.Some? && IsBcryptHash(u.passwordHash.value)
  }

  /** Nobody but account `u` is changed, and no identity. */
  ghost predicate OnlyUser(d: Directory, d': Directory, u: string) {
    && d'.identities == d.identities
    && d'.users.Keys == d.users.Keys + {u}
    && forall k :: k in d.users && k != u ==> d'.users[k] == d.users[k]
  }

  // ----- codes and passwords -----

  /** A reset or verification without a valid code, and a change without the current password, leave every
      account and identity as they were, and are rejected. */
  lemma ProofIsRequired(d: Directory, op: Op)
    requires Consistent(d)
    requires || ((op.Reset? || op.Verify?) && !op.codeValid)
             || (op.Change? && !op.passwordValid)
    ensures Step(d, op).0 == d && Step(d, op).1.Rejected?
  {
    hide UserByEmail, Lower, IsBcryptHash;
  }

  /** A password is reset exactly with a valid code, to a different password, on the verified password
      account of the address; the account's sessions end with it. */
  lemma ResetExactly(d: Directory, email: string, codeValid: bool, same: bool, hash: BcryptHash)
    requires Consistent(d)
    ensures var (d', outcome) := ResetPassword(d, email, codeValid, same, hash);
            && (outcome.Done? <==>
                  codeValid && !same &&
                  exists u :: u in d.users && d.users[u].email == Lower(email) && HasPassword(d.users[u]) &&
                    d.users[u].emailVerified)
            && (!outcome.Done? ==> d' == d)
            && (outcome.Done? ==>
                  NewPassword(d, d', outcome.userId, hash) && d.users[outcome.userId].email == Lower(email))
  {
    hide Lower, IsBcryptHash;
  }

  ghost predicate NewPassword(d: Directory, d': Directory, u: string, hash: BcryptHash) {
    && u in d.users && OnlyUser(d, d', u) && d'.pending == d.pending
    && d'.users[u].passwordHash == Some(hash) && d'.users[u].tokenVersion == d.users[u].tokenVersion + 1
    && d'.users[u].email == d.users[u].email && d'.users[u].emailVerified == d.users[u].emailVerified
  }

  /** A password is changed exactly with the current one, to a different one, on a verified password
      account. */
  lemma ChangedExactly(d: Directory, userId: string, passwordValid: bool, same: bool, hash: BcryptHash)
    ensures var (d', outcome) := ChangePassword(d, userId, passwordValid, same, hash);
            && (outcome.Done? <==>
                  passwordValid && !same && userId in d.users && HasPassword(d.users[userId]) &&
                  d.users[userId].emailVerified)
            && (!outcome.Done? ==> d' == d)
            && (outcome.Done? ==> outcome.userId == userId && NewPassword(d, d', userId, hash))
  {
    hide IsBcryptHash;
  }

  // ----- signing up -----

  /** A sign-up is kept pending exactly when the address has no verified account; accounts stay as they were. */
  lemma PendingExactly(d: Directory, email: string, hash: BcryptHash)
    ensures var (d', _) := LocalSignup(d, email, hash);
            && d'.users == d.users && d'.identities == d.identities
            && d'.pending == if exists u :: u in d.users && d.users[u].email == Lower(email) && d.users[u].emailVerified
                             then d.pending else d.pending[Lower(email) := hash]
  {
    hide Lower;
    assert forall u :: u in IdsWithEmail(d, email) <==> u in d.users && d.users[u].email == Lower(email);
  }

  /** A verification creates or activates an account exactly with a valid code, a pending sign-up for the
      address and no verified account of it; the account gets the pending password, and the sign-up is used up. */
  lemma VerifiedExactly(d: Directory, email: string, codeValid: bool, newId: string)
    requires Consistent(d) && newId !in d.users
    ensures var (d', outcome) := VerifyEmail(d, email, codeValid, newId);
            var known := exists u :: u in d.users && d.users[u].email == Lower(email);
            && (outcome.Done? <==>
                  codeValid && Lower(email) in d.pending &&
                  forall u :: u in d.users && d.users[u].email == Lower(email) ==> !d.users[u].emailVerified)
            && (!outcome.Done? ==> d'.users == d.users && d'.identities == d.identities)
            && (outcome.Done? ==>
                  && var u := outcome.userId;
                  && OnlyUser(d, d', u) && d'.pending == d.pending - {Lower(email)}
                  && (u in d.users <==> known) && (u !in d.users ==> u == newId)
                  && d'.users[u].email == Lower(email) && d'.users[u].emailVerified
                  && d'.users[u].passwordHash == Some(d.pending[Lower(email)])
                  && (u in d.users ==>
                        d.users[u].email == Lower(email) && d'.users[u].tokenVersion == d.users[u].tokenVersion))
  {
    hide Lower;
  }

  // ----- social sign-in -----

  ghost predicate BelongsTo(d: Directory, p: Profile, userId: string) {
    Identity(userId, p.provider, p.providerUserId) in d.identities.Values
  }

  /** With a verified profile: the owner of the identity is signed in if there is one; otherwise an account
      and its identity are created exactly when the address is free. */
  lemma SignedInExactly(d: Directory, p: Profile, newUserId: string, newIdentityId: string)
    requires Consistent(d) && newUserId !in d.users && newIdentityId !in d.identities
    ensures var (d', outcome) := OAuthAuthenticate(d, p, newUserId, newIdentityId);
            var linked := exists i :: i in d.identities && d.identities[i].provider == p.provider &&
                            d.identities[i].providerUserId == p.providerUserId;
            var taken := exists u :: u in d.users && d.users[u].email == Lower(p.email);
            && (outcome.Rejected? <==> !p.emailVerified || (!linked && taken))
            && (outcome.Rejected? && p.emailVerified ==> outcome == Rejected(Conflict))
            && (outcome.Rejected? || linked ==> d' == d)
            && (p.emailVerified && linked ==>
                  outcome.Done? && BelongsTo(d, p, outcome.userId))
            && (p.emailVerified && !linked && !taken ==>
                  && outcome == Done(newUserId) && d'.pending == d.pending
                  && d'.users == d.users[newUserId := User(Lower(p.email), None, true, 0)]
                  && d'.identities == d.identities[newIdentityId := Identity(newUserId, p.provider, p.providerUserId)])
  {
    hide Lower;
  }

  /** A profile is linked exactly when it is verified, belongs to nobody, and the account has none of its
      provider; a profile of another account is a conflict. */
  lemma LinkedExactly(d: Directory, userId: string, p: Profile, newIdentityId: string)
    requires Consistent(d) && newIdentityId !in d.identities
    ensures var (d', outcome) := LinkOAuthProvider(d, userId, p, newIdentityId);
            var others := exists i :: i in d.identities && d.identities[i].provider == p.provider &&
                            d.identities[i].providerUserId == p.providerUserId && d.identities[i].userId != userId;
            var linked := exists i :: i in d.identities && d.identities[i].provider == p.provider &&
                            d.identities[i].userId == userId;
            && (outcome.Rejected? <==> userId !in d.users || !p.emailVerified || others)
            && (outcome == Rejected(Conflict) <==> userId in d.users && p.emailVerified && others)
            && (outcome.Rejected? || linked ==> d' == d)
            && (!outcome.Rejected? ==> outcome == Done(userId))
            && (!outcome.Rejected? && !linked ==>
                  d' == d.(identities := d.identities[newIdentityId := Identity(userId, p.provider, p.providerUserId)]))
  {
  }

  /** An unlink is refused exactly when it would take the last way to sign in: the account has no password
      and its only identity is with the provider. Otherwise it takes the identity with the provider alone. */
  lemma UnlinkedExactly(d: Directory, userId: string, provider: Provider)
    requires Consistent(d) && userId in d.users
    ensures var (d', outcome) := UnlinkOAuthProvider(d, userId, provider);
            var linked := exists i :: i in d.identities && d.identities[i].userId == userId &&
                            d.identities[i].provider == provider;
            var another := exists i :: i in d.identities && d.identities[i].userId == userId &&
                             d.identities[i].provider != provider;
            && (outcome.Rejected? <==> linked && !HasPassword(d.users[userId]) && !another)
            && (outcome.Rejected? ==> outcome == Rejected(Conflict) && d' == d)
            && (!outcome.Rejected? ==>
                  && outcome == Done(userId) && d'.users == d.users && d'.pending == d.pending
                  && (forall i :: i in d'.identities <==>
                        && i in d.identities
                        && (d.identities[i].userId != userId || d.identities[i].provider != provider))
                  && (forall i :: i in d'.identities ==> d'.identities[i] == d.identities[i]))
  {
    hide IsBcryptHash, UniqueProviders, UniqueSubjects, UniqueEmails;
    if HasProvider(d, userId, provider) {
      SoleIdentity(d, userId, provider);
    }
    assert HasAnother(d, userId, provider) <==>
           (exists i :: i in d.identities && d.identities[i].userId == userId && d.identities[i].provider != provider)
    by {
      assert forall i :: i in IdentitiesOf(d, userId) <==> i in d.identities && d.identities[i].userId == userId;
    }
    hide IdentitiesOf, HasAnother;
  }

  /** With one identity per provider, an account that has the provider has no other identity exactly when
      it has no more than one. */
  lemma SoleIdentity(d: Directory, userId: string, provider: Provider)
    requires UniqueProviders(d) && HasProvider(d, userId, provider)
    ensures |IdentitiesOf(d, userId)| <= 1 <==> !HasAnother(d, userId, provider)
  {
    var mine := IdentitiesOf(d, userId);
    if |mine| > 1 {
      TwoMeansAnother(d, userId, provider);
    }
    if HasAnother(d, userId, provider) {
      var i :| i in d.identities && d.identities[i].userId == userId && d.identities[i].provider == provider;
      var j :| j in mine && d.identities[j].provider != provider;
      TwoMembers(mine, i, j);
    }
  }

  lemma TwoMembers(s: set<string>, i: string, j: string)
    requires i in s && j in s && i != j
    ensures |s| >= 2
  {
    assert j in s - {i};
    assert |s - {i}| == |s| - 1;
  }
}
