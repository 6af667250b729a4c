// The two kinds of record the bot keeps: who owns a character (the values of
// CLAIMED_EFSANE_NAMES) and an application waiting for a moderator (the values of
// PENDING_APPLICATIONS), the snapshot written to the data file, and the
// one-claim-per-user discipline the application guard tries to keep.

module Records {

  /** Owner of a claimed character and the instant (ms) the claim was made. */
  datatype Claim = Claim(userId: string, claimDate: int)

  /** A submitted form: the character asked for, the moderation message that
      carries it, and whether it was meant for the Efsanevi Dünya roster. */
  datatype Application = Application(efsaneAdi: string, messageId: string, isEfsaneviDunya: bool)

  /** What the data file holds after a save. */
  datatype Snapshot = Snapshot(
    claimedEfsaneNames: map<string, Claim>,
    pendingApplications: map<string, Application>)

  /** `userId` owns at least one character. */
  ghost predicate Holds(claims: map<string, Claim>, userId: string)
  {
    exists k :: k in claims && claims[k].userId == userId
  }

  /** No user owns two characters. */
  ghost predicate OneClaimPerUser(claims: map<string, Claim>)
  {
    forall k1, k2 :: k1 in claims && k2 in claims && claims[k1].userId == claims[k2].userId ==> k1 == k2
  }

  /** The intended discipline: one character per user, and nobody who owns one
      has an application waiting. The bot does not enforce it on every path. */
  ghost predicate Consistent(claims: map<string, Claim>, pending: map<string, Application>)
  {
    OneClaimPerUser(claims) && forall u :: u in pending ==> !Holds(claims, u)
  }

  /** Claiming `key` for `userId` keeps one-claim-per-user exactly when the user
      owns no OTHER character: the overwrite of `key` itself is harmless. */
  lemma ClaimKeepsOneClaimPerUserIff(claims: map<string, Claim>, key: string, userId: string, now: int)
    requires OneClaimPerUser(claims)
    ensures OneClaimPerUser(claims[key := Claim(userId, now)])
        <==> forall k :: k in claims && k != key ==> claims[k].userId != userId
  {
    var after := claims[key := Claim(userId, now)];
    if !OneClaimPerUser(after) {
      var k1, k2 :| k1 in after && k2 in after && after[k1].userId == after[k2].userId && k1 != k2;
      if k1 == key {
        assert k2 in claims && k2 != key && claims[k2].userId == userId;
      } else if k2 == key {
        assert k1 in claims && k1 != key && claims[k1].userId == userId;
      }
    } else {
      forall k | k in claims && k != key
        ensures claims[k].userId != userId
      {
        assert after[k] == claims[k] && after[key].userId == userId;
      }
    }
  }

  /** The approve transition (drop the application, claim the character) keeps
      the discipline when the applicant owned nothing beforehand, which is what
      the application guard checked when the form was opened. */
  lemma ApproveKeepsConsistent(
    claims: map<string, Claim>, pending: map<string, Application>, key: string, userId: string, now: int)
    requires Consistent(claims, pending) && !Holds(claims, userId)
    ensures Consistent(claims[key := Claim(userId, now)], pending - {userId})
  {
    var after := claims[key := Claim(userId, now)];
    ClaimKeepsOneClaimPerUserIff(claims, key, userId, now);
  }

  /** A user who already owns a character and is approved for a different one
      ends up owning two: nothing on the approve path prevents it. */
  lemma ApproveForHolderBreaksOneClaimPerUser(
    claims: map<string, Claim>, held: string, key: string, userId: string, now: int)
    requires held in claims && claims[held].userId == userId && held != key
    ensures !OneClaimPerUser(claims[key := Claim(userId, now)])
  {
    var after := claims[key := Claim(userId, now)];
    assert after[held].userId == after[key].userId;
  }

  /** Recording an application from a user who owns nothing keeps the discipline. */
  lemma SubmitKeepsConsistent(
    claims: map<string, Claim>, pending: map<string, Application>, userId: string, app: Application)
    requires Consistent(claims, pending) && !Holds(claims, userId)
    ensures Consistent(claims, pending[userId := app])
  {
  }

  /** Releasing a character or rejecting an application keeps the discipline. */
  lemma RemovalKeepsConsistent(
    claims: map<string, Claim>, pending: map<string, Application>, key: string, userId: string)
    requires Consistent(claims, pending)
    ensures Consistent(claims - {key}, pending)
    ensures Consistent(claims, pending - {userId})
  {
  }
}
