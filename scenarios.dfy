// Whole interactions run against a fresh store: each method plays a sequence
// of commands, form submissions and button presses and states what the bot
// answers and what it keeps.

module Scenarios {
  import opened Options
  import opened Text
  import opened Records
  import opened Cooldown
  import opened CustomIds
  import opened Channels
  import opened Roster

  const APPLICANT: string := "111"
  const OTHER: string := "222"

  /** A store where the applicant opened the form in the application channel
      and sent it for Code-Man; nobody owns anything yet. */
  method CodeManFormSent() returns (store: Store, apply: ApplyReply)
    ensures fresh(store) && store.Valid() && store.Saved()
    ensures apply == ShowForm(FormId(APPLICANT))
    ensures store.claims == map[] && store.claimOrder == [] && store.pending.Keys == {APPLICANT}
  {
    store := new Store();
    apply := store.Apply(APPLICANT, EFSANE_BASVURU_CHANNEL_ID);
    FormRoundTrip(APPLICANT);
    var channel := store.SubmitForm(FormId(APPLICANT), "Code-Man", "Codeman", Some("900"));
  }

  /** A user applies in the application channel, fills the form, and a
      moderator approves: the user owns the character from that instant and the
      application is gone, in memory and in the saved file. */
  method ApplySubmitApprove(now: int)
    returns (apply: ApplyReply, approve: ButtonReply, claim: Option<Claim>, stillPending: bool, store: Store)
    ensures apply == ShowForm(FormId(APPLICANT))
    ensures approve == Approved(APPLICANT, "Code-Man")
    ensures claim == Some(Claim(APPLICANT, now))
    ensures !stillPending
    ensures store.persisted.claimedEfsaneNames == map["Code-Man" := Claim(APPLICANT, now)]
    ensures store.persisted.pendingApplications.Keys == {}
  {
    store, apply := CodeManFormSent();
    ButtonRoundTrip(APPLICANT);
    TrimKeepsTrimmed("Code-Man");
    approve := store.PressButton(ApproveId(APPLICANT), true, Some("Code-Man"), now);
    claim := if "Code-Man" in store.claims then Some(store.claims["Code-Man"]) else None;
    stillPending := APPLICANT in store.pending;
  }

  /** Releasing one hour after the claim is refused with 47 hours left and keeps
      the claim; releasing 48 hours after it succeeds and frees the character. */
  method ReleaseEarlyThenLate(claimDate: int) returns (early: ReleaseReply, keptEarly: bool, late: ReleaseReply, keptLate: bool)
    ensures early == CooldownActive("Code-Man", 47) && keptEarly
    ensures late == Released("Code-Man") && !keptLate
  {
    var store := new Store();
    store.ClaimEfsane("Code-Man", APPLICANT, claimDate);
    OneHourAfterClaim(claimDate);
    assert store.claims["Code-Man"].userId == APPLICANT;
    early := store.Release(APPLICANT, claimDate + HOUR_MS);
    keptEarly := "Code-Man" in store.claims;
    assert store.claims["Code-Man"].userId == APPLICANT;
    CooldownBoundary(claimDate, claimDate + COOLDOWN_MS);
    late := store.Release(APPLICANT, claimDate + COOLDOWN_MS);
    keptLate := "Code-Man" in store.claims;
  }

  /** A user whose form is waiting for a moderator cannot open a second one. */
  method ApplyWhilePending() returns (first: ApplyReply, second: ApplyReply)
    ensures first.ShowForm? && second == AlreadyPending
  {
    var store;
    store, first := CodeManFormSent();
    second := store.Apply(APPLICANT, EFSANE_BASVURU_CHANNEL_ID);
  }

  /** A store where three users own a character and nothing is pending. */
  method ThreeClaims(now: int) returns (store: Store)
    ensures fresh(store) && store.Valid() && store.Saved()
    ensures store.claims.Keys == {"Code-Man", "Samantha", "Kassandra"} && store.pending == map[]
  {
    store := new Store();
    store.ClaimEfsane("Code-Man", APPLICANT, now);
    store.ClaimEfsane("Samantha", OTHER, now);
    store.ClaimEfsane("Kassandra", "333", now);
  }

  /** A store where three users own a character and two others wait for a moderator. */
  method ThreeClaimsTwoApplications(now: int) returns (store: Store)
    ensures fresh(store) && store.Valid() && store.Saved()
    ensures store.claims.Keys == {"Code-Man", "Samantha", "Kassandra"}
    ensures store.pending.Keys == {"444", "555"}
  {
    store := ThreeClaims(now);
    FormRoundTrip("444");
    FormRoundTrip("555");
    var c1 := store.SubmitForm(FormId("444"), "Zeus", "Codeman", Some("901"));
    var c2 := store.SubmitForm(FormId("555"), "Hera", "Efsanevi Dünya", Some("902"));
  }

  /** Resetting one list removes every claim and every waiting application,
      and the saved file holds two empty maps. */
  method ResetEverything(now: int) returns (r: ResetReply, claimsLeft: int, pendingLeft: int, store: Store)
    ensures r == ResetDone(ResetMessage("codeman"))
    ensures claimsLeft == 0 && pendingLeft == 0
    ensures store.persisted == Snapshot(map[], map[])
  {
    store := ThreeClaimsTwoApplications(now);
    r := store.Reset(true, "codeman");
    claimsLeft := |store.claims|;
    pendingLeft := |store.pending|;
  }

  /** Until a form is sent nothing is pending, so a user may open the form
      any number of times. */
  method OpenFormTwice() returns (first: ApplyReply, second: ApplyReply)
    ensures first == second == ShowForm(FormId(APPLICANT))
  {
    var store := new Store();
    first := store.Apply(APPLICANT, EFSANE_BASVURU_CHANNEL_ID);
    second := store.Apply(APPLICANT, EFSANE_BASVURU_CHANNEL_ID);
  }

  /** A user opens the form twice, which the guard allows while nothing is
      pending, then sends both forms: the second application replaces the
      first, and nobody owns anything yet. */
  method TwoFormsSent() returns (store: Store, first: ApplyReply, second: ApplyReply)
    ensures fresh(store) && store.Valid() && store.Saved()
    ensures first == second == ShowForm(FormId(APPLICANT))
    ensures store.claims == map[] && store.claimOrder == []
    ensures store.pending.Keys == {APPLICANT} && store.pending[APPLICANT] == Application("Samantha", "901", false)
  {
    store := new Store();
    first := store.Apply(APPLICANT, EFSANE_BASVURU_CHANNEL_ID);
    second := store.Apply(APPLICANT, EFSANE_BASVURU_CHANNEL_ID);
    FormRoundTrip(APPLICANT);
    var c1 := store.SubmitForm(FormId(APPLICANT), "Code-Man", "Codeman", Some("900"));
    TrimKeepsTrimmed("Samantha");
    TreeAnswerCodeman();
    var c2 := store.SubmitForm(FormId(APPLICANT), "Samantha", "Codeman", Some("901"));
  }

  /** A moderator approves both moderation messages of a user who opened the
      form twice and sent both: Code-Man first, then Samantha. */
  method BothApproved(now: int) returns (store: Store, first: ApplyReply, second: ApplyReply)
    ensures fresh(store) && store.Valid() && store.Saved()
    ensures first == second == ShowForm(FormId(APPLICANT))
    ensures store.claims == map["Code-Man" := Claim(APPLICANT, now), "Samantha" := Claim(APPLICANT, now)]
    ensures store.claimOrder == ["Code-Man", "Samantha"]
  {
    store, first, second := TwoFormsSent();
    ButtonRoundTrip(APPLICANT);
    TrimKeepsTrimmed("Code-Man");
    TrimKeepsTrimmed("Samantha");
    var a1 := store.PressButton(ApproveId(APPLICANT), true, Some("Code-Man"), now);
    assert store.claims == map["Code-Man" := Claim(APPLICANT, now)];
    var a2 := store.PressButton(ApproveId(APPLICANT), true, Some("Samantha"), now);
  }

  /** A user opens the form twice, sends both, and both are approved: the
      user owns two characters, since approval checks neither ownership nor
      the application. */
  method TwoFormsTwoCharacters(now: int) returns (first: ApplyReply, second: ApplyReply, claims: map<string, Claim>)
    ensures first == second == ShowForm(FormId(APPLICANT))
    ensures claims == map["Code-Man" := Claim(APPLICANT, now), "Samantha" := Claim(APPLICANT, now)]
    ensures !OneClaimPerUser(claims)
  {
    var store;
    store, first, second := BothApproved(now);
    claims := store.claims;
    assert claims["Code-Man"].userId == claims["Samantha"].userId;
  }

  /** After both approvals, `/efsane-birak` frees the character approved first:
      the release takes the user's first claim in the order the claims were made. */
  method ReleaseAfterTwoApprovals(now: int) returns (r: ReleaseReply, kept: map<string, Claim>)
    ensures r == Released("Code-Man")
    ensures kept == map["Samantha" := Claim(APPLICANT, now)]
  {
    var store, first, second := BothApproved(now);
    ghost var claims, order := store.claims, store.claimOrder;
    assert claims[order[0]].userId == APPLICANT;
    assert Holds(claims, APPLICANT);
    CooldownBoundary(now, now + COOLDOWN_MS);
    r := store.Release(APPLICANT, now + COOLDOWN_MS);
    kept := store.claims;
  }
}
