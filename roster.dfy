// The bot's state: CLAIMED_EFSANE_NAMES and PENDING_APPLICATIONS, the
// operations that change them, and the decisions the command, form and button
// handlers take on them. `now` stands for `Date.now()`; `persisted` is what
// the data file holds after the last save.

module Roster {
  import opened Options
  import opened Text
  import opened Records
  import opened Cooldown
  import opened Render
  import opened Paginate
  import opened CustomIds
  import opened Channels

  /** Outcome of `/efsane-basvuru`. */
  datatype ApplyReply =
    | RefusedInRosterChannel
    | RefusedOutsideApplyChannel
    | AlreadyClaimed
    | AlreadyPending
    | ShowForm(formId: string)

  /** Outcome of a moderator's approve or reject button. */
  datatype ButtonReply =
    | NotHandled
    | NotAdmin
    | NoCharacterName
    | Approved(userId: string, efsaneAdi: string)
    | Rejected(userId: string, efsaneAdi: string)

  /** Outcome of `/efsane-birak`. */
  datatype ReleaseReply =
    | NoClaim
    | CooldownActive(efsaneAdi: string, remainingHours: int)
    | Released(efsaneAdi: string)

  /** Outcome of `/soysifirla`. */
  datatype ResetReply =
    | ResetNotAdmin
    | InvalidListType
    | ResetDone(message: string)

  const RULE_BLOCK: string := "\n# <:emoji_12:1395844039164821646> **Kurallar**\n<:alt:1395843867063877693> **2 Günde Bir Efsane Değiştirebilirsiniz.**\n<:alt:1395843867063877693> **Torpil Yoktur. Herkes Form Atmak Zorundadır.**\n<:alt:1395843867063877693> **Maximium Mazaret Günü 3'dür Önemliyse 5 Olabilir.**\n<:alt:1395843867063877693> **Soy Ağacı Her Gün Sonu Düzenlenmelidir.**\n"
  const EFSANE_HEADER: string := "# <:Codeman:1445949073940156559> **| Code-Man RP Soy Ağacı ve Efsane Listesi**"
  const EFSANEVI_DUNYA_HEADER: string := "# <:boralo:1446308753241673849> | BoraLo Efsanevi Dünya Soy Ağacı "
  const EMPTY_LIST_NOTE: string := "Liste içeriği boş."

  /** The list types `/soysifirla` accepts. */
  predicate ValidListType(listType: string)
  {
    listType == "codeman" || listType == "efsanevi_dunya" || listType == "all"
  }

  /** The confirmation `/soysifirla` posts; the list type changes only this text. */
  function ResetMessage(listType: string): string
  {
    (if listType == "all" then
       "⚠️ **TÜM LİSTELER** için Efsane sahiplikleri ve bekleyen başvurular kalıcı olarak SIFIRLANDI."
     else
       "⚠️ **" + (if listType == "codeman" then "Code-Man RP Soy Ağacı (Codeman)" else "Efsanevi Dünya Listesi")
       + "** için Efsane sahiplikleri ve bekleyen başvurular kalıcı olarak SIFIRLANDI.")
    + "\nListeler otomatik olarak güncelleniyor..."
  }

  /** The form's tree answer names the Efsanevi Dünya roster. */
  predicate IsEfsaneviDunya(treeAnswer: string)
  {
    Contains(ToLower(Trim(treeAnswer)), "efsanevi dünya")
  }

  /** The tree answer is matched after lower-casing, so any capitalisation of
      the roster name counts. */
  lemma TreeAnswerCapitals()
    ensures IsEfsaneviDunya("EFSANEVI DÜNYA")
  {
    var a := "EFSANEVI DÜNYA";
    TrimKeepsTrimmed(a);
    assert ToLower(a) == "efsanevi dünya";
    ContainsSelf("efsanevi dünya");
  }

  /** The roster name may come with more words around it. */
  lemma TreeAnswerInLongerText()
    ensures IsEfsaneviDunya("Efsanevi Dünya Soy Ağacı")
  {
    var b := "Efsanevi Dünya Soy Ağacı";
    TrimKeepsTrimmed(b);
    assert ToLower(b)[..14] == "efsanevi dünya";
  }

  /** Capitals in the tree answer never matter: an answer and its lower-cased
      form select the same roster. */
  lemma TreeAnswerIgnoresCapitals(treeAnswer: string)
    ensures IsEfsaneviDunya(ToLower(treeAnswer)) == IsEfsaneviDunya(treeAnswer)
  {
    TrimLower(treeAnswer);
    ToLowerIdempotent(Trim(treeAnswer));
  }

  /** The Codeman answer does not name the Efsanevi Dünya roster. */
  lemma TreeAnswerCodeman()
    ensures !IsEfsaneviDunya("Codeman")
  {
    var c := "Codeman";
    TrimKeepsTrimmed(c);
    ContainsLength(ToLower(c), "efsanevi dünya");
  }

  /** `s` without the occurrences of `x`, order kept. */
  function Without(s: seq<string>, x: string): (r: seq<string>)
    ensures forall y :: y in r <==> y in s && y != x
  {
    if s == [] then []
    else if s[0] == x then Without(s[1..], x)
    else [s[0]] + Without(s[1..], x)
  }

  /** Removing an element keeps a sequence free of repetitions. */
  lemma {:induction false} WithoutKeepsDistinct(s: seq<string>, x: string)
    requires forall i, j :: 0 <= i < j < |s| ==> s[i] != s[j]
    ensures forall i, j :: 0 <= i < j < |Without(s, x)| ==> Without(s, x)[i] != Without(s, x)[j]
  {
    if s != [] {
      WithoutKeepsDistinct(s[1..], x);
      assert s[0] !in s[1..];
      assert s[0] !in Without(s[1..], x);
    }
  }

  class Store {
    var claims: map<string, Claim>
    /** The keys of `claims` in insertion order, the order a JavaScript Map iterates in. */
    var claimOrder: seq<string>
    var pending: map<string, Application>
    ghost var persisted: Snapshot

    ghost predicate Valid()
      reads this
    {
      && (forall i, j :: 0 <= i < j < |claimOrder| ==> claimOrder[i] != claimOrder[j])
      && (forall k :: k in claims <==> k in claimOrder)
    }

    /** The data file holds what is in memory. */
    ghost predicate Saved()
      reads this
    {
      persisted == Snapshot(claims, pending)
    }

    /** Start-up without a data file: both maps empty, and an empty file written. */
    constructor ()
      ensures Valid() && Saved()
      ensures claims == map[] && claimOrder == [] && pending == map[]
    {
      claims := map[];
      claimOrder := [];
      pending := map[];
      persisted := Snapshot(map[], map[]);
    }

    /** `saveEfsaneData`: the file is overwritten with both maps. */
    ghost method SaveEfsaneData()
      modifies this`persisted
      ensures Saved()
    {
      persisted := Snapshot(claims, pending);
    }

    /** `claimEfsane`: `efsaneAdi` now belongs to `userId` from `now` on, whoever
        owned it before; nothing else changes, and the result is saved. */
    method ClaimEfsane(efsaneAdi: string, userId: string, now: int)
      requires Valid()
      modifies this
      ensures Valid() && Saved()
      ensures claims == old(claims)[efsaneAdi := Claim(userId, now)]
      ensures pending == old(pending)
      ensures claimOrder == if efsaneAdi in old(claims) then old(claimOrder) else old(claimOrder) + [efsaneAdi]
    {
      if efsaneAdi !in claims {
        assert forall i :: 0 <= i < |claimOrder| ==> claimOrder[i] != efsaneAdi;
        claimOrder := claimOrder + [efsaneAdi];
      }
      claims := claims[efsaneAdi := Claim(userId, now)];
      SaveEfsaneData();
    }

    /** `unclaimEfsane`: exactly `efsaneAdi` loses its owner; the result is saved. */
    method UnclaimEfsane(efsaneAdi: string)
      requires Valid()
      modifies this
      ensures Valid() && Saved()
      ensures claims == old(claims) - {efsaneAdi}
      ensures pending == old(pending)
      ensures claimOrder == Without(old(claimOrder), efsaneAdi)
    {
      WithoutKeepsDistinct(claimOrder, efsaneAdi);
      claims := claims - {efsaneAdi};
      claimOrder := Without(claimOrder, efsaneAdi);
      SaveEfsaneData();
    }

    /** `resetAllEfsaneData`: both maps are emptied and saved, whatever the list type. */
    method ResetAllEfsaneData(listType: string)
      requires Valid()
      modifies this
      ensures Valid() && Saved()
      ensures claims == map[] && claimOrder == [] && pending == map[]
    {
      claims := map[];
      claimOrder := [];
      pending := map[];
      SaveEfsaneData();
    }

    /** The guard's `some` over the claims: does `userId` own a character? */
    method UserIsClaimed(userId: string) returns (b: bool)
      requires Valid()
      ensures b <==> Holds(claims, userId)
    {
      var i := 0;
      while i < |claimOrder|
        invariant 0 <= i <= |claimOrder|
        invariant forall j :: 0 <= j < i ==> claims[claimOrder[j]].userId != userId
      {
        if claims[claimOrder[i]].userId == userId {
          return true;
        }
        i := i + 1;
      }
      return false;
    }

    /** The release handler's `find` over the claims: the first key, in insertion
        order, that `userId` owns. */
    method FindClaimOf(userId: string) returns (found: Option<string>)
      requires Valid()
      ensures found.None? <==> !Holds(claims, userId)
      ensures found.Some? ==> found.value in claims && claims[found.value].userId == userId
      ensures found.Some? ==> exists i :: 0 <= i < |claimOrder| && claimOrder[i] == found.value
                                 && forall j :: 0 <= j < i ==> claims[claimOrder[j]].userId != userId
    {
      var i := 0;
      while i < |claimOrder|
        invariant 0 <= i <= |claimOrder|
        invariant forall j :: 0 <= j < i ==> claims[claimOrder[j]].userId != userId
      {
        var key := claimOrder[i];
        if claims[key].userId == userId {
          return Some(key);
        }
        i := i + 1;
      }
      return None;
    }

    /** `/efsane-basvuru` used by `userId` in `channelId`: refused in the roster
        channels and outside the application channel; then refused when the user
        owns a character, which is checked first, or has an application waiting;
        otherwise the form is shown. Nothing is changed. */
    method Apply(userId: string, channelId: string) returns (r: ApplyReply)
      requires Valid()
      ensures r == RefusedInRosterChannel <==> ApplyCommandChannel(channelId) == InRosterChannel
      ensures r == RefusedOutsideApplyChannel <==> ApplyCommandChannel(channelId) == OutsideApplyChannel
      ensures r == AlreadyClaimed <==> ApplyCommandChannel(channelId) == InApplyChannel && Holds(claims, userId)
      ensures r == AlreadyPending <==>
                ApplyCommandChannel(channelId) == InApplyChannel && !Holds(claims, userId) && userId in pending
      ensures r.ShowForm? <==>
                ApplyCommandChannel(channelId) == InApplyChannel && !Holds(claims, userId) && userId !in pending
      ensures r.ShowForm? ==> r.formId == FormId(userId)
    {
      match ApplyCommandChannel(channelId)
      case InRosterChannel => return RefusedInRosterChannel;
      case OutsideApplyChannel => return RefusedOutsideApplyChannel;
      case InApplyChannel =>
        var userIsClaimed := UserIsClaimed(userId);
        var userIsPending := userId in pending;
        if userIsClaimed {
          return AlreadyClaimed;
        }
        if userIsPending {
          return AlreadyPending;
        }
        return ShowForm(FormId(userId));
    }

    /** The form submission. For an `efsane_form_…` id, the application is
        sent to the approval channel of the roster the tree answer names, and
        recorded for the user named in the id only when that message was sent
        (`sentMessageId`), with the trimmed name and the roster the tree
        answer names; the guard is not checked again. Claims never change. */
    method SubmitForm(customId: string, nameAnswer: string, treeAnswer: string, sentMessageId: Option<string>)
      returns (approvalChannel: Option<string>)
      requires Valid() && Saved()
      modifies this
      ensures Valid() && Saved()
      ensures approvalChannel.Some? <==> ParseFormUser(customId).Some?
      ensures approvalChannel.Some? ==> approvalChannel.value == ApprovalChannel(IsEfsaneviDunya(treeAnswer))
      ensures claims == old(claims) && claimOrder == old(claimOrder)
      ensures ParseFormUser(customId).Some? && sentMessageId.Some? ==>
                pending == old(pending)[ParseFormUser(customId).value :=
                  Application(Trim(nameAnswer), sentMessageId.value, IsEfsaneviDunya(treeAnswer))]
      ensures ParseFormUser(customId).None? || sentMessageId.None? ==> pending == old(pending)
    {
      approvalChannel := None;
      var user := ParseFormUser(customId);
      if user.Some? {
        var efsaneAdi := Trim(nameAnswer);
        var isEfsaneviDunya := Contains(ToLower(Trim(treeAnswer)), "efsanevi dünya");
        approvalChannel := Some(ApprovalChannel(isEfsaneviDunya));
        if sentMessageId.Some? {
          pending := pending[user.value := Application(efsaneAdi, sentMessageId.value, isEfsaneviDunya)];
          SaveEfsaneData();
        }
      }
    }

    /** An approve or reject button. Only `approve_…`/`reject_…` ids are handled,
        only for administrators, and only when the moderation message yields a
        non-empty character name; nothing changes otherwise. Then the user's
        application is dropped, present or not, and approval claims the name from
        the message for the user, overwriting any owner. */
    method PressButton(customId: string, isAdmin: bool, embedName: Option<string>, now: int)
      returns (r: ButtonReply)
      requires Valid() && Saved()
      modifies this
      ensures Valid() && Saved()
      ensures r == NotHandled <==> ParseButton(customId).None?
      ensures r == NotAdmin <==> ParseButton(customId).Some? && !isAdmin
      ensures ParseButton(customId).Some? && isAdmin ==>
                (r == NoCharacterName <==> embedName.None? || Trim(embedName.value) == "")
      ensures r.NotHandled? || r.NotAdmin? || r.NoCharacterName? ==>
                claims == old(claims) && claimOrder == old(claimOrder) && pending == old(pending)
      ensures r.Approved? ==>
                && ParseButton(customId) == Some(ButtonAction(true, r.userId))
                && embedName.Some? && r.efsaneAdi == Trim(embedName.value) != ""
                && claims == old(claims)[r.efsaneAdi := Claim(r.userId, now)]
                && claimOrder == (if r.efsaneAdi in old(claims) then old(claimOrder) else old(claimOrder) + [r.efsaneAdi])
                && pending == old(pending) - {r.userId}
      ensures r.Rejected? ==>
                && ParseButton(customId) == Some(ButtonAction(false, r.userId))
                && embedName.Some? && r.efsaneAdi == Trim(embedName.value) != ""
                && claims == old(claims) && claimOrder == old(claimOrder)
                && pending == old(pending) - {r.userId}
    {
      var action := ParseButton(customId);
      if action.None? {
        return NotHandled;
      }
      if !isAdmin {
        return NotAdmin;
      }
      var userId := action.value.userId;
      var efsaneAdi := if embedName.Some? then Trim(embedName.value) else "";
      if efsaneAdi == "" {
        return NoCharacterName;
      }
      pending := pending - {userId};
      SaveEfsaneData();
      if action.value.isApprove {
        ClaimEfsane(efsaneAdi, userId, now);
        r := Approved(userId, efsaneAdi);
      } else {
        r := Rejected(userId, efsaneAdi);
      }
    }

    /** `/efsane-birak`: the first character the user owns is released, but only
        48 hours or more after it was claimed; before that the hours left are
        reported and nothing changes. */
    method Release(userId: string, now: int) returns (r: ReleaseReply)
      requires Valid() && Saved()
      modifies this
      ensures Valid() && Saved()
      ensures pending == old(pending)
      ensures r == NoClaim <==> !Holds(old(claims), userId)
      ensures r.CooldownActive? ==>
                && r.efsaneAdi in old(claims) && old(claims)[r.efsaneAdi].userId == userId
                && InCooldown(old(claims)[r.efsaneAdi].claimDate, now)
                && r.remainingHours == RemainingHours(old(claims)[r.efsaneAdi].claimDate, now)
      ensures r.Released? ==>
                && r.efsaneAdi in old(claims) && old(claims)[r.efsaneAdi].userId == userId
                && !InCooldown(old(claims)[r.efsaneAdi].claimDate, now)
                && claims == old(claims) - {r.efsaneAdi}
                && claimOrder == Without(old(claimOrder), r.efsaneAdi)
      ensures !r.Released? ==> claims == old(claims) && claimOrder == old(claimOrder)
      ensures !r.NoClaim? ==>
                exists i :: 0 <= i < |old(claimOrder)| && old(claimOrder)[i] == r.efsaneAdi
                  && forall j :: 0 <= j < i ==> old(claims)[old(claimOrder)[j]].userId != userId
    {
      var found := FindClaimOf(userId);
      if found.None? {
        return NoClaim;
      }
      var efsaneAdi := found.value;
      var claimDate := claims[efsaneAdi].claimDate;
      if now - claimDate < COOLDOWN_MS {
        var remainingHours := CeilDiv(claimDate + COOLDOWN_MS - now, HOUR_MS);
        return CooldownActive(efsaneAdi, remainingHours);
      }
      UnclaimEfsane(efsaneAdi);
      return Released(efsaneAdi);
    }

    /** `/soysifirla`: administrators only, and only for a known list type; then
        every claim and application is removed, whichever list was named. */
    method Reset(isAdmin: bool, listType: string) returns (r: ResetReply)
      requires Valid() && Saved()
      modifies this
      ensures Valid() && Saved()
      ensures !isAdmin ==> r == ResetNotAdmin
      ensures isAdmin && !ValidListType(listType) ==> r == InvalidListType
      ensures isAdmin && ValidListType(listType) ==> r == ResetDone(ResetMessage(listType))
      ensures r.ResetDone? ==> claims == map[] && claimOrder == [] && pending == map[]
      ensures !r.ResetDone? ==> claims == old(claims) && claimOrder == old(claimOrder) && pending == old(pending)
    {
      if !isAdmin {
        return ResetNotAdmin;
      }
      if ValidListType(listType) {
        var message := ResetMessage(listType);
        ResetAllEfsaneData(listType);
        return ResetDone(message);
      }
      return InvalidListType;
    }

    /** `generateListContent`: the roster text of `groups` for the current claims. */
    method GenerateListContent(groups: seq<Group>) returns (content: string)
      ensures content == ListContent(groups, claims)
    {
      content := "";
      for gi := 0 to |groups|
        invariant content == ListContent(groups[..gi], claims)
      {
        var group := groups[gi];
        ghost var before := content;
        content := content + ("\n" + group.title + "\n\n");
        ghost var entries := "";
        for ei := 0 to |group.names|
          invariant entries == Concat(EntryLines(group.names[..ei], claims))
          invariant content == before + GroupHeader(group) + entries
        {
          var efsane := group.names[ei];
          var status: string;
          if efsane.key in claims {
            status := efsane.key + " » <@" + claims[efsane.key].userId + ">";
          } else {
            status := "**" + efsane.key + "** **» N/A**";
          }
          var line := efsane.emoji + " " + status + efsane.extra + "\n";
          assert line == EntryLine(efsane, claims);
          EntryLinesSnoc(group.names, ei, claims);
          AppendAssoc(before + GroupHeader(group), entries, line);
          entries := entries + line;
          content := content + line;
        }
        assert group.names[..|group.names|] == group.names;
        ListContentSnoc(groups, gi, claims);
        AppendAssoc(before, GroupHeader(group), entries);
      }
      assert groups[..|groups|] == groups;
    }

    /** The messages `updateListMessage` sends for one roster: header, roster and
        rules, cut into parts of at most MAX_CHARS at line ends (unless one line
        alone is longer) and trimmed. The fallback for an empty result is never
        taken, and a text that fits goes out as one message. */
    method ListMessageParts(header: string, groups: seq<Group>) returns (parts: seq<string>)
      ensures parts == TrimmedTexts(Chunks(Split(header + ListContent(groups, claims) + RULE_BLOCK, '\n'), MAX_CHARS))
      ensures |parts| >= 1
      ensures |header + ListContent(groups, claims) + RULE_BLOCK| + 1 <= MAX_CHARS ==>
                parts == [Trim(header + ListContent(groups, claims) + RULE_BLOCK + "\n")]
    {
      var body := GenerateListContent(groups);
      var fullContent := header + body + RULE_BLOCK;
      var lines := Split(fullContent, '\n');
      parts := PackLines(lines, MAX_CHARS);
      if |parts| == 0 {
        parts := [header + RULE_BLOCK + EMPTY_LIST_NOTE];
      }
      if |fullContent| + 1 <= MAX_CHARS {
        FitsInOnePart(fullContent, MAX_CHARS);
      }
    }

    /** `updateEfsaneListMessage`: the Code-Man roster under its own header. */
    method EfsaneListParts(groups: seq<Group>) returns (parts: seq<string>)
      ensures parts == TrimmedTexts(Chunks(Split(EFSANE_HEADER + ListContent(groups, claims) + RULE_BLOCK, '\n'), MAX_CHARS))
      ensures |parts| >= 1
      ensures |EFSANE_HEADER + ListContent(groups, claims) + RULE_BLOCK| + 1 <= MAX_CHARS ==>
                parts == [Trim(EFSANE_HEADER + ListContent(groups, claims) + RULE_BLOCK + "\n")]
    {
      parts := ListMessageParts(EFSANE_HEADER, groups);
    }

    /** `updateEfsaneviDunyaListMessage`: the Efsanevi Dünya roster under its own header. */
    method EfsaneviDunyaListParts(groups: seq<Group>) returns (parts: seq<string>)
      ensures parts == TrimmedTexts(Chunks(Split(EFSANEVI_DUNYA_HEADER + ListContent(groups, claims) + RULE_BLOCK, '\n'), MAX_CHARS))
      ensures |parts| >= 1
      ensures |EFSANEVI_DUNYA_HEADER + ListContent(groups, claims) + RULE_BLOCK| + 1 <= MAX_CHARS ==>
                parts == [Trim(EFSANEVI_DUNYA_HEADER + ListContent(groups, claims) + RULE_BLOCK + "\n")]
    {
      parts := ListMessageParts(EFSANEVI_DUNYA_HEADER, groups);
    }
  }
}
