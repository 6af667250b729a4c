// Which channel each feature belongs to, and the two channel rules: where the
// `/efsane-basvuru` command may run, and which user messages the bot deletes.

module Channels {
  import opened Text

  const EFSANE_LIST_CHANNEL_ID: string := "1446488214641574018"
  const EFSANE_ONAY_CHANNEL_ID: string := "1444574724876402740"
  const EFSANEVI_DUNYA_CHANNEL_ID: string := "1446488308778532955"
  const EFSANEVI_DUNYA_ONAY_CHANNEL_ID: string := "1444574724876402740"
  const EFSANE_BASVURU_CHANNEL_ID: string := "1434552801475825675"

  /** The two roster channels, where nobody may post. */
  const RESTRICTED_CHANNELS: seq<string> := [EFSANE_LIST_CHANNEL_ID, EFSANEVI_DUNYA_CHANNEL_ID]

  const APPLY_COMMAND: string := "/efsane-basvuru"

  /** Where an application is sent for moderation. */
  function ApprovalChannel(isEfsaneviDunya: bool): string
  {
    if isEfsaneviDunya then EFSANEVI_DUNYA_ONAY_CHANNEL_ID else EFSANE_ONAY_CHANNEL_ID
  }

  /** Both rosters are moderated in the same channel. */
  lemma ApprovalChannelShared(isEfsaneviDunya: bool)
    ensures ApprovalChannel(isEfsaneviDunya) == ApprovalChannel(!isEfsaneviDunya)
  {
  }

  datatype CommandChannel = InRosterChannel | OutsideApplyChannel | InApplyChannel

  /** Where `/efsane-basvuru` was used: refused in the roster channels, refused
      everywhere but the application channel. */
  function ApplyCommandChannel(channelId: string): CommandChannel
  {
    if channelId in RESTRICTED_CHANNELS then InRosterChannel
    else if channelId != EFSANE_BASVURU_CHANNEL_ID then OutsideApplyChannel
    else InApplyChannel
  }

  /** The command goes ahead exactly in the application channel. */
  lemma ApplyCommandOnlyInApplyChannel(channelId: string)
    ensures ApplyCommandChannel(channelId) == InApplyChannel <==> channelId == EFSANE_BASVURU_CHANNEL_ID
    ensures ApplyCommandChannel(channelId) == InRosterChannel <==> channelId in RESTRICTED_CHANNELS
  {
  }

  datatype MessageAction = Keep | Delete

  /** The `messageCreate` rule. `memberFound` says whether the author could be
      looked up as a server member, `isAdmin` whether that member is an administrator. */
  function MessageRule(isBot: bool, channelId: string, memberFound: bool, isAdmin: bool, content: string): MessageAction
  {
    if isBot then Keep
    else if channelId in RESTRICTED_CHANNELS then Delete
    else if channelId == EFSANE_BASVURU_CHANNEL_ID then
      if !memberFound then Keep
      else if !isAdmin then
        var text := Trim(content);
        if StartsWith(text, "/") && StartsWith(text, APPLY_COMMAND) then Keep else Delete
      else Keep
    else Keep
  }

  lemma StartsWithPrefixOfPrefix(s: string, p: string, q: string)
    requires StartsWith(s, p) && StartsWith(p, q)
    ensures StartsWith(s, q)
  {
    assert s[..|q|] == p[..|q|];
  }

  /** A text that starts with the apply command starts with `/`. */
  lemma ApplyCommandStartsWithSlash(text: string)
    ensures StartsWith(text, APPLY_COMMAND) ==> StartsWith(text, "/")
  {
    if StartsWith(text, APPLY_COMMAND) {
      assert StartsWith(APPLY_COMMAND, "/") by {
        assert APPLY_COMMAND[..1] == "/";
      }
      StartsWithPrefixOfPrefix(text, APPLY_COMMAND, "/");
    }
  }

  /** A user message is deleted exactly when it is posted in a roster channel
      (by anyone, administrators included), or in the application channel by a
      known non-administrator and does not start with the apply command. The
      separate check for a leading `/` adds nothing. */
  lemma MessageDeletedIff(isBot: bool, channelId: string, memberFound: bool, isAdmin: bool, content: string)
    ensures MessageRule(isBot, channelId, memberFound, isAdmin, content) == Delete
        <==> !isBot
             && (channelId in RESTRICTED_CHANNELS
                 || (channelId == EFSANE_BASVURU_CHANNEL_ID && memberFound && !isAdmin
                     && !StartsWith(Trim(content), APPLY_COMMAND)))
  {
    ApplyCommandStartsWithSlash(Trim(content));
  }
}
