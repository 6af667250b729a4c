# Efsane roster bot — Dafny model

A Discord bot for a role-play server keeps two rosters of characters ("efsane")
that members may claim. A member applies with `/efsane-basvuru` in the
application channel and fills a form. The form goes to a moderation channel
with approve and reject buttons. An approval assigns the character, and the
member may give it up with `/efsane-birak`, but only 48 hours after the claim.
Administrators wipe everything with `/soysifirla`. The bot re-posts both
rosters, cut into messages of at most 1950 characters unless one line alone
is longer, and deletes posts in
the roster channels and stray posts in the application channel.

This project models that core of `bot.js`:

- the two global maps, `CLAIMED_EFSANE_NAMES` (character ↦ owner and claim
  instant) and `PENDING_APPLICATIONS` (user ↦ waiting application), as the
  fields of the class `Roster.Store`. A third field keeps the insertion order
  that a JavaScript `Map` iterates in. A ghost field holds what the data file
  contains after the last save. The store's methods are the functions that
  change the maps and the decisions of the command, form and button handlers;
- the 48-hour cooldown arithmetic (`Cooldown`);
- the component ids `approve_<user>`, `reject_<user>` and `efsane_form_<user>`,
  read back with `split('_')` (`CustomIds`);
- the roster text of `generateListContent`, as specification functions
  (`Render`) and as the nested loop (`Roster.Store.GenerateListContent`);
- the greedy line packing of `updateListMessage`, as specification functions
  and lemmas plus the loop (`Paginate.PackLines`);
- the channel rules of `/efsane-basvuru` and of `messageCreate` (`Channels`);
- the JavaScript string operations the bot relies on: `trim`, `toLowerCase`,
  `includes`, `startsWith` and `split` (`Text`). The bot never calls `join`;
  `Text.Join` serves only to state the round trip of `split`;
- whole interactions on a fresh store (`Scenarios`).

`Date.now()` is the parameter `now`, in milliseconds. Discord ids are strings.
Whether the moderation message could be sent is the parameter
`sentMessageId`. The character name read from the moderation message's embed
is the parameter `embedName`. Being an administrator is the parameter `isAdmin`.

Three behaviours of the code are worth knowing; the model keeps them as written:

- Nothing enforces "one character per user". The application guard checks it
  only when the form is opened. Approval takes the name from the moderation
  message and checks neither the pending application nor current ownership.
  Claiming overwrites any earlier owner of the name. `Scenarios.TwoFormsTwoCharacters`
  shows a user ending up with two characters.
  `Records.ApproveKeepsConsistent` states the condition under which the
  discipline survives.
- The "no content" fallback of the paginator is never taken. Splitting
  always yields at least one line, so at least one part is produced. An empty
  text gives one empty part, not the placeholder message.
- The list type given to `/soysifirla` only changes the confirmation text.
  Every reset clears both rosters.

## Model

| member | source | states |
|---|---|---|
| Text.TrimIsSlice | bot.js:672-674 | `trim` keeps a contiguous slice of the input; everything it drops is whitespace at either end; the result has no whitespace at either end |
| Text.TrimKeepsTrimmed | bot.js:724 | a string with no whitespace at either end is its own trim |
| Text.TrimLower | bot.js:674 | trimming and lower-casing commute, for every string |
| Text.ContainsLength | bot.js:679 | `includes` can only find a substring no longer than the string |
| Text.JoinSplit | bot.js:354 | joining the pieces of `split(sep)` with `sep` gives back the original text |
| Text.SplitPiecesHaveNoSep | bot.js:354 | no piece of a split contains the separator |
| Text.SplitAtSep | bot.js:354 | splitting at a separator splits the two sides independently |
| CustomIds.ParseButton | bot.js:710-717 | a button is handled exactly when its id starts with `approve_` or `reject_`; it approves exactly for `approve_`; the user is the second `_`-piece of the id |
| CustomIds.ParseFormUser | bot.js:668-669 | a form is handled exactly when its id starts with `efsane_form_`; the user is the third `_`-piece of the id |
| CustomIds.ButtonRoundTrip | bot.js:430-436 | for a user id without `_`, the ids put on the approve and reject buttons parse back to that user with the right action |
| CustomIds.FormRoundTrip | bot.js:592 | for a user id without `_`, the form id parses back to that user |
| CustomIds.ButtonKeepsFirstPiece | bot.js:717 | for any user id, the approve button yields only the part before its first `_` |
| Records.ClaimKeepsOneClaimPerUserIff | bot.js:102-107 | claiming a name keeps "one character per user" exactly when the user owns no other name |
| Records.ApproveKeepsConsistent | bot.js:731-741 | approval keeps one-character-per-user and no-owner-waiting when the applicant owned nothing beforehand |
| Records.ApproveForHolderBreaksOneClaimPerUser | bot.js:716-741 | approving a user who already owns another character leaves that user owning two |
| Records.SubmitKeepsConsistent | bot.js:698-705 | recording an application from a user who owns nothing keeps the discipline |
| Records.RemovalKeepsConsistent | bot.js:112-116 | releasing a character, or dropping an application, keeps the discipline |
| Cooldown.CeilDiv | bot.js:656-657 | `Math.ceil(a / b)` is the least `q` with `a <= q * b` |
| Cooldown.RemainingHoursInRange | bot.js:655-658 | while the cooldown runs on a claim not dated in the future, the reported hours are 1 to 48 and are the whole hours covering the time left |
| Cooldown.OneHourAfterClaim | bot.js:655-658 | one hour after the claim the release is refused with 47 hours left |
| Cooldown.CooldownBoundary | bot.js:652-655 | the cooldown ends exactly 48 hours after the claim |
| Render.EntryLinesSnoc | bot.js:304 | the lines of one more entry are the previous lines followed by its line |
| Render.ListContentSnoc | bot.js:281-306 | the roster of one more group is the previous roster followed by the group's text |
| Render.ListContentAppend | bot.js:279-308 | the roster of two group lists is the concatenation of their rosters |
| Render.ListContentReadsListedOwners | bot.js:284-302 | the roster depends only on whether each listed name is claimed and by whom: not on claim dates, unlisted names or applications |
| Render.UnlistedClaimInvisible | bot.js:284 | claiming or releasing a name no group lists leaves the roster unchanged |
| Render.EntryLineShown | bot.js:283-304 | every listed entry's line, with its current owner or "N/A", occurs in the roster, so a name listed on both rosters shows the same owner on both |
| Paginate.LinesTextSnoc | bot.js:361 | adding a line to a part appends the line and a newline |
| Paginate.LinesTextEmpty | bot.js:363 | a part's text is empty exactly when it has no lines |
| Paginate.StepClosingPackedWell | bot.js:357-360 | closing the open part when the next line would not fit keeps the packing invariant, and the closed part was closed greedily |
| Paginate.StepExtendingPackedWell | bot.js:361 | adding the line to the open part keeps the packing invariant |
| Paginate.StepPackedWell | bot.js:356-362 | one step of the loop keeps the packing invariant: the parts cover the lines read so far, every part fits, and every closed part was closed greedily |
| Paginate.PackPackedWell | bot.js:356-362 | the packing invariant holds after any number of lines |
| Paginate.ChunksCoverLines | bot.js:356-365 | no line is split or lost: the parts, in order, are exactly the input lines |
| Paginate.ChunksBounded | bot.js:357-365 | every part has a line and fits in the limit unless it is one overlong line; a non-empty input gives at least one part |
| Paginate.ChunksGreedy | bot.js:357 | a part is closed only when the next line would not have fitted into it |
| Paginate.RawTextsJoin | bot.js:363-364 | the untrimmed parts put together are every line of every part, newline-terminated |
| Paginate.LinesTextOfSplit | bot.js:354 | re-terminating the lines of a split text gives the text plus one newline |
| Paginate.FitsInOnePart | bot.js:351-365 | a text no longer than the limit once its final newline is counted is sent as exactly one part, the trimmed text |
| Paginate.PaginateReassembles | bot.js:354-368 | the untrimmed parts put together are the text plus a final newline, and there is always a part, so the fallback is never needed |
| Paginate.ChunkFitsWhenLinesFit | bot.js:357 | when every line fits, every part fits |
| Paginate.PartCountLowerBound | bot.js:351-365 | when every line fits, the parts times the limit cover the text plus its final newline |
| Paginate.FiveThousandCharacters | bot.js:351 | 5000 characters of short lines need at least three messages of 1950 characters |
| Paginate.PackLines | bot.js:351-365 | the loop sends exactly the trimmed parts of the greedy packing, and at least one for a non-empty input |
| Channels.ApprovalChannelShared | bot.js:694 | both rosters are moderated in the same channel |
| Channels.ApplyCommandOnlyInApplyChannel | bot.js:566-575 | `/efsane-basvuru` goes ahead exactly in the application channel and is refused as such exactly in the roster channels |
| Channels.ApplyCommandStartsWithSlash | bot.js:788-791 | a text starting with the apply command starts with `/` |
| Channels.MessageDeletedIff | bot.js:763-801 | a user message is deleted exactly when posted in a roster channel (administrators included), or in the application channel by a known non-administrator without the apply command at its start |
| Roster.TreeAnswerCapitals | bot.js:674-679 | the tree answer "EFSANEVI DÜNYA" counts as Efsanevi Dünya: the comparison ignores capitals |
| Roster.TreeAnswerInLongerText | bot.js:674-679 | an answer that contains "Efsanevi Dünya" inside a longer text counts as Efsanevi Dünya |
| Roster.TreeAnswerIgnoresCapitals | bot.js:674-679 | for every answer, the answer and its lower-cased form select the same roster: capitals never matter |
| Roster.TreeAnswerCodeman | bot.js:674-679 | the answer "Codeman" does not count as Efsanevi Dünya |
| Roster.Without | bot.js:113 | deleting a key from the insertion order keeps exactly the other keys |
| Roster.WithoutKeepsDistinct | bot.js:113 | deleting a key keeps the insertion order free of repetitions |
| Roster.Store.constructor | bot.js:76-78 | without a data file, both maps start empty and the empty state is saved |
| Roster.Store.SaveEfsaneData | bot.js:87-97 | after a save the file holds both maps |
| Roster.Store.ClaimEfsane | bot.js:102-107 | the name belongs to the user from `now`, overwriting any owner; nothing else changes; a new name goes last in iteration order; the state is saved |
| Roster.Store.UnclaimEfsane | bot.js:112-116 | exactly that name loses its owner; applications are untouched; the state is saved |
| Roster.Store.ResetAllEfsaneData | bot.js:122-128 | both maps are empty and saved, whatever the list type |
| Roster.Store.UserIsClaimed | bot.js:579 | true exactly when some claim belongs to the user |
| Roster.Store.FindClaimOf | bot.js:644 | none exactly when the user owns nothing; otherwise a name the user owns, and the first such in iteration order |
| Roster.Store.Apply | bot.js:561-593 | refused in the roster channels and outside the application channel, as the channel rule `Channels.ApplyCommandChannel` decides; then refused for an owner, checked first, and for a user with a waiting application; otherwise the form with the user's form id; nothing changes |
| Roster.Store.SubmitForm | bot.js:666-707 | for a form id, the application goes to the roster's moderation channel and is recorded for the user in the id, with the trimmed name, the sent message and the tree flag, only if the message was sent; claims never change; the state is saved |
| Roster.Store.PressButton | bot.js:708-750 | only approve/reject ids, only administrators, only with a non-empty embed name, and otherwise nothing changes; then the user's application is dropped whether present or not, and approval alone claims the embed name for the user, a new name going to the end of the claim order and an existing one keeping its place |
| Roster.Store.Release | bot.js:641-664 | no claim: refused; within 48 hours of the first owned claim in iteration order: refused with the hours left, nothing changes; otherwise exactly that claim is removed, from the claims and from the claim order |
| Roster.Store.Reset | bot.js:527-545 | administrators only and only for a known list type; then every claim and application is removed and the confirmation names the list |
| Roster.Store.GenerateListContent | bot.js:279-308 | the nested loop builds exactly the roster text of the groups for the current claims |
| Roster.Store.ListMessageParts | bot.js:323-368 | the messages are the trimmed greedy parts of header, roster and rules split at newlines; there is at least one; a text that fits with its final newline goes out as exactly one message, the text trimmed |
| Roster.Store.EfsaneListParts | bot.js:381-384 | the Code-Man roster goes out under its own header, as those messages |
| Roster.Store.EfsaneviDunyaListParts | bot.js:386-389 | the Efsanevi Dünya roster goes out under its own header, as those messages |
| Scenarios.ApplySubmitApprove | bot.js:561-750 | apply, submit and approve leave the user owning the character from that instant, with no application left, and the saved file holds exactly that |
| Scenarios.ReleaseEarlyThenLate | bot.js:641-664 | a release one hour after the claim reports 47 hours and keeps it; one 48 hours after frees it |
| Scenarios.ApplyWhilePending | bot.js:581-588 | a user with a waiting application cannot open a second form |
| Scenarios.ThreeClaims | bot.js:102-107 | three claims by three users leave exactly those three names claimed and nothing pending |
| Scenarios.ThreeClaimsTwoApplications | bot.js:698-705 | two sent forms on top of three claims leave both applicants pending and the claims as they were |
| Scenarios.ResetEverything | bot.js:527-545 | a reset of one list with three claims and two applications leaves none of either, and the saved file holds two empty maps |
| Scenarios.OpenFormTwice | bot.js:577-593 | with nothing pending a user gets the form on every request |
| Scenarios.TwoFormsSent | bot.js:577-707 | with nothing pending the guard shows the form twice; both forms are sent, the second application replaces the first, and nobody owns anything yet |
| Scenarios.TwoFormsTwoCharacters | bot.js:577-741 | the guard shows the form twice, and having both forms approved leaves one user owning two characters |
| Scenarios.ReleaseAfterTwoApprovals | bot.js:641-664 | after both approvals, a release 48 hours later frees the character approved first and keeps the other |

## Left out

- Loading an existing data file (`loadEfsaneData`, bot.js:64-82) and JSON serialisation: file I/O. The store starts on the no-file path; saving is a ghost snapshot of both maps.
- The discord.js plumbing: the client, embeds, buttons, modals, slash-command registration, replies, message edits and deletions. Each handler keeps only its decision and its effect on the maps. Replies are result values, not text, except the `/soysifirla` confirmation.
- `/yenile` (bot.js:549-558): an administrator check followed by a refresh, with no effect on the state.
- Re-posting the rosters: fetching, bulk-deleting and sending messages, the 500 ms pause, the five-minute `setInterval` refresh and the fire-and-forget `updateAllLists` (bot.js:334-348, 370-398, 516). These are network I/O and timing. `Roster.Store.ListMessageParts` computes what would be sent.
- The HTTP keep-alive server and the process error handlers (bot.js:806 onwards).
- The character taxonomies (bot.js:134-275): the renderer takes any sequence of groups.
- The form fields that are sent for moderation but never stored (boost, universe, powers).
- The unused pending lookup and hour computation inside `generateListContent` (bot.js:286, 291-294): they do not affect the text.
- The two `Date.now()` readings in `/efsane-birak` (bot.js:655-656) are one instant `now`.
- Text.IsSpace: recognises ASCII whitespace, NO-BREAK SPACE and the byte-order mark, not every Unicode space that `trim` removes.
- Text.LowerChar: lowers ASCII and Latin-1 capitals only, not the full Unicode case mapping of `toLowerCase`.
- Roster.Store.PressButton: a moderation message with no embed at all makes `interaction.message.embeds[0].fields` throw a TypeError before any reply (bot.js:723); the model answers `NoCharacterName` for it, as for an embed without the name field. The state is unchanged in both cases.
- Paginate.PackLines: lengths are counted in characters, not in the UTF-16 code units of JavaScript `length`.
