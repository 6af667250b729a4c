// The component identifiers the bot attaches to its buttons and its form
// (`approve_<user>`, `reject_<user>`, `efsane_form_<user>`) and the way the
// handlers read the user back with `customId.split('_')[i]`.

module CustomIds {
  import opened Options
  import opened Text

  const APPROVE_PREFIX: string := "approve_"
  const REJECT_PREFIX: string := "reject_"
  const FORM_PREFIX: string := "efsane_form_"

  function ApproveId(userId: string): string { APPROVE_PREFIX + userId }
  function RejectId(userId: string): string { REJECT_PREFIX + userId }
  function FormId(userId: string): string { FORM_PREFIX + userId }

  /** `s.split('_')[i]`, which is `undefined` past the last piece. */
  function Piece(s: string, i: nat): Option<string>
  {
    var pieces := Split(s, '_');
    if i < |pieces| then Some(pieces[i]) else None
  }

  /** What a moderator's button press asks for. */
  datatype ButtonAction = ButtonAction(isApprove: bool, userId: string)

  /** The button dispatch: only `approve_…` and `reject_…` are handled, and the
      user is the second `_`-separated piece, which always exists for them. */
  function ParseButton(customId: string): (r: Option<ButtonAction>)
    ensures r.Some? <==> StartsWith(customId, APPROVE_PREFIX) || StartsWith(customId, REJECT_PREFIX)
    ensures r.Some? ==> r.value.isApprove == StartsWith(customId, APPROVE_PREFIX)
    ensures r.Some? ==> Piece(customId, 1) == Some(r.value.userId)
  {
    if StartsWith(customId, APPROVE_PREFIX) then
      PiecesAfterWord("approve", customId);
      Some(ButtonAction(true, Piece(customId, 1).value))
    else if StartsWith(customId, REJECT_PREFIX) then
      PiecesAfterWord("reject", customId);
      Some(ButtonAction(false, Piece(customId, 1).value))
    else
      None
  }

  /** The form dispatch: only `efsane_form_…` is handled, and the user is the
      third `_`-separated piece, which always exists for it. */
  function ParseFormUser(customId: string): (r: Option<string>)
    ensures r.Some? <==> StartsWith(customId, FORM_PREFIX)
    ensures r.Some? ==> Piece(customId, 2) == r
  {
    if StartsWith(customId, FORM_PREFIX) then
      FormPieces(customId);
      Piece(customId, 2)
    else
      None
  }

  /** A form id splits into `efsane`, `form` and the pieces of what follows the prefix. */
  lemma FormPieces(customId: string)
    requires StartsWith(customId, FORM_PREFIX)
    ensures Split(customId, '_') == ["efsane", "form"] + Split(customId[12..], '_')
  {
    var rest := customId[7..];
    assert StartsWith(customId, "efsane" + "_") by {
      assert customId[..7] == customId[..12][..7];
    }
    PiecesAfterWord("efsane", customId);
    assert StartsWith(rest, "form" + "_") by {
      assert rest[..5] == customId[..12][7..];
    }
    PiecesAfterWord("form", rest);
    assert rest[5..] == customId[12..];
  }

  /** A string that starts with a word and `_` splits into that word and the pieces after it. */
  lemma PiecesAfterWord(w: string, s: string)
    requires '_' !in w && StartsWith(s, w + "_")
    ensures Split(s, '_') == [w] + Split(s[|w| + 1..], '_')
  {
    assert s == w + ['_'] + s[|w| + 1..];
    SplitAtSep(w, s[|w| + 1..], '_');
    SplitWithoutSep(w, '_');
  }

  /** The user id put into a button comes back out of it, for ids without `_`
      (the platform's numeric user ids). */
  lemma {:induction false} ButtonRoundTrip(userId: string)
    requires '_' !in userId
    ensures ParseButton(ApproveId(userId)) == Some(ButtonAction(true, userId))
    ensures ParseButton(RejectId(userId)) == Some(ButtonAction(false, userId))
  {
    assert ApproveId(userId)[|"approve"| + 1..] == userId;
    assert StartsWith(ApproveId(userId), "approve" + "_");
    PiecesAfterWord("approve", ApproveId(userId));
    assert !StartsWith(RejectId(userId), APPROVE_PREFIX) by {
      assert RejectId(userId)[0] == 'r';
    }
    assert RejectId(userId)[|"reject"| + 1..] == userId;
    assert StartsWith(RejectId(userId), "reject" + "_");
    PiecesAfterWord("reject", RejectId(userId));
    SplitWithoutSep(userId, '_');
  }

  /** The user id put into the form id comes back out of it, for ids without `_`. */
  lemma {:induction false} FormRoundTrip(userId: string)
    requires '_' !in userId
    ensures ParseFormUser(FormId(userId)) == Some(userId)
  {
    var id := FormId(userId);
    assert StartsWith(id, "efsane" + "_");
    PiecesAfterWord("efsane", id);
    assert id[7..] == "form_" + userId;
    assert StartsWith(id[7..], "form" + "_");
    PiecesAfterWord("form", id[7..]);
    assert id[7..][5..] == userId;
    SplitWithoutSep(userId, '_');
  }

  /** For any id, the approve button yields only the part of the id before its
      first `_`: a user id containing `_` would not round-trip. */
  lemma {:induction false} ButtonKeepsFirstPiece(userId: string)
    ensures ParseButton(ApproveId(userId)) == Some(ButtonAction(true, Split(userId, '_')[0]))
  {
    assert ApproveId(userId)[|"approve"| + 1..] == userId;
    assert StartsWith(ApproveId(userId), "approve" + "_");
    PiecesAfterWord("approve", ApproveId(userId));
  }
}
