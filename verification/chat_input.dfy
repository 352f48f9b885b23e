/** The message box under the chat (client-side/src/components/Chat/ChatInput.tsx):
    a draft string, a submit guard, the Enter-key rule and the send button. */
module ChatInput {
  import opened Maybe
  import opened Text

  /** What a submit does: the draft left in the box and the text handed to
      `onSendMessage`, if any. */
  datatype Submission = Submission(draft: string, sent: Option<string>)

  /** A key press as the handler sees it. */
  datatype KeyPress = KeyPress(key: string, shiftKey: bool)

  /** `handleSubmit`: a draft whose trimmed text is non-empty is sent trimmed,
      unless the box is disabled, and the box is then cleared. */
  function Submit(draft: string, disabled: bool): (r: Submission)
    ensures r.sent.Some? <==> !disabled && !AllSpace(draft)
    ensures r.sent.Some? ==> r.sent.value == Trim(draft) && r.sent.value != [] && r.draft == []
    ensures r.sent.None? ==> r.draft == draft
  {
    var text := Trim(draft);
    if text != [] && !disabled then Submission([], Some(text)) else Submission(draft, None)
  }

  /** Enter submits; Shift+Enter and every other key leave the form alone. */
  predicate SubmitsOn(k: KeyPress)
  {
    k.key == "Enter" && !k.shiftKey
  }

  /** `handleKeyPress`. */
  function OnKeyPress(draft: string, disabled: bool, k: KeyPress): (r: Submission)
    ensures !SubmitsOn(k) ==> r == Submission(draft, None)
    ensures SubmitsOn(k) ==> r == Submit(draft, disabled)
  {
    if SubmitsOn(k) then Submit(draft, disabled) else Submission(draft, None)
  }

  /** The send button's `disabled` attribute: set while the box is disabled or
      the draft is only white space. */
  predicate SendDisabled(draft: string, disabled: bool)
    ensures SendDisabled(draft, disabled) <==> disabled || AllSpace(draft)
  {
    disabled || Trim(draft) == []
  }

  /** What a key press does to the whole form. `handleKeyPress` handles plain
      Enter itself and cancels the browser's default action. Any other Enter
      press is left to the browser, whose implicit submission activates the
      form's submit button; that runs `handleSubmit` only when the button is
      enabled. */
  function KeyEffect(draft: string, disabled: bool, k: KeyPress): (r: Submission)
    ensures k.key != "Enter" ==> r == Submission(draft, None)
    ensures k.key == "Enter" && SendDisabled(draft, disabled) ==> r == Submission(draft, None)
    ensures k.key == "Enter" && !SendDisabled(draft, disabled) ==>
              r.sent == Some(Trim(draft)) && r.draft == []
  {
    if SubmitsOn(k) then OnKeyPress(draft, disabled, k)
    else if k.key == "Enter" && !SendDisabled(draft, disabled) then Submit(draft, disabled)
    else Submission(draft, None)
  }

  /** The button is enabled exactly when pressing it would send something. */
  lemma SendEnabledIffSubmitSends(draft: string, disabled: bool)
    ensures !SendDisabled(draft, disabled) <==> Submit(draft, disabled).sent.Some?
  {
  }

  /** `handleKeyPress` itself never submits on Shift+Enter, whatever the draft. */
  lemma ShiftEnterNeverSends(draft: string, disabled: bool)
    ensures OnKeyPress(draft, disabled, KeyPress("Enter", true)) == Submission(draft, None)
  {
  }

  /** The text sent is already trimmed: re-trimming it changes nothing, and
      sending it again from a fresh box would send the same text. */
  lemma SentTextIsTrimmed(draft: string, disabled: bool)
    requires Submit(draft, disabled).sent.Some?
    ensures Trim(Submit(draft, disabled).sent.value) == Submit(draft, disabled).sent.value
    ensures Submit(Submit(draft, disabled).sent.value, false).sent == Submit(draft, disabled).sent
  {
  }

  /** With or without Shift, Enter has the effect of pressing the send button:
      the two routes to `handleSubmit` agree. */
  lemma EnterActsAsSubmit(draft: string, disabled: bool, shift: bool)
    ensures KeyEffect(draft, disabled, KeyPress("Enter", shift)) == Submit(draft, disabled)
  {
  }
}
