/** The feed's update composer: a text box, a 0..100 progress slider and a post button
    that refuses blank text, posts the trimmed text and clears the form on success. */
module UpdateComposer {
  import opened Wrappers
  import opened Js

  /** The composer's state: the text, the slider value and the posting flag. */
  datatype State = State(content: string, progress: int, isPosting: bool)

  const Init := State("", 0, false)

  /** The payload handed to `onPost` (its ISO timestamp is left opaque). */
  datatype Payload = Payload(content: string, progress: int)

  /** The state after a submit, the payload posted if any, and the toast shown if any. */
  datatype Outcome = Outcome(state: State, posted: Option<Payload>, toast: Option<string>)

  /** The slider's `onChange`: the range input only produces 0..100. */
  function SetProgress(st: State, value: int): (r: State)
    requires 0 <= value <= 100
    ensures r.progress == value && r.content == st.content && r.isPosting == st.isPosting
  {
    st.(progress := value)
  }

  /** The text box's `onChange`. */
  function SetContent(st: State, text: string): (r: State)
    ensures r.content == text && r.progress == st.progress && r.isPosting == st.isPosting
  {
    st.(content := text)
  }

  /** The button's `disabled`: blank text or a post in flight. */
  predicate ButtonDisabled(st: State) {
    Trim(st.content) == "" || st.isPosting
  }

  /** `handleSubmit`, with `postOk` telling whether `onPost` resolved or threw. */
  function Submit(st: State, postOk: bool): (r: Outcome)
    ensures r.posted.None? <==> Blank(st.content)
    ensures r.posted.None? ==> r.state == st && r.toast.None?
    ensures r.posted.Some? ==>
      && r.posted.value.progress == st.progress
      && r.posted.value.content == Trim(st.content)
      && Edged(r.posted.value.content)
      && Infix(r.posted.value.content, st.content)
      && !r.state.isPosting
    ensures r.posted.Some? && postOk ==>
      r.state == State("", 0, false) && r.toast == Some("Update posted successfully!")
    ensures r.posted.Some? && !postOk ==>
      r.state.content == st.content && r.state.progress == st.progress
      && r.toast == Some("Failed to post update")
  {
    if Trim(st.content) == "" then Outcome(st, None, None)
    else
      var payload := Payload(Trim(st.content), st.progress);
      if postOk then Outcome(State("", 0, false), Some(payload), Some("Update posted successfully!"))
      else Outcome(st.(isPosting := false), Some(payload), Some("Failed to post update"))
  }

  /** After a successful post the form is blank, so submitting again posts nothing. */
  lemma NoDoublePost(st: State)
    requires !Blank(st.content)
    ensures Submit(Submit(st, true).state, true).posted.None?
    ensures Submit(st, true).state == Init
  {}

  /** A failed post can be retried as is: the retry posts the very same payload. */
  lemma RetryAfterFailurePostsSamePayload(st: State, again: bool)
    requires !Blank(st.content)
    ensures Submit(Submit(st, false).state, again).posted == Submit(st, false).posted
  {}

  /** The button is enabled exactly when the text is not blank and nothing is in flight. */
  lemma ButtonEnabledIffPostable(st: State)
    ensures !ButtonDisabled(st) <==> !Blank(st.content) && !st.isPosting
  {}

  /** The slider keeps the progress within 0..100 from the initial state on. */
  lemma ProgressStaysInRange(st: State, value: int, text: string, postOk: bool)
    requires 0 <= st.progress <= 100 && 0 <= value <= 100
    ensures 0 <= SetProgress(st, value).progress <= 100
    ensures 0 <= SetContent(st, text).progress <= 100
    ensures 0 <= Submit(st, postOk).state.progress <= 100
  {}
}
