/** The commit dialog: a message, a tag being typed, and the tags added so far.

    Adding a tag takes the trimmed input, and only when it is non-empty and
    not already present; removing a tag drops every copy of it. Submitting
    needs a message that is not all whitespace, hands the trimmed message
    and the tags to the caller, and clears the dialog.
 */
module CommitModal {
  import opened Wrappers
  import opened Strings

  datatype ModalState = ModalState(message: string, tagInput: string, tags: seq<string>)

  /** What the dialog hands to `onCommit`. */
  datatype Submission = Submission(message: string, tags: seq<string>)

  datatype SubmitStep = SubmitStep(state: ModalState, submitted: Option<Submission>)

  const EmptyModal := ModalState("", "", [])

  /** A key press: the key's name and whether Ctrl was held. */
  datatype KeyPress = KeyPress(key: string, ctrlKey: bool)

  predicate Distinct(s: seq<string>) {
    forall i, j :: 0 <= i < j < |s| ==> s[i] != s[j]
  }

  /** What the dialog's own handlers keep true of the tag list. */
  predicate TagsWellFormed(tags: seq<string>) {
    && Distinct(tags)
    && (forall i :: 0 <= i < |tags| ==> tags[i] != "" && IsTrimmed(tags[i]))
  }

  predicate AddTagDisabled(m: ModalState) {
    Trim(m.tagInput) == ""
  }

  predicate SubmitDisabled(m: ModalState, isLoading: bool) {
    Trim(m.message) == "" || isLoading
  }

  /** `handleAddTag`. */
  function AddTag(m: ModalState): (r: ModalState)
    ensures r.message == m.message
    ensures r.tags == m.tags || r.tags == m.tags + [Trim(m.tagInput)]
    ensures r.tags != m.tags <==> !AllWhitespace(m.tagInput) && Trim(m.tagInput) !in m.tags
    ensures r.tags != m.tags ==> r.tagInput == ""
    ensures r.tags == m.tags ==> r == m
    ensures TagsWellFormed(m.tags) ==> TagsWellFormed(r.tags)
  {
    var t := Trim(m.tagInput);
    if t != "" && t !in m.tags then
      AppendKeepsWellFormed(m.tags, t);
      assert |m.tags + [t]| != |m.tags|;
      m.(tags := m.tags + [t], tagInput := "")
    else
      m
  }

  lemma AppendKeepsWellFormed(s: seq<string>, x: string)
    requires x != "" && IsTrimmed(x) && x !in s
    ensures TagsWellFormed(s) ==> TagsWellFormed(s + [x])
  {
    if TagsWellFormed(s) {
      forall i, j | 0 <= i < j < |s + [x]| ensures (s + [x])[i] != (s + [x])[j] {
        if j == |s| {
          assert s[i] in s;
        }
      }
    }
  }

  /** Every tag but `tag`, in order. */
  function Without(tags: seq<string>, tag: string): (r: seq<string>)
    ensures multiset(r) == multiset(tags)[tag := 0]
  {
    if tags == [] then []
    else
      var rest := Without(tags[1..], tag);
      assert tags == [tags[0]] + tags[1..];
      if tags[0] == tag then rest else [tags[0]] + rest
  }

  lemma WithoutMembers(tags: seq<string>, tag: string)
    ensures forall t :: t in Without(tags, tag) <==> t in tags && t != tag
  {
    var r := Without(tags, tag);
    forall t ensures t in r <==> t in tags && t != tag {
      assert t in r <==> multiset(r)[t] > 0;
      assert t in tags <==> multiset(tags)[t] > 0;
    }
  }

  lemma {:induction false} WithoutKeepsDistinct(tags: seq<string>, tag: string)
    ensures Distinct(tags) ==> Distinct(Without(tags, tag))
    decreases |tags|
  {
    if tags != [] && Distinct(tags) {
      var rest := Without(tags[1..], tag);
      assert Distinct(tags[1..]) by {
        forall i, j | 0 <= i < j < |tags[1..]| ensures tags[1..][i] != tags[1..][j] {
          assert tags[1..][i] == tags[i + 1] && tags[1..][j] == tags[j + 1];
        }
      }
      WithoutKeepsDistinct(tags[1..], tag);
      WithoutMembers(tags[1..], tag);
      DistinctCons(tags, rest);
    }
  }

  /** Removal commutes with concatenation, so it keeps the remaining tags' order. */
  lemma {:induction false} WithoutAppend(xs: seq<string>, ys: seq<string>, tag: string)
    ensures Without(xs + ys, tag) == Without(xs, tag) + Without(ys, tag)
    decreases |xs|
  {
    if xs == [] {
      assert xs + ys == ys;
    } else {
      assert (xs + ys)[1..] == xs[1..] + ys;
      WithoutAppend(xs[1..], ys, tag);
    }
  }

  lemma {:induction false} WithoutAbsent(tags: seq<string>, tag: string)
    requires tag !in tags
    ensures Without(tags, tag) == tags
    decreases |tags|
  {
    if tags != [] {
      assert tags[0] in tags;
      assert forall t :: t in tags[1..] ==> t in tags;
      WithoutAbsent(tags[1..], tag);
    }
  }

  lemma DistinctCons(tags: seq<string>, rest: seq<string>)
    requires tags != []
    requires Distinct(tags) ==> Distinct(rest)
    requires forall t :: t in rest ==> t in tags[1..]
    ensures Distinct(tags) ==> Distinct([tags[0]] + rest)
  {
    if Distinct(tags) {
      assert tags[0] !in tags[1..] by {
        forall k | 0 <= k < |tags[1..]| ensures tags[1..][k] != tags[0] {
          assert tags[1..][k] == tags[k + 1];
        }
      }
      var s := [tags[0]] + rest;
      forall i, j | 0 <= i < j < |s| ensures s[i] != s[j] {
        if i == 0 {
          assert s[j] == rest[j - 1];
          assert rest[j - 1] in rest;
        } else {
          assert s[i] == rest[i - 1] && s[j] == rest[j - 1];
        }
      }
    }
  }

  /** `handleRemoveTag`. */
  function RemoveTag(m: ModalState, tag: string): (r: ModalState)
    ensures r.message == m.message && r.tagInput == m.tagInput
    ensures tag !in r.tags
    ensures forall t :: t != tag ==> (t in r.tags <==> t in m.tags)
    ensures multiset(r.tags) == multiset(m.tags)[tag := 0]
    ensures TagsWellFormed(m.tags) ==> TagsWellFormed(r.tags)
  {
    var tags := Without(m.tags, tag);
    WithoutMembers(m.tags, tag);
    WithoutKeepsDistinct(m.tags, tag);
    assert forall i :: 0 <= i < |tags| ==> tags[i] in m.tags;
    m.(tags := tags)
  }

  /** `handleSubmit`. */
  function Submit(m: ModalState): (r: SubmitStep)
    ensures r.submitted.Some? <==> !AllWhitespace(m.message)
    ensures r.submitted.Some? ==>
              && r.submitted.value.message != ""
              && IsTrimmed(r.submitted.value.message)
              && r.submitted.value.message == Trim(m.message)
              && r.submitted.value.tags == m.tags
              && r.state == EmptyModal
    ensures r.submitted.None? ==> r.state == m
  {
    var text := Trim(m.message);
    if text != "" then SubmitStep(EmptyModal, Some(Submission(text, m.tags)))
    else SubmitStep(m, None)
  }

  /** `handleKeyPress` on the message box: Ctrl+Enter submits a message
      that is not all whitespace; every other key, and the shortcut on a
      blank message, leaves the dialog as it is. */
  function MessageKeyDown(m: ModalState, k: KeyPress): (r: SubmitStep)
    ensures r.submitted.Some? <==> k.key == "Enter" && k.ctrlKey && !AllWhitespace(m.message)
    ensures r.submitted.Some? ==>
              && r.submitted.value == Submission(Trim(m.message), m.tags)
              && r.state == EmptyModal
    ensures r.submitted.None? ==> r.state == m
  {
    if k.key == "Enter" && k.ctrlKey then Submit(m) else SubmitStep(m, None)
  }

  /** The tag box: Enter adds the trimmed input when it is non-empty and
      new, and clears the box; otherwise the dialog is unchanged. */
  function TagKeyDown(m: ModalState, k: KeyPress): (r: ModalState)
    ensures r.message == m.message
    ensures r != m <==> k.key == "Enter" && !AllWhitespace(m.tagInput) && Trim(m.tagInput) !in m.tags
    ensures r != m ==> r.tags == m.tags + [Trim(m.tagInput)] && r.tagInput == ""
  {
    if k.key == "Enter" then AddTag(m) else m
  }

  /** What the user can do in the dialog. */
  datatype Event =
    | EditMessage(text: string)
    | EditTagInput(text: string)
    | AddTagClicked
    | RemoveTagClicked(tag: string)
    | SubmitClicked
    | MessageKey(press: KeyPress)
    | TagKey(press: KeyPress)

  function Apply(m: ModalState, e: Event): SubmitStep {
    match e
    case EditMessage(text) => SubmitStep(m.(message := text), None)
    case EditTagInput(text) => SubmitStep(m.(tagInput := text), None)
    case AddTagClicked => SubmitStep(AddTag(m), None)
    case RemoveTagClicked(tag) => SubmitStep(RemoveTag(m, tag), None)
    case SubmitClicked => Submit(m)
    case MessageKey(press) => MessageKeyDown(m, press)
    case TagKey(press) => SubmitStep(TagKeyDown(m, press), None)
  }

  datatype Trace = Trace(state: ModalState, submissions: seq<Submission>)

  /** The dialog after a sequence of events, with every commit it handed over. */
  function Run(m: ModalState, events: seq<Event>): Trace
    decreases |events|
  {
    if events == [] then Trace(m, [])
    else
      var step := Apply(m, events[0]);
      var rest := Run(step.state, events[1..]);
      Trace(rest.state, (if step.submitted.Some? then [step.submitted.value] else []) + rest.submissions)
  }

  predicate GoodSubmission(s: Submission) {
    s.message != "" && IsTrimmed(s.message) && TagsWellFormed(s.tags)
  }

  /** Starting from well-formed tags (the empty dialog, say), no sequence of
      events produces a duplicate, empty or untrimmed tag, and every
      submitted commit carries a trimmed non-empty message. */
  lemma {:induction false} RunKeepsTagsWellFormed(m: ModalState, events: seq<Event>)
    requires TagsWellFormed(m.tags)
    ensures TagsWellFormed(Run(m, events).state.tags)
    ensures forall x :: x in Run(m, events).submissions ==> GoodSubmission(x)
    decreases |events|
  {
    if events != [] {
      var step := Apply(m, events[0]);
      ApplyKeepsTagsWellFormed(m, events[0]);
      RunKeepsTagsWellFormed(step.state, events[1..]);
      var rest := Run(step.state, events[1..]);
      var head := if step.submitted.Some? then [step.submitted.value] else [];
      assert Run(m, events).submissions == head + rest.submissions;
    }
  }

  lemma ApplyKeepsTagsWellFormed(m: ModalState, e: Event)
    requires TagsWellFormed(m.tags)
    ensures TagsWellFormed(Apply(m, e).state.tags)
    ensures Apply(m, e).submitted.Some? ==> GoodSubmission(Apply(m, e).submitted.value)
  {
  }

  /** Adding a new tag and then removing it gives back the tag list. */
  lemma AddThenRemove(m: ModalState)
    requires !AddTagDisabled(m) && Trim(m.tagInput) !in m.tags
    ensures RemoveTag(AddTag(m), Trim(m.tagInput)).tags == m.tags
  {
    var t := Trim(m.tagInput);
    assert AddTag(m).tags == m.tags + [t];
    WithoutAppend(m.tags, [t], t);
    WithoutAbsent(m.tags, t);
    assert Without([t], t) == [];
  }

  /** Adding the same input twice adds it once. */
  lemma AddTagIdempotent(m: ModalState)
    ensures AddTag(AddTag(m)).tags == AddTag(m).tags
  {
  }

  /** The commit button is enabled, when nothing is loading, exactly when
      its handler submits. */
  lemma SubmitButtonMatchesHandler(m: ModalState)
    ensures !SubmitDisabled(m, false) <==> Submit(m).submitted.Some?
  {
  }

  /** The keyboard shortcut does not consult the loading flag that disables
      the button: while a commit is in flight it still submits. */
  lemma ShortcutIgnoresLoading(m: ModalState)
    requires !AllWhitespace(m.message)
    ensures SubmitDisabled(m, true)
    ensures MessageKeyDown(m, KeyPress("Enter", true)).submitted.Some?
  {
  }
}
