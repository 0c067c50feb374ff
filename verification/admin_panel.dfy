/** The admin panel (`AdminPanel`): the new-poll form with its option list editor, poll creation
    with its validation, and the phase buttons. */
module AdminPanel {
  import opened Wrappers
  import opened JsText
  import opened PollView

  /** The form fields: title, description and the editable option list. */
  datatype Form = Form(title: string, description: string, options: seq<string>)

  /** The form as the panel opens it, and as it is reset after a poll is created. */
  function EmptyForm(): Form
  {
    Form("", "", ["", "", ""])
  }

  /** The filter's test `option.trim() !== ''`: by `JsText.TrimEmptyIffBlank` it holds exactly
      for the options that are not all whitespace. */
  predicate Kept(option: string)
  {
    !IsBlank(option)
  }

  /** The filter's test is the trim comparison. */
  lemma KeptIffTrimmedNonEmpty(option: string)
    ensures Kept(option) <==> Trim(option) != ""
  {
    TrimEmptyIffBlank(option);
  }

  /** `newPollOptions.filter(option => option.trim() !== '')`. */
  function ValidOptions(options: seq<string>): (r: seq<string>)
    ensures |r| <= |options|
    ensures forall i :: 0 <= i < |r| ==> !IsBlank(r[i]) && r[i] in options
    decreases |options|
  {
    if options == [] then []
    else
      var n := |options| - 1;
      var prefix := ValidOptions(options[..n]);
      if Kept(options[n]) then prefix + [options[n]] else prefix
  }

  /** The kept options are exactly the listed options that are not blank. */
  lemma {:induction false} ValidOptionsMembers(options: seq<string>, o: string)
    ensures o in ValidOptions(options) <==> o in options && !IsBlank(o)
    decreases |options|
  {
    if options != [] {
      var n := |options| - 1;
      ValidOptionsMembers(options[..n], o);
      assert o in options <==> o in options[..n] || o == options[n] by {
        assert options == options[..n] + [options[n]];
      }
    }
  }

  /** Filtering commutes with concatenation, so the kept options stay in their original order. */
  lemma {:induction false} ValidOptionsAppend(a: seq<string>, b: seq<string>)
    ensures ValidOptions(a + b) == ValidOptions(a) + ValidOptions(b)
    decreases |b|
  {
    if b == [] {
      assert a + b == a;
    } else {
      var n := |b| - 1;
      assert (a + b)[..|a + b| - 1] == a + b[..n];
      assert (a + b)[|a + b| - 1] == b[n];
      ValidOptionsAppend(a, b[..n]);
    }
  }

  /** Options that are all non-blank are kept as they are, untrimmed. */
  lemma {:induction false} ValidOptionsKeepsNonBlank(options: seq<string>)
    requires forall i :: 0 <= i < |options| ==> !IsBlank(options[i])
    ensures ValidOptions(options) == options
    decreases |options|
  {
    if options != [] {
      var n := |options| - 1;
      ValidOptionsKeepsNonBlank(options[..n]);
      assert options[..n] + [options[n]] == options;
    }
  }

  /** The one-day and two-day offsets of the commit and reveal end times, in milliseconds. */
  const DAY_MS: nat := 24 * 60 * 60 * 1000

  /** `createNewPoll`: refuses a blank title or description and fewer than two non-blank options
      (duplicates are allowed); otherwise builds a fresh poll in registration from the form, with
      `nowMs` the wall clock. */
  function CreateNewPoll(f: Form, nowMs: nat): (r: Option<Poll>)
    ensures r.None? <==> IsBlank(f.title) || IsBlank(f.description) || |ValidOptions(f.options)| < 2
    ensures r.Some? ==>
      var p := r.value;
      && p.title == f.title && p.description == f.description
      && p.options == ValidOptions(f.options) && |p.options| >= 2
      && p.phase == Registration && p.totalVotes == 0 && p.results == None
      && !p.isRegistered && !p.hasCommitted && !p.hasRevealed
      && p.startMs == nowMs && p.commitEndMs == nowMs + DAY_MS && p.revealEndMs == nowMs + 2 * DAY_MS
      && p.id == "poll-" + NatToString(nowMs)
  {
    TrimEmptyIffBlank(f.title);
    TrimEmptyIffBlank(f.description);
    if Trim(f.title) == "" || Trim(f.description) == "" then None
    else
      var valid := ValidOptions(f.options);
      if |valid| < 2 then None
      else Some(Poll("poll-" + NatToString(nowMs), f.title, f.description, valid, Registration,
                     nowMs, nowMs + DAY_MS, nowMs + 2 * DAY_MS, 0, None, false, false, false))
  }

  /** Submitting the form: on success the current poll is replaced and the form reset; on a
      validation failure neither changes. */
  function Submit(f: Form, current: Poll, nowMs: nat): (r: (Form, Poll))
    ensures CreateNewPoll(f, nowMs).None? ==> r == (f, current)
    ensures CreateNewPoll(f, nowMs).Some? ==> r == (EmptyForm(), CreateNewPoll(f, nowMs).value)
  {
    match CreateNewPoll(f, nowMs)
    case None => (f, current)
    case Some(p) => (EmptyForm(), p)
  }

  /** The untouched form cannot create a poll. */
  lemma EmptyFormRejected(nowMs: nat)
    ensures CreateNewPoll(EmptyForm(), nowMs).None?
  {
    assert IsBlank(EmptyForm().title);
  }

  /** An option repeated twice is accepted: duplicates are not rejected. */
  lemma DuplicateOptionsAccepted(f: Form, o: string, nowMs: nat)
    requires !IsBlank(f.title) && !IsBlank(f.description) && !IsBlank(o)
    requires f.options == [o, o]
    ensures CreateNewPoll(f, nowMs).Some? && CreateNewPoll(f, nowMs).value.options == [o, o]
  {
    ValidOptionsKeepsNonBlank(f.options);
  }

  /** Options that are all blank are all dropped. */
  lemma {:induction false} ValidOptionsDropsBlank(options: seq<string>)
    requires forall i :: 0 <= i < |options| ==> IsBlank(options[i])
    ensures ValidOptions(options) == []
    decreases |options|
  {
    if options != [] {
      var n := |options| - 1;
      ValidOptionsDropsBlank(options[..n]);
    }
  }

  /** Blank options do not count towards the two required: one real option among blanks is
      refused. */
  lemma BlankOptionsDoNotCount(f: Form, o: string, blank1: string, blank2: string, nowMs: nat)
    requires IsBlank(blank1) && IsBlank(blank2)
    requires f.options == [o, blank1, blank2]
    ensures ValidOptions(f.options) == (if IsBlank(o) then [] else [o])
    ensures CreateNewPoll(f, nowMs).None?
  {
    assert f.options == [o] + [blank1, blank2];
    ValidOptionsAppend([o], [blank1, blank2]);
    ValidOptionsDropsBlank([blank1, blank2]);
    if IsBlank(o) {
      ValidOptionsDropsBlank([o]);
    } else {
      ValidOptionsKeepsNonBlank([o]);
    }
  }

  /** `addOption`: one more empty option at the end. */
  function AddOption(f: Form): (r: Form)
    ensures |r.options| == |f.options| + 1 && r.options[..|f.options|] == f.options
    ensures r.options[|f.options|] == ""
    ensures r.title == f.title && r.description == f.description
  {
    f.(options := f.options + [""])
  }

  /** `xs.filter((_, i) => i !== index)`: every element except the one at `index`. */
  function DropAt(xs: seq<string>, index: int): (r: seq<string>)
    decreases |xs|
  {
    if xs == [] then []
    else
      var n := |xs| - 1;
      DropAt(xs[..n], index) + (if n == index then [] else [xs[n]])
  }

  /** The filter removes exactly the element at `index`, and nothing when `index` is not a
      position of the list. */
  lemma {:induction false} DropAtRemovesOne(xs: seq<string>, index: int)
    ensures 0 <= index < |xs| ==> DropAt(xs, index) == xs[..index] + xs[index + 1..]
    ensures !(0 <= index < |xs|) ==> DropAt(xs, index) == xs
    decreases |xs|
  {
    if xs != [] {
      var n := |xs| - 1;
      DropAtRemovesOne(xs[..n], index);
      if index < n && 0 <= index {
        assert xs[..n][..index] == xs[..index];
        assert xs[..n][index + 1..] + [xs[n]] == xs[index + 1..];
      } else if index != n {
        assert xs[..n] + [xs[n]] == xs;
      }
    }
  }

  /** `removeOption`: drops the option at `index`, but only while more than two remain. */
  function RemoveOption(f: Form, index: int): (r: Form)
    ensures |f.options| > 2 && 0 <= index < |f.options| ==>
      r.options == f.options[..index] + f.options[index + 1..]
    ensures |f.options| <= 2 || !(0 <= index < |f.options|) ==> r == f
    ensures |r.options| >= 2 || r == f
  {
    DropAtRemovesOne(f.options, index);
    if |f.options| > 2 then f.(options := DropAt(f.options, index)) else f
  }

  /** `updateOption`: replaces the option at `index` and keeps every other one. */
  function UpdateOption(f: Form, index: nat, value: string): (r: Form)
    requires index < |f.options|
    ensures |r.options| == |f.options| && r.options[index] == value
    ensures forall j :: 0 <= j < |f.options| && j != index ==> r.options[j] == f.options[j]
  {
    f.(options := f.options[index := value])
  }

  /** Writing back the old text undoes an edit, and adding then removing the new last option
      gives the list back. */
  lemma EditsUndo(f: Form, index: nat, value: string)
    requires index < |f.options|
    requires |f.options| >= 2
    ensures UpdateOption(UpdateOption(f, index, value), index, f.options[index]) == f
    ensures RemoveOption(AddOption(f), |f.options|) == f
  {
    var g := AddOption(f);
    assert g.options[..|f.options|] + g.options[|f.options| + 1..] == f.options;
  }

  /** `updatePollPhase`: sets whichever phase is chosen; no order is enforced. */
  function UpdatePollPhase(p: Poll, target: UiPhase): (r: Poll)
    ensures r.phase == target
    ensures r.options == p.options && r.totalVotes == p.totalVotes && r.results == p.results
    ensures r.id == p.id && r.title == p.title
  {
    p.(phase := target)
  }

  /** Any phase can follow any other, backwards included, and moving back restores the poll. */
  lemma PhaseChangesAreUnordered(p: Poll, target: UiPhase)
    ensures UpdatePollPhase(UpdatePollPhase(p, target), p.phase) == p
    ensures UpdatePollPhase(UpdatePollPhase(p, Completed), Registration).phase == Registration
  {
  }
}
