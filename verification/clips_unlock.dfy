/**
 The clip dashboard with pay-to-unlock: the create, edit, delete and approve
 handlers of the plain dashboard, plus a price per clip, a list of dropped
 videos with a parallel list of entered amounts, and an unlock action. The
 FileReaders are taken to finish at once, against the state they were
 started from.
 */
module ClipsUnlock {
  import opened Js

  /** An uploaded clip: `amount` is the price entered for the first dropped
      video (undefined when none was entered), `unlocked` starts out unset. */
  datatype Clip = Clip(file: File, title: string, description: string, approved: bool, amount: Option<string>, unlocked: bool)

  /** A dropped video listed in the form; its preview is not modelled. */
  datatype DroppedVideo = DroppedVideo(name: string)

  /** The component's state. `amounts` runs parallel to `droppedVideos` and
      may be shorter or have holes (None) where no amount was typed. */
  datatype State = State(
    title: string,
    description: string,
    clips: seq<Clip>,
    draggedFile: Option<File>,
    editingIndex: Option<int>,
    droppedVideos: seq<DroppedVideo>,
    amounts: seq<Option<string>>)

  /** What a handler reports besides its new state: nothing, the blocking
      duplicate-upload alert, the pay-to-unlock alert with the clip's price,
      or a TypeError thrown before any state change. */
  datatype Report = Done | DuplicateAlert | PayAlert(amount: Option<string>) | TypeError

  datatype Outcome = Outcome(next: State, report: Report)

  const Initial: State := State("", "", [], None, None, [], [])

  /** Some clip already carries this file name. */
  predicate NameTaken(clips: seq<Clip>, name: string)
  {
    exists j :: 0 <= j < |clips| && clips[j].file.name == name
  }

  /** No two clips carry the same file name. */
  predicate UniqueNames(clips: seq<Clip>)
  {
    forall i, j :: 0 <= i < j < |clips| ==> clips[i].file.name != clips[j].file.name
  }

  /** Adds the staged file as a new, unapproved, locked clip priced at the
      first entered amount, unless no file is staged (nothing happens) or a
      clip with its name exists (alert, nothing changes). A successful upload
      clears the form, the dropped videos and the amounts. */
  function HandleUpload(s: State): (o: Outcome)
    ensures s.draggedFile.None? ==> o == Outcome(s, Done)
    ensures s.draggedFile.Some? && NameTaken(s.clips, s.draggedFile.value.name) ==> o == Outcome(s, DuplicateAlert)
    ensures o.report == DuplicateAlert <==> s.draggedFile.Some? && NameTaken(s.clips, s.draggedFile.value.name)
    ensures o.report == Done || o.report == DuplicateAlert
    ensures s.draggedFile.Some? && !NameTaken(s.clips, s.draggedFile.value.name) ==>
      o == Outcome(State("", "", s.clips + [Clip(s.draggedFile.value, s.title, s.description, false, At(s.amounts, 0), false)],
                         None, s.editingIndex, [], []), Done)
    ensures o.next.clips != s.clips ==>
      && o.next.clips == s.clips + [Clip(s.draggedFile.value, s.title, s.description, false, At(s.amounts, 0), false)]
      && o.next == State("", "", o.next.clips, None, s.editingIndex, [], [])
    ensures s.draggedFile.Some? && !NameTaken(s.clips, s.draggedFile.value.name) ==>
      && |o.next.clips| == |s.clips| + 1
      && o.next.clips[..|s.clips|] == s.clips
      && NameTaken(o.next.clips, s.draggedFile.value.name)
  {
    match s.draggedFile
    case None => Outcome(s, Done)
    case Some(file) =>
      if NameTaken(s.clips, file.name) then Outcome(s, DuplicateAlert)
      else
        var added := s.clips + [Clip(file, s.title, s.description, false, At(s.amounts, 0), false)];
        assert added[|s.clips|].file.name == file.name;
        assert added[..|s.clips|] == s.clips;
        Outcome(State("", "", added, None, s.editingIndex, [], []), Done)
  }

  /** Dropping files stages the first one and lists it among the dropped
      videos; the description is left alone. An empty drop changes nothing. */
  function HandleDrop(s: State, files: seq<File>): (s': State)
    ensures |files| == 0 ==> s' == s
    ensures |files| > 0 ==>
      && s'.draggedFile == Some(files[0])
      && s'.droppedVideos == s.droppedVideos + [DroppedVideo(files[0].name)]
      && s' == s.(draggedFile := s'.draggedFile, droppedVideos := s'.droppedVideos)
  {
    if |files| > 0 then
      s.(draggedFile := Some(files[0]), droppedVideos := s.droppedVideos + [DroppedVideo(files[0].name)])
    else s
  }

  /** The file input's change event stages its first file, or clears the
      staged file when the selection is empty. */
  function SelectFile(s: State, files: seq<File>): (s': State)
    ensures s'.draggedFile.Some? <==> |files| > 0
    ensures |files| > 0 ==> s'.draggedFile == Some(files[0])
    ensures s' == s.(draggedFile := s'.draggedFile)
  {
    s.(draggedFile := if |files| > 0 then Some(files[0]) else None)
  }

  /** Typing into the title field. */
  function SetTitle(s: State, title: string): (s': State)
    ensures s'.title == title && s' == s.(title := s'.title)
  {
    s.(title := title)
  }

  /** Typing into the description field. */
  function SetDescription(s: State, description: string): (s': State)
    ensures s'.description == description && s' == s.(description := s'.description)
  {
    s.(description := description)
  }

  /** Removes dropped video `index` and the amount at the same index, each
      with `splice(index, 1)` on its own list. */
  function HandleDeleteDroppedVideo(s: State, index: int): (s': State)
    ensures 0 <= index < |s.droppedVideos| ==> s'.droppedVideos == RemoveAt(s.droppedVideos, index)
    ensures 0 <= index < |s.amounts| ==> s'.amounts == RemoveAt(s.amounts, index)
    ensures |s.amounts| <= index ==> s'.amounts == s.amounts
    ensures |s.droppedVideos| <= index ==> s'.droppedVideos == s.droppedVideos
    ensures s' == s.(droppedVideos := s'.droppedVideos, amounts := s'.amounts)
  {
    s.(droppedVideos := Splice1(s.droppedVideos, index), amounts := Splice1(s.amounts, index))
  }

  /** Deleting an in-range dropped video keeps the two lists aligned, even
      when fewer amounts than videos were typed: each remaining video still
      reads back the amount (or the hole) that stood beside it, and lists of
      equal length stay of equal length. */
  lemma DeleteDroppedVideoKeepsPairs(s: State, index: int)
    requires 0 <= index < |s.droppedVideos|
    ensures var s' := HandleDeleteDroppedVideo(s, index);
      && |s'.droppedVideos| == |s.droppedVideos| - 1
      && (|s.amounts| == |s.droppedVideos| ==> |s'.amounts| == |s'.droppedVideos|)
      && forall j :: 0 <= j < |s'.droppedVideos| ==>
        var from := if j < index then j else j + 1;
        s'.droppedVideos[j] == s.droppedVideos[from] && At(s'.amounts, j) == At(s.amounts, from)
  {
  }

  /** Sets the amount typed for dropped video `index`; every other entry
      reads back as before. */
  function HandleAmountChange(s: State, index: int, value: string): (s': State)
    ensures 0 <= index ==> At(s'.amounts, index) == Some(value)
    ensures forall j :: 0 <= j && j != index ==> At(s'.amounts, j) == At(s.amounts, j)
    ensures 0 <= index < |s.amounts| ==> s'.amounts == s.amounts[index := Some(value)]
    ensures s' == s.(amounts := s'.amounts)
  {
    s.(amounts := Assign(s.amounts, index, value))
  }

  /** Deletes the clip at `index` by filtering on position; any other index
      leaves the list as it was. The editing index is not adjusted. */
  function HandleDeleteClip(s: State, index: int): (s': State)
    ensures 0 <= index < |s.clips| ==> s'.clips == RemoveAt(s.clips, index)
    ensures !(0 <= index < |s.clips|) ==> s' == s
    ensures s' == s.(clips := s'.clips)
  {
    FilterIndexIsRemoveAt(s.clips, index);
    s.(clips := FilterIndex(s.clips, index))
  }

  /** Loads the clip's title and description into the form and remembers
      its index; an index with no clip throws before any state change. */
  function HandleEditClip(s: State, index: int): (o: Outcome)
    ensures !(0 <= index < |s.clips|) ==> o == Outcome(s, TypeError)
    ensures 0 <= index < |s.clips| ==>
      && o.report == Done
      && o.next.title == s.clips[index].title
      && o.next.description == s.clips[index].description
      && o.next.editingIndex == Some(index)
      && o.next == s.(title := o.next.title, description := o.next.description, editingIndex := o.next.editingIndex)
  {
    if 0 <= index < |s.clips| then
      var clipToEdit := s.clips[index];
      Outcome(s.(title := clipToEdit.title, description := clipToEdit.description, editingIndex := Some(index)), Done)
    else Outcome(s, TypeError)
  }

  /** Whether position `i` is the one being edited. */
  predicate Editing(s: State, i: int)
  {
    s.editingIndex == Some(i)
  }

  /** Writes the form's title and description into the clip at the editing
      index (if any clip is there), then closes the editor and clears the
      form; price, approval and unlock state are kept. */
  function HandleSaveEdit(s: State): (s': State)
    ensures |s'.clips| == |s.clips|
    ensures forall i :: 0 <= i < |s.clips| && !Editing(s, i) ==> s'.clips[i] == s.clips[i]
    ensures forall i :: 0 <= i < |s.clips| && Editing(s, i) ==>
      s'.clips[i] == Clip(s.clips[i].file, s.title, s.description, s.clips[i].approved, s.clips[i].amount, s.clips[i].unlocked)
    ensures s'.editingIndex == None && s'.title == "" && s'.description == ""
    ensures s' == s.(clips := s'.clips, editingIndex := None, title := "", description := "")
  {
    var updated := seq(|s.clips|, i requires 0 <= i < |s.clips| =>
      if Editing(s, i) then s.clips[i].(title := s.title, description := s.description) else s.clips[i]);
    s.(clips := updated, editingIndex := None, title := "", description := "")
  }

  /** The edit dialog's Cancel button. */
  function CancelEdit(s: State): (s': State)
    ensures s'.editingIndex == None && s' == s.(editingIndex := None)
  {
    s.(editingIndex := None)
  }

  /** Marks the clip at `index` approved; an index with no clip throws
      before any state change. */
  function HandleApproveClip(s: State, index: int): (o: Outcome)
    ensures !(0 <= index < |s.clips|) ==> o == Outcome(s, TypeError)
    ensures 0 <= index < |s.clips| ==>
      && o.report == Done
      && |o.next.clips| == |s.clips|
      && o.next.clips[index] == s.clips[index].(approved := true)
      && (forall i :: 0 <= i < |s.clips| && i != index ==> o.next.clips[i] == s.clips[i])
      && o.next == s.(clips := o.next.clips)
  {
    if 0 <= index < |s.clips| then
      Outcome(s.(clips := s.clips[index := s.clips[index].(approved := true)]), Done)
    else Outcome(s, TypeError)
  }

  /** Alerts the clip's price and marks it unlocked; an index with no clip
      throws before the alert and before any state change. */
  function HandleUnlock(s: State, index: int): (o: Outcome)
    ensures !(0 <= index < |s.clips|) ==> o == Outcome(s, TypeError)
    ensures 0 <= index < |s.clips| ==>
      && o.report == PayAlert(s.clips[index].amount)
      && |o.next.clips| == |s.clips|
      && o.next.clips[index] == s.clips[index].(unlocked := true)
      && (forall i :: 0 <= i < |s.clips| && i != index ==> o.next.clips[i] == s.clips[i])
      && o.next == s.(clips := o.next.clips)
  {
    if 0 <= index < |s.clips| then
      Outcome(s.(clips := s.clips[index := s.clips[index].(unlocked := true)]), PayAlert(s.clips[index].amount))
    else Outcome(s, TypeError)
  }

  /** Approving twice is approving once. */
  lemma ApproveIdempotent(s: State, index: int)
    ensures var once := HandleApproveClip(s, index).next;
      HandleApproveClip(once, index).next == once
  {
  }

  /** Unlocking twice leaves the state of unlocking once (the price is
      alerted again). */
  lemma UnlockIdempotent(s: State, index: int)
    ensures var once := HandleUnlock(s, index);
      HandleUnlock(once.next, index) == once
  {
  }

  /** How the list shows a clip. */
  datatype Card = PendingApproval | Playable | PayPrompt(amount: Option<string>)

  /** Unapproved clips wait for approval; approved ones play when unlocked
      and otherwise ask for their price. */
  function CardOf(c: Clip): (r: Card)
    ensures r == PendingApproval <==> !c.approved
    ensures r == Playable <==> c.approved && c.unlocked
    ensures r.PayPrompt? <==> c.approved && !c.unlocked
    ensures r.PayPrompt? ==> r.amount == c.amount
  {
    if !c.approved then PendingApproval
    else if c.unlocked then Playable
    else PayPrompt(c.amount)
  }

  /** A freshly uploaded clip waits for approval; once approved it asks for
      the amount entered first; once unlocked it plays. */
  lemma UploadApproveUnlockLifecycle(s: State)
    requires s.draggedFile.Some? && !NameTaken(s.clips, s.draggedFile.value.name)
    ensures var up := HandleUpload(s).next;
      var k := |s.clips|;
      var approved := HandleApproveClip(up, k).next;
      && k < |up.clips|
      && CardOf(up.clips[k]) == PendingApproval
      && CardOf(approved.clips[k]) == PayPrompt(At(s.amounts, 0))
      && CardOf(HandleUnlock(approved, k).next.clips[k]) == Playable
  {
    var up := HandleUpload(s).next;
    assert up.clips[|s.clips|] == Clip(s.draggedFile.value, s.title, s.description, false, At(s.amounts, 0), false);
  }

  /** The amount typed for the first dropped video becomes the price of the
      uploaded clip. */
  lemma FirstAmountPricesUpload(s: State, value: string)
    requires s.draggedFile.Some? && !NameTaken(s.clips, s.draggedFile.value.name)
    ensures var up := HandleUpload(HandleAmountChange(s, 0, value)).next;
      |up.clips| == |s.clips| + 1 && up.clips[|s.clips|].amount == Some(value)
  {
    var typed := HandleAmountChange(s, 0, value);
    assert typed.draggedFile == s.draggedFile && typed.clips == s.clips;
  }

  /** Every user event the component handles. */
  datatype Action =
    | TypeTitle(title: string)
    | TypeDescription(description: string)
    | ChooseFile(files: seq<File>)
    | Drop(files: seq<File>)
    | Upload
    | DeleteDroppedVideo(index: int)
    | ChangeAmount(index: int, value: string)
    | DeleteClip(index: int)
    | EditClip(index: int)
    | SaveEdit
    | Cancel
    | ApproveClip(index: int)
    | Unlock(index: int)

  /** The state after one event. */
  function Step(s: State, a: Action): State
  {
    match a
    case TypeTitle(t) => SetTitle(s, t)
    case TypeDescription(d) => SetDescription(s, d)
    case ChooseFile(files) => SelectFile(s, files)
    case Drop(files) => HandleDrop(s, files)
    case Upload => HandleUpload(s).next
    case DeleteDroppedVideo(i) => HandleDeleteDroppedVideo(s, i)
    case ChangeAmount(i, v) => HandleAmountChange(s, i, v)
    case DeleteClip(i) => HandleDeleteClip(s, i)
    case EditClip(i) => HandleEditClip(s, i).next
    case SaveEdit => HandleSaveEdit(s)
    case Cancel => CancelEdit(s)
    case ApproveClip(i) => HandleApproveClip(s, i).next
    case Unlock(i) => HandleUnlock(s, i).next
  }

  /** The state after a sequence of events from the initial state. */
  function Run(actions: seq<Action>): State
  {
    if |actions| == 0 then Initial else Step(Run(actions[..|actions| - 1]), actions[|actions| - 1])
  }

  /** Every event keeps clip file names pairwise distinct. */
  lemma StepKeepsNamesUnique(s: State, a: Action)
    requires UniqueNames(s.clips)
    ensures UniqueNames(Step(s, a).clips)
  {
    match a
    case DeleteClip(i) =>
      if 0 <= i < |s.clips| {
        var r := RemoveAt(s.clips, i);
        forall p, q | 0 <= p < q < |r|
          ensures r[p].file.name != r[q].file.name
        {
          var p' := if p < i then p else p + 1;
          var q' := if q < i then q else q + 1;
          assert r[p] == s.clips[p'] && r[q] == s.clips[q'];
        }
      }
    case SaveEdit =>
      var r := HandleSaveEdit(s).clips;
      assert forall i :: 0 <= i < |r| ==> r[i].file == s.clips[i].file;
    case Upload =>
      var o := HandleUpload(s);
      if o.next.clips != s.clips {
        var r := o.next.clips;
        forall p, q | 0 <= p < q < |r|
          ensures r[p].file.name != r[q].file.name
        {
          if q == |s.clips| {
            assert r[p] == s.clips[p];
          }
        }
      }
    case _ =>
  }

  /** Whatever events happen, clip file names stay pairwise distinct. */
  lemma {:induction false} RunKeepsNamesUnique(actions: seq<Action>)
    ensures UniqueNames(Run(actions).clips)
  {
    if |actions| > 0 {
      RunKeepsNamesUnique(actions[..|actions| - 1]);
      StepKeepsNamesUnique(Run(actions[..|actions| - 1]), actions[|actions| - 1]);
    }
  }
}
