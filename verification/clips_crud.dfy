/**
 The clip dashboard with create, edit, delete and approve. Each event
 handler is a pure transition of the component's state; the FileReader that
 precedes an upload is taken to finish at once, against the same clip list
 that the duplicate check saw.
 */
module ClipsCrud {
  import opened Js

  /** An uploaded clip; the data-URL preview is not modelled. */
  datatype Clip = Clip(file: File, title: string, description: string, approved: bool)

  /** The component's state: the form fields, the staged file, the index of
      the clip being edited, and the clips. */
  datatype State = State(
    title: string,
    description: string,
    clips: seq<Clip>,
    draggedFile: Option<File>,
    editingIndex: Option<int>)

  /** What a handler reports besides its new state: nothing, the blocking
      duplicate-upload alert, or a TypeError thrown before any state change. */
  datatype Report = Done | DuplicateAlert | TypeError

  datatype Outcome = Outcome(next: State, report: Report)

  const Initial: State := State("", "", [], None, None)

  /** Some clip already carries this file name. */
  predicate NameTaken(clips: seq<Clip>, name: string)
  {
    exists j :: 0 <= j < |clips| && clips[j].file.name == name
  }

  /** No two clips carry the same file name. */
  predicate UniqueNames(clips: seq<Clip>)
  {
    forall i, j :: 0 <= i < j < |clips| ==> clips[i].file.name != clips[j].file.name
  }

  /** The message placed in the description when a file is dropped. */
  function ReadyMessage(name: string): string
  {
    "File ready to upload: " + name
  }

  /** Adds the staged file as a new, unapproved clip, unless no file is
      staged (nothing happens) or a clip with its name exists (alert, nothing
      changes). A successful upload clears the form. */
  function HandleUpload(s: State): (o: Outcome)
    ensures s.draggedFile.None? ==> o == Outcome(s, Done)
    ensures s.draggedFile.Some? && NameTaken(s.clips, s.draggedFile.value.name) ==> o == Outcome(s, DuplicateAlert)
    ensures o.report == DuplicateAlert <==> s.draggedFile.Some? && NameTaken(s.clips, s.draggedFile.value.name)
    ensures o.report != TypeError
    ensures s.draggedFile.Some? && !NameTaken(s.clips, s.draggedFile.value.name) ==>
      o == Outcome(State("", "", s.clips + [Clip(s.draggedFile.value, s.title, s.description, false)], None, s.editingIndex), Done)
    ensures o.next.clips != s.clips ==>
      && o.next.clips == s.clips + [Clip(s.draggedFile.value, s.title, s.description, false)]
      && o.next == State("", "", o.next.clips, None, s.editingIndex)
    ensures s.draggedFile.Some? && !NameTaken(s.clips, s.draggedFile.value.name) ==>
      && |o.next.clips| == |s.clips| + 1
      && o.next.clips[..|s.clips|] == s.clips
      && NameTaken(o.next.clips, s.draggedFile.value.name)
  {
    match s.draggedFile
    case None => Outcome(s, Done)
    case Some(file) =>
      if NameTaken(s.clips, file.name) then Outcome(s, DuplicateAlert)
      else
        var added := s.clips + [Clip(file, s.title, s.description, false)];
        assert added[|s.clips|].file.name == file.name;
        assert added[..|s.clips|] == s.clips;
        Outcome(State("", "", added, None, s.editingIndex), Done)
  }

  /** Dropping files stages the first one and announces it in the
      description; an empty drop changes nothing. */
  function HandleDrop(s: State, files: seq<File>): (s': State)
    ensures |files| == 0 ==> s' == s
    ensures |files| > 0 ==>
      && s'.draggedFile == Some(files[0])
      && s'.description == ReadyMessage(files[0].name)
      && s'.title == s.title && s'.clips == s.clips && s'.editingIndex == s.editingIndex
  {
    if |files| > 0 then s.(draggedFile := Some(files[0]), description := ReadyMessage(files[0].name))
    else s
  }

  /** The file input's change event stages its first file, or clears the
      staged file when the selection is empty. */
  function SelectFile(s: State, files: seq<File>): (s': State)
    ensures s'.draggedFile.Some? <==> |files| > 0
    ensures |files| > 0 ==> s'.draggedFile == Some(files[0])
    ensures s' == s.(draggedFile := s'.draggedFile)
  {
    s.(draggedFile := if |files| > 0 then Some(files[0]) else None)
  }

  /** Typing into the title field. */
  function SetTitle(s: State, title: string): (s': State)
    ensures s'.title == title && s' == s.(title := s'.title)
  {
    s.(title := title)
  }

  /** Typing into the description field. */
  function SetDescription(s: State, description: string): (s': State)
    ensures s'.description == description && s' == s.(description := s'.description)
  {
    s.(description := description)
  }

  /** Deletes the clip at `index` by filtering on position; any other index
      leaves the list as it was. The editing index is not adjusted. */
  function HandleDeleteClip(s: State, index: int): (s': State)
    ensures 0 <= index < |s.clips| ==> s'.clips == RemoveAt(s.clips, index)
    ensures !(0 <= index < |s.clips|) ==> s' == s
    ensures s' == s.(clips := s'.clips)
  {
    FilterIndexIsRemoveAt(s.clips, index);
    s.(clips := FilterIndex(s.clips, index))
  }

  /** Loads the clip's title and description into the form and remembers
      its index; an index with no clip throws before any state change. */
  function HandleEditClip(s: State, index: int): (o: Outcome)
    ensures !(0 <= index < |s.clips|) ==> o == Outcome(s, TypeError)
    ensures 0 <= index < |s.clips| ==>
      && o.report == Done
      && o.next.title == s.clips[index].title
      && o.next.description == s.clips[index].description
      && o.next.editingIndex == Some(index)
      && o.next.clips == s.clips && o.next.draggedFile == s.draggedFile
  {
    if 0 <= index < |s.clips| then
      var clipToEdit := s.clips[index];
      Outcome(s.(title := clipToEdit.title, description := clipToEdit.description, editingIndex := Some(index)), Done)
    else Outcome(s, TypeError)
  }

  /** Whether position `i` is the one being edited. */
  predicate Editing(s: State, i: int)
  {
    s.editingIndex == Some(i)
  }

  /** Writes the form's title and description into the clip at the editing
      index (if any clip is there), then closes the editor and clears the
      form. */
  function HandleSaveEdit(s: State): (s': State)
    ensures |s'.clips| == |s.clips|
    ensures forall i :: 0 <= i < |s.clips| && !Editing(s, i) ==> s'.clips[i] == s.clips[i]
    ensures forall i :: 0 <= i < |s.clips| && Editing(s, i) ==>
      s'.clips[i] == Clip(s.clips[i].file, s.title, s.description, s.clips[i].approved)
    ensures s'.editingIndex == None && s'.title == "" && s'.description == ""
    ensures s'.draggedFile == s.draggedFile
  {
    var updated := seq(|s.clips|, i requires 0 <= i < |s.clips| =>
      if Editing(s, i) then s.clips[i].(title := s.title, description := s.description) else s.clips[i]);
    State("", "", updated, s.draggedFile, None)
  }

  /** The edit dialog's Cancel button. */
  function CancelEdit(s: State): (s': State)
    ensures s'.editingIndex == None && s' == s.(editingIndex := None)
  {
    s.(editingIndex := None)
  }

  /** Marks the clip at `index` approved; an index with no clip throws
      before any state change. */
  function HandleApproveClip(s: State, index: int): (o: Outcome)
    ensures !(0 <= index < |s.clips|) ==> o == Outcome(s, TypeError)
    ensures 0 <= index < |s.clips| ==>
      && o.report == Done
      && |o.next.clips| == |s.clips|
      && o.next.clips[index].approved
      && o.next.clips[index] == s.clips[index].(approved := true)
      && (forall i :: 0 <= i < |s.clips| && i != index ==> o.next.clips[i] == s.clips[i])
      && o.next == s.(clips := o.next.clips)
  {
    if 0 <= index < |s.clips| then
      Outcome(s.(clips := s.clips[index := s.clips[index].(approved := true)]), Done)
    else Outcome(s, TypeError)
  }

  /** Approving twice is approving once. */
  lemma ApproveIdempotent(s: State, index: int)
    ensures var once := HandleApproveClip(s, index).next;
      HandleApproveClip(once, index).next == once
  {
  }

  /** Opening a clip in the editor and saving without touching the form
      gives back the same clips. */
  lemma EditThenSaveKeepsClips(s: State, index: int)
    requires 0 <= index < |s.clips|
    ensures HandleSaveEdit(HandleEditClip(s, index).next).clips == s.clips
  {
    var saved := HandleSaveEdit(HandleEditClip(s, index).next).clips;
    assert forall i :: 0 <= i < |s.clips| ==> saved[i] == s.clips[i];
  }

  /** Deleting a clip before the one being edited does not move the editing
      index, so the next save writes to the clip that slid into that
      position. */
  lemma DeleteShiftsEditTarget(a: Clip, b: Clip, c: Clip)
    ensures var s := State("", "", [a, b, c], None, None);
      var editing := SetTitle(HandleEditClip(s, 1).next, "new");
      var saved := HandleSaveEdit(HandleDeleteClip(editing, 0)).clips;
      |saved| == 2 && saved[0] == b && saved[1] == c.(title := "new", description := b.description)
  {
    var s := State("", "", [a, b, c], None, None);
    var editor := HandleEditClip(s, 1).next;
    assert editor == State(b.title, b.description, [a, b, c], None, Some(1));
    var editing := SetTitle(editor, "new");
    var deleted := HandleDeleteClip(editing, 0);
    assert deleted.clips == [b, c] by {
      assert RemoveAt([a, b, c], 0) == [b, c];
    }
    assert Editing(deleted, 1) && !Editing(deleted, 0);
  }

  /** Uploading the same file twice: the second attempt alerts and leaves
      the clips as the first left them. */
  lemma SecondUploadOfSameFileRejected(s: State, file: File, files: seq<File>)
    requires !NameTaken(s.clips, file.name)
    requires |files| > 0 && files[0] == file
    ensures var first := HandleUpload(SelectFile(s, [file])).next;
      var second := HandleUpload(HandleDrop(first, files));
      && |first.clips| == |s.clips| + 1
      && second.report == DuplicateAlert
      && second.next.clips == first.clips
  {
  }

  /** Every user event the component handles. */
  datatype Action =
    | TypeTitle(title: string)
    | TypeDescription(description: string)
    | ChooseFile(files: seq<File>)
    | Drop(files: seq<File>)
    | Upload
    | DeleteClip(index: int)
    | EditClip(index: int)
    | SaveEdit
    | Cancel
    | ApproveClip(index: int)

  /** The state after one event. */
  function Step(s: State, a: Action): State
  {
    match a
    case TypeTitle(t) => SetTitle(s, t)
    case TypeDescription(d) => SetDescription(s, d)
    case ChooseFile(files) => SelectFile(s, files)
    case Drop(files) => HandleDrop(s, files)
    case Upload => HandleUpload(s).next
    case DeleteClip(i) => HandleDeleteClip(s, i)
    case EditClip(i) => HandleEditClip(s, i).next
    case SaveEdit => HandleSaveEdit(s)
    case Cancel => CancelEdit(s)
    case ApproveClip(i) => HandleApproveClip(s, i).next
  }

  /** The state after a sequence of events from the initial state. */
  function Run(actions: seq<Action>): State
  {
    if |actions| == 0 then Initial else Step(Run(actions[..|actions| - 1]), actions[|actions| - 1])
  }

  /** Every event keeps clip file names pairwise distinct. */
  lemma StepKeepsNamesUnique(s: State, a: Action)
    requires UniqueNames(s.clips)
    ensures UniqueNames(Step(s, a).clips)
  {
    match a
    case DeleteClip(i) =>
      if 0 <= i < |s.clips| {
        var r := RemoveAt(s.clips, i);
        forall p, q | 0 <= p < q < |r|
          ensures r[p].file.name != r[q].file.name
        {
          var p' := if p < i then p else p + 1;
          var q' := if q < i then q else q + 1;
          assert r[p] == s.clips[p'] && r[q] == s.clips[q'];
        }
      }
    case SaveEdit =>
      var r := HandleSaveEdit(s).clips;
      assert forall i :: 0 <= i < |r| ==> r[i].file == s.clips[i].file;
    case Upload =>
      var o := HandleUpload(s);
      if o.next.clips != s.clips {
        var r := o.next.clips;
        var name := s.draggedFile.value.name;
        forall p, q | 0 <= p < q < |r|
          ensures r[p].file.name != r[q].file.name
        {
          if q == |s.clips| {
            assert r[p] == s.clips[p];
          }
        }
      }
    case _ =>
  }

  /** Whatever events happen, clip file names stay pairwise distinct. */
  lemma {:induction false} RunKeepsNamesUnique(actions: seq<Action>)
    ensures UniqueNames(Run(actions).clips)
  {
    if |actions| > 0 {
      RunKeepsNamesUnique(actions[..|actions| - 1]);
      StepKeepsNamesUnique(Run(actions[..|actions| - 1]), actions[|actions| - 1]);
    }
  }
}
