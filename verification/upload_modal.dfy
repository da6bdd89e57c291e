/** The document-upload modal of the knowledge-base agent: the list of
    selected files, the per-file size cap and duplicate rule, removal,
    submission and reset. */
module UploadModal {

  import opened Common
  import opened Sorting

  const MaxFileSizeMb: nat := 50
  const MaxFileSizeBytes: nat := MaxFileSizeMb * 1024 * 1024

  /** A browser `File`: only its name and byte size take part in the
      rules; the MIME type is carried along. */
  datatype File = File(name: string, size: nat, mime: string)

  /** Why one selected file was turned away. */
  datatype Rejection = TooLarge(fileName: string) | AlreadyAdded(fileName: string)

  /** The error text shown for a rejection. */
  function Message(r: Rejection): string
  {
    match r
    case TooLarge(n) => "File \"" + n + "\" exceeds 50MB limit."
    case AlreadyAdded(n) => "File \"" + n + "\" is already added."
  }

  /** The modal's state: the selected files and the current error. */
  datatype ModalState = ModalState(files: seq<File>, error: Option<string>)

  /** Some already-selected file has the same name and the same size. */
  predicate IsDuplicate(existing: seq<File>, f: File)
  {
    exists i :: 0 <= i < |existing| && existing[i].name == f.name && existing[i].size == f.size
  }

  /** Checks one file against the cap and against the files selected
      before this batch; the size check comes first. */
  function ValidateFile(existing: seq<File>, f: File): (r: Option<Rejection>)
    ensures r == Some(TooLarge(f.name)) <==> f.size > MaxFileSizeBytes
    ensures r == Some(AlreadyAdded(f.name)) <==> f.size <= MaxFileSizeBytes && IsDuplicate(existing, f)
    ensures r == None <==> f.size <= MaxFileSizeBytes && !IsDuplicate(existing, f)
  {
    if f.size > MaxFileSizeBytes then Some(TooLarge(f.name))
    else if IsDuplicate(existing, f) then Some(AlreadyAdded(f.name))
    else None
  }

  /** The acceptance test for a batch checked against `existing`. */
  function AcceptedBy(existing: seq<File>): File -> bool
  {
    f => ValidateFile(existing, f).None?
  }

  /** The rejection of the last rejected file of the batch, if any. */
  function LastRejection(existing: seq<File>, batch: seq<File>): (r: Option<Rejection>)
    ensures r.None? <==> forall i :: 0 <= i < |batch| ==> ValidateFile(existing, batch[i]).None?
  {
    if batch == [] then None
    else
      var v := ValidateFile(existing, batch[|batch| - 1]);
      if v.Some? then v else LastRejection(existing, batch[..|batch| - 1])
  }

  function ErrorOf(rej: Option<Rejection>): Option<string>
  {
    if rej.Some? then Some(Message(rej.value)) else None
  }

  /** `addFiles`: clears the error, appends the accepted files of the batch
      in order, and reports the last rejection (if any). */
  function AddFiles(st: ModalState, batch: seq<File>): (r: ModalState)
    ensures |st.files| <= |r.files| && r.files[..|st.files|] == st.files
    ensures r.error.None? <==> forall i :: 0 <= i < |batch| ==> ValidateFile(st.files, batch[i]).None?
  {
    ModalState(st.files + Filter(batch, AcceptedBy(st.files)),
               ErrorOf(LastRejection(st.files, batch)))
  }

  /** The forEach loop of `addFiles`, step by step; it computes `AddFiles`. */
  method AddFilesLoop(st: ModalState, batch: seq<File>) returns (r: ModalState)
    ensures r == AddFiles(st, batch)
  {
    var validFiles: seq<File> := [];
    var errorMsg: Option<string> := None;
    var i := 0;
    while i < |batch|
      invariant 0 <= i <= |batch|
      invariant validFiles == Filter(batch[..i], AcceptedBy(st.files))
      invariant errorMsg == ErrorOf(LastRejection(st.files, batch[..i]))
    {
      var file := batch[i];
      AddFilesStep(st.files, batch, i);
      var validationError := ValidateFile(st.files, file);
      if validationError.Some? {
        errorMsg := Some(Message(validationError.value));
      } else {
        validFiles := validFiles + [file];
      }
      i := i + 1;
    }
    assert batch[..|batch|] == batch;
    r := ModalState(st.files + validFiles, errorMsg);
  }

  /** One more file of the batch: it is appended when accepted, and it
      becomes the last rejection when rejected. */
  lemma AddFilesStep(existing: seq<File>, batch: seq<File>, i: nat)
    requires i < |batch|
    ensures var v := ValidateFile(existing, batch[i]);
      && Filter(batch[..i + 1], AcceptedBy(existing))
         == Filter(batch[..i], AcceptedBy(existing)) + (if v.None? then [batch[i]] else [])
      && LastRejection(existing, batch[..i + 1])
         == (if v.Some? then v else LastRejection(existing, batch[..i]))
  {
    assert batch[..i + 1] == batch[..i] + [batch[i]];
    FilterSnoc(batch[..i], batch[i], AcceptedBy(existing));
    assert batch[..i + 1][..i] == batch[..i];
  }

  /** The files `addFiles` appends: an order-preserving subsequence of the
      batch holding exactly the files that pass validation against the
      list as it was before the call; a rejected file never appears. */
  lemma AddFilesAppendsAccepted(st: ModalState, batch: seq<File>)
    ensures var added := AddFiles(st, batch).files[|st.files|..];
      && IsSubsequence(added, batch)
      && (forall i :: 0 <= i < |added| ==> ValidateFile(st.files, added[i]).None?)
      && (forall i :: 0 <= i < |batch| && ValidateFile(st.files, batch[i]).None? ==> batch[i] in added)
      && (forall i :: 0 <= i < |batch| && ValidateFile(st.files, batch[i]).Some? ==> batch[i] !in added)
      && (forall f :: multiset(added)[f] == if ValidateFile(st.files, f).None? then multiset(batch)[f] else 0)
  {
    var added := AddFiles(st, batch).files[|st.files|..];
    assert added == Filter(batch, AcceptedBy(st.files));
    AcceptedFiles(st.files, batch);
  }

  /** The facts about the accepted part of a batch, one filter at a time. */
  lemma AcceptedFiles(existing: seq<File>, batch: seq<File>)
    ensures var added := Filter(batch, AcceptedBy(existing));
      && IsSubsequence(added, batch)
      && (forall i :: 0 <= i < |added| ==> ValidateFile(existing, added[i]).None?)
      && (forall i :: 0 <= i < |batch| && ValidateFile(existing, batch[i]).None? ==> batch[i] in added)
      && (forall i :: 0 <= i < |batch| && ValidateFile(existing, batch[i]).Some? ==> batch[i] !in added)
      && (forall f :: multiset(added)[f] == if ValidateFile(existing, f).None? then multiset(batch)[f] else 0)
  {
    var keep := AcceptedBy(existing);
    var added := Filter(batch, keep);
    FilterIsSubsequence(batch, keep);
    FilterCounts(batch, keep);
    forall f ensures multiset(added)[f] == if ValidateFile(existing, f).None? then multiset(batch)[f] else 0 {
      assert keep(f) == ValidateFile(existing, f).None?;
    }
  }

  /** When some file is rejected, the error shown is the message of the last
      rejected file of the batch. */
  lemma AddFilesReportsLastRejection(st: ModalState, batch: seq<File>, i: nat)
    requires i < |batch| && ValidateFile(st.files, batch[i]).Some?
    requires forall j :: i < j < |batch| ==> ValidateFile(st.files, batch[j]).None?
    ensures AddFiles(st, batch).error == Some(Message(ValidateFile(st.files, batch[i]).value))
  {
    LastRejectionIsLast(st.files, batch, i);
  }

  lemma {:induction false} LastRejectionIsLast(existing: seq<File>, batch: seq<File>, i: nat)
    requires i < |batch| && ValidateFile(existing, batch[i]).Some?
    requires forall j :: i < j < |batch| ==> ValidateFile(existing, batch[j]).None?
    ensures LastRejection(existing, batch) == ValidateFile(existing, batch[i])
  {
    if i < |batch| - 1 {
      var front := batch[..|batch| - 1];
      assert front[i] == batch[i];
      LastRejectionIsLast(existing, front, i);
    }
  }

  /** Duplicates are judged against the list before the call only: the same
      new file twice in one batch is accepted twice. */
  lemma BatchTwinsBothAccepted(st: ModalState, f: File)
    requires ValidateFile(st.files, f).None?
    ensures AddFiles(st, [f, f]) == ModalState(st.files + [f, f], None)
  {
    var keep := AcceptedBy(st.files);
    assert [f, f][1..] == [f];
    assert Filter([f], keep) == [f] + Filter([], keep);
  }

  /** Keeps every element whose index differs from `i` (`filter` with an
      index test). */
  function WithoutIndex<T>(s: seq<T>, i: int): (r: seq<T>)
    ensures 0 <= i < |s| ==> r == s[..i] + s[i + 1..]
    ensures !(0 <= i < |s|) ==> r == s
  {
    if s == [] then []
    else (if i == 0 then [] else [s[0]]) + WithoutIndex(s[1..], i - 1)
  }

  /** `removeFile(i)`: drops exactly the file at index `i` (nothing when
      `i` is out of range) and clears the error. */
  function RemoveFile(st: ModalState, i: int): (r: ModalState)
    ensures r.error == None
    ensures !(0 <= i < |st.files|) ==> r.files == st.files
    ensures 0 <= i < |st.files| ==>
              && |r.files| == |st.files| - 1
              && (forall j :: 0 <= j < i ==> r.files[j] == st.files[j])
              && (forall j :: i <= j < |r.files| ==> r.files[j] == st.files[j + 1])
  {
    ModalState(WithoutIndex(st.files, i), None)
  }

  /** Removing the single file just added restores the earlier list. */
  lemma RemoveUndoesAdd(st: ModalState, f: File)
    requires ValidateFile(st.files, f).None?
    ensures RemoveFile(AddFiles(st, [f]), |st.files|).files == st.files
  {
    assert Filter([f], AcceptedBy(st.files)) == [f] + Filter([], AcceptedBy(st.files));
    assert (st.files + [f])[..|st.files|] == st.files;
  }

  /** `handleSubmit`: the files handed to `onUpload`, if it is called. */
  function Submit(st: ModalState, isUploading: bool): (call: Option<seq<File>>)
    ensures call.Some? <==> |st.files| > 0 && !isUploading
    ensures call.Some? ==> call.value == st.files
  {
    if |st.files| > 0 && !isUploading then Some(st.files) else None
  }

  /** The state with nothing selected. */
  const Empty := ModalState([], None)

  /** `reset`: empties the list and the error (and asks the parent to
      close). */
  function Reset(st: ModalState): (r: ModalState)
    ensures r.files == [] && r.error == None
  {
    Empty
  }

  /** The reset-on-close effect: when the modal becomes closed, the list and
      the error are emptied; while it is open nothing changes. */
  function OnOpenChange(st: ModalState, isOpen: bool): (r: ModalState)
    ensures !isOpen ==> r.files == [] && r.error == None
    ensures isOpen ==> r == st
  {
    if isOpen then st else Empty
  }

  /** After a reset nothing can be submitted. */
  lemma NothingToSubmitAfterReset(st: ModalState, isUploading: bool)
    ensures Submit(Reset(st), isUploading) == None
  {
  }
}
