/**
 The upload dialog's file list: files picked or dropped are queued when their
 MIME type is exactly `application/pdf`, can be removed one by one, and are
 all handed to one multipart form on submit, which also empties the list and
 closes the dialog. A drag flag follows the drag events over the drop zone.
 */
module PdfUpload {
  import opened Wrappers
  import opened Seqs

  const PdfType := "application/pdf"

  /** A browser `File`, reduced to what the dialog uses. */
  datatype PendingFile = PendingFile(name: string, mimeType: string, size: nat)

  datatype UploadState = UploadState(files: seq<PendingFile>, dragActive: bool, open: bool)

  const InitialUpload := UploadState([], false, false)

  predicate IsPdf(f: PendingFile)
  {
    f.mimeType == PdfType
  }

  /** Every queued file is a PDF. */
  predicate AllPdf(st: UploadState)
  {
    forall i :: 0 <= i < |st.files| ==> IsPdf(st.files[i])
  }

  /** Queue the PDFs among `incoming`, after the files already queued and in their given order. */
  function HandleFiles(st: UploadState, incoming: seq<PendingFile>): (r: UploadState)
    ensures |st.files| <= |r.files| && r.files[..|st.files|] == st.files
    ensures forall f :: f in r.files[|st.files|..] <==> f in incoming && IsPdf(f)
    ensures IsSubseq(r.files[|st.files|..], incoming)
    ensures r.dragActive == st.dragActive && r.open == st.open
  {
    var added := Keep(incoming, IsPdf);
    KeepIsSubseq(incoming, IsPdf);
    assert (st.files + added)[|st.files|..] == added;
    st.(files := st.files + added)
  }

  /** Each PDF is queued as many times as it was offered, anything else never. */
  lemma HandleFilesCount(st: UploadState, incoming: seq<PendingFile>, f: PendingFile)
    ensures var r := HandleFiles(st, incoming);
      multiset(r.files)[f] == multiset(st.files)[f] + (if IsPdf(f) then multiset(incoming)[f] else 0)
  {
    KeepCount(incoming, IsPdf, f);
  }

  /** The drag flag: raised by `dragenter` and `dragover`, lowered by `dragleave`, kept by anything else. */
  function HandleDrag(st: UploadState, eventType: string): (r: UploadState)
    ensures r.dragActive <==> eventType == "dragenter" || eventType == "dragover" ||
                              (eventType != "dragleave" && st.dragActive)
    ensures r.files == st.files && r.open == st.open
  {
    if eventType == "dragenter" || eventType == "dragover" then st.(dragActive := true)
    else if eventType == "dragleave" then st.(dragActive := false)
    else st
  }

  /** A drop lowers the drag flag and queues the dropped files, if any were dropped. */
  function HandleDrop(st: UploadState, dropped: Option<seq<PendingFile>>): (r: UploadState)
    ensures !r.dragActive && r.open == st.open
    ensures dropped.None? || dropped.value == [] ==> r.files == st.files
    ensures dropped.Some? ==> r.files == HandleFiles(st, dropped.value).files
  {
    var lowered := st.(dragActive := false);
    if dropped.Some? && |dropped.value| > 0 then HandleFiles(lowered, dropped.value) else lowered
  }

  /** Picking files with the file input queues them, if any were picked. */
  function HandleChange(st: UploadState, selected: Option<seq<PendingFile>>): (r: UploadState)
    ensures selected.None? || selected.value == [] ==> r == st
    ensures selected.Some? ==> r == HandleFiles(st, selected.value)
  {
    if selected.Some? && |selected.value| > 0 then HandleFiles(st, selected.value) else st
  }

  /** Offering no file at all queues nothing. */
  lemma HandleFilesEmpty(st: UploadState)
    ensures HandleFiles(st, []) == st
  {
    assert st.files + [] == st.files;
  }

  /** `s.filter((_, i) => i !== index)`: every element except the one at position `index`. */
  function Without<T>(s: seq<T>, index: int): (r: seq<T>)
    ensures 0 <= index < |s| ==> r == s[..index] + s[index + 1..]
    ensures !(0 <= index < |s|) ==> r == s
    decreases |s|
  {
    if |s| == 0 then []
    else
      var rest := Without(s[1..], index - 1);
      if index == 0 then
        assert s[1..] == s[..0] + s[1..];
        rest
      else
        assert 0 < index < |s| ==> s[1..][..index - 1] == s[1..index] && s[1..][index..] == s[index + 1..];
        [s[0]] + rest
  }

  function RemoveFile(st: UploadState, index: int): (r: UploadState)
    ensures |r.files| == if 0 <= index < |st.files| then |st.files| - 1 else |st.files|
    ensures 0 <= index < |st.files| ==> multiset(r.files) + multiset{st.files[index]} == multiset(st.files)
    ensures forall i :: 0 <= i < |r.files| ==>
      r.files[i] == (if 0 <= index <= i then st.files[i + 1] else st.files[i])
    ensures r.dragActive == st.dragActive && r.open == st.open
  {
    WithoutElements(st.files, index);
    WithoutCount(st.files, index);
    st.(files := Without(st.files, index))
  }

  /** The survivors of `Without`, position by position: those after `index` move up by one. */
  lemma WithoutElements<T>(s: seq<T>, index: int)
    ensures |Without(s, index)| == if 0 <= index < |s| then |s| - 1 else |s|
    ensures forall i :: 0 <= i < |Without(s, index)| ==>
      Without(s, index)[i] == (if 0 <= index <= i then s[i + 1] else s[i])
  {
  }

  /** `Without` loses exactly one copy of the removed element. */
  lemma WithoutCount<T>(s: seq<T>, index: int)
    ensures 0 <= index < |s| ==> multiset(Without(s, index)) + multiset{s[index]} == multiset(s)
  {
    if 0 <= index < |s| {
      var front, back := s[..index], s[index + 1..];
      SplitAt(s, index);
      SpliceCount(front, s[index], back);
    }
  }

  lemma SplitAt<T>(s: seq<T>, i: int)
    requires 0 <= i < |s|
    ensures s == s[..i] + [s[i]] + s[i + 1..]
  {
  }

  lemma SpliceCount<T>(front: seq<T>, x: T, back: seq<T>)
    ensures multiset(front + back) + multiset{x} == multiset(front + [x] + back)
  {
  }

  /** Removing the file just queued gives back the list before it was queued. */
  lemma RemoveUndoesAdd(st: UploadState, f: PendingFile)
    requires IsPdf(f)
    ensures RemoveFile(HandleFiles(st, [f]), |st.files|) == st
  {
    var r := HandleFiles(st, [f]);
    assert Keep([f], IsPdf) == [f];
    assert r.files[..|st.files|] == st.files;
  }

  /** One entry of the multipart body. */
  datatype FormEntry = FormEntry(name: string, file: PendingFile)

  /**
   Build one `file` entry per queued file, in order, then empty the list and
   close the dialog. The upload request itself is not modelled.
   */
  method HandleSubmit(st: UploadState) returns (form: seq<FormEntry>, r: UploadState)
    ensures |form| == |st.files|
    ensures forall i :: 0 <= i < |form| ==> form[i] == FormEntry("file", st.files[i])
    ensures r.files == [] && !r.open && r.dragActive == st.dragActive
  {
    form := [];
    for i := 0 to |st.files|
      invariant |form| == i
      invariant forall j :: 0 <= j < i ==> form[j] == FormEntry("file", st.files[j])
    {
      form := form + [FormEntry("file", st.files[i])];
    }
    r := st.(files := [], open := false);
  }

  /** The files a form carries, in order. */
  function FormFiles(form: seq<FormEntry>): (fs: seq<PendingFile>)
    ensures |fs| == |form| && forall i :: 0 <= i < |form| ==> fs[i] == form[i].file
  {
    if |form| == 0 then [] else [form[0].file] + FormFiles(form[1..])
  }

  /** The form carries exactly the queued files, and afterwards the submit button is disabled. */
  method SubmitCarriesQueue(st: UploadState, isPending: bool) returns (form: seq<FormEntry>, r: UploadState)
    ensures FormFiles(form) == st.files
    ensures SubmitDisabled(r, isPending)
  {
    form, r := HandleSubmit(st);
  }

  /** The dialog's submit button is disabled with nothing queued or while an upload runs. */
  predicate SubmitDisabled(st: UploadState, isPending: bool)
  {
    |st.files| == 0 || isPending
  }

  /** The events of the drop zone and the file input. */
  datatype UploadEvent =
    | Drag(eventType: string)
    | Drop(dropped: Option<seq<PendingFile>>)
    | Change(selected: Option<seq<PendingFile>>)
    | Remove(index: int)

  function Apply(st: UploadState, e: UploadEvent): UploadState
  {
    match e
    case Drag(t) => HandleDrag(st, t)
    case Drop(d) => HandleDrop(st, d)
    case Change(s) => HandleChange(st, s)
    case Remove(i) => RemoveFile(st, i)
  }

  /** Every event keeps the queue free of anything but PDFs. */
  lemma ApplyKeepsAllPdf(st: UploadState, e: UploadEvent)
    requires AllPdf(st)
    ensures AllPdf(Apply(st, e))
  {
    match e
    case Drag(_) =>
    case Drop(d) =>
      if d.Some? {
        HandleFilesAllPdf(st.(dragActive := false), d.value);
      }
    case Change(s) =>
      if s.Some? {
        HandleFilesAllPdf(st, s.value);
      }
    case Remove(i) =>
  }

  lemma HandleFilesAllPdf(st: UploadState, incoming: seq<PendingFile>)
    requires AllPdf(st)
    ensures AllPdf(HandleFiles(st, incoming))
  {
    var r := HandleFiles(st, incoming);
    forall i | 0 <= i < |r.files|
      ensures IsPdf(r.files[i])
    {
      if i >= |st.files| {
        assert r.files[i] == r.files[|st.files|..][i - |st.files|];
      }
    }
  }

  /** Any sequence of events keeps a queue of PDFs a queue of PDFs. */
  lemma {:induction false} EventsKeepAllPdf(st: UploadState, events: seq<UploadEvent>)
    requires AllPdf(st)
    ensures AllPdf(ApplyAll(st, events))
    decreases |events|
  {
    if |events| > 0 {
      ApplyKeepsAllPdf(st, events[0]);
      EventsKeepAllPdf(Apply(st, events[0]), events[1..]);
    }
  }

  /** Whatever happens from the hook's initial state, only PDFs are ever queued. */
  lemma UploadsOnlyPdfs(events: seq<UploadEvent>)
    ensures AllPdf(ApplyAll(InitialUpload, events))
  {
    EventsKeepAllPdf(InitialUpload, events);
  }

  function ApplyAll(st: UploadState, events: seq<UploadEvent>): UploadState
    decreases |events|
  {
    if |events| == 0 then st else ApplyAll(Apply(st, events[0]), events[1..])
  }
}
