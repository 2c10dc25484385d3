/** The upload dialog: dropped files become a list of entries, each with a
    progress value and a status (pending, uploading, success or error);
    uploading asks the backend for a pre-signed URL per file, sends the file
    there, and moves each entry along as the transfer reports back. */
module UploadDialog {

  /** `UploadableFile['status']`. */
  datatype UploadStatus = Pending | Uploading | Success | Error

  /** The part of a browser `File` the dialog uses: its name and MIME type. */
  datatype DroppedFile = DroppedFile(name: string, contentType: string)

  /** One entry of the `files` list. */
  datatype UploadableFile = UploadableFile(file: DroppedFile, progress: int, status: UploadStatus)

  /** The body of the pre-signed URL request sent for one file. */
  datatype PresignRequest = PresignRequest(fileName: string, fileType: string, prefix: string)

  /** How the upload of one file ended, in the shape the handlers see it:
      - `PresignFailed`: the URL request threw, was not ok, or its reply did
        not parse, before any byte was sent;
      - `Sent(events, httpStatus)`: the transfer finished (`onload`) with that
        HTTP status after reporting the given percentages (`onprogress` with
        a computable length);
      - `NetworkError(events)`: the transfer failed (`onerror`) after
        reporting the given percentages. */
  datatype UploadOutcome =
    | PresignFailed
    | Sent(events: seq<int>, httpStatus: int)
    | NetworkError(events: seq<int>)

  /** One `setFiles(prev => prev.map(...))` call for a single entry: a
      progress report, or a final status. */
  datatype Update = SetProgress(percent: int) | SetStatus(status: UploadStatus)

  // ---------------------------------------------------------------------
  // the list operations

  /** `onDrop`'s `acceptedFiles.map(...)`: every file starts at progress 0,
      pending. */
  function Dropped(accepted: seq<DroppedFile>): (files: seq<UploadableFile>)
    ensures |files| == |accepted|
    ensures forall i :: 0 <= i < |files| ==>
      files[i].file == accepted[i] && files[i].progress == 0 && files[i].status == Pending
  {
    seq(|accepted|, i requires 0 <= i < |accepted| => UploadableFile(accepted[i], 0, Pending))
  }

  /** The object spread of one update on one entry. */
  function Step(e: UploadableFile, u: Update): (r: UploadableFile)
    ensures r.file == e.file
    ensures u.SetProgress? ==> r.progress == u.percent && r.status == Uploading
    ensures u.SetStatus? ==> r.progress == e.progress && r.status == u.status
  {
    match u
    case SetProgress(p) => e.(progress := p, status := Uploading)
    case SetStatus(s) => e.(status := s)
  }

  /** `prev.map((f, i) => i === index ? {...} : f)`: an index outside the
      list matches no entry. */
  function Apply(files: seq<UploadableFile>, index: int, u: Update): (r: seq<UploadableFile>)
    ensures |r| == |files|
    ensures forall j :: 0 <= j < |files| && j != index ==> r[j] == files[j]
    ensures 0 <= index < |files| ==> r[index] == Step(files[index], u)
  {
    seq(|files|, i requires 0 <= i < |files| => if i == index then Step(files[i], u) else files[i])
  }

  /** The updates of one entry, one after the other. */
  function ApplyAll(files: seq<UploadableFile>, index: int, us: seq<Update>): seq<UploadableFile>
    decreases |us|
  {
    if us == [] then files else ApplyAll(Apply(files, index, us[0]), index, us[1..])
  }

  /** The same updates on the entry alone. */
  function StepAll(e: UploadableFile, us: seq<Update>): UploadableFile
    decreases |us|
  {
    if us == [] then e else StepAll(Step(e, us[0]), us[1..])
  }

  /** `onprogress` for each reported percentage. */
  function ProgressUpdates(events: seq<int>): (us: seq<Update>)
    ensures |us| == |events|
    ensures forall k :: 0 <= k < |us| ==> us[k] == SetProgress(events[k])
  {
    seq(|events|, k requires 0 <= k < |events| => SetProgress(events[k]))
  }

  /** The `setFiles` calls the upload of one file makes, in order (so an
      entry goes from pending through uploading to its final status, and
      never back to uploading once a status is set): after a
      failed URL request only the `catch`; after a finished transfer the
      progress reports and then success for a 2xx status, or the `catch`'s
      error for any other status; after a network error the progress
      reports, `onerror`'s error and then the `catch`'s error once more. */
  function Updates(o: UploadOutcome): (us: seq<Update>)
    ensures |us| > 0 && us[|us| - 1] == SetStatus(FinalStatus(o))
    ensures forall k :: 0 <= k < |us| && us[k].SetStatus? ==> us[k].status == FinalStatus(o)
    ensures forall k, l :: 0 <= k < l < |us| && us[k].SetStatus? ==> us[l].SetStatus?
  {
    match o
    case PresignFailed => [SetStatus(Error)]
    case Sent(events, httpStatus) =>
      ProgressUpdates(events) +
      (if 200 <= httpStatus < 300 then [SetStatus(Success)] else [SetStatus(Error)])
    case NetworkError(events) => ProgressUpdates(events) + [SetStatus(Error), SetStatus(Error)]
  }

  /** Everything the upload of the file at `index` does to the list: no
      other entry changes. */
  function Settle(files: seq<UploadableFile>, index: int, o: UploadOutcome): (r: seq<UploadableFile>)
    ensures |r| == |files|
    ensures forall j :: 0 <= j < |files| && j != index ==> r[j] == files[j]
  {
    ApplyAllIsPointUpdate(files, index, Updates(o));
    ApplyAll(files, index, Updates(o))
  }

  // ---------------------------------------------------------------------
  // the reference outcome of one upload

  /** The status a finished upload leaves: success exactly for a transfer
      that ended with a 2xx status. */
  function FinalStatus(o: UploadOutcome): (s: UploadStatus)
    ensures s == Success <==> o.Sent? && 200 <= o.httpStatus < 300
    ensures s == Success || s == Error
  {
    if o.Sent? && 200 <= o.httpStatus < 300 then Success else Error
  }

  /** The entry after its upload, described directly: same file, the last
      reported percentage (or the old progress when none was reported), and
      the final status. */
  function SettledEntry(e: UploadableFile, o: UploadOutcome): (r: UploadableFile)
    ensures r.file == e.file && r.status == FinalStatus(o)
  {
    var events := if o.PresignFailed? then [] else o.events;
    var progress := if events == [] then e.progress else events[|events| - 1];
    UploadableFile(e.file, progress, FinalStatus(o))
  }

  /** Every entry has finished, one way or the other. */
  predicate Settled(files: seq<UploadableFile>)
  {
    forall i :: 0 <= i < |files| ==> files[i].status == Success || files[i].status == Error
  }

  // ---------------------------------------------------------------------
  // properties of the updates

  /** Two updates for two different entries give the same list in either
      order. */
  lemma ApplyCommutes(files: seq<UploadableFile>, i: int, u: Update, j: int, v: Update)
    requires i != j
    ensures Apply(Apply(files, i, u), j, v) == Apply(Apply(files, j, v), i, u)
  {
  }

  /** A run of updates on one index changes that entry, as `StepAll` says,
      and nothing else; at an index outside the list it changes nothing. */
  lemma {:induction false} ApplyAllIsPointUpdate(files: seq<UploadableFile>, index: int, us: seq<Update>)
    ensures 0 <= index < |files| ==>
      ApplyAll(files, index, us) == files[index := StepAll(files[index], us)]
    ensures !(0 <= index < |files|) ==> ApplyAll(files, index, us) == files
    decreases |us|
  {
    if us != [] {
      var next := Apply(files, index, us[0]);
      ApplyAllIsPointUpdate(next, index, us[1..]);
      if 0 <= index < |files| {
        assert next == files[index := Step(files[index], us[0])];
      } else {
        assert next == files;
      }
    }
  }

  /** Running two runs of updates is running their concatenation. */
  lemma {:induction false} StepAllAppend(e: UploadableFile, a: seq<Update>, b: seq<Update>)
    ensures StepAll(e, a + b) == StepAll(StepAll(e, a), b)
    decreases |a|
  {
    if a == [] {
      assert a + b == b;
    } else {
      assert (a + b)[1..] == a[1..] + b;
      StepAllAppend(Step(e, a[0]), a[1..], b);
    }
  }

  /** Progress reports leave the last percentage and the uploading status;
      none leave the entry as it was. */
  lemma {:induction false} StepAllProgress(e: UploadableFile, events: seq<int>)
    ensures events == [] ==> StepAll(e, ProgressUpdates(events)) == e
    ensures events != [] ==>
      StepAll(e, ProgressUpdates(events)) == e.(progress := events[|events| - 1], status := Uploading)
    decreases |events|
  {
    if events != [] {
      var us := ProgressUpdates(events);
      assert us[1..] == ProgressUpdates(events[1..]);
      StepAllProgress(Step(e, us[0]), events[1..]);
    }
  }

  /** The step-by-step updates of one upload end where `SettledEntry`
      says. */
  lemma StepAllSettles(e: UploadableFile, o: UploadOutcome)
    ensures StepAll(e, Updates(o)) == SettledEntry(e, o)
  {
    match o {
      case PresignFailed =>
      case Sent(events, httpStatus) =>
        var last := if 200 <= httpStatus < 300 then [SetStatus(Success)] else [SetStatus(Error)];
        StepAllAppend(e, ProgressUpdates(events), last);
        StepAllProgress(e, events);
      case NetworkError(events) =>
        StepAllAppend(e, ProgressUpdates(events), [SetStatus(Error), SetStatus(Error)]);
        StepAllProgress(e, events);
    }
  }

  /** The upload of the file at `index` changes only that entry, to its
      settled form: the list keeps its length and every other entry. */
  lemma SettleIsPointUpdate(files: seq<UploadableFile>, index: int, o: UploadOutcome)
    requires 0 <= index < |files|
    ensures Settle(files, index, o) == files[index := SettledEntry(files[index], o)]
  {
    ApplyAllIsPointUpdate(files, index, Updates(o));
    StepAllSettles(files[index], o);
  }

  /** So two uploads of different files give the same list in either
      order. */
  lemma SettleCommutes(files: seq<UploadableFile>, i: int, a: UploadOutcome, j: int, b: UploadOutcome)
    requires 0 <= i < |files| && 0 <= j < |files| && i != j
    ensures Settle(Settle(files, i, a), j, b) == Settle(Settle(files, j, b), i, a)
  {
    SettleIsPointUpdate(files, i, a);
    SettleIsPointUpdate(files, j, b);
    SettleIsPointUpdate(files[i := SettledEntry(files[i], a)], j, b);
    SettleIsPointUpdate(files[j := SettledEntry(files[j], b)], i, a);
  }

  // ---------------------------------------------------------------------
  // the concurrent uploads

  /** One `setFiles` call made by the upload of the entry at `index`. */
  datatype Tagged = Tagged(index: int, update: Update)

  /** The `setFiles` calls of all uploads, in the order the browser happens
      to run them. */
  function Run(files: seq<UploadableFile>, calls: seq<Tagged>): (r: seq<UploadableFile>)
    ensures |r| == |files|
    decreases |calls|
  {
    if calls == [] then files
    else Run(Apply(files, calls[0].index, calls[0].update), calls[1..])
  }

  /** The calls made for the entry at `index`, in their order. */
  function CallsFor(calls: seq<Tagged>, index: int): seq<Update>
    decreases |calls|
  {
    if calls == [] then []
    else (if calls[0].index == index then [calls[0].update] else []) + CallsFor(calls[1..], index)
  }

  /** Whatever the interleaving, each entry ends as its own calls, taken in
      their order, leave it. */
  lemma {:induction false} RunIsPerEntry(files: seq<UploadableFile>, calls: seq<Tagged>, j: int)
    requires 0 <= j < |files|
    ensures Run(files, calls)[j] == StepAll(files[j], CallsFor(calls, j))
    decreases |calls|
  {
    if calls != [] {
      var t := calls[0];
      var next := Apply(files, t.index, t.update);
      RunIsPerEntry(next, calls[1..], j);
      var rest := CallsFor(calls[1..], j);
      if t.index == j {
        assert CallsFor(calls, j) == [t.update] + rest;
        assert ([t.update] + rest)[1..] == rest;
      } else {
        assert CallsFor(calls, j) == [] + rest == rest;
        assert next[j] == files[j];
      }
    }
  }

  /** Any interleaving of the uploads' `setFiles` calls that keeps each
      upload's own calls in their order ends with every entry settled as
      its outcome says, the same list the uploads give one after another. */
  lemma InterleavingSettles(files: seq<UploadableFile>, outcomes: seq<UploadOutcome>, calls: seq<Tagged>)
    requires |outcomes| == |files|
    requires forall j :: 0 <= j < |files| ==> CallsFor(calls, j) == Updates(outcomes[j])
    ensures forall j :: 0 <= j < |files| ==> Run(files, calls)[j] == SettledEntry(files[j], outcomes[j])
  {
    forall j | 0 <= j < |files|
      ensures Run(files, calls)[j] == SettledEntry(files[j], outcomes[j])
    {
      RunIsPerEntry(files, calls, j);
      StepAllSettles(files[j], outcomes[j]);
    }
  }

  // ---------------------------------------------------------------------
  // what the dialog shows

  /** `disabled={files.length === 0 || files.some(...)}` of the Upload
      button. */
  predicate UploadDisabled(files: seq<UploadableFile>)
    ensures files != [] && (forall k :: 0 <= k < |files| ==> files[k].status == Error) ==>
      !UploadDisabled(files)
  {
    |files| == 0 || exists i :: 0 <= i < |files| && files[i].status in {Uploading, Success}
  }

  /** The footer: the Done button once the upload has completed, otherwise
      the Upload button. */
  datatype Footer = DoneButton | UploadButton(enabled: bool)

  function FooterOf(uploadCompleted: bool, files: seq<UploadableFile>): (r: Footer)
    ensures r == DoneButton <==> uploadCompleted
    ensures r.UploadButton? ==> (r.enabled <==> !UploadDisabled(files))
  {
    if uploadCompleted then DoneButton else UploadButton(!UploadDisabled(files))
  }

  /** How one entry is drawn. */
  datatype EntryView = EntryView(name: string, checkMark: bool, progressBar: bool, progress: int, failed: bool)

  function ViewOf(e: UploadableFile): (v: EntryView)
    ensures v.name == e.file.name
    ensures v.checkMark <==> e.status == Success
    ensures v.progressBar <==> e.status == Uploading
    ensures v.failed <==> e.status == Error
  {
    EntryView(e.file.name, e.status == Success, e.status == Uploading, e.progress, e.status == Error)
  }

  /** A fresh non-empty drop enables the Upload button; an empty one leaves
      it disabled. */
  lemma DropEnablesUpload(accepted: seq<DroppedFile>)
    ensures UploadDisabled(Dropped(accepted)) <==> accepted == []
  {
  }

  /** While a file is uploading, or once one has succeeded, the button is
      disabled. For a non-empty list in which every file failed the
      `disabled` expression is false, but such a list only comes from an
      upload, after which the footer shows Done instead (`Dialog.Upload`). */
  lemma DisabledByProgressOrSuccess(files: seq<UploadableFile>, i: int)
    requires 0 <= i < |files|
    ensures files[i].status == Uploading || files[i].status == Success ==> UploadDisabled(files)
    ensures (forall k :: 0 <= k < |files| ==> files[k].status == Error) ==> !UploadDisabled(files)
  {
    if files[i].status == Uploading || files[i].status == Success {
      assert files[i].status in {Uploading, Success};
    }
  }

  /** The requests `handleUpload` sends, one per entry, for the current
      prefix. */
  function PresignRequests(files: seq<UploadableFile>, prefix: string): (rs: seq<PresignRequest>)
    ensures |rs| == |files|
    ensures forall i :: 0 <= i < |rs| ==>
      rs[i] == PresignRequest(files[i].file.name, files[i].file.contentType, prefix)
  {
    seq(|files|, i requires 0 <= i < |files| =>
      PresignRequest(files[i].file.name, files[i].file.contentType, prefix))
  }

  // ---------------------------------------------------------------------
  // the component state

  /** The dialog's state: its `currentPrefix` prop and its own `files`,
      `uploadCompleted` and `isOpen`. */
  class Dialog {
    var currentPrefix: string
    var files: seq<UploadableFile>
    var uploadCompleted: bool
    var isOpen: bool

    constructor (currentPrefix: string)
      ensures this.currentPrefix == currentPrefix
      ensures files == [] && !uploadCompleted && !isOpen
    {
      this.currentPrefix := currentPrefix;
      files, uploadCompleted, isOpen := [], false, false;
    }

    /** `onDrop`: the dropped files replace the whole list, and the
      completed flag is reset. */
    method OnDrop(accepted: seq<DroppedFile>)
      modifies this`files, this`uploadCompleted
      ensures files == Dropped(accepted) && !uploadCompleted
    {
      files := Dropped(accepted);
      uploadCompleted := false;
    }

    /** `handleOpenChange`: closing clears the list and the completed flag;
      opening keeps them. */
    method OpenChange(open: bool)
      modifies this`files, this`uploadCompleted, this`isOpen
      ensures isOpen == open
      ensures !open ==> files == [] && !uploadCompleted
      ensures open ==> files == old(files) && uploadCompleted == old(uploadCompleted)
    {
      if !open {
        files := [];
        uploadCompleted := false;
      }
      isOpen := open;
    }

    /** `handleUpload`, with the way each file's upload ends given as
      `outcomes` (one per entry, in list order). An empty list does nothing.
      Otherwise one URL request is sent per entry, each entry ends settled as
      its outcome says, the completed flag is set even when some uploads
      failed, and `refreshed` tells that `onUploadSuccess` was called. */
    method Upload(outcomes: seq<UploadOutcome>) returns (requests: seq<PresignRequest>, refreshed: bool)
      requires |outcomes| == |files|
      modifies this`files, this`uploadCompleted
      ensures old(files) == [] ==>
        files == [] && uploadCompleted == old(uploadCompleted) && requests == [] && !refreshed
      ensures old(files) != [] ==>
        && |files| == |old(files)|
        && (forall i :: 0 <= i < |files| ==> files[i] == SettledEntry(old(files)[i], outcomes[i]))
        && Settled(files)
        && requests == PresignRequests(old(files), currentPrefix)
        && uploadCompleted && refreshed
        && FooterOf(uploadCompleted, files) == DoneButton
    {
      if |files| == 0 {
        return [], false;
      }
      var snapshot := files;
      requests := PresignRequests(snapshot, currentPrefix);
      var i := 0;
      while i < |snapshot|
        invariant 0 <= i <= |snapshot| && |files| == |snapshot|
        invariant forall k :: 0 <= k < i ==> files[k] == SettledEntry(snapshot[k], outcomes[k])
        invariant forall k :: i <= k < |snapshot| ==> files[k] == snapshot[k]
      {
        SettleIsPointUpdate(files, i, outcomes[i]);
        files := Settle(files, i, outcomes[i]);
        i := i + 1;
      }
      uploadCompleted := true;
      refreshed := true;
    }
  }
}
