/**
 * The author's two-step publish wizard (js/author-script.js): step 1
 * collects the text fields, step 2 the cover and the manuscript; "next" in
 * step 2 uploads the cover, then the manuscript, then saves the book.
 * The network is a parameter `net` that answers each awaited request,
 * given the step that awaits it.
 */
module Wizard {
  import opened Wrappers
  import opened Text

  const ORIGIN: string := "http://localhost:5000"
  const MAX_MANUSCRIPT_BYTES: int := 50 * 1024 * 1024
  const NEXT_LABEL: string := "Next: Upload File"
  const PUBLISH_LABEL: string := "Publish Book"
  const UPLOADING_LABEL: string := "Uploading..."

  /** A file chosen in a file input. */
  datatype File = File(name: string, mediaType: string, size: int)

  /** The raw values of the text inputs and the category select. */
  datatype Fields = Fields(title: string, author: string, price: string, description: string, category: string)

  /** The file block of an upload reply. */
  datatype StoredFile = StoredFile(url: string, filename: string)

  /** What an awaited `fetch(...).json()` gives: it threw (network failure
      or a body that is not JSON), or a JSON object with `success`, an
      optional `file` block and an optional `error`. */
  datatype Reply =
    | Threw(message: string)
    | Answered(success: bool, file: Option<StoredFile>, error: Option<string>)

  /** A file reference in the saved record. */
  datatype FileRef = FileRef(url: string, filename: string)

  /** The JSON body of `POST /api/books`.  `price` is the text `uploadBook`
      hands to `parseFloat`. */
  datatype Payload = Payload(
    title: string, author: string, price: string, description: string, category: string,
    bookFile: FileRef, coverImage: FileRef)

  /** The requests the wizard sends: a file to `/api/upload`, a record to
      `/api/books`. */
  datatype Request = Upload(file: File) | Save(payload: Payload)

  /** The steps of `uploadBook`: three awaited requests and, between the
      second and the third, the assembly of the saved record. */
  datatype Stage = CoverUpload | ManuscriptUpload | PayloadAssembly | DatabaseSave

  /** The network: the reply to each awaited request, given the step that
      sends it.  The two uploads are separate fetches, so they may get
      different replies even for the same file. */
  type Network = (Stage, Request) -> Reply

  /** The step that sends the `k`-th request of a run. */
  const REQUEST_STAGES: seq<Stage> := [CoverUpload, ManuscriptUpload, DatabaseSave]

  /** Why it failed: the fetch threw, the reply reported `success: false`
      (the message `uploadBook` builds for its own `Error`), or a reply had
      no `file` block so reading `file.url` threw. */
  datatype Failure = Thrown(message: string) | Reported(message: string) | NoFileBlock

  /** How `uploadBook` ends. */
  datatype Outcome = FilesMissing | Published(payload: Payload) | Failed(stage: Stage, failure: Failure)

  /** The outcome with the requests sent, in order. */
  datatype Run = Run(outcome: Outcome, sent: seq<Request>)

  /** The label of the next button that `showStep` sets. */
  function StepLabel(step: int): string {
    if step == 1 then NEXT_LABEL else PUBLISH_LABEL
  }

  /** The step-1 check: trimmed title, author and description, the raw
      price text and the category are all non-empty. */
  predicate Step1Complete(f: Fields) {
    Trim(f.title) != "" && Trim(f.author) != "" && f.price != "" &&
    Trim(f.description) != "" && f.category != ""
  }

  /** The step-1 check passes exactly when title, author and description
      each hold a non-whitespace character and price and category are
      non-empty; the price is not required to be a positive number. */
  lemma Step1CompleteIff(f: Fields)
    ensures Step1Complete(f) <==>
      && (exists k :: 0 <= k < |f.title| && !IsJsWhitespace(f.title[k]))
      && (exists k :: 0 <= k < |f.author| && !IsJsWhitespace(f.author[k]))
      && f.price != ""
      && (exists k :: 0 <= k < |f.description| && !IsJsWhitespace(f.description[k]))
      && f.category != ""
  {
  }

  /** The manuscript check: a PDF by media type or an `.epub` by name, of
      at most 50 MiB. */
  predicate ManuscriptAccepted(file: File) {
    && (file.mediaType == "application/pdf" || EndsWith(ToLower(file.name), ".epub"))
    && file.size <= MAX_MANUSCRIPT_BYTES
  }

  /** The ceiling is inclusive: 52428800 bytes pass, 52428801 do not. */
  lemma ManuscriptCeiling(name: string, mediaType: string)
    requires mediaType == "application/pdf"
    ensures ManuscriptAccepted(File(name, mediaType, 52428800))
    ensures !ManuscriptAccepted(File(name, mediaType, 52428801))
  {
  }

  /** A file that is not a PDF by media type is accepted exactly when its
      name ends in `.epub` in any mix of cases and it is small enough. */
  lemma EpubAnyCase(file: File)
    requires file.mediaType != "application/pdf"
    ensures ManuscriptAccepted(file) <==>
      && |file.name| >= 5
      && file.name[|file.name| - 5] == '.'
      && file.name[|file.name| - 4] in "eE"
      && file.name[|file.name| - 3] in "pP"
      && file.name[|file.name| - 2] in "uU"
      && file.name[|file.name| - 1] in "bB"
      && file.size <= MAX_MANUSCRIPT_BYTES
  {
  }

  /** The cover preview appears only for a media type starting `image/`. */
  predicate CoverPreviewable(file: File) {
    StartsWith(file.mediaType, "image/")
  }

  /** The reply reported `success`. */
  predicate Succeeded(r: Reply) {
    r.Answered? && r.success
  }

  /** `reply.error || 'Unknown error'`. */
  function ErrorDetail(error: Option<string>): string {
    if Truthy(error) then error.value else "Unknown error"
  }

  /** The message prefix of the `Error` each networked step throws. */
  function StagePrefix(stage: Stage): string {
    match stage
    case CoverUpload => "Cover upload failed: "
    case ManuscriptUpload => "Book upload failed: "
    case PayloadAssembly => ""
    case DatabaseSave => "Database save failed: "
  }

  /** The failure a reply without `success` raises in `stage`. */
  function FailureOf(r: Reply, stage: Stage): Failure
    requires !Succeeded(r)
  {
    match r
    case Threw(m) => Thrown(m)
    case Answered(_, _, e) => Reported(StagePrefix(stage) + ErrorDetail(e))
  }

  /** The record sent to `/api/books`. */
  function AssemblePayload(f: Fields, cover: StoredFile, book: StoredFile): Payload {
    Payload(Trim(f.title), Trim(f.author), f.price, Trim(f.description), f.category,
            FileRef(ORIGIN + book.url, book.filename),
            FileRef(ORIGIN + cover.url, cover.filename))
  }

  /** What `uploadBook` does, step by step, given the replies of `net`. */
  function PublishRun(f: Fields, cover: Option<File>, book: Option<File>, net: Network): Run
  {
    if cover.None? || book.None? then Run(FilesMissing, [])
    else
      var up1 := Upload(cover.value);
      var r1 := net(CoverUpload, up1);
      if !Succeeded(r1) then Run(Failed(CoverUpload, FailureOf(r1, CoverUpload)), [up1])
      else
        var up2 := Upload(book.value);
        var r2 := net(ManuscriptUpload, up2);
        if !Succeeded(r2) then Run(Failed(ManuscriptUpload, FailureOf(r2, ManuscriptUpload)), [up1, up2])
        else if r2.file.None? || r1.file.None? then Run(Failed(PayloadAssembly, NoFileBlock), [up1, up2])
        else
          var save := Save(AssemblePayload(f, r1.file.value, r2.file.value));
          var r3 := net(DatabaseSave, save);
          if Succeeded(r3) then Run(Published(save.payload), [up1, up2, save])
          else Run(Failed(DatabaseSave, FailureOf(r3, DatabaseSave)), [up1, up2, save])
  }

  /** Without both files nothing is sent. */
  lemma PublishRunNeedsBothFiles(f: Fields, cover: Option<File>, book: Option<File>, net: Network)
    requires cover.None? || book.None?
    ensures PublishRun(f, cover, book, net) == Run(FilesMissing, [])
  {
  }

  /** The requests go out in the order cover, manuscript, save, each only
      after the previous reply reported `success`; the save goes out only
      when both replies carry a `file` block. */
  lemma PublishRunOrder(f: Fields, cover: Option<File>, book: Option<File>, net: Network)
    ensures var run := PublishRun(f, cover, book, net);
      && |run.sent| <= 3
      && (|run.sent| >= 1 ==> cover.Some? && book.Some? && run.sent[0] == Upload(cover.value))
      && (|run.sent| >= 2 ==> run.sent[1] == Upload(book.value) && Succeeded(net(CoverUpload, run.sent[0])))
      && (|run.sent| == 3 ==>
            && run.sent[2].Save?
            && Succeeded(net(ManuscriptUpload, run.sent[1]))
            && net(CoverUpload, run.sent[0]).file.Some? && net(ManuscriptUpload, run.sent[1]).file.Some?)
  {
  }

  /** A run ends published exactly when the save was sent and its reply
      reported `success`.  A failed run names its step: the cover upload
      after one request, the manuscript upload or the record assembly after
      two, the save after three.  Every earlier reply succeeded.  A failed
      request's reply gives the failure, with the message of its step;
      a record-assembly failure follows two successful uploads, one of
      whose replies lacks its `file` block. */
  lemma PublishRunOutcome(f: Fields, cover: Option<File>, book: Option<File>, net: Network)
    ensures var run := PublishRun(f, cover, book, net);
      && (run.outcome.Published? <==> |run.sent| == 3 && Succeeded(net(DatabaseSave, run.sent[2])))
      && (run.outcome.FilesMissing? <==> run.sent == [])
      && (run.outcome.Failed? ==>
            var stage, n := run.outcome.stage, |run.sent|;
            && (stage == CoverUpload <==> n == 1)
            && (stage == ManuscriptUpload || stage == PayloadAssembly <==> n == 2)
            && (stage == DatabaseSave <==> n == 3)
            && (forall k :: 0 <= k < n - 1 ==> Succeeded(net(REQUEST_STAGES[k], run.sent[k])))
            && (stage != PayloadAssembly ==>
                  && REQUEST_STAGES[n - 1] == stage
                  && !Succeeded(net(stage, run.sent[n - 1]))
                  && run.outcome.failure == FailureOf(net(stage, run.sent[n - 1]), stage))
            && (stage == PayloadAssembly ==>
                  && run.outcome.failure == NoFileBlock
                  && Succeeded(net(ManuscriptUpload, run.sent[1]))
                  && (net(CoverUpload, run.sent[0]).file.None? || net(ManuscriptUpload, run.sent[1]).file.None?)))
  {
  }

  /** The message of a failure the script reports itself: the step's
      prefix followed by the reply's `error`, or `Unknown error`. */
  lemma ReportedMessages(e: Option<string>, file: Option<StoredFile>)
    ensures FailureOf(Answered(false, file, e), CoverUpload) == Reported("Cover upload failed: " + ErrorDetail(e))
    ensures FailureOf(Answered(false, file, e), ManuscriptUpload) == Reported("Book upload failed: " + ErrorDetail(e))
    ensures FailureOf(Answered(false, file, e), DatabaseSave) == Reported("Database save failed: " + ErrorDetail(e))
    ensures ErrorDetail(e) == if e.Some? && e.value != "" then e.value else "Unknown error"
  {
  }

  /** The same file chosen for cover and manuscript is still sent twice,
      and the second upload can fail after the first succeeded. */
  lemma SameFileUploadedTwice(f: Fields, c: File)
    ensures var net: Network := (stage: Stage, r: Request) =>
              if stage == CoverUpload then Answered(true, Some(StoredFile("/uploads/c", "c")), None)
              else Answered(false, None, None);
            PublishRun(f, Some(c), Some(c), net)
              == Run(Failed(ManuscriptUpload, Reported("Book upload failed: Unknown error")), [Upload(c), Upload(c)])
  {
    assert FailureOf(Answered(false, None, None), ManuscriptUpload)
      == Reported("Book upload failed: " + "Unknown error");
    assert "Book upload failed: " + "Unknown error" == "Book upload failed: Unknown error";
  }

  /** A failed cover or manuscript upload sends no save request, so the
      already uploaded cover is referenced by no record. */
  lemma UploadFailureSavesNothing(f: Fields, cover: Option<File>, book: Option<File>, net: Network)
    ensures var run := PublishRun(f, cover, book, net);
      run.outcome.Failed? && run.outcome.stage != DatabaseSave ==>
        forall k :: 0 <= k < |run.sent| ==> run.sent[k].Upload?
  {
  }

  /** The saved record copies the trimmed title, author and description,
      the raw price and the category, and points at the two uploaded files
      through the server origin. */
  lemma SavedPayload(f: Fields, cover: Option<File>, book: Option<File>, net: Network)
    ensures var run := PublishRun(f, cover, book, net);
      |run.sent| == 3 ==>
        var p := run.sent[2].payload;
        var c := net(CoverUpload, run.sent[0]).file.value;
        var m := net(ManuscriptUpload, run.sent[1]).file.value;
        && p.title == Trim(f.title) && p.author == Trim(f.author) && p.price == f.price
        && p.description == Trim(f.description) && p.category == f.category
        && p.bookFile.url == ORIGIN + m.url && p.bookFile.filename == m.filename
        && p.coverImage.url == ORIGIN + c.url && p.coverImage.filename == c.filename
        && (run.outcome.Published? ==> run.outcome.payload == p)
  {
  }

  /** What the manuscript input shows after a change. */
  datatype FileInfo = NoInfo | AcceptedInfo(file: File) | RejectedInfo

  const EMPTY_FIELDS: Fields := Fields("", "", "", "", "")

  class PublishWizard {
    var currentStep: int
    var nextLabel: string
    var nextDisabled: bool
    var prevVisible: bool
    var fields: Fields
    var coverFile: Option<File>
    var bookFile: Option<File>
    var coverPreview: Option<File>
    var fileInfo: FileInfo

    /** Between events: the step is 1 or 2, the previous button shows only
        in step 2, the next button is enabled, and in step 2 it reads
        "Publish Book". */
    ghost predicate Valid()
      reads this
    {
      && (currentStep == 1 || currentStep == 2)
      && prevVisible == (currentStep == 2)
      && !nextDisabled
      && (currentStep == 2 ==> nextLabel == PUBLISH_LABEL)
    }

    /** The page loads with an empty form and `showStep(1)`. */
    constructor ()
      ensures Valid()
      ensures currentStep == 1 && nextLabel == NEXT_LABEL && !prevVisible && !nextDisabled
      ensures fields == EMPTY_FIELDS && coverFile == None && bookFile == None
      ensures coverPreview == None && fileInfo == NoInfo
    {
      currentStep, nextLabel, prevVisible, nextDisabled := 1, NEXT_LABEL, false, false;
      fields, coverFile, bookFile := EMPTY_FIELDS, None, None;
      coverPreview, fileInfo := None, NoInfo;
    }

    /** `showStep(step)`: the step becomes `step`, the previous button shows
        unless it is 1, and the next button gets that step's label. */
    method ShowStep(step: int)
      modifies this
      ensures currentStep == step && prevVisible == (step != 1) && nextLabel == StepLabel(step)
      ensures nextDisabled == old(nextDisabled) && fields == old(fields)
      ensures coverFile == old(coverFile) && bookFile == old(bookFile)
      ensures coverPreview == old(coverPreview) && fileInfo == old(fileInfo)
    {
      if step == 1 {
        prevVisible := false;
        nextLabel := NEXT_LABEL;
      } else {
        prevVisible := true;
        nextLabel := PUBLISH_LABEL;
      }
      currentStep := step;
    }

    /** The author types into the text fields.  The script has no handler
        for this; the method stands for the browser updating the form. */
    method EditFields(f: Fields)
      requires Valid()
      modifies this
      ensures Valid() && fields == f
      ensures currentStep == old(currentStep) && nextLabel == old(nextLabel)
      ensures coverFile == old(coverFile) && bookFile == old(bookFile)
      ensures coverPreview == old(coverPreview) && fileInfo == old(fileInfo)
    {
      fields := f;
    }

    /** A change of the cover input: the input holds the file whatever its
        type; only an image is previewed. */
    method SelectCover(file: Option<File>)
      requires Valid()
      modifies this
      ensures Valid() && coverFile == file
      ensures coverPreview == if file.Some? && CoverPreviewable(file.value) then file else old(coverPreview)
      ensures currentStep == old(currentStep) && nextLabel == old(nextLabel) && fields == old(fields)
      ensures bookFile == old(bookFile) && fileInfo == old(fileInfo)
    {
      coverFile := file;
      if file.Some? && CoverPreviewable(file.value) {
        coverPreview := file;
      }
    }

    /** A change of the manuscript input: an accepted file stays selected;
        a rejected one is cleared from the input. */
    method SelectManuscript(file: Option<File>)
      requires Valid()
      modifies this
      ensures Valid()
      ensures bookFile == if file.Some? && !ManuscriptAccepted(file.value) then None else file
      ensures fileInfo ==
        if file.None? then old(fileInfo)
        else if ManuscriptAccepted(file.value) then AcceptedInfo(file.value)
        else RejectedInfo
      ensures currentStep == old(currentStep) && nextLabel == old(nextLabel) && fields == old(fields)
      ensures coverFile == old(coverFile) && coverPreview == old(coverPreview)
    {
      bookFile := file;
      if file.Some? {
        if ManuscriptAccepted(file.value) {
          fileInfo := AcceptedInfo(file.value);
        } else {
          fileInfo := RejectedInfo;
          bookFile := None;
        }
      }
    }

    /** The previous button: always back to step 1. */
    method PrevClick()
      requires Valid()
      modifies this
      ensures Valid()
      ensures currentStep == 1 && nextLabel == NEXT_LABEL && !prevVisible
      ensures fields == old(fields) && coverFile == old(coverFile) && bookFile == old(bookFile)
      ensures coverPreview == old(coverPreview) && fileInfo == old(fileInfo)
    {
      ShowStep(1);
    }

    /** `uploadBook`.  Without both files it alerts and returns untouched.
        Otherwise it disables the button, uploads the cover, then the
        manuscript, then saves the record, stopping at the first failure.
        On success the form is reset and step 1 is shown; on failure the
        step stays.  The `finally` block leaves the button enabled and
        labelled "Publish Book" in both cases, even back in step 1. */
    method UploadBook(net: Network) returns (run: Run)
      requires Valid() && currentStep == 2
      modifies this
      ensures run == PublishRun(old(fields), old(coverFile), old(bookFile), net)
      ensures Valid()
      ensures run.outcome.FilesMissing? ==>
        && currentStep == old(currentStep) && nextLabel == old(nextLabel) && prevVisible == old(prevVisible)
        && fields == old(fields) && coverFile == old(coverFile) && bookFile == old(bookFile)
        && coverPreview == old(coverPreview) && fileInfo == old(fileInfo)
      ensures !run.outcome.FilesMissing? ==> !nextDisabled && nextLabel == PUBLISH_LABEL
      ensures run.outcome.Published? ==>
        && currentStep == 1 && !prevVisible
        && fields == EMPTY_FIELDS && coverFile == None && bookFile == None
        && coverPreview == None && fileInfo == NoInfo
      ensures run.outcome.Failed? ==>
        && currentStep == 2 && prevVisible
        && fields == old(fields) && coverFile == old(coverFile) && bookFile == old(bookFile)
        && coverPreview == old(coverPreview) && fileInfo == old(fileInfo)
    {
      if coverFile.None? || bookFile.None? {
        return Run(FilesMissing, []);
      }
      nextDisabled := true;
      nextLabel := UPLOADING_LABEL;

      var f := fields;
      var up1 := Upload(coverFile.value);
      var up2 := Upload(bookFile.value);
      var coverData := net(CoverUpload, up1);
      if !Succeeded(coverData) {
        run := Run(Failed(CoverUpload, FailureOf(coverData, CoverUpload)), [up1]);
      } else {
        var bookData := net(ManuscriptUpload, up2);
        if !Succeeded(bookData) {
          run := Run(Failed(ManuscriptUpload, FailureOf(bookData, ManuscriptUpload)), [up1, up2]);
        } else if bookData.file.None? || coverData.file.None? {
          run := Run(Failed(PayloadAssembly, NoFileBlock), [up1, up2]);
        } else {
          var save := Save(AssemblePayload(f, coverData.file.value, bookData.file.value));
          var saveData := net(DatabaseSave, save);
          if Succeeded(saveData) {
            run := Run(Published(save.payload), [up1, up2, save]);
            fields, coverFile, bookFile := EMPTY_FIELDS, None, None;
            coverPreview, fileInfo := None, NoInfo;
            ShowStep(1);
          } else {
            run := Run(Failed(DatabaseSave, FailureOf(saveData, DatabaseSave)), [up1, up2, save]);
          }
        }
      }

      // finally
      nextDisabled := false;
      nextLabel := PUBLISH_LABEL;
    }

    /** The next button: in step 1 it advances to step 2 only when the
        step-1 check passes; in step 2 it runs `uploadBook`. */
    method NextClick(net: Network) returns (advanced: bool, run: Option<Run>)
      requires Valid()
      modifies this
      ensures Valid()
      ensures advanced <==> old(currentStep) == 1 && Step1Complete(old(fields))
      ensures run.Some? <==> old(currentStep) == 2
      ensures old(currentStep) == 1 ==>
        && currentStep == (if advanced then 2 else 1)
        && nextLabel == (if advanced then PUBLISH_LABEL else old(nextLabel))
      ensures run.Some? ==> run.value == PublishRun(old(fields), old(coverFile), old(bookFile), net)
      ensures run.Some? && run.value.outcome.FilesMissing? ==>
        && currentStep == 2 && nextLabel == old(nextLabel) && prevVisible
        && fields == old(fields) && coverFile == old(coverFile) && bookFile == old(bookFile)
        && coverPreview == old(coverPreview) && fileInfo == old(fileInfo)
      ensures run.Some? && !run.value.outcome.FilesMissing? ==> !nextDisabled && nextLabel == PUBLISH_LABEL
      ensures run.Some? && run.value.outcome.Published? ==>
        && currentStep == 1 && !prevVisible
        && fields == EMPTY_FIELDS && coverFile == None && bookFile == None
        && coverPreview == None && fileInfo == NoInfo
      ensures run.Some? && run.value.outcome.Failed? ==>
        && currentStep == 2 && prevVisible
        && fields == old(fields) && coverFile == old(coverFile) && bookFile == old(bookFile)
        && coverPreview == old(coverPreview) && fileInfo == old(fileInfo)
      ensures old(currentStep) == 1 ==>
        && fields == old(fields) && coverFile == old(coverFile) && bookFile == old(bookFile)
        && coverPreview == old(coverPreview) && fileInfo == old(fileInfo)
    {
      advanced, run := false, None;
      if currentStep == 1 {
        if !Step1Complete(fields) {
          return;
        }
        ShowStep(2);
        advanced := true;
      } else if currentStep == 2 {
        var r := UploadBook(net);
        run := Some(r);
      }
    }
  }
}
