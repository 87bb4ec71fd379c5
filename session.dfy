/** The edit session of the application: the uploaded image, the reference
    images, the history of edit steps and the request orchestration around
    the external edit function (validation, busy flag, error slot and the
    stored retry request). Each handler runs as one atomic step; the outcome
    of the external call is a parameter. */
module Session {
  import opened Common
  import opened Strings
  import opened History

  /** A fully resolved edit request: the stored retry action replays it. */
  datatype Request = Request(prompt: string, baseFile: File, isRegeneration: bool, extraImages: seq<File>)

  /** The arguments of one call to the external edit function. */
  datatype EditCall = EditCall(prompt: string, imageFile: File, additionalImages: seq<File>)

  /** All session fields as one value. */
  datatype SessionState = SessionState(
    mode: Mode,
    originalImage: Option<string>,
    originalImageFile: Option<File>,
    additionalImages: seq<File>,
    position: Position,
    lastPrompt: Option<string>,
    isLoading: bool,
    error: Option<string>,
    lastFailedAction: Option<Request>,
    editCalls: seq<EditCall>)

  const UploadFirstMessage := "Please upload an image first."
  const NothingToRefineMessage := "No generated image to refine."
  const NoRecentPromptMessage := "No recent prompt to regenerate."
  const NoHistoryMessage := "Cannot regenerate, no history available."
  const OriginalMissingMessage := "Original image is missing for regeneration."
  const FailurePrefix := "Generation failed: "
  const UnknownErrorText := "An unknown error occurred."

  const RegenerateBlankMessage := "Cannot regenerate without a prompt."
  const GenerateBlankMessage := "Please select a style or enter a custom prompt."

  /** The validation message for a blank prompt: a regeneration gets its own
      message, distinct from the one for every other request. */
  function BlankPromptMessage(isRegeneration: bool): (r: string)
    ensures r == RegenerateBlankMessage <==> isRegeneration
    ensures r == GenerateBlankMessage <==> !isRegeneration
  {
    if isRegeneration then RegenerateBlankMessage else GenerateBlankMessage
  }

  /** The error shown after the edit call threw: the `Error`'s own message,
      or a fixed text for anything else, after a fixed prefix. */
  function FailureMessage(t: Thrown): (r: string)
    ensures StartsWith(r, FailurePrefix)
    ensures t.ErrorObject? ==> r[|FailurePrefix|..] == t.message
    ensures t.NonError? ==> r[|FailurePrefix|..] == UnknownErrorText
  {
    FailurePrefix + match t
      case ErrorObject(message) => message
      case NonError => UnknownErrorText
  }

  /** `dataUrlToFile` once `fetch` has produced a blob whose `type` is
      `blobType`: the MIME tag falls back to `image/png`, and the file name
      takes the part of the MIME tag after its first slash as extension. */
  function DataUrlToFile(dataUrl: string, filename: string, blobType: string): (f: File)
    ensures f.source == dataUrl
    ensures f.mime == if blobType == "" then "image/png" else blobType
    ensures blobType == "" ==> f.name == filename + ".png"
    ensures '/' !in f.mime ==> f.name == filename + ".png"
  {
    var mimeType := if blobType == "" then "image/png" else blobType;
    var extension := match SecondField(mimeType, '/')
      case Some(e) => e
      case None => "png";
    assert blobType == "" ==> extension == "png" by {
      if blobType == "" {
        assert mimeType == "image" + ['/'] + "png" + [];
        SecondFieldOfJoined("image", '/', "png", []);
      }
    }
    File(filename + "." + extension, mimeType, dataUrl)
  }

  /** A file rebuilt from a data URL whose blob type is `kind/subtype` is
      named with the subtype as extension. */
  lemma DataUrlToFileExtension(dataUrl: string, filename: string, kind: string, subtype: string)
    requires '/' !in kind && '/' !in subtype && kind + "/" + subtype != ""
    ensures DataUrlToFile(dataUrl, filename, kind + "/" + subtype).name == filename + "." + subtype
  {
    assert kind + "/" + subtype == kind + ['/'] + subtype + [];
    SecondFieldOfJoined(kind, '/', subtype, []);
  }

  /** The session invariant: the navigation fields are well formed, and every
      remembered prompt (for regeneration and for retry) passed validation. */
  predicate Consistent(s: SessionState) {
    && WellFormed(s.position)
    && (s.lastPrompt.Some? ==> !IsBlank(s.lastPrompt.value))
    && (s.lastFailedAction.Some? ==> !IsBlank(s.lastFailedAction.value.prompt))
  }

  /** The state once the external call for `req` has settled with `outcome`. */
  function Settle(s: SessionState, req: Request, outcome: Outcome): (r: SessionState)
    requires WellFormed(s.position)
    ensures WellFormed(r.position)
    ensures r.editCalls == s.editCalls + [EditCall(req.prompt, req.baseFile, req.extraImages)]
    ensures !r.isLoading
    ensures r.lastPrompt == if req.isRegeneration then s.lastPrompt else Some(req.prompt)
    ensures r.error.Some? <==> outcome.Threw?
    ensures r.lastFailedAction.Some? <==> outcome.Threw?
    ensures outcome.Threw? ==>
      && r.position == s.position
      && r.error == Some(FailureMessage(outcome.thrown))
      && r.lastFailedAction == Some(req)
    ensures outcome.Returned? && !req.isRegeneration ==> r.position == Commit(s.position, outcome.image)
    ensures outcome.Returned? && req.isRegeneration ==> r.position == AddVariation(s.position, outcome.image)
    ensures r.mode == s.mode && r.originalImage == s.originalImage
         && r.originalImageFile == s.originalImageFile && r.additionalImages == s.additionalImages
  {
    var sent := s.(editCalls := s.editCalls + [EditCall(req.prompt, req.baseFile, req.extraImages)],
                   lastPrompt := if req.isRegeneration then s.lastPrompt else Some(req.prompt),
                   isLoading := false);
    match outcome
    case Returned(image) =>
      sent.(position := if req.isRegeneration then AddVariation(s.position, image) else Commit(s.position, image),
            error := None, lastFailedAction := None)
    case Threw(t) =>
      sent.(error := Some(FailureMessage(t)), lastFailedAction := Some(req))
  }

  /** `executeGeneration`: a blank prompt only sets the validation message;
      any other prompt makes exactly one call and settles. */
  function Submit(s: SessionState, req: Request, outcome: Outcome): (r: SessionState)
    requires WellFormed(s.position)
    ensures IsBlank(req.prompt) ==> r == s.(error := Some(BlankPromptMessage(req.isRegeneration)))
    ensures !IsBlank(req.prompt) ==> r == Settle(s, req, outcome)
    ensures Consistent(s) ==> Consistent(r)
  {
    if IsBlank(req.prompt) then s.(error := Some(BlankPromptMessage(req.isRegeneration)))
    else Settle(s, req, outcome)
  }

  /** A failed request followed by a retry with the stored action sends the
      identical arguments a second time, and the history is untouched by the
      failure. */
  lemma {:induction false} RetryReplaysRequest(s: SessionState, req: Request, t: Thrown, outcome: Outcome)
    requires Consistent(s) && !IsBlank(req.prompt)
    ensures var failed := Submit(s, req, Threw(t));
      && failed.position == s.position
      && failed.lastFailedAction == Some(req)
      && var retried := Submit(failed, failed.lastFailedAction.value, outcome);
         && |retried.editCalls| == |s.editCalls| + 2
         && retried.editCalls[|s.editCalls|] == retried.editCalls[|s.editCalls| + 1]
         && retried.editCalls[|s.editCalls| + 1] == EditCall(req.prompt, req.baseFile, req.extraImages)
  {
    var failed := Submit(s, req, Threw(t));
    assert failed == Settle(s, req, Threw(t));
    var retried := Submit(failed, req, outcome);
    assert retried == Settle(failed, req, outcome);
  }

  /** The image `handleRegenerate` starts from: the original image for the
      first step, otherwise the newest variation of the previous step. */
  function RegenerationSource(s: SessionState): (r: Option<string>)
    requires WellFormed(s.position) && s.position.historyIndex >= 0
    ensures s.position.historyIndex > 0 ==>
      r == Some(Last(s.position.history[s.position.historyIndex - 1]))
    ensures s.position.historyIndex == 0 ==> r == s.originalImage
  {
    var p := s.position;
    if p.historyIndex == 0 then s.originalImage
    else
      var previous := p.history[p.historyIndex - 1];
      Some(previous[|previous| - 1])
  }

  class EditSession {
    var mode: Mode
    var originalImage: Option<string>
    var originalImageFile: Option<File>
    var additionalImages: seq<File>
    var history: seq<seq<string>>
    var historyIndex: int
    var variationIndex: int
    var lastPrompt: Option<string>
    var isLoading: bool
    var error: Option<string>
    var lastFailedAction: Option<Request>
    /** Every call made to the external edit function, in order. */
    var editCalls: seq<EditCall>

    function Pos(): Position
      reads this
    {
      Position(history, historyIndex, variationIndex)
    }

    function State(): SessionState
      reads this
    {
      SessionState(mode, originalImage, originalImageFile, additionalImages, Pos(),
                   lastPrompt, isLoading, error, lastFailedAction, editCalls)
    }

    predicate Valid()
      reads this
    {
      Consistent(State())
    }

    /** The displayed image (`generatedImage`). */
    function GeneratedImage(): (r: Option<string>)
      reads this
      ensures r.Some? <==> 0 <= historyIndex < |history| && 0 <= variationIndex < |history[historyIndex]|
      ensures r.Some? ==> r.value == history[historyIndex][variationIndex]
    {
      History.GeneratedImage(Pos())
    }

    predicate CanUndo()
      reads this
    {
      History.CanUndo(Pos())
    }

    predicate CanRedo()
      reads this
    {
      History.CanRedo(Pos())
    }

    constructor ()
      ensures Valid()
      ensures State() == SessionState(Avatar, None, None, [], Start, None, false, None, None, [])
    {
      mode := Avatar;
      originalImage, originalImageFile := None, None;
      additionalImages := [];
      history, historyIndex, variationIndex := [], -1, -1;
      lastPrompt := None;
      isLoading := false;
      error, lastFailedAction := None, None;
      editCalls := [];
    }

    method SetMode(m: Mode)
      requires Valid()
      modifies this
      ensures State() == old(State()).(mode := m)
      ensures Valid()
    {
      mode := m;
    }

    /** `handleImageUpload`: a new base image resets everything derived from
      the previous one. */
    method HandleImageUpload(file: File, dataUrl: string)
      modifies this
      ensures State() == old(State()).(originalImage := Some(dataUrl), originalImageFile := Some(file),
                                       additionalImages := [], position := Start, lastPrompt := None,
                                       error := None, lastFailedAction := None)
      ensures Valid()
    {
      originalImage := Some(dataUrl);
      originalImageFile := Some(file);
      additionalImages := [];
      history := [];
      historyIndex := -1;
      variationIndex := -1;
      lastPrompt := None;
      error := None;
      lastFailedAction := None;
    }

    /** `handleAdditionalImageUpload`: append a reference image. */
    method HandleAdditionalImageUpload(file: File)
      requires Valid()
      modifies this
      ensures State() == old(State()).(additionalImages := old(additionalImages) + [file])
      ensures Valid()
    {
      additionalImages := additionalImages + [file];
    }

    /** `removeAdditionalImage`: keep every reference image whose position is
      not `index`; an index outside the list removes nothing. */
    method RemoveAdditionalImage(index: int)
      requires Valid()
      modifies this
      ensures State() == old(State()).(additionalImages := WithoutIndex(old(additionalImages), index))
      ensures Valid()
    {
      additionalImages := WithoutIndex(additionalImages, index);
    }

    /** `executeGeneration`. */
    method ExecuteGeneration(prompt: string, baseFile: File, isRegeneration: bool,
                             extraImages: seq<File>, outcome: Outcome)
      requires Valid()
      modifies this
      ensures State() == Submit(old(State()), Request(prompt, baseFile, isRegeneration, extraImages), outcome)
      ensures Valid()
    {
      ghost var before := State();
      ghost var request := Request(prompt, baseFile, isRegeneration, extraImages);
      if IsBlank(prompt) {
        error := Some(BlankPromptMessage(isRegeneration));
        return;
      }
      isLoading := true;
      error := None;
      lastFailedAction := None;
      if !isRegeneration {
        lastPrompt := Some(prompt);
      }
      editCalls := editCalls + [EditCall(prompt, baseFile, extraImages)];
      match outcome {
        case Returned(result) =>
          ApplyResult(result, isRegeneration);
        case Threw(t) =>
          error := Some(FailureMessage(t));
          lastFailedAction := Some(Request(prompt, baseFile, isRegeneration, extraImages));
      }
      isLoading := false;
      assert State() == Settle(before, request, outcome);
    }

    /** The success branch of `executeGeneration`: a regeneration appends the
      result to the active step, any other edit truncates the history after
      the cursor and appends a new step. */
    method ApplyResult(result: string, isRegeneration: bool)
      requires Valid()
      modifies this
      ensures State() == old(State()).(position := if isRegeneration then AddVariation(old(Pos()), result)
                                                    else Commit(old(Pos()), result))
      ensures Valid()
    {
      if isRegeneration {
        if historyIndex > -1 {
          var newHistory := history;
          newHistory := newHistory[historyIndex := newHistory[historyIndex] + [result]];
          history := newHistory;
          variationIndex := |newHistory[historyIndex]| - 1;
        }
      } else {
        var slicedHistory := history[..historyIndex + 1];
        slicedHistory := slicedHistory + [[result]];
        history := slicedHistory;
        historyIndex := |slicedHistory| - 1;
        variationIndex := 0;
      }
    }

    /** `handleGenerate`: edit the uploaded image with the current reference images. */
    method HandleGenerate(prompt: string, outcome: Outcome)
      requires Valid()
      modifies this
      ensures old(originalImageFile).None? ==> State() == old(State()).(error := Some(UploadFirstMessage))
      ensures old(originalImageFile).Some? ==>
        State() == Submit(old(State()), Request(prompt, old(originalImageFile).value, false, old(additionalImages)), outcome)
      ensures Valid()
    {
      if originalImageFile.None? {
        error := Some(UploadFirstMessage);
        return;
      }
      ExecuteGeneration(prompt, originalImageFile.value, false, additionalImages, outcome);
    }

    /** `handleRefineImage`: edit the displayed image, without reference
      images; `blobType` is the type `fetch` reports for its data URL. */
    method HandleRefineImage(prompt: string, blobType: string, outcome: Outcome)
      requires Valid()
      modifies this
      ensures !Truthy(old(GeneratedImage())) ==> State() == old(State()).(error := Some(NothingToRefineMessage))
      ensures Truthy(old(GeneratedImage())) ==>
        var file := DataUrlToFile(old(GeneratedImage()).value, "generated-image-for-refining", blobType);
        State() == Submit(old(State()), Request(prompt, file, false, []), outcome)
      ensures Valid()
    {
      var image := GeneratedImage();
      if !Truthy(image) {
        error := Some(NothingToRefineMessage);
        return;
      }
      var imageFile := DataUrlToFile(image.value, "generated-image-for-refining", blobType);
      ExecuteGeneration(prompt, imageFile, false, [], outcome);
    }

    /** `handleRegenerate`: resubmit the last prompt as a regeneration of the
      active step, from the image that step was derived from, with the current
      reference images. */
    method HandleRegenerate(blobType: string, outcome: Outcome)
      requires Valid()
      modifies this
      ensures !Truthy(old(lastPrompt)) ==> State() == old(State()).(error := Some(NoRecentPromptMessage))
      ensures Truthy(old(lastPrompt)) && old(historyIndex) < 0 ==>
        State() == old(State()).(error := Some(NoHistoryMessage))
      ensures Truthy(old(lastPrompt)) && old(historyIndex) >= 0 ==>
        var source := RegenerationSource(old(State()));
        if !Truthy(source) && old(originalImageFile).None? then
          State() == old(State()).(error := Some(OriginalMissingMessage))
        else
          var baseFile := if Truthy(source) then DataUrlToFile(source.value, "base-for-regeneration", blobType)
                          else old(originalImageFile).value;
          State() == Settle(old(State()), Request(old(lastPrompt).value, baseFile, true, old(additionalImages)), outcome)
      ensures Valid()
    {
      if !Truthy(lastPrompt) {
        error := Some(NoRecentPromptMessage);
        return;
      }
      if historyIndex < 0 {
        error := Some(NoHistoryMessage);
        return;
      }
      var isFirstStep := historyIndex == 0;
      var baseImageSource := if isFirstStep then originalImage
                             else Some(history[historyIndex - 1][|history[historyIndex - 1]| - 1]);
      if !Truthy(baseImageSource) && originalImageFile.None? {
        error := Some(OriginalMissingMessage);
        return;
      }
      var baseFile := if Truthy(baseImageSource)
                      then DataUrlToFile(baseImageSource.value, "base-for-regeneration", blobType)
                      else originalImageFile.value;
      ExecuteGeneration(lastPrompt.value, baseFile, true, additionalImages, outcome);
    }

    /** `handleVariationSelect`: stores the index without a range check. */
    method HandleVariationSelect(index: int)
      requires Valid()
      modifies this
      ensures State() == old(State()).(position := Select(old(Pos()), index))
      ensures Valid()
    {
      variationIndex := index;
    }

    method HandleUndo()
      requires Valid()
      modifies this
      ensures State() == old(State()).(position := Undo(old(Pos())))
      ensures Valid()
    {
      if CanUndo() {
        var prevStepIndex := historyIndex - 1;
        historyIndex := prevStepIndex;
        variationIndex := |history[prevStepIndex]| - 1;
      }
    }

    method HandleRedo()
      requires Valid()
      modifies this
      ensures State() == old(State()).(position := Redo(old(Pos())))
      ensures Valid()
    {
      if CanRedo() {
        var nextStepIndex := historyIndex + 1;
        historyIndex := nextStepIndex;
        variationIndex := 0;
      }
    }

    /** `handleRetry`: replay the stored request, if any; the replayed prompt
      always passes validation, so the call is always made. */
    method HandleRetry(outcome: Outcome)
      requires Valid()
      modifies this
      ensures old(lastFailedAction).None? ==> State() == old(State())
      ensures old(lastFailedAction).Some? ==>
        && State() == Settle(old(State()), old(lastFailedAction).value, outcome)
        && editCalls == old(editCalls) + [EditCall(old(lastFailedAction).value.prompt,
                                                   old(lastFailedAction).value.baseFile,
                                                   old(lastFailedAction).value.extraImages)]
      ensures Valid()
    {
      if lastFailedAction.Some? {
        var request := lastFailedAction.value;
        ExecuteGeneration(request.prompt, request.baseFile, request.isRegeneration, request.extraImages, outcome);
      }
    }

    /** `dismissError`: clears the message and the retry action together. */
    method DismissError()
      requires Valid()
      modifies this
      ensures State() == old(State()).(error := None, lastFailedAction := None)
      ensures Valid()
    {
      error := None;
      lastFailedAction := None;
    }
  }

  /** `list.filter((_, i) => i !== index)`. */
  function WithoutIndex(s: seq<File>, index: int): (r: seq<File>)
    ensures 0 <= index < |s| ==> r == s[..index] + s[index + 1..]
    ensures !(0 <= index < |s|) ==> r == s
  {
    if s == [] then []
    else
      var rest := WithoutIndex(s[..|s| - 1], index);
      assert 0 <= index < |s| - 1 ==> s[..index] + s[index + 1..] == s[..index] + s[index + 1..|s| - 1] + [s[|s| - 1]];
      assert index == |s| - 1 ==> s[..index] == s[..|s| - 1];
      if index == |s| - 1 then rest else rest + [s[|s| - 1]]
  }
}
