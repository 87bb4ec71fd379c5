/** The refine panel: the guards deciding which prompts reach the refine
    handler. Its handlers change no state; each one forwards a prompt or
    nothing. */
module RefinePanel {
  import opened Common
  import opened Strings

  /** A key press in the prompt box. */
  datatype KeyEvent = KeyEvent(key: string, shiftKey: bool)

  /** What a key press does: whether the default action is suppressed, and
      the prompt forwarded to the refine handler, if any. */
  datatype KeyResponse = KeyResponse(preventDefault: bool, forwarded: Option<string>)

  /** `handleRefineClick`: the typed prompt, untrimmed, when it does not trim
      to nothing and no request is running. */
  function RefineClick(refinePrompt: string, isLoading: bool): (forwarded: Option<string>)
    ensures forwarded.Some? <==> !IsBlank(refinePrompt) && !isLoading
    ensures forwarded.Some? ==> forwarded.value == refinePrompt
  {
    if Trim(refinePrompt) != "" && !isLoading then Some(refinePrompt) else None
  }

  /** `handleKeyDown`: Enter without Shift suppresses the newline and takes
      the same guarded path as the button; any other key does nothing. */
  function KeyDown(e: KeyEvent, refinePrompt: string, isLoading: bool): (r: KeyResponse)
    ensures r.preventDefault <==> e.key == "Enter" && !e.shiftKey
    ensures r.forwarded.Some? <==> r.preventDefault && !IsBlank(refinePrompt) && !isLoading
    ensures r.forwarded.Some? ==> r.forwarded.value == refinePrompt
  {
    if e.key == "Enter" && !e.shiftKey then KeyResponse(true, RefineClick(refinePrompt, isLoading))
    else KeyResponse(false, None)
  }

  /** `handlePresetClick`: the preset prompt whenever no request is running. */
  function PresetClick(prompt: string, isLoading: bool): (forwarded: Option<string>)
    ensures forwarded.Some? <==> !isLoading
    ensures forwarded.Some? ==> forwarded.value == prompt
  {
    if !isLoading then Some(prompt) else None
  }

  /** The refine button's `disabled` attribute. */
  predicate RefineButtonDisabled(isLoading: bool, refinePrompt: string)
    ensures RefineButtonDisabled(isLoading, refinePrompt) <==> isLoading || IsBlank(refinePrompt)
  {
    isLoading || Trim(refinePrompt) == ""
  }

  /** The button is disabled exactly when its handler would forward nothing,
      so a click on an enabled button always reaches the refine handler, and
      with a prompt the orchestrator's blank check accepts. */
  lemma RefineButtonMatchesGuard(isLoading: bool, refinePrompt: string)
    ensures RefineButtonDisabled(isLoading, refinePrompt) <==> RefineClick(refinePrompt, isLoading).None?
    ensures !RefineButtonDisabled(isLoading, refinePrompt) ==> !IsBlank(RefineClick(refinePrompt, isLoading).value)
  {
  }
}
