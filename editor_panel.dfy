/** The editor panel: which preset list a mode shows, the prompts its
    buttons forward to the generate handler, when those buttons are enabled,
    and which picked files it forwards as reference images. */
module EditorPanel {
  import opened Common
  import opened Strings

  /** The four preset lists; their prompt texts are not modelled. */
  datatype PresetList = AvatarPresets | ProfessionalPresets | ProductPresets | CombinePresets

  const BgOpen := "Keep the subject in the foreground exactly as they are, but replace the entire background with: \""
  const BgClose := "\"" + ". Make the lighting on the subject match the new background for a realistic composite."
  /** The words both combine prompts begin with. */
  const CombineLead := "Using the first image as the primary product and the "
  const CombineOpen := CombineLead + "additional" + " images as the model or scene, combine them based on the following instruction: \""
  const CombineClose := "\". Ensure the final image is photorealistic and well-composited."
  const CombineFallback := CombineLead + "second" + " image as the model or scene, combine them realistically. Ensure the final image is photorealistic and well-composited."

  /** The nested conditional choosing the preset list: avatar, professional
      and product have their own lists, every other mode gets the combine list. */
  function PresetsFor(mode: Mode): (r: PresetList)
    ensures r == AvatarPresets <==> mode == Avatar
    ensures r == ProfessionalPresets <==> mode == Professional
    ensures r == ProductPresets <==> mode == Product
    ensures r == CombinePresets <==> mode !in {Avatar, Professional, Product}
  {
    if mode == Avatar then AvatarPresets
    else if mode == Professional then ProfessionalPresets
    else if mode == Product then ProductPresets
    else CombinePresets
  }

  /** `handleGenerateClick`: the prompt goes to the generate handler as is. */
  function GenerateClick(basePrompt: string): (forwarded: string)
    ensures forwarded == basePrompt
  {
    basePrompt
  }

  /** A preset button: disabled while loading, otherwise it forwards the
      preset's prompt untouched. */
  function PresetButton(isLoading: bool, presetPrompt: string): (forwarded: Option<string>)
    ensures forwarded.Some? <==> !isLoading
    ensures forwarded.Some? ==> forwarded.value == presetPrompt
  {
    if isLoading then None else Some(GenerateClick(presetPrompt))
  }

  /** The custom-prompt button: disabled while loading or when the prompt
      trims to nothing; otherwise it forwards the prompt untrimmed. */
  function CustomPromptButton(isLoading: bool, customPrompt: string): (forwarded: Option<string>)
    ensures forwarded.Some? <==> !isLoading && !IsBlank(customPrompt)
    ensures forwarded.Some? ==> forwarded.value == customPrompt && !IsBlank(forwarded.value)
  {
    if isLoading || Trim(customPrompt) == "" then None else Some(GenerateClick(customPrompt))
  }

  /** The background prompt: the custom text verbatim between double quotes
      inside a fixed template. */
  function BgPrompt(customBgPrompt: string): (r: string)
    ensures |r| == |BgOpen| + |customBgPrompt| + |BgClose|
    ensures r[..|BgOpen|] == BgOpen && r[|BgOpen| - 1] == '"'
    ensures r[|BgOpen|..|BgOpen| + |customBgPrompt|] == customBgPrompt
    ensures r[|BgOpen| + |customBgPrompt|..] == BgClose && r[|BgOpen| + |customBgPrompt|] == '"'
  {
    assert BgOpen[|BgOpen| - 1] == '"' && BgClose[0] == '"';
    BgOpen + customBgPrompt + BgClose
  }

  /** Different custom texts give different background prompts. */
  lemma BgPromptInjective(a: string, b: string)
    requires BgPrompt(a) == BgPrompt(b)
    ensures a == b
  {
    assert |a| == |b|;
    assert a == BgPrompt(a)[|BgOpen|..|BgOpen| + |a|];
  }

  /** The background button: shown in professional mode only, disabled
      while loading or when the custom text trims to nothing. */
  function BgButton(mode: Mode, isLoading: bool, customBgPrompt: string): (forwarded: Option<string>)
    ensures forwarded.Some? <==> mode == Professional && !isLoading && !IsBlank(customBgPrompt)
    ensures forwarded.Some? ==> forwarded.value == BgPrompt(customBgPrompt)
  {
    if mode != Professional || isLoading || Trim(customBgPrompt) == "" then None
    else Some(BgPrompt(customBgPrompt))
  }

  /** `handleCombineProductPrompt`: a non-blank custom prompt is embedded
      untrimmed between double quotes; a blank one gives the fixed fallback. */
  function CombineProductPrompt(customPrompt: string): (r: string)
    ensures !IsBlank(customPrompt) ==>
      && |r| == |CombineOpen| + |customPrompt| + |CombineClose|
      && r[..|CombineOpen|] == CombineOpen
      && r[|CombineOpen|..|CombineOpen| + |customPrompt|] == customPrompt
      && r[|CombineOpen| + |customPrompt|..] == CombineClose
    ensures IsBlank(customPrompt) <==> r == CombineFallback
  {
    if Trim(customPrompt) != "" then
      CombinedDiffersFromFallback(customPrompt);
      CombineOpen + customPrompt + CombineClose
    else
      assert IsBlank(customPrompt);
      CombineFallback
  }

  /** The two combine templates part at the word after their common lead. */
  lemma CombinedDiffersFromFallback(customPrompt: string)
    ensures CombineOpen + customPrompt + CombineClose != CombineFallback
  {
    assert (CombineOpen + customPrompt + CombineClose)[|CombineLead|] == 'a';
  }

  /** The combine button: shown in product mode once a reference image
      exists, disabled while loading. */
  function CombineButton(mode: Mode, referenceCount: nat, isLoading: bool, customPrompt: string)
    : (forwarded: Option<string>)
    ensures forwarded.Some? <==> mode == Product && referenceCount > 0 && !isLoading
    ensures forwarded.Some? ==> forwarded.value == CombineProductPrompt(customPrompt)
  {
    if mode == Product && referenceCount > 0 && !isLoading then Some(CombineProductPrompt(customPrompt))
    else None
  }

  /** The reference-image section exists in combine and product mode; its
      add button is offered in combine mode, or while no reference image is
      attached. */
  predicate AddReferenceOffered(mode: Mode, referenceCount: nat)
    ensures AddReferenceOffered(mode, referenceCount) <==> mode == Combine || (mode == Product && referenceCount == 0)
  {
    (mode == Combine || mode == Product) && (mode == Combine || referenceCount == 0)
  }

  /** The file picker accepts several files only in combine mode, where the
      add button is offered whatever the number of reference images. */
  predicate MultiSelect(mode: Mode)
    ensures MultiSelect(mode) ==> forall n: nat :: AddReferenceOffered(mode, n)
    ensures MultiSelect(mode) ==> mode == Combine
  {
    mode == Combine
  }

  /** Product mode offers the add button only until the first reference
      image is attached, one file at a time; only combine mode lets the list
      grow past one through the panel. */
  lemma ReferenceButtonRules(mode: Mode, referenceCount: nat)
    ensures AddReferenceOffered(mode, referenceCount) && referenceCount > 0 ==> mode == Combine
    ensures AddReferenceOffered(mode, referenceCount) && !MultiSelect(mode) ==> mode == Product && referenceCount == 0
    ensures mode in {Avatar, Professional} ==> !AddReferenceOffered(mode, referenceCount)
  {
  }

  predicate IsImageFile(f: File) {
    StartsWith(f.mime, "image/")
  }

  /** `handleFileChange`: the files forwarded to the reference-image handler,
      one call each, in the order picked; none when the list is absent. */
  function ForwardedFiles(files: Option<seq<File>>): (r: seq<File>)
    ensures files.None? ==> r == []
    ensures files.Some? ==> |r| <= |files.value| && forall i :: 0 <= i < |r| ==> IsImageFile(r[i])
    ensures files.Some? ==> forall f :: multiset(r)[f] == if IsImageFile(f) then multiset(files.value)[f] else 0
  {
    match files
    case None => []
    case Some(fs) =>
      assert forall f :: multiset(ImageFiles(fs))[f] == if IsImageFile(f) then multiset(fs)[f] else 0 by {
        forall f ensures multiset(ImageFiles(fs))[f] == if IsImageFile(f) then multiset(fs)[f] else 0 {
          ImageFilesCount(fs, f);
        }
      }
      ImageFiles(fs)
  }

  function ImageFiles(fs: seq<File>): (r: seq<File>)
    ensures |r| <= |fs|
    ensures forall i :: 0 <= i < |r| ==> IsImageFile(r[i])
  {
    if fs == [] then []
    else (if IsImageFile(fs[0]) then [fs[0]] else []) + ImageFiles(fs[1..])
  }

  /** The filter keeps the picked order: the files forwarded for two
      consecutive selections are those of each, one after the other. */
  lemma {:induction false} ImageFilesAppend(a: seq<File>, b: seq<File>)
    ensures ImageFiles(a + b) == ImageFiles(a) + ImageFiles(b)
  {
    if a == [] {
      assert a + b == b;
    } else {
      assert (a + b)[1..] == a[1..] + b;
      ImageFilesAppend(a[1..], b);
    }
  }

  /** Each picked file is forwarded as often as it was picked when it is an
      image, and never otherwise. */
  lemma {:induction false} ImageFilesCount(fs: seq<File>, f: File)
    ensures multiset(ImageFiles(fs))[f] == if IsImageFile(f) then multiset(fs)[f] else 0
  {
    if fs != [] {
      ImageFilesCount(fs[1..], f);
      assert fs == [fs[0]] + fs[1..];
    }
  }
}
