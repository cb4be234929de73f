/** The resolution selector of the form: a named option, or a custom pair of
    dimensions. */
module Resolution {
  import opened Wrappers

  /** A `(width, height)` pair in pixels. Nothing here requires it to be
      positive: the selector accepts any custom integers. */
  datatype Size = Size(width: int, height: int)

  datatype ResolutionError =
    | CustomSizeMissing   // "Personalizado" without both dimensions
    | UnknownOption       // any other unrecognised selector

  const Custom: string := "Personalizado"

  /** The fixed options and the sizes they stand for. */
  const Presets: map<string, Size> :=
    map["1920x1080" := Size(1920, 1080),
        "786x480" := Size(786, 480),
        "Vertical" := Size(720, 1280)]

  /** The custom dimensions arrive already converted to integers. */
  function Resolve(option: string, customWidth: Option<int>, customHeight: Option<int>)
    : (r: Result<Size, ResolutionError>)
    ensures option in Presets ==> r == Success(Presets[option])
    ensures option == Custom ==>
      (r.Success? <==> customWidth.Some? && customHeight.Some?)
    ensures r.Success? && option == Custom ==>
      r.value == Size(customWidth.value, customHeight.value)
    ensures r.Failure? <==>
      option !in Presets && (option != Custom || customWidth.None? || customHeight.None?)
    ensures r.Failure? ==>
      (r.error == CustomSizeMissing <==> option == Custom)
  {
    if option == "1920x1080" then Success(Size(1920, 1080))
    else if option == "786x480" then Success(Size(786, 480))
    else if option == "Vertical" then Success(Size(720, 1280))
    else if option == Custom then
      if customWidth.Some? && customHeight.Some? then
        Success(Size(customWidth.value, customHeight.value))
      else
        Failure(CustomSizeMissing)
    else
      Failure(UnknownOption)
  }

  /** The three fixed options give their documented sizes, whatever custom
      dimensions come along, and a bare "Personalizado" is rejected. */
  lemma FixedOptions(w: Option<int>, h: Option<int>)
    ensures Resolve("1920x1080", w, h) == Success(Size(1920, 1080))
    ensures Resolve("786x480", w, h) == Success(Size(786, 480))
    ensures Resolve("Vertical", w, h) == Success(Size(720, 1280))
    ensures Resolve(Custom, None, None) == Failure(CustomSizeMissing)
  {
  }

  /** No positivity check: a custom pair is returned as given, even zero or
      negative. */
  lemma CustomIsUnchecked(w: int, h: int)
    ensures Resolve(Custom, Some(w), Some(h)) == Success(Size(w, h))
  {
  }
}
