/** The studio canvas store: the uploaded and generated images, the zoom
    and rotation of the canvas and the generation mode and progress. Each
    setter overwrites its own field; the numeric ones clamp or wrap. */
module CanvasStore {
  import opened Wrappers

  datatype GenerationMode = Quick | Selective | Advanced

  /** The browser File that was uploaded, by the fields the app reads. */
  datatype ImageFile = ImageFile(name: string, size: nat, mimeType: string)

  datatype CanvasState = CanvasState(
    uploadedImage: Option<ImageFile>,
    canvasImageUrl: Option<string>,
    generatedImageUrl: Option<string>,
    zoom: int,
    rotation: int,
    mode: GenerationMode,
    isGenerating: bool,
    generationProgress: int)

  const MinZoom := 10
  const MaxZoom := 500

  /** initialState */
  const InitialState := CanvasState(None, None, None, 100, 0, Quick, false, 0)

  /** `Math.max(lo, Math.min(hi, x))` */
  function Clamp(lo: int, hi: int, x: int): int {
    if x > hi then (if lo > hi then lo else hi)
    else if x < lo then lo
    else x
  }

  /** JavaScript's `r % m` for m > 0: the remainder takes the sign of r. */
  function JsRemainder(r: int, m: int): int
    requires m > 0
  {
    if r >= 0 then r % m else -((-r) % m)
  }

  /** The invariant every reachable state keeps. */
  predicate InRange(s: CanvasState) {
    && MinZoom <= s.zoom <= MaxZoom
    && -360 < s.rotation < 360
    && 0 <= s.generationProgress <= 100
  }

  class Canvas {
    var uploadedImage: Option<ImageFile>
    var canvasImageUrl: Option<string>
    var generatedImageUrl: Option<string>
    var zoom: int
    var rotation: int
    var mode: GenerationMode
    var isGenerating: bool
    var generationProgress: int

    function State(): CanvasState
      reads this
    {
      CanvasState(uploadedImage, canvasImageUrl, generatedImageUrl, zoom, rotation, mode, isGenerating, generationProgress)
    }

    /** The store invariant: zoom, rotation and progress lie in the ranges
        their setters clamp or wrap them to. Every setter keeps it, so a
        reader of the store may rely on it. */
    predicate Valid()
      reads this
    {
      InRange(State())
    }

    constructor()
      ensures State() == InitialState && Valid()
    {
      uploadedImage, canvasImageUrl, generatedImageUrl := None, None, None;
      zoom, rotation := 100, 0;
      mode, isGenerating, generationProgress := Quick, false, 0;
    }

    method SetUploadedImage(file: Option<ImageFile>)
      requires Valid()
      modifies this
      ensures State() == old(State()).(uploadedImage := file) && Valid()
    {
      uploadedImage := file;
    }

    method SetCanvasImageUrl(url: Option<string>)
      requires Valid()
      modifies this
      ensures State() == old(State()).(canvasImageUrl := url) && Valid()
    {
      canvasImageUrl := url;
    }

    method SetGeneratedImageUrl(url: Option<string>)
      requires Valid()
      modifies this
      ensures State() == old(State()).(generatedImageUrl := url) && Valid()
    {
      generatedImageUrl := url;
    }

    method SetZoom(z: int)
      requires Valid()
      modifies this
      ensures State() == old(State()).(zoom := Clamp(MinZoom, MaxZoom, z)) && Valid()
    {
      ClampWithin(MinZoom, MaxZoom, z);
      zoom := Clamp(MinZoom, MaxZoom, z);
    }

    method SetRotation(r: int)
      requires Valid()
      modifies this
      ensures State() == old(State()).(rotation := JsRemainder(r, 360)) && Valid()
    {
      RotationBounds(r);
      rotation := JsRemainder(r, 360);
    }

    method SetMode(m: GenerationMode)
      requires Valid()
      modifies this
      ensures State() == old(State()).(mode := m) && Valid()
    {
      mode := m;
    }

    method SetIsGenerating(b: bool)
      requires Valid()
      modifies this
      ensures State() == old(State()).(isGenerating := b) && Valid()
    {
      isGenerating := b;
    }

    method SetGenerationProgress(p: int)
      requires Valid()
      modifies this
      ensures State() == old(State()).(generationProgress := Clamp(0, 100, p)) && Valid()
    {
      ClampWithin(0, 100, p);
      generationProgress := Clamp(0, 100, p);
    }

    method Reset()
      modifies this
      ensures State() == InitialState && Valid()
    {
      uploadedImage, canvasImageUrl, generatedImageUrl := None, None, None;
      zoom, rotation := 100, 0;
      mode, isGenerating, generationProgress := Quick, false, 0;
    }
  }

  // ---------------------------------------------------------------------
  // Properties of the setters' arithmetic

  /** A clamped value lies in the bounds, is the input when the input does,
      and is the nearer bound otherwise. */
  lemma ClampWithin(lo: int, hi: int, x: int)
    requires lo <= hi
    ensures lo <= Clamp(lo, hi, x) <= hi
    ensures lo <= x <= hi ==> Clamp(lo, hi, x) == x
    ensures x < lo ==> Clamp(lo, hi, x) == lo
    ensures x > hi ==> Clamp(lo, hi, x) == hi
  {
  }

  /** Clamping again changes nothing, so setting zoom or progress to the
      stored value leaves the state as it is. */
  lemma ClampIdempotent(lo: int, hi: int, x: int)
    requires lo <= hi
    ensures Clamp(lo, hi, Clamp(lo, hi, x)) == Clamp(lo, hi, x)
  {
    ClampWithin(lo, hi, x);
  }

  lemma SetZoomTwice(s: CanvasState, z: int)
    ensures var once := s.(zoom := Clamp(MinZoom, MaxZoom, z));
      once.(zoom := Clamp(MinZoom, MaxZoom, once.zoom)) == once
  {
    ClampIdempotent(MinZoom, MaxZoom, z);
  }

  lemma SetGenerationProgressTwice(s: CanvasState, p: int)
    ensures var once := s.(generationProgress := Clamp(0, 100, p));
      once.(generationProgress := Clamp(0, 100, once.generationProgress)) == once
  {
    ClampIdempotent(0, 100, p);
  }

  /** Integer division rounded toward zero, the quotient that goes with
      JavaScript's remainder. */
  function TruncatedQuotient(r: int, m: int): int
    requires m > 0
  {
    if r >= 0 then r / m else -((-r) / m)
  }

  /** The stored rotation keeps the sign of the requested one, stays below
      a full turn in magnitude and differs from it by whole turns; a
      rotation already within a turn is kept. */
  lemma RotationBounds(r: int)
    ensures -360 < JsRemainder(r, 360) < 360
    ensures r >= 0 ==> JsRemainder(r, 360) >= 0
    ensures r < 0 ==> JsRemainder(r, 360) <= 0
    ensures r == TruncatedQuotient(r, 360) * 360 + JsRemainder(r, 360)
    ensures -360 < r < 360 ==> JsRemainder(r, 360) == r
  {
  }

  /** Setting the rotation to the stored rotation changes nothing. */
  lemma RotationIdempotent(r: int)
    ensures JsRemainder(JsRemainder(r, 360), 360) == JsRemainder(r, 360)
  {
    RotationBounds(r);
    RotationBounds(JsRemainder(r, 360));
  }

  /** A negative rotation stays negative: -90 is stored as -90, not 270. */
  lemma NegativeRotationStaysNegative()
    ensures JsRemainder(-90, 360) == -90
    ensures JsRemainder(-450, 360) == -90
    ensures JsRemainder(450, 360) == 90
  {
  }

  lemma InitialStateInRange()
    ensures InRange(InitialState)
  {
  }
}
