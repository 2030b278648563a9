/**
 * The state the main window and its drawing canvas keep between user actions: the canvas
 * pixels and brush size, the current theme and the theme transition guard, the last
 * prediction, the result and details labels, the confidence bar, the busy indicator, the
 * input handed to the inference worker, and the last dialog shown.
 */
module Ui {
  import opened Wrappers
  import opened Numeric
  import opened Raster
  import opened Preprocess
  import opened Prediction

  /** The size and brush the main window creates its canvas with. */
  const CanvasSize: nat := 340
  const InitialBrush: int := 16

  /** The canvas background: white. */
  const Paper: int := 255

  /** `max(1, int(size))`. */
  function BrushSize(requested: int): (b: int)
    ensures b >= 1 && b >= requested
    ensures requested >= 1 ==> b == requested
  {
    if requested < 1 then 1 else requested
  }

  /** The drawing canvas: a square 8-bit image and the pen width. */
  class DrawingWidget {
    const size: nat
    var image: Grid
    var brushSize: int

    /** A blank canvas of the given size; the brush is stored as given. */
    constructor (size: nat, brush: int)
      ensures this.size == size && brushSize == brush
      ensures IsFilled(image, size, size, Paper)
    {
      this.size := size;
      brushSize := brush;
      image := Filled(size, size, Paper);
    }

    /** `clear`: every pixel back to white. */
    method Clear()
      modifies this`image
      ensures IsFilled(image, size, size, Paper)
    {
      image := Filled(size, size, Paper);
    }

    /** `set_brush`: the pen width, at least 1. */
    method SetBrush(requested: int)
      modifies this`brushSize
      ensures brushSize == BrushSize(requested)
    {
      brushSize := BrushSize(requested);
    }
  }

  // ---------------------------------------------------------------------------
  // Themes
  // ---------------------------------------------------------------------------

  /** The keys of the theme dictionary, in insertion order. */
  const ThemeNames: seq<string> := ["light", "dark", "blue"]

  /** `keys.index(name)`. */
  function ThemeIndex(name: string): (i: nat)
    requires name in ThemeNames
    ensures i < |ThemeNames| && ThemeNames[i] == name
  {
    if name == ThemeNames[0] then 0 else if name == ThemeNames[1] then 1 else 2
  }

  /** The theme `_cycle_theme` requests after `name`: the next key, wrapping around. */
  function NextTheme(name: string): (n: string)
    requires name in ThemeNames
    ensures n in ThemeNames && n != name
    ensures ThemeIndex(n) == (ThemeIndex(name) + 1) % |ThemeNames|
  {
    ThemeNames[(ThemeIndex(name) + 1) % |ThemeNames|]
  }

  /** The cycle visits light, dark, blue and comes back to light. */
  lemma ThemeCycleOrder()
    ensures NextTheme("light") == "dark" && NextTheme("dark") == "blue" && NextTheme("blue") == "light"
  {
  }

  /** Three steps of the cycle return to the starting theme, and fewer do not. */
  lemma ThreeStepsReturn(name: string)
    requires name in ThemeNames
    ensures NextTheme(NextTheme(NextTheme(name))) == name
    ensures NextTheme(NextTheme(name)) != name
  {
    ThemeCycleOrder();
  }

  // ---------------------------------------------------------------------------
  // The main window
  // ---------------------------------------------------------------------------

  /** The result label. */
  datatype Status =
    | Ready                                      // "ready to recognise", at start-up
    | Cleared                                    // after clearing the canvas
    | Analysing                                  // while the worker runs
    | Predicted(digit: nat, confidence: real)    // a prediction arrived
    | Failed                                     // the worker reported an error

  /** The details label. */
  datatype Details =
    | NoDetails
    | ConfidenceDetails(confidence: real, alternatives: seq<nat>)
    | ErrorDetails(message: string)

  /** The last message box or dialog opened. */
  datatype Dialog =
    | NoDialog
    | PreprocessErrorDialog                      // preprocessing raised (prediction or preview)
    | ModelMissingDialog                         // no inference session
    | InferenceErrorDialog(message: string)      // the worker reported an error
    | NoPredictionInfo                           // probabilities asked for before any prediction
    | ProbabilityView(probs: seq<real>, bars: seq<BarClass>, second: Option<nat>, showsSecond: bool)
    | PreviewView(input: Tensor)

  class MainWindow {
    const drawing: DrawingWidget
    const filters: Filters
    /** Whether an inference session exists; start-up fails without one. */
    const modelLoaded: bool

    var currentTheme: string
    /** `_theme_animation_in` is running, fading the overlay in towards `fadeTarget`. */
    var fadeInRunning: bool
    var fadeTarget: string

    var lastPrediction: Option<seq<real>>
    var status: Status
    var details: Details
    /** The value the confidence bar is set or animated to, 0..100 for a distribution. */
    var confidenceBar: int
    /** The busy indicator is visible. */
    var busy: bool
    /** The tensor handed to the last inference worker started. */
    var workerInput: Option<Tensor>
    var dialog: Dialog

    /** A stored prediction is never empty: it comes from a successful argmax. */
    predicate Valid()
      reads this
    {
      lastPrediction.Some? ==> |lastPrediction.value| > 0
    }

    /** Start-up with the model loaded: the dark theme, a blank canvas, no prediction yet. */
    constructor (filters: Filters)
      ensures Valid()
      ensures fresh(drawing) && drawing.size == CanvasSize && drawing.brushSize == InitialBrush
      ensures IsFilled(drawing.image, CanvasSize, CanvasSize, Paper)
      ensures this.filters == filters && modelLoaded
      ensures currentTheme == "dark" && !fadeInRunning
      ensures lastPrediction == None && status == Ready && details == NoDetails
      ensures confidenceBar == 0 && !busy && workerInput == None && dialog == NoDialog
    {
      drawing := new DrawingWidget(CanvasSize, InitialBrush);
      this.filters := filters;
      modelLoaded := true;
      currentTheme := "dark";
      fadeInRunning := false;
      fadeTarget := "dark";
      lastPrediction := None;
      status := Ready;
      details := NoDetails;
      confidenceBar := 0;
      busy := false;
      workerInput := None;
      dialog := NoDialog;
    }

    /** `apply_theme`: the named theme becomes current (its style sheet is not modelled). */
    method ApplyTheme(name: string)
      modifies this`currentTheme
      ensures currentTheme == name
    {
      currentTheme := name;
    }

    /**
     * `apply_theme_animated`: nothing happens when the theme is already current or a fade-in
     * is running; otherwise the overlay starts fading in towards the new theme.
     */
    method ApplyThemeAnimated(name: string)
      modifies this`fadeInRunning, this`fadeTarget
      ensures name == currentTheme || old(fadeInRunning) ==>
                fadeInRunning == old(fadeInRunning) && fadeTarget == old(fadeTarget)
      ensures name != currentTheme && !old(fadeInRunning) ==> fadeInRunning && fadeTarget == name
    {
      if name == currentTheme {
        return;
      }
      if fadeInRunning {
        return;
      }
      fadeTarget := name;
      fadeInRunning := true;
    }

    /** The fade-in's `finished` handler: the target theme is applied under the overlay. */
    method OnFadeInFinished()
      requires fadeInRunning
      modifies this`currentTheme, this`fadeInRunning
      ensures currentTheme == fadeTarget && !fadeInRunning
    {
      ApplyTheme(fadeTarget);
      fadeInRunning := false;
    }

    /**
     * `_cycle_theme`: request the theme after the current one. A current theme that is not
     * a key makes `keys.index` raise, and nothing changes.
     */
    method CycleTheme()
      modifies this`fadeInRunning, this`fadeTarget
      ensures currentTheme in ThemeNames && !old(fadeInRunning) ==>
                fadeInRunning && fadeTarget == NextTheme(currentTheme)
      ensures currentTheme !in ThemeNames || old(fadeInRunning) ==>
                fadeInRunning == old(fadeInRunning) && fadeTarget == old(fadeTarget)
    {
      if currentTheme !in ThemeNames {
        return;
      }
      ApplyThemeAnimated(NextTheme(currentTheme));
    }

    /** `_clear_canvas`: a blank canvas, the cleared labels, the bar at 0, no prediction. */
    method ClearCanvas()
      modifies drawing`image, this`status, this`details, this`confidenceBar, this`lastPrediction
      ensures Valid()
      ensures IsFilled(drawing.image, drawing.size, drawing.size, Paper)
      ensures status == Cleared && details == NoDetails
      ensures confidenceBar == 0 && lastPrediction == None
    {
      drawing.Clear();
      status := Cleared;
      details := NoDetails;
      confidenceBar := 0;
      lastPrediction := None;
    }

    /**
     * `_predict`: preprocess the canvas; on failure show an error and stop; without a model
     * show an error and stop; otherwise show the busy indicator and start the worker on the
     * preprocessed tensor.
     */
    method Predict()
      modifies this`dialog, this`busy, this`status, this`details, this`workerInput
      ensures PreprocessImage(drawing.image, filters).Err? ==>
                dialog == PreprocessErrorDialog && busy == old(busy) && status == old(status) &&
                details == old(details) && workerInput == old(workerInput)
      ensures PreprocessImage(drawing.image, filters).Ok? && !modelLoaded ==>
                dialog == ModelMissingDialog && busy == old(busy) && status == old(status) &&
                details == old(details) && workerInput == old(workerInput)
      ensures PreprocessImage(drawing.image, filters).Ok? && modelLoaded ==>
                dialog == old(dialog) && busy && status == Analysing && details == NoDetails &&
                workerInput == Some(PreprocessImage(drawing.image, filters).value)
    {
      var input := PreprocessImage(drawing.image, filters);
      if input.Err? {
        dialog := PreprocessErrorDialog;
        return;
      }
      if !modelLoaded {
        dialog := ModelMissingDialog;
        return;
      }
      busy := true;
      status := Analysing;
      details := NoDetails;
      workerInput := Some(input.value);
    }

    /**
     * `_on_prediction`: hide the busy indicator; normalise; store the probabilities; show the
     * argmax digit with the maximum as confidence, the kept top-3 alternatives, and move the
     * bar to the truncated percentage. An empty output makes `np.argmax` raise after the
     * busy indicator is hidden.
     */
    method OnPrediction(prediction: seq<real>)
      requires Valid()
      modifies this`busy, this`lastPrediction, this`status, this`details, this`confidenceBar
      ensures Valid() && !busy
      ensures prediction == [] ==>
                lastPrediction == old(lastPrediction) && status == old(status) &&
                details == old(details) && confidenceBar == old(confidenceBar)
      ensures prediction != [] ==>
                var probs := Normalise(prediction);
                var digit := ArgMax(probs);
                && lastPrediction == Some(probs)
                && status == Predicted(digit, MaxProb(probs))
                && details == ConfidenceDetails(MaxProb(probs), KeptAlternatives(probs, digit, Top3(probs)))
                && confidenceBar == BarTarget(MaxProb(probs))
    {
      busy := false;
      var probs := Normalise(prediction);
      if probs == [] {
        return;
      }
      var digit := ArgMax(probs);
      var confidence := MaxProb(probs);
      lastPrediction := Some(probs);
      status := Predicted(digit, confidence);
      var alts := Alternatives(probs, digit, Top3(probs));
      details := ConfidenceDetails(confidence, alts);
      confidenceBar := BarTarget(confidence);
    }

    /** `_on_inference_error`: hide the busy indicator, show the error and put it in the labels. */
    method OnInferenceError(message: string)
      modifies this`busy, this`dialog, this`status, this`details
      ensures !busy && dialog == InferenceErrorDialog(message)
      ensures status == Failed && details == ErrorDetails(message)
    {
      busy := false;
      dialog := InferenceErrorDialog(message);
      status := Failed;
      details := ErrorDetails(message);
    }

    /**
     * `_show_probabilities`: an information box before any prediction; otherwise the chart
     * of the last prediction with its bar classes and second-best line.
     */
    method ShowProbabilities()
      requires Valid()
      modifies this`dialog
      ensures lastPrediction.None? ==> dialog == NoPredictionInfo
      ensures lastPrediction.Some? ==>
                var p := lastPrediction.value;
                && dialog.ProbabilityView? && dialog.probs == p
                && |dialog.bars| == |p|
                && (forall i :: 0 <= i < |p| ==> dialog.bars[i] == BarClassOf(p, ArgMax(p), i))
                && dialog.second == SecondBest(p) && dialog.showsSecond == ShowsSecond(p)
    {
      if lastPrediction.None? {
        dialog := NoPredictionInfo;
        return;
      }
      var p := lastPrediction.value;
      var bars := ClassifyBars(p);
      dialog := ProbabilityView(p, bars, SecondBest(p), ShowsSecond(p));
    }

    /** `_show_preview`: the preprocessed tensor, or an error when preprocessing raises. */
    method ShowPreview()
      modifies this`dialog
      ensures PreprocessImage(drawing.image, filters).Err? ==> dialog == PreprocessErrorDialog
      ensures PreprocessImage(drawing.image, filters).Ok? ==>
                dialog == PreviewView(PreprocessImage(drawing.image, filters).value)
    {
      var input := PreprocessImage(drawing.image, filters);
      if input.Err? {
        dialog := PreprocessErrorDialog;
        return;
      }
      dialog := PreviewView(input.value);
    }
  }

  /**
   * What the window shows for a worker result: a distribution output keeps its
   * probabilities and the bar target lies in the bar's range 0..100.
   */
  lemma DistributionFillsBar(out: RawOutput)
    requires WorkerRun(out).Ok? && WorkerRun(out).value != []
    requires NonNegativeScores(FirstRow(out).value) && Sum(FirstRow(out).value) > 0.0
    ensures Normalise(WorkerRun(out).value) == WorkerRun(out).value
    ensures 0 <= BarTarget(MaxProb(WorkerRun(out).value)) <= 100
  {
    var row := FirstRow(out).value;
    NormaliseIdempotent(row);
    NormaliseGivesDistribution(row);
  }
}
