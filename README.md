# Digit-Recognizer: a verified model of the recognition core

Digit-Recognizer is a desktop application with one window. The user draws a digit on a
square canvas, and an ONNX classifier names the digit. This project models, in Dafny,
the logic of `src/app.py` that decides what the classifier sees and what the window shows:

- **Canvas-to-tensor preprocessing** (`preprocess_image`, `get_best_shift`, `shift`).
  - The canvas is resized to 28 x 28 and inverted (`255 - p`).
  - It is cropped to the bounding box of `ImageOps.invert` of that image, then
    letterbox-padded back to 28 x 28 with fill 0.
  - It is scaled to [0, 1] and moved by the integer shift that brings its
    intensity-weighted centroid to the centre.
  - The result is reshaped to (1, 28, 28, 1).
- **Post-processing of the classifier's output.**
  - The worker keeps row 0 of a batched output and normalises it when its sum is positive.
  - `_on_prediction` takes the argmax digit and the maximum as the confidence. It builds
    the top-3 alternatives list and sets the confidence bar's target.
  - The probability dialog colours the argmax bar green, and the other bars by the 0.3 and
    0.1 thresholds. It also picks a second-best digit.
- **The window's state.**
  - The drawing widget holds its pixels and brush size; `set_brush` keeps the size at least 1.
  - The theme cycle goes light → dark → blue → light, and a transition guard starts no new
    transition while one is fading in.
  - Also modelled: clearing the canvas, starting a prediction, receiving a result or an error,
    and opening the probability and preview dialogs.

Files:

- `wrappers.dfy`: Option and Result.
- `numeric.dfy`: partial sums and first moments of real sequences, NumPy's
  round-half-to-even, and Python's truncating `int`.
- `raster.dfy`: 8-bit grids, and Pillow's `invert`, `getbbox`, `crop` and resize output.
- `preprocess.dfy`: the pad geometry, the centroid, the best shift, the translation and the
  whole pipeline.
- `centering.dfy`: what a translation does to the centroid.
- `prediction.dfy`: normalisation, argmax, the descending argsort, alternatives, bar classes
  and the second best.
- `ui.dfy`: the `DrawingWidget` and main-window classes.

Library calls are given their documented meaning:

- `Image.getbbox` returns the tight box of the non-zero pixels.
- `scipy.ndimage.center_of_mass` returns the intensity-weighted mean of (row, column).
- `cv2.warpAffine` with an integer translation matrix shifts the image with a constant-0 border.
- `np.argmax` returns the first maximal index.

The two resampling filters (Lanczos, and the bicubic filter inside `ImageOps.pad`) are
parameters of the model. Their output is read as an 8-bit image of the requested size.
When `ImageOps.pad` asks `Image.resize` for the size the crop already has, Pillow returns a
copy and no filter is applied; the model does the same.

Behaviour of the code that the model states as it is:

- **The box bounds what is not fully inked.** The bounding box is taken after inverting twice
  (`src/app.py:1117` then `1120`), so it is the box of the resized canvas in its original
  polarity. This box bounds the pixels that are not fully inked, not the ink itself
  (`CropBox`).
  - A blank canvas is therefore cropped to the whole frame, not left uncropped. That crop
    is already 28 x 28, so the pad returns it as it is: the framed image is the zero frame
    (`BlankCanvasFullFrame`).
  - Only a fully inked frame skips the crop (`NoCropIffAllInk`).
- **An image without mass makes preprocessing fail.** The centroid of such an image is NaN,
  and `int(np.round(NaN))` raises. So a blank canvas makes preprocessing fail: it does not
  give a zero shift (`BlankCanvasFails`).
  `_predict` and `_show_preview` then show an error dialog.
- **The centroid is centred when the shift loses no ink.** It ends up within half a
  pixel of (14, 14) when the best shift pushes no ink out of the frame
  (`PreprocessCentres`). The proof needs that condition, and it is stated as a precondition;
  a shift that loses ink can still end near the centre, and the model says nothing about it.
- **With ties at the maximum, the two orders can disagree.** `np.argmax` picks the first
  index. NumPy guarantees no order for ties in `np.argsort`; the model fixes one, a stable
  ascending sort reversed, which lists tied indices from the last. With that order:
  - When the maximum is unique, at most two alternatives are listed (`AtMostTwoAlternatives`).
  - A uniform output lists three alternatives, each as probable as the prediction
    (`UniformListsThree`).
  - A tied pair names the same digit as both most probable and second best
    (`TiedPairRepeatsDigit`).

## Model

| member | source | states |
|---|---|---|
| Raster.Filled | src/app.py:78 | every pixel of the rows x cols image is the fill value |
| Raster.Invert | src/app.py:1117 | the image keeps its shape and each pixel becomes 255 - p |
| Raster.InvertKeepsImage | src/app.py:1117 | inversion maps 8-bit images to 8-bit images |
| Raster.InvertInvolution | src/app.py:1117-1120 | inverting twice gives back the original image |
| Raster.Fit | src/app.py:1115 | a resampler's output is read as a rows x cols image with pixels in 0..255, and an image of the right shape is kept as it is |
| Raster.GetBBox | src/app.py:1120 | no box exactly when every pixel is 0; otherwise the smallest box holding every non-zero pixel, each of its four edges touching one |
| Raster.TightBoxUnique | src/app.py:1120 | two tight boxes of the same image are equal |
| Raster.Crop | src/app.py:1122 | the crop has the box's size and pixel (r, c) is the source pixel (upper + r, left + c) |
| Raster.CropKeepsImage | src/app.py:1122 | cropping keeps an 8-bit image 8-bit |
| Numeric.RoundHalfEven | src/app.py:1100-1101 | the result is within 0.5 of x, and is even when x lies exactly halfway |
| Numeric.RoundHalfEvenUnique | src/app.py:1100-1101 | that property determines the rounding: any integer with it is the rounded value |
| Numeric.RoundNearZero | src/app.py:1100-1101 | every value in [-0.5, 0.5], the ties included, rounds to 0 |
| Numeric.TruncToZero | src/app.py:1207 | `int(x)` truncates toward zero: floor for x >= 0, ceiling for x < 0 |
| Numeric.SumDivide | src/app.py:55 | dividing every element by t divides the sum by t |
| Numeric.SumLinear | src/app.py:1097 | the sum of a + k*b is sum(a) + k*sum(b) |
| Numeric.ConstantSums | src/app.py:1097 | a constant sequence of length n sums to n*v and has moment v*n*(n-1)/2 |
| Preprocess.PadLayout | src/app.py:1123 | the content fits the frame, the longer side fills it, the other side is within 0.5 of the exactly scaled length, the content is centred to within half a pixel, and one offset is 0 |
| Preprocess.PadLayoutTies | src/app.py:1123 | where the scaled side or the paste offset lies exactly halfway, it was rounded to the even integer, as Python's `round` does |
| Preprocess.PadLayoutKeepsSize | src/app.py:1123 | the layout keeps the crop's own size, so that no resampling happens, exactly when one of its sides is 28 |
| Preprocess.ScaledSide | src/app.py:1123 | `round(short / long * size)`: within 0.5 of the exact quotient, even on a tie, at most the frame and at least 1 |
| Preprocess.PadContent | src/app.py:1123 | the pasted content has the layout's size; it is the crop itself when a side is 28, and the bicubic resample otherwise |
| Preprocess.Paste | src/app.py:1123 | a 28 x 28 frame of 0 holding the content at the layout offset |
| Preprocess.Pad | src/app.py:1123 | a 28 x 28 8-bit frame that holds the content (the crop itself or its resample) inside the layout rectangle and 0 outside it |
| Preprocess.PadBorderIsZero | src/app.py:1123 | every pixel outside the content is 0; a crop with a 28-pixel side is pasted unchanged, a 28 x 28 crop is its own pad, and a smaller square crop is resampled onto the whole frame |
| Preprocess.CenterOfMass | src/app.py:1097 | the centroid (cy, cx) times the mass gives the row moment and the column moment |
| Preprocess.CentroidInsideFrame | src/app.py:1097 | a non-negative image with mass has its centroid inside the frame |
| Preprocess.BestShift | src/app.py:1095-1102 | the shift fails exactly when the mass is 0; otherwise (shiftx, shifty) are within 0.5 of (cols/2 - cx, rows/2 - cy), with ties rounded to even |
| Preprocess.Shift | src/app.py:1104-1110 | the frame keeps its shape; pixel (r, c) is the source pixel (r - sy, c - sx) when it exists and 0 otherwise |
| Preprocess.ShiftZeroIsIdentity | src/app.py:1104-1110 | a (0, 0) shift is the identity |
| Preprocess.ShiftUndo | src/app.py:1104-1110 | the opposite shift undoes a shift that pushed no non-zero pixel out |
| Preprocess.ShiftKeepsUnitRange | src/app.py:1104-1110 | a shift keeps values in [0, 1] |
| Preprocess.ToUnit | src/app.py:1124 | each pixel p becomes p / 255 and the shape is kept |
| Preprocess.ToUnitRange | src/app.py:1124 | an 8-bit image scales into [0, 1] |
| Preprocess.Resize28 | src/app.py:1115 | the Lanczos resize of the canvas is a 28 x 28 8-bit image |
| Preprocess.Inverted | src/app.py:1116-1119 | the inverted resized canvas is a 28 x 28 8-bit image |
| Preprocess.FramedImage | src/app.py:1120-1123 | the cropped and padded frame, or the uncropped one when there is no box, is a 28 x 28 8-bit image |
| Preprocess.PadCrop | src/app.py:1122-1123 | the padded crop is a 28 x 28 8-bit image, and the crop to the whole frame gives the frame back |
| Preprocess.Framed | src/app.py:1116-1124 | the cropped and padded (or uncropped) frame is 28 x 28, non-negative and in [0, 1] |
| Preprocess.Reshape | src/app.py:1127 | the tensor has shape (1, 28, 28, 1) and holds pixel (r, c) at [0][r][c][0] |
| Preprocess.PreprocessImage | src/app.py:1112-1128 | fails exactly when the framed image has no mass; otherwise the result is a (1, 28, 28, 1) tensor with values in [0, 1] |
| Preprocess.CropBox | src/app.py:1117-1120 | the box of the double-inverted frame is the bounding box of the resized canvas itself |
| Preprocess.NoCropIffAllInk | src/app.py:1120-1121 | crop and pad are skipped exactly when every resized pixel is fully inked |
| Preprocess.BordersGiveFullBox | src/app.py:1120 | a non-zero pixel on each of the four borders makes the whole frame the box |
| Preprocess.BordersGiveFullFrame | src/app.py:1120-1124 | such a canvas is cropped to the whole frame, and the framed image is the inverted frame itself |
| Preprocess.ConstantGridMoments | src/app.py:1097 | the mass and both moments of a constant grid, in closed form |
| Preprocess.FullInkCanvas | src/app.py:1112-1128 | a fully inked canvas is not cropped; its centroid (13.5, 13.5) rounds to a zero shift, and the tensor is all ones |
| Preprocess.BlankCanvasFails | src/app.py:1112-1128 | a blank canvas makes preprocessing fail with zero mass |
| Preprocess.BlankCanvasFullFrame | src/app.py:1117-1124 | a blank canvas is cropped to the whole frame, and the framed image is the zero frame |
| Preprocess.MasslessFails | src/app.py:1097-1101 | an all-zero framed image makes preprocessing fail |
| Centering.ShiftSeqMoments | src/app.py:1104-1110 | moving a sequence without losing a non-zero element keeps its sum and adds k times the sum to its moment |
| Centering.ShiftMoments | src/app.py:1104-1110 | a lossless translation keeps the mass, and adds sy times the mass to the row moment and sx times the mass to the column moment |
| Centering.ShiftMovesCentroid | src/app.py:1095-1110 | a lossless translation moves the centroid by exactly (sy, sx) |
| Centering.BestShiftCentres | src/app.py:1095-1110 | after the best shift loses no ink, the centroid is within half a pixel of (rows/2, cols/2), and the best shift of the result is (0, 0) |
| Centering.PreprocessCentres | src/app.py:1112-1128 | the tensor is the framed image moved by its best shift; when no ink is lost, its centroid is within half a pixel of (14, 14) and centring again would not move it |
| Prediction.Normalise | src/app.py:54-56 | the length is kept; a positive sum gives entries proportional to the input that sum to 1; a sum of 0 or less leaves the output unchanged |
| Prediction.NormaliseIdempotent | src/app.py:1182-1183 | normalising the worker's result again, as `_on_prediction` does, changes nothing |
| Prediction.NormaliseGivesDistribution | src/app.py:54-56 | non-negative scores with a positive sum become a distribution with every entry in [0, 1] |
| Prediction.FirstRow | src/app.py:50-52 | a vector is kept, and a batch gives its row 0; only an empty batch has none |
| Prediction.WorkerRun | src/app.py:45-59 | only an empty batch fails; otherwise the kept row is normalised: a distribution when it is non-negative with a positive sum, itself when its sum is not positive |
| Prediction.ArgMax | src/app.py:1184 | an index holding the maximum, preceded only by smaller entries |
| Prediction.ArgMaxUnique | src/app.py:1184 | that property determines the argmax |
| Prediction.MaxProb | src/app.py:1185 | the confidence is an entry of the output, and no entry is larger |
| Prediction.BarTarget | src/app.py:1207 | the bar target is the confidence percentage truncated toward zero (floor when non-negative, ceiling when negative), in 0..100 when the confidence is in [0, 1] |
| Prediction.Insert | src/app.py:1193 | inserting an index into a descending index list keeps it descending and adds exactly that index |
| Prediction.ArgSortDesc | src/app.py:1193 | every index appears exactly once, in order of non-increasing probability |
| Prediction.SortedFirstIsMax | src/app.py:1184-1193 | the head of the argsort holds the maximum probability |
| Prediction.UniqueMaxHeadsSort | src/app.py:1184-1194 | with a unique maximum, the head of the argsort is the argmax |
| Prediction.Top3 | src/app.py:1193-1194 | the top 3 are min(3, n) indices in descending order, and every other index is no more probable than any of them |
| Prediction.KeptMembers | src/app.py:1195-1198 | an index is kept as an alternative exactly when it is among the top, is not the prediction, and has probability above 0.005 |
| Prediction.Alternatives | src/app.py:1195-1198 | the loop builds exactly the kept alternatives |
| Prediction.AlternativesShorter | src/app.py:1196-1197 | excluding an index that occurs in the list leaves fewer alternatives than entries |
| Prediction.AtMostTwoAlternatives | src/app.py:1184-1198 | when one digit is strictly most probable, at most two alternatives are listed |
| Prediction.AllKept | src/app.py:1195-1198 | when every listed index qualifies, the alternatives are the whole list |
| Prediction.TiedTop3 | src/app.py:1193-1194 | with all probabilities equal, the top 3 are the three last indices |
| Prediction.UniformListsThree | src/app.py:1184-1198 | with four or more equal probabilities above 0.005, the prediction is digit 0, and all of the last three digits are listed as alternatives |
| Prediction.BarClassOf | src/app.py:211-239 | exactly one class per bar: green for the argmax, blue above 0.3, orange for (0.1, 0.3], grey for the rest |
| Prediction.ClassifyBars | src/app.py:204-239 | the dialog's loop gives each bar its class relative to the argmax |
| Prediction.CountAboveBound | src/app.py:219 | entries above a threshold t weigh at least their count times t |
| Prediction.HighBarsSplit | src/app.py:211-219 | the blue bars are the entries above 0.3, less the argmax bar when it is one of them |
| Prediction.AtMostTwoHighBars | src/app.py:204-225 | a distribution has at most two blue bars |
| Prediction.SecondBest | src/app.py:314-316 | there is a second best exactly when there are two or more entries; it is not the head of the order, and it is the most probable of the rest |
| Prediction.ShowsSecond | src/app.py:322 | the second-best line is shown exactly when some digit other than the head of the order has a probability above 1% |
| Prediction.SecondBestDiffersFromUniqueMax | src/app.py:307-316 | a strictly most probable digit is never also named second best |
| Prediction.TiedPairRepeatsDigit | src/app.py:307-322 | for (0.5, 0.5) both the most probable and the second-best digit are 0, and the second-best line is shown |
| Ui.BrushSize | src/app.py:82 | the stored brush size is at least 1 and at least the request, and a request of 1 or more is kept |
| Ui.DrawingWidget.constructor | src/app.py:64-79 | a canvas of the given size, all white, and with the given brush |
| Ui.DrawingWidget.Clear | src/app.py:77-79 | every pixel becomes white, and nothing else changes |
| Ui.DrawingWidget.SetBrush | src/app.py:81-82 | the brush becomes max(1, size), and nothing else changes |
| Ui.ThemeIndex | src/app.py:1075 | the position of a theme among the keys |
| Ui.NextTheme | src/app.py:1072-1077 | a different theme at the next index modulo 3 |
| Ui.ThemeCycleOrder | src/app.py:1072-1077 | the cycle goes light to dark, dark to blue, and blue to light |
| Ui.ThreeStepsReturn | src/app.py:1072-1077 | three steps return to the starting theme, and two do not |
| Ui.MainWindow.constructor | src/app.py:472-487 | start-up: the dark theme, a blank 340 x 340 canvas with brush 16, no prediction, the bar at 0, nothing running |
| Ui.MainWindow.ApplyTheme | src/app.py:1011-1016 | the named theme becomes current |
| Ui.MainWindow.ApplyThemeAnimated | src/app.py:1018-1043 | nothing changes when the theme is already current or a fade-in is running; otherwise a fade-in towards the theme starts |
| Ui.MainWindow.OnFadeInFinished | src/app.py:1045-1047 | the fade-in's target becomes the current theme and the fade-in is over |
| Ui.MainWindow.CycleTheme | src/app.py:1072-1077 | the next theme is requested; nothing changes when the current theme is not a key or a fade-in is running |
| Ui.MainWindow.ClearCanvas | src/app.py:1086-1093 | the canvas is white, the labels are cleared, the bar is 0, and no prediction is stored |
| Ui.MainWindow.Predict | src/app.py:1130-1148 | a preprocessing failure or a missing model shows an error and starts nothing; otherwise the busy indicator shows and the worker starts on the preprocessed tensor |
| Ui.MainWindow.OnPrediction | src/app.py:1178-1207 | the busy indicator is hidden; a non-empty output is normalised and stored, together with its argmax digit, confidence, kept top-3 alternatives and bar target; an empty one changes nothing else |
| Ui.MainWindow.OnInferenceError | src/app.py:1150-1156 | the busy indicator is hidden, and the error is shown in a dialog and in the labels |
| Ui.MainWindow.ShowProbabilities | src/app.py:1209-1215 | an information box before any prediction; otherwise the chart of the stored prediction, with its bar classes and second-best line |
| Ui.MainWindow.ShowPreview | src/app.py:1217-1223 | the preprocessed tensor, or an error dialog when preprocessing fails |
| Ui.DistributionFillsBar | src/app.py:1182-1207 | for a worker output that is a distribution, the second normalisation changes nothing and the bar target lies in 0..100 |

## Left out

- Qt painting, mouse strokes (`_draw_point`, `_draw_line`), style sheets, charts, fonts,
  keyboard shortcuts and full screen: these are presentation. The canvas is the image
  the strokes leave behind.
- `get_pil_image` (a PNG round trip through Qt's buffers) is taken to give the canvas
  pixels unchanged.
- Ui.MainWindow.ApplyTheme does not model the style sheet it sets. The fade-out animation
  and the overlay's lifetime are not modelled either. This includes the case where one
  transition's fade-out clears the handle of a newer fade-in: the newer transition is then
  not guarded against.
- The confidence bar's animation is not modelled: the bar is given the value it animates to.
  That value can lie outside 0..100 when the scores are not a distribution (scores [2, -3]
  give 200, all-negative scores a negative value); the bar's 0..100 range makes Qt ignore
  such a value, and the model records it as it is.
- The thread that runs the worker, and its signals, are not modelled: `Predict` records the
  tensor the worker is started on, and the result or error arrives through `OnPrediction`
  or `OnInferenceError`.
- The ONNX session call (`session.run`) and model loading are not modelled. The session's
  output is an input of `WorkerRun`, and the constructor assumes that loading succeeded,
  as start-up raises otherwise.
- Prediction.WorkerRun: outputs of three or more dimensions are not modelled. For those,
  row 0 is itself a matrix that `_on_prediction` flattens. Outputs with no dimension are
  not modelled either.
- Floating point is not modelled. Scores, probabilities and the centroid are exact reals:
  no float32 rounding and no NaN or infinite scores. The
  `(img_array * 255).astype(np.uint8)` round trip after `/ 255.0` is taken as the identity,
  and the pad's `round(short / long * 28)` rounds the exact quotient, not its float.
- The Lanczos and bicubic filters are not modelled. They are parameters; only their output
  format (size, 0..255 range) and the pad geometry are modelled.
- Prediction.ArgSortDesc fixes one order for equal probabilities (higher index first).
  NumPy's default sort does not guarantee an order for ties.
- The dialog's text formatting (percentages, labels) is not modelled.
- Prediction.AtMostTwoAlternatives requires a unique maximum. Without one the bound does
  not hold, as UniformListsThree shows.
- Centering.PreprocessCentres requires that the best shift loses no ink. A shift that
  pushes ink out of the frame changes the mass, and the model states nothing about that
  case.
