/** The measurement and row-numbering logic the two classifier scripts share
    (backend/MaskrcnnGradAidAg.py and the top-level MaskrcnnGradAidAg.py hold
    identical copies): `extract_contour_dimensions` after OpenCV has measured
    the contour, the mask loop of `process_image_features`, and the image
    loop of `main` that threads the CSV row counter. The detector, the
    contour search and the drawing are outside the model: what they report
    for each mask is an input. */
module ContourFeatures {

  import opened Outcomes

  /** What OpenCV reports about the largest contour of one mask:
      `contourArea`, `arcLength`, `boundingRect`, `minAreaRect` (centre and
      side lengths) and the area and perimeter of `convexHull`. */
  datatype ContourMeasures = ContourMeasures(
    area: real,
    perimeter: real,
    boundX: int,
    boundY: int,
    boundW: int,
    boundH: int,
    rectCenterX: real,
    rectCenterY: real,
    side1: real,
    side2: real,
    hullArea: real,
    hullPerimeter: real)

  /** The dictionary `extract_contour_dimensions` returns. */
  datatype Dimensions = Dimensions(
    area: real,
    topLeftX: int,
    topLeftY: int,
    bottomRightX: int,
    bottomRightY: int,
    centerX: int,
    centerY: int,
    width: real,
    length: real,
    volume: real,
    solidity: real,
    strictSolidity: real)

  /** Contours with less area than this are dropped. */
  const MIN_CONTOUR_AREA: real := 10.0

  /** Python's `int(x)` on a float: truncation toward zero. */
  function Trunc(x: real): (n: int)
    ensures x >= 0.0 ==> n >= 0 && n as real <= x < n as real + 1.0
    ensures x < 0.0 ==> n <= 0 && n as real - 1.0 < x <= n as real
  {
    if x >= 0.0 then x.Floor else -((-x).Floor)
  }

  function Min(a: real, b: real): real { if a <= b then a else b }
  function Max(a: real, b: real): real { if a <= b then b else a }

  /** `extract_contour_dimensions` on the measured contour. */
  function ExtractContourDimensions(c: ContourMeasures): (r: Option<Dimensions>)
    ensures r.None? <==> c.area < MIN_CONTOUR_AREA
    ensures r.Some? ==>
      var d := r.value;
      && d.area == c.area
      && d.topLeftX == c.boundX && d.topLeftY == c.boundY
      && d.bottomRightX - d.topLeftX == c.boundW
      && d.bottomRightY - d.topLeftY == c.boundH
      && d.centerX == Trunc(c.rectCenterX) && d.centerY == Trunc(c.rectCenterY)
      && d.width <= d.length
      && multiset{d.width, d.length} == multiset{c.side1, c.side2}
      && (d.width <= 0.0 ==> d.volume == 0.0)
      && (d.width > 0.0 ==> d.volume == c.area * (4.0 / 3.0) * (d.width / 2.0) && d.volume > 0.0)
      && (c.hullArea <= 0.0 ==> d.solidity == 0.0)
      && (c.hullArea > 0.0 ==> d.solidity > 0.0 && d.solidity * c.hullArea == c.area)
      && (!(c.perimeter > 0.0 && c.hullArea > 0.0) ==> d.strictSolidity == 0.0)
      && (c.perimeter > 0.0 && c.hullArea > 0.0 ==>
            d.strictSolidity * c.perimeter == d.solidity * c.hullPerimeter)
  {
    if c.area < MIN_CONTOUR_AREA then None
    else
      var width := Min(c.side1, c.side2);
      var length := Max(c.side1, c.side2);
      var volume := if width > 0.0 then c.area * (4.0 / 3.0) * (width / 2.0) else 0.0;
      assert width > 0.0 ==> volume > 0.0 by {
        if width > 0.0 { PositiveProduct(c.area * (4.0 / 3.0), width / 2.0); }
      }
      var solidity := if c.hullArea > 0.0 then c.area / c.hullArea else 0.0;
      var strict := if c.perimeter > 0.0 && c.hullArea > 0.0
                    then solidity * (c.hullPerimeter / c.perimeter) else 0.0;
      Some(Dimensions(c.area, c.boundX, c.boundY, c.boundX + c.boundW, c.boundY + c.boundH,
                      Trunc(c.rectCenterX), Trunc(c.rectCenterY),
                      width, length, volume, solidity, strict))
  }

  lemma PositiveProduct(a: real, b: real)
    requires a > 0.0 && b > 0.0
    ensures a * b > 0.0
  {
  }

  /** What the contour search yields for one mask: nothing, or the largest
      contour's measurements together with whether its filled shape reaches
      into the border band. */
  datatype MaskOutcome =
    | NoContour
    | MainContour(measures: ContourMeasures, touchesBorder: bool)

  /** A mask produces a row when it has a contour, the contour is not too
      small, and (with a positive border width) it stays clear of the border. */
  predicate Accepts(m: MaskOutcome, borderPixels: int) {
    && m.MainContour?
    && m.measures.area >= MIN_CONTOUR_AREA  // exactly when the dimensions are not None
    && !(borderPixels > 0 && m.touchesBorder)
  }

  /** The indices among the first n masks that produce a row, in mask order. */
  function AcceptedIndices(masks: seq<MaskOutcome>, n: nat, borderPixels: int): (r: seq<nat>)
    requires n <= |masks|
    ensures |r| <= n && forall k :: 0 <= k < |r| ==> r[k] < n
  {
    if n == 0 then []
    else AcceptedIndices(masks, n - 1, borderPixels)
         + (if Accepts(masks[n - 1], borderPixels) then [n - 1] else [])
  }

  /** Exactly the accepted masks appear, each once, in increasing order. */
  lemma {:induction false} AcceptedIndicesExact(masks: seq<MaskOutcome>, n: nat, borderPixels: int)
    requires n <= |masks|
    ensures forall k :: 0 <= k < |AcceptedIndices(masks, n, borderPixels)| ==>
      Accepts(masks[AcceptedIndices(masks, n, borderPixels)[k]], borderPixels)
    ensures forall k, l :: 0 <= k < l < |AcceptedIndices(masks, n, borderPixels)| ==>
      AcceptedIndices(masks, n, borderPixels)[k] < AcceptedIndices(masks, n, borderPixels)[l]
    ensures forall i :: 0 <= i < n && Accepts(masks[i], borderPixels) ==> i in AcceptedIndices(masks, n, borderPixels)
  {
    if n > 0 {
      AcceptedIndicesExact(masks, n - 1, borderPixels);
      var p := AcceptedIndices(masks, n - 1, borderPixels);
      if Accepts(masks[n - 1], borderPixels) {
        var r := p + [n - 1];
        assert AcceptedIndices(masks, n, borderPixels) == r;
        forall k | 0 <= k < |r| ensures Accepts(masks[r[k]], borderPixels) {
          if k < |p| {
            assert r[k] == p[k];
          } else {
            assert r[k] == n - 1;
          }
        }
        forall k, l | 0 <= k < l < |r| ensures r[k] < r[l] {
          assert r[k] == p[k];
          if l < |p| {
            assert r[l] == p[l];
          } else {
            assert r[l] == n - 1 && p[k] < n - 1;
          }
        }
        forall i | 0 <= i < n && Accepts(masks[i], borderPixels) ensures i in r {
          if i < n - 1 {
            assert i in p;
          } else {
            assert r[|p|] == i;
          }
        }
      } else {
        assert AcceptedIndices(masks, n, borderPixels) == p;
      }
    }
  }

  /** The per-column lists of `extracted_data`, one entry per accepted object. */
  datatype FeatureColumns = FeatureColumns(
    imageName: seq<string>,
    objectIdInImage: seq<int>,
    areaPx2: seq<real>,
    topLeftX: seq<int>,
    topLeftY: seq<int>,
    bottomRightX: seq<int>,
    bottomRightY: seq<int>,
    center: seq<(int, int)>,
    widthPx: seq<real>,
    lengthPx: seq<real>,
    volumePx3: seq<real>,
    solidity: seq<real>,
    strictSolidity: seq<real>)

  const NoColumns := FeatureColumns([], [], [], [], [], [], [], [], [], [], [], [], [])

  /** Every column holds exactly n entries. */
  predicate HasHeight(c: FeatureColumns, n: nat) {
    && |c.imageName| == n && |c.objectIdInImage| == n && |c.areaPx2| == n
    && |c.topLeftX| == n && |c.topLeftY| == n && |c.bottomRightX| == n
    && |c.bottomRightY| == n && |c.center| == n && |c.widthPx| == n
    && |c.lengthPx| == n && |c.volumePx3| == n && |c.solidity| == n
    && |c.strictSolidity| == n
  }

  /** One object as a row: its image, its mask index and its dimensions. */
  datatype FeatureRow = FeatureRow(imageName: string, objectIdInImage: int, dims: Dimensions)

  function RowAt(c: FeatureColumns, k: nat): FeatureRow
    requires HasHeight(c, |c.imageName|) && k < |c.imageName|
  {
    FeatureRow(c.imageName[k], c.objectIdInImage[k],
      Dimensions(c.areaPx2[k], c.topLeftX[k], c.topLeftY[k], c.bottomRightX[k], c.bottomRightY[k],
                 c.center[k].0, c.center[k].1, c.widthPx[k], c.lengthPx[k], c.volumePx3[k],
                 c.solidity[k], c.strictSolidity[k]))
  }

  /** One pass of the loop body: one value appended to every column. */
  function AppendRow(c: FeatureColumns, row: FeatureRow): FeatureColumns {
    var d := row.dims;
    FeatureColumns(
      c.imageName + [row.imageName], c.objectIdInImage + [row.objectIdInImage],
      c.areaPx2 + [d.area], c.topLeftX + [d.topLeftX], c.topLeftY + [d.topLeftY],
      c.bottomRightX + [d.bottomRightX], c.bottomRightY + [d.bottomRightY],
      c.center + [(d.centerX, d.centerY)], c.widthPx + [d.width], c.lengthPx + [d.length],
      c.volumePx3 + [d.volume], c.solidity + [d.solidity], c.strictSolidity + [d.strictSolidity])
  }

  /** Appending a row keeps the earlier rows and puts the new one last. */
  lemma AppendRowAt(c: FeatureColumns, m: nat, row: FeatureRow)
    requires HasHeight(c, m)
    ensures var c' := AppendRow(c, row);
      && HasHeight(c', m + 1)
      && c'.objectIdInImage == c.objectIdInImage + [row.objectIdInImage]
      && RowAt(c', m) == row
      && forall k :: 0 <= k < m ==> RowAt(c', k) == RowAt(c, k)
  {
  }

  /** The row a mask the loop accepts contributes. */
  function RowOf(imageName: string, masks: seq<MaskOutcome>, i: nat, borderPixels: int): FeatureRow
    requires i < |masks| && Accepts(masks[i], borderPixels)
  {
    FeatureRow(imageName, i, ExtractContourDimensions(masks[i].measures).value)
  }

  /** The columns the loop has built after the first n masks. */
  function ColumnsUpTo(imageName: string, masks: seq<MaskOutcome>, n: nat, borderPixels: int): FeatureColumns
    requires n <= |masks|
  {
    if n == 0 then NoColumns
    else
      var c := ColumnsUpTo(imageName, masks, n - 1, borderPixels);
      if Accepts(masks[n - 1], borderPixels) then AppendRow(c, RowOf(imageName, masks, n - 1, borderPixels))
      else c
  }

  /** Row k of the columns is the k-th accepted mask, in full: every column
      received exactly one value per accepted object. */
  lemma {:induction false} ColumnsUpToRows(imageName: string, masks: seq<MaskOutcome>, n: nat, borderPixels: int)
    requires n <= |masks|
    ensures var c := ColumnsUpTo(imageName, masks, n, borderPixels);
      var idx := AcceptedIndices(masks, n, borderPixels);
      && HasHeight(c, |idx|)
      && c.objectIdInImage == idx
      && (forall k :: 0 <= k < |idx| ==>
            Accepts(masks[idx[k]], borderPixels)
            && RowAt(c, k) == RowOf(imageName, masks, idx[k], borderPixels))
  {
    if n > 0 {
      ColumnsUpToRows(imageName, masks, n - 1, borderPixels);
      AcceptedIndicesExact(masks, n, borderPixels);
      var c := ColumnsUpTo(imageName, masks, n - 1, borderPixels);
      if Accepts(masks[n - 1], borderPixels) {
        AppendRowAt(c, |AcceptedIndices(masks, n - 1, borderPixels)|, RowOf(imageName, masks, n - 1, borderPixels));
      }
    }
  }

  /** What `process_image_features` returns (the DataFrame as its columns),
      together with the row numbers it draws on the image. */
  datatype ImageFeatures = ImageFeatures(
    columns: FeatureColumns,
    detectedObjectCount: nat,
    nextCsvRow: int,
    drawnLabels: seq<DrawnLabel>)

  /** A CSV row number drawn by `draw_text_centered`: the number, the image
      it is drawn on, the mask whose contour it marks, and the point it is
      centred on. */
  datatype DrawnLabel = DrawnLabel(number: int, imageName: string, maskIndex: int, at: (int, int))

  /** The label that belongs on a row's object. */
  function LabelFor(number: int, row: FeatureRow): DrawnLabel {
    DrawnLabel(number, row.imageName, row.objectIdInImage, (row.dims.centerX, row.dims.centerY))
  }

  /** The labels mark the rows one to one, numbered from start + 1 on. */
  predicate NumberedLabels(labels: seq<DrawnLabel>, rows: seq<FeatureRow>, start: int) {
    |labels| == |rows| && forall k :: 0 <= k < |rows| ==> labels[k] == LabelFor(start + k + 1, rows[k])
  }

  /** The labels of two runs of rows, the second numbered on from the first. */
  lemma ConcatLabels(l1: seq<DrawnLabel>, r1: seq<FeatureRow>, l2: seq<DrawnLabel>, r2: seq<FeatureRow>, start: int)
    requires NumberedLabels(l1, r1, start) && NumberedLabels(l2, r2, start + |r1|)
    ensures NumberedLabels(l1 + l2, r1 + r2, start)
  {
    forall k | 0 <= k < |r1 + r2| ensures (l1 + l2)[k] == LabelFor(start + k + 1, (r1 + r2)[k]) {
      if k >= |r1| {
        assert (l1 + l2)[k] == l2[k - |r1|] && (r1 + r2)[k] == r2[k - |r1|];
      }
    }
  }

  const BORDER_ERROR := "Border filter width cannot be less than 0."

  /** The mask loop of `process_image_features`. */
  method ProcessImageFeatures(imageName: string, csvRowStart: int, masks: seq<MaskOutcome>, borderPixels: int)
    returns (r: Call<ImageFeatures>)
    ensures borderPixels < 0 ==> r == Raised(BORDER_ERROR)
    ensures borderPixels >= 0 ==> r.Returned?
    ensures r.Returned? ==>
      var f := r.value;
      && f.detectedObjectCount == |AcceptedIndices(masks, |masks|, borderPixels)|
      && f.nextCsvRow == csvRowStart + f.detectedObjectCount
      && f.columns == ColumnsUpTo(imageName, masks, |masks|, borderPixels)
      && HasHeight(f.columns, f.detectedObjectCount)
      && NumberedLabels(f.drawnLabels, RowsOf(f.columns), csvRowStart)
  {
    if borderPixels < 0 {
      return Raised(BORDER_ERROR);
    }
    var columns := NoColumns;
    var count := 0;
    var nextRow := csvRowStart;
    var labels: seq<DrawnLabel> := [];
    for maskIdx := 0 to |masks|
      invariant count == |AcceptedIndices(masks, maskIdx, borderPixels)|
      invariant nextRow == csvRowStart + count
      invariant columns == ColumnsUpTo(imageName, masks, maskIdx, borderPixels)
      invariant HasHeight(columns, count)
      invariant |labels| == count
      invariant forall k :: 0 <= k < count ==> labels[k] == LabelFor(csvRowStart + k + 1, RowAt(columns, k))
    {
      var mask := masks[maskIdx];
      if mask.NoContour? {
        continue;
      }
      var dims := ExtractContourDimensions(mask.measures);
      if dims.None? {
        continue;
      }
      if borderPixels > 0 && mask.touchesBorder {
        continue;
      }
      var center := (dims.value.centerX, dims.value.centerY);
      labels := labels + [DrawnLabel(nextRow + 1, imageName, maskIdx, center)];
      AppendRowAt(columns, count, FeatureRow(imageName, maskIdx, dims.value));
      count := count + 1;
      columns := AppendRow(columns, FeatureRow(imageName, maskIdx, dims.value));
      nextRow := nextRow + 1;
    }
    return Returned(ImageFeatures(columns, count, nextRow, labels));
  }

  /** Columns of one DataFrame that all have the same height. */
  predicate WellFormed(c: FeatureColumns) {
    HasHeight(c, |c.imageName|)
  }

  /** The rows of one DataFrame, top to bottom. */
  function RowsOf(c: FeatureColumns): (r: seq<FeatureRow>)
    requires WellFormed(c)
    ensures |r| == |c.imageName|
  {
    seq(|c.imageName|, k requires 0 <= k < |c.imageName| => RowAt(c, k))
  }

  /** `pd.concat(frames, ignore_index=True)` as a list of rows. */
  function CombinedRows(frames: seq<FeatureColumns>): seq<FeatureRow>
    requires forall k :: 0 <= k < |frames| ==> WellFormed(frames[k])
  {
    if frames == [] then []
    else CombinedRows(frames[..|frames| - 1]) + RowsOf(frames[|frames| - 1])
  }

  const INCHES_PER_PIXEL: real := 9.0 / 425.0
  const FUDGE_FACTOR: real := 1.5

  /** The columns `finalize_data_and_save` adds before grading. */
  datatype Derived = Derived(lwRatio: Option<real>, areaIn2: real, weightOz: Option<real>)

  /** `lw_ratio` (a zero length or width gives NaN, here None), `area_in2`,
      and `weight_oz`, which is NaN (None) unless `area_in2 * FUDGE_FACTOR`
      is positive. `powerLaw` stands for `10**(1.465*log10(x)+0.8749)*0.03527396`. */
  function DeriveMeasures(d: Dimensions, powerLaw: real -> real): (r: Derived)
    ensures r.lwRatio.None? <==> (d.length == 0.0 || d.width == 0.0)
    ensures r.lwRatio.Some? ==> r.lwRatio.value * d.width == d.length
    ensures r.areaIn2 * 180625.0 == d.area * 81.0
    ensures r.weightOz.None? <==> d.area <= 0.0
    ensures r.weightOz.Some? ==> r.weightOz.value == powerLaw(r.areaIn2 * FUDGE_FACTOR)
  {
    var lw := if d.length == 0.0 || d.width == 0.0 then None else Some(d.length / d.width);
    var areaIn2 := d.area * (INCHES_PER_PIXEL * INCHES_PER_PIXEL);
    var logArg := areaIn2 * FUDGE_FACTOR;
    Derived(lw, areaIn2, if logArg > 0.0 then Some(powerLaw(logArg)) else None)
  }

  /** An image file `main` tries to process: `cv2.imread` fails, or it reads
      and the detector yields these masks. */
  datatype ImageInput =
    | Unreadable(fileName: string)
    | Readable(fileName: string, masks: seq<MaskOutcome>)

  /** Pixels from the border `main` asks to ignore. */
  const DEFAULT_BORDER_FILTER_PIXELS: int := 0

  /** The rows one image contributes: one per kept mask, in mask order. */
  function ImageRows(img: ImageInput): seq<FeatureRow> {
    match img
    case Unreadable(_) => []
    case Readable(name, masks) =>
      var idx := AcceptedIndices(masks, |masks|, DEFAULT_BORDER_FILTER_PIXELS);
      AcceptedIndicesExact(masks, |masks|, DEFAULT_BORDER_FILTER_PIXELS);
      seq(|idx|, k requires 0 <= k < |idx| => RowOf(name, masks, idx[k], DEFAULT_BORDER_FILTER_PIXELS))
  }

  /** The rows of the first n images, image after image. */
  function AllRows(images: seq<ImageInput>, n: nat): seq<FeatureRow>
    requires n <= |images|
  {
    if n == 0 then [] else AllRows(images, n - 1) + ImageRows(images[n - 1])
  }

  /** Every row of every image has at least the minimum area. */
  lemma {:induction false} AllRowsLargeEnough(images: seq<ImageInput>, n: nat)
    requires n <= |images|
    ensures forall k :: 0 <= k < |AllRows(images, n)| ==> AllRows(images, n)[k].dims.area >= MIN_CONTOUR_AREA
  {
    if n > 0 {
      AllRowsLargeEnough(images, n - 1);
      var prev := AllRows(images, n - 1);
      var more := ImageRows(images[n - 1]);
      forall k | 0 <= k < |more| ensures more[k].dims.area >= MIN_CONTOUR_AREA {
        var masks := images[n - 1].masks;
        var idx := AcceptedIndices(masks, |masks|, DEFAULT_BORDER_FILTER_PIXELS);
        AcceptedIndicesExact(masks, |masks|, DEFAULT_BORDER_FILTER_PIXELS);
        assert more[k] == RowOf(images[n - 1].fileName, masks, idx[k], DEFAULT_BORDER_FILTER_PIXELS);
      }
      forall k | 0 <= k < |prev + more| ensures (prev + more)[k].dims.area >= MIN_CONTOUR_AREA {
        if k >= |prev| {
          assert (prev + more)[k] == more[k - |prev|];
        }
      }
    }
  }

  /** Kept frames: each well-formed and non-empty. */
  predicate KeptFrames(frames: seq<FeatureColumns>) {
    forall k :: 0 <= k < |frames| ==> WellFormed(frames[k]) && |frames[k].imageName| > 0
  }

  /** The frame `process_image_features` builds for a readable image holds
      exactly that image's rows. */
  lemma ImageFrame(imageName: string, masks: seq<MaskOutcome>)
    ensures var c := ColumnsUpTo(imageName, masks, |masks|, DEFAULT_BORDER_FILTER_PIXELS);
      WellFormed(c) && RowsOf(c) == ImageRows(Readable(imageName, masks))
  {
    ColumnsUpToRows(imageName, masks, |masks|, DEFAULT_BORDER_FILTER_PIXELS);
  }

  /** Keeping one more non-empty frame appends its rows to the combined ones. */
  lemma AddFrame(frames: seq<FeatureColumns>, f: FeatureColumns)
    requires KeptFrames(frames)
    requires WellFormed(f) && |f.imageName| > 0
    ensures KeptFrames(frames + [f])
    ensures CombinedRows(frames + [f]) == CombinedRows(frames) + RowsOf(f)
  {
    assert (frames + [f])[..|frames|] == frames;
  }

  datatype RunResult = RunResult(
    frames: seq<FeatureColumns>,
    processedImages: nat,
    csvRowCounter: int,
    drawnLabels: seq<DrawnLabel>)

  /** What the image loop has built after the first i images. */
  predicate RunSoFar(images: seq<ImageInput>, i: nat, frames: seq<FeatureColumns>, labels: seq<DrawnLabel>, counter: int)
    requires i <= |images|
  {
    && counter == |AllRows(images, i)|
    && KeptFrames(frames)
    && CombinedRows(frames) == AllRows(images, i)
    && NumberedLabels(labels, AllRows(images, i), 0)
  }

  /** An unreadable image is skipped and changes nothing. */
  lemma UnreadableStep(images: seq<ImageInput>, i: nat, frames: seq<FeatureColumns>, labels: seq<DrawnLabel>, counter: int)
    requires i < |images| && images[i].Unreadable?
    requires RunSoFar(images, i, frames, labels, counter)
    ensures RunSoFar(images, i + 1, frames, labels, counter)
  {
    assert AllRows(images, i + 1) == AllRows(images, i) + [];
  }

  /** A readable image adds its labels, its row count, and its frame when
      that is not empty. */
  lemma ReadableStep(images: seq<ImageInput>, i: nat, frames: seq<FeatureColumns>, labels: seq<DrawnLabel>, counter: int,
                     f: ImageFeatures)
    requires i < |images| && images[i].Readable?
    requires RunSoFar(images, i, frames, labels, counter)
    requires f.columns == ColumnsUpTo(images[i].fileName, images[i].masks, |images[i].masks|, DEFAULT_BORDER_FILTER_PIXELS)
    requires f.nextCsvRow == counter + f.detectedObjectCount
    requires HasHeight(f.columns, f.detectedObjectCount)
    requires NumberedLabels(f.drawnLabels, RowsOf(f.columns), counter)
    ensures var kept := if |f.columns.imageName| > 0 then frames + [f.columns] else frames;
      RunSoFar(images, i + 1, kept, labels + f.drawnLabels, f.nextCsvRow)
  {
    var prev := AllRows(images, i);
    ImageFrame(images[i].fileName, images[i].masks);
    assert AllRows(images, i + 1) == prev + RowsOf(f.columns);
    ConcatLabels(labels, prev, f.drawnLabels, RowsOf(f.columns), 0);
    if |f.columns.imageName| > 0 {
      AddFrame(frames, f.columns);
    } else {
      assert prev + RowsOf(f.columns) == prev;
    }
  }

  /** The image loop of `main`: every readable image is processed with the
      running CSV row counter, and its columns are kept when non-empty. The
      combined rows are the images' rows in order, and the k-th label drawn
      carries the number k + 1 and marks the k-th combined row's object. */
  method ProcessAllImages(images: seq<ImageInput>) returns (r: RunResult)
    ensures r.csvRowCounter == |AllRows(images, |images|)|
    ensures |r.frames| <= r.processedImages <= |images|
    ensures KeptFrames(r.frames)
    ensures CombinedRows(r.frames) == AllRows(images, |images|)
    ensures NumberedLabels(r.drawnLabels, CombinedRows(r.frames), 0)
    ensures forall k :: 0 <= k < |CombinedRows(r.frames)| ==> CombinedRows(r.frames)[k].dims.area >= MIN_CONTOUR_AREA
  {
    var frames: seq<FeatureColumns> := [];
    var processed := 0;
    var counter := 0;
    var labels: seq<DrawnLabel> := [];
    for i := 0 to |images|
      invariant |frames| <= processed <= i
      invariant RunSoFar(images, i, frames, labels, counter)
    {
      match images[i]
      case Unreadable(_) =>
        UnreadableStep(images, i, frames, labels, counter);
      case Readable(name, masks) =>
        var res := ProcessImageFeatures(name, counter, masks, DEFAULT_BORDER_FILTER_PIXELS);
        var f := res.value;
        ReadableStep(images, i, frames, labels, counter, f);
        labels := labels + f.drawnLabels;
        counter := f.nextCsvRow;
        processed := processed + 1;
        if |f.columns.imageName| > 0 {
          frames := frames + [f.columns];
        }
    }
    AllRowsLargeEnough(images, |images|);
    return RunResult(frames, processed, counter, labels);
  }
}
