/**
  The Streamlit dashboard of app/ui/app.py, minus its layout: the palette
  and legend, the colorization of the mask the service returns, the sample
  paths built from the selected ID, and the horizontal flip that the input
  image and its ground truth share.
 */
module Dashboard {
  import opened Options
  import opened Imaging
  import opened SampleIds
  import Api

  /** The dashboard's own copy of the eight category colours. */
  const PALETTE: seq<Rgb> := [
    Rgb(128, 64, 128),  // flat (road)
    Rgb(220, 20, 60),   // human
    Rgb(0, 0, 142),     // vehicle
    Rgb(70, 70, 70),    // construction
    Rgb(220, 220, 0),   // object
    Rgb(107, 142, 35),  // nature
    Rgb(70, 130, 180),  // sky
    Rgb(0, 0, 0)        // void
  ]

  const LABELS: seq<string> := ["Flat", "Human", "Vehicle", "Construction", "Object", "Nature", "Sky", "Void"]

  const DATA_DIR: string := "../data/test_samples"

  // ---------------------------------------------------------------------------
  // Palette, colorization and legend
  // ---------------------------------------------------------------------------

  /** The dashboard's `colorize_mask`: class i in 0..7 becomes PALETTE[i],
      every other value stays black, and the mask's shape is kept. */
  function ColorizeMask(mask: Grid<nat>): (img: Grid<Rgb>)
    ensures SameShape(img, mask)
    ensures forall y, x :: 0 <= y < |mask| && 0 <= x < |mask[y]| && mask[y][x] < |PALETTE| ==>
              img[y][x] == PALETTE[mask[y][x]]
    ensures forall y, x :: 0 <= y < |mask| && 0 <= x < |mask[y]| && mask[y][x] >= |PALETTE| ==>
              img[y][x] == Black
  {
    Colorize(mask, PALETTE)
  }

  /** Both copies of the palette agree, so the dashboard paints a mask exactly
      as the service's `/predict_image` does. */
  lemma ColorizeAgreesWithService(mask: Grid<nat>)
    ensures ColorizeMask(mask) == Api.ColorizeMask(mask)
  {
    assert PALETTE == Api.PALETTE;
  }

  /** The legend: one (label, colour) entry per class, in class order; the
      colour shown for class i is the one the colorization paints it with. */
  function Legend(): (entries: seq<(string, Rgb)>)
    ensures |entries| == |LABELS| == |PALETTE|
    ensures forall i :: 0 <= i < |entries| ==>
              entries[i].0 == LABELS[i] && entries[i].1 == LookupColor(i, PALETTE)
  {
    seq(|LABELS|, i requires 0 <= i < |LABELS| => (LABELS[i], PALETTE[i]))
  }

  // ---------------------------------------------------------------------------
  // Sample selection and paths
  // ---------------------------------------------------------------------------

  /** Python's `os.path.join(a, b)` on POSIX for two parts. */
  function Join(a: string, b: string): (p: string)
    ensures |b| > 0 && b[0] == '/' ==> p == b
    ensures !(|b| > 0 && b[0] == '/') ==> |a| + |b| <= |p| && p[..|a|] == a && p[|p| - |b|..] == b
    ensures !(|b| > 0 && b[0] == '/') ==>
              |p| == |a| + |b| + (if |a| == 0 || a[|a| - 1] == '/' then 0 else 1)
    ensures |p| == |a| + |b| + 1 ==> p[|a|] == '/'
  {
    if |b| > 0 && b[0] == '/' then b
    else if |a| == 0 || a[|a| - 1] == '/' then a + b
    else a + "/" + b
  }

  function ImageDir(): string { Join(DATA_DIR, "images") }

  function MaskDir(): string { Join(DATA_DIR, "masks") }

  /** The ID initially shown: nothing when no ID was found, otherwise the
      first entry of the select box, which is the smallest ID. */
  function DefaultSelection(ids: seq<string>): (sel: Option<string>)
    ensures sel.None? <==> |ids| == 0
    ensures sel.Some? ==> sel.value in ids
    ensures sel.Some? && Sorted(ids) ==> forall i :: 0 <= i < |ids| ==> LexLeq(sel.value, ids[i])
  {
    if |ids| == 0 then None
    else
      assert forall i :: 0 <= i < |ids| && Sorted(ids) ==> LexLeq(ids[0], ids[i]) by {
        forall i | 0 <= i < |ids| && Sorted(ids)
          ensures LexLeq(ids[0], ids[i])
        {
          SortedHeadIsLeast(ids, i);
        }
      }
      Some(ids[0])
  }

  /** A file named exactly `_leftImg8bit.png` gives the ID `""`, which sorts
      first and so is selected by default; being falsy, it opens nothing. */
  lemma EmptyIdSelectsNothing(listing: seq<string>)
    requires TAG in listing
    ensures var ids := LoadLocalImages(true, listing);
            && DefaultSelection(ids) == Some("")
            && PathsFor(DefaultSelection(ids)).None?
  {
    var ids := LoadLocalImages(true, listing);
    RemoveTagAppend([]);
    assert [] + TAG == TAG;
    assert EndsWith(TAG, PNG);
    assert SampleId(TAG) == "";
    assert "" in ids;
    var j :| 0 <= j < |ids| && ids[j] == "";
    var sel := DefaultSelection(ids);
    assert LexLeq(sel.value, ids[j]);
  }

  datatype SamplePaths = SamplePaths(image: string, mask: string)

  /** `if selected_id:` then the image and ground-truth paths. An empty ID is
      falsy in Python, so it selects nothing. */
  function PathsFor(selected: Option<string>): (r: Option<SamplePaths>)
    ensures r.Some? <==> selected.Some? && selected.value != ""
    ensures r.Some? && selected.value[0] != '/' ==>
              var id := selected.value;
              && r.value.image == ImageDir() + "/" + ImageFileName(id)
              && r.value.mask == MaskDir() + "/" + MaskFileName(id)
  {
    match selected
    case None => None
    case Some(id) =>
      if id == "" then None
      else Some(SamplePaths(Join(ImageDir(), ImageFileName(id)), Join(MaskDir(), MaskFileName(id))))
  }

  /** A scanned name that is `x + "_leftImg8bit.png"`, with no other
      occurrence of the suffix in `x` and `x` not empty, opens that very file. */
  lemma ScannedImageReopens(name: string)
    requires EndsWith(name, TAG) && !ContainsTag(name[..|name| - |TAG|])
    requires |name| > |TAG| && name[0] != '/'
    ensures PathsFor(Some(SampleId(name))).Some?
    ensures PathsFor(Some(SampleId(name))).value.image == ImageDir() + "/" + name
  {
    RoundTrip(name);
    var id := SampleId(name);
    assert |id| > 0 by {
      assert |ImageFileName(id)| == |id| + |TAG|;
    }
    assert id[0] == name[0] by {
      assert ImageFileName(id)[..|id|] == id;
    }
  }

  // ---------------------------------------------------------------------------
  // Transforms and the ground truth
  // ---------------------------------------------------------------------------

  /** PIL's brightness and contrast enhancers, left as black boxes. */
  datatype Enhancers = Enhancers(
    brightness: (Grid<Rgb>, real) -> Grid<Rgb>,
    contrast: (Grid<Rgb>, real) -> Grid<Rgb>)

  /** `apply_transforms`: mirror when `flip` is set, then brightness, then contrast. */
  function ApplyTransforms(img: Grid<Rgb>, brightness: real, contrast: real, flip: bool, e: Enhancers): (out: Grid<Rgb>)
    ensures !flip ==> out == e.contrast(e.brightness(img, brightness), contrast)
    ensures flip ==> out == ApplyTransforms(Mirror(img), brightness, contrast, false, e)
    decreases flip
  {
    e.contrast(e.brightness(Oriented(img, flip), brightness), contrast)
  }

  /** Flipping twice undoes the flip. */
  lemma FlipTwiceIsIdentity(img: Grid<Rgb>)
    ensures Oriented(Oriented(img, true), true) == img
  {
    MirrorInvolution(img);
  }

  /** The ground truth shown beside the input: mirrored exactly when `flip`
      is set; absent when the mask file does not exist. */
  function GroundTruthView(mask: Option<Grid<nat>>, flip: bool): (view: Option<Grid<nat>>)
    ensures view.Some? <==> mask.Some?
    ensures view.Some? ==> SameShape(view.value, mask.value)
    ensures view.Some? ==> forall y, x :: 0 <= y < |mask.value| && 0 <= x < |mask.value[y]| ==>
              view.value[y][x] == mask.value[y][SourceColumn(|mask.value[y]|, x, flip)]
  {
    match mask
    case None => None
    case Some(m) => Some(Oriented(m, flip))
  }

  /** The input image and its ground truth move every pixel the same way:
      for images of the same shape, the shown pixels at (y, x) come from the
      same source position. */
  lemma FlipKeepsTruthAligned(img: Grid<Rgb>, mask: Grid<nat>, flip: bool)
    requires SameShape(img, mask)
    ensures SameShape(Oriented(img, flip), GroundTruthView(Some(mask), flip).value)
    ensures forall y, x :: 0 <= y < |img| && 0 <= x < |img[y]| ==>
              var c := SourceColumn(|img[y]|, x, flip);
              Oriented(img, flip)[y][x] == img[y][c] && GroundTruthView(Some(mask), flip).value[y][x] == mask[y][c]
  {
  }

  // ---------------------------------------------------------------------------
  // The prediction request
  // ---------------------------------------------------------------------------

  /** The upload the dashboard sends: the transformed image as "image.png"
      with type "image/png". */
  function PredictionUpload(png: seq<Byte>): (u: Api.Upload)
    ensures u.filename == "image.png" && u.contentType == "image/png"
    ensures Api.MajorType(u.contentType) == "image"
    ensures u.contents == png
  {
    var u := Api.Upload("image.png", "image/png", png);
    Api.ImageTypeIsAccepted(u.contentType);
    u
  }

  /** The new prediction a request yields: the colorized mask on a 200 reply,
      and no new prediction otherwise (the column then keeps whatever it
      showed before). */
  function PredictionView(reply: Api.Reply<Api.MaskBody>): (view: Option<Grid<Rgb>>)
    ensures view.Some? <==> Api.StatusCode(reply) == 200
    ensures view.Some? ==> SameShape(view.value, reply.body.mask)
    ensures view.Some? ==> forall y, x :: 0 <= y < |reply.body.mask| && 0 <= x < |reply.body.mask[y]| ==>
              view.value[y][x] == LookupColor(reply.body.mask[y][x], PALETTE)
  {
    if reply.Ok? then Some(ColorizeMask(reply.body.mask)) else None
  }

  /** Against a loaded model, the dashboard never hits the 503 or 400 guard,
      and whenever the mask has at least one pixel the mask it paints is
      exactly the image `/predict_image` returns for the same upload (a mask
      without pixels is a 500 there). */
  lemma DashboardMatchesPredictImage(svc: Api.Service, png: seq<Byte>, pil: Api.Pil)
    requires svc.model.Some?
    ensures var reply := Api.Predict(svc, PredictionUpload(png), pil);
            && Api.StatusCode(reply) in {200, 500}
            && (PredictionView(reply).Some? && Api.HasPixels(reply) ==>
                  Api.PredictImage(svc, PredictionUpload(png), pil) == Api.Ok(PredictionView(reply).value))
            && (PredictionView(reply).Some? && !Api.HasPixels(reply) ==>
                  Api.StatusCode(Api.PredictImage(svc, PredictionUpload(png), pil)) == 500)
  {
    var u := PredictionUpload(png);
    var reply := Api.Predict(svc, u, pil);
    Api.PredictImageAgrees(svc, u, pil);
    if reply.Ok? {
      ColorizeAgreesWithService(reply.body.mask);
    }
  }
}
