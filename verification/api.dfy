/**
  The inference service of app/api/main.py: pre-processing of an upload into
  a (1, 224, 224, 3) tensor, argmax post-processing into a class mask,
  palette colorization, and the guard order of the `/`, `/predict` and
  `/predict_image` endpoints.

  The network, PIL decoding and PIL resampling are black boxes handed in as
  function values; only what the service itself decides is modelled.
 */
module Api {
  import opened Options
  import opened Imaging
  import opened Tensors

  const IMG_HEIGHT: nat := 224
  const IMG_WIDTH: nat := 224

  /** The eight Cityscapes category colours, indexed by class. */
  const PALETTE: seq<Rgb> := [
    Rgb(128, 64, 128),  // flat (road)
    Rgb(220, 20, 60),   // human
    Rgb(0, 0, 142),     // vehicle
    Rgb(70, 70, 70),    // construction
    Rgb(220, 220, 0),   // object
    Rgb(107, 142, 35),  // nature
    Rgb(70, 130, 180),  // sky
    Rgb(0, 0, 0)        // void
  ]

  /** The image library: `decode` opens the bytes and converts them to RGB
      (None when the bytes are not a readable image); `resample` gives the
      colour of pixel (row, col) when the image is resized to (width, height). */
  datatype Pil = Pil(
    decode: seq<Byte> -> Option<Grid<Rgb>>,
    resample: (Grid<Rgb>, nat, nat, nat, nat) -> Rgb)

  /** The Keras model's `predict`; None when it raises. */
  type Network = Tensor4 -> Option<Tensor4>

  /** The process-wide `model` global: None until a model has been loaded. */
  datatype Service = Service(model: Option<Network>)

  datatype Upload = Upload(filename: string, contentType: string, contents: seq<Byte>)

  /** A class mask together with its numpy shape (kept even when a side is 0). */
  datatype Mask = Mask(height: nat, width: nat, cells: Grid<nat>)

  // ---------------------------------------------------------------------------
  // preprocess_image
  // ---------------------------------------------------------------------------

  /** PIL's `img.resize((width, height))`: the size is given width first,
      and the result has `height` rows of `width` pixels. */
  function Resize(img: Grid<Rgb>, size: (nat, nat), resample: (Grid<Rgb>, nat, nat, nat, nat) -> Rgb): (out: Grid<Rgb>)
    ensures HasSize(out, size.1, size.0)
    ensures forall y, x :: 0 <= y < size.1 && 0 <= x < size.0 ==>
              out[y][x] == resample(img, size.0, size.1, y, x)
  {
    seq(size.1, y requires 0 <= y < size.1 =>
      seq(size.0, x requires 0 <= x < size.0 => resample(img, size.0, size.1, y, x)))
  }

  /** Division of a byte sample by 255 (float32 rounding is not modelled). */
  function ToUnit(v: Byte): (u: real)
    ensures 0.0 <= u <= 1.0
    ensures u * 255.0 == v as real
  {
    v as real / 255.0
  }

  /** Distinct samples stay distinct after scaling. */
  lemma ToUnitInjective(a: Byte, b: Byte)
    requires ToUnit(a) == ToUnit(b)
    ensures a == b
  {
    assert ToUnit(a) * 255.0 == ToUnit(b) * 255.0;
  }

  function Channels(p: Rgb): (c: seq<real>)
    ensures |c| == 3
    ensures c[0] * 255.0 == p.red as real && c[1] * 255.0 == p.green as real && c[2] * 255.0 == p.blue as real
    ensures forall i :: 0 <= i < 3 ==> 0.0 <= c[i] <= 1.0
  {
    [ToUnit(p.red), ToUnit(p.green), ToUnit(p.blue)]
  }

  /** `np.expand_dims(np.array(img) / 255.0, axis=0)` for an image of the given size. */
  function ToBatch(img: Grid<Rgb>, height: nat, width: nat): (t: Tensor4)
    requires HasSize(img, height, width)
    ensures t.shape == Shape4(1, height, width, 3)
    ensures forall y, x :: 0 <= y < height && 0 <= x < width ==> t.data[0][y][x] == Channels(img[y][x])
  {
    var plane := seq(height, y requires 0 <= y < height =>
                   seq(width, x requires 0 <= x < width => Channels(img[y][x])));
    Array4(Shape4(1, height, width, 3), [plane])
  }

  /** `preprocess_image`: decode, force RGB, resize to 224 x 224, scale to
      [0, 1], add the batch axis. Fails exactly when decoding fails. */
  function Preprocess(bytes: seq<Byte>, pil: Pil): (r: Option<Tensor4>)
    ensures r.Some? <==> pil.decode(bytes).Some?
    ensures r.Some? ==> r.value.shape == Shape4(1, IMG_HEIGHT, IMG_WIDTH, 3)
    ensures r.Some? ==> forall y, x, c :: 0 <= y < IMG_HEIGHT && 0 <= x < IMG_WIDTH && 0 <= c < 3 ==>
              0.0 <= r.value.data[0][y][x][c] <= 1.0
    ensures r.Some? ==> forall y, x :: 0 <= y < IMG_HEIGHT && 0 <= x < IMG_WIDTH ==>
              r.value.data[0][y][x] ==
                Channels(pil.resample(pil.decode(bytes).value, IMG_WIDTH, IMG_HEIGHT, y, x))
  {
    match pil.decode(bytes)
    case None => None
    case Some(img) =>
      Some(ToBatch(Resize(img, (IMG_WIDTH, IMG_HEIGHT), pil.resample), IMG_HEIGHT, IMG_WIDTH))
  }

  // ---------------------------------------------------------------------------
  // postprocess_mask
  // ---------------------------------------------------------------------------

  /** `np.argmax(pred, axis=-1)[0].astype(np.uint8)`. numpy refuses an
      argmax over an empty class axis, and `[0]` fails on an empty batch. */
  function Postprocess(pred: Tensor4): (r: Option<Mask>)
    ensures r.Some? <==> pred.shape.batch > 0 && pred.shape.depth > 0
    ensures r.Some? ==> r.value.height == pred.shape.height && r.value.width == pred.shape.width
    ensures r.Some? ==> HasSize(r.value.cells, r.value.height, r.value.width)
    ensures r.Some? ==> forall y, x, k ::
              (0 <= y < pred.shape.height && 0 <= x < pred.shape.width && IsFirstMax(pred.data[0][y][x], k))
              ==> r.value.cells[y][x] == ToUint8(k)
    ensures r.Some? ==> forall y, x :: 0 <= y < pred.shape.height && 0 <= x < pred.shape.width ==>
              r.value.cells[y][x] < 256
  {
    if pred.shape.batch == 0 || pred.shape.depth == 0 then None
    else
      var s := pred.shape;
      var cells := seq(s.height, y requires 0 <= y < s.height =>
                     seq(s.width, x requires 0 <= x < s.width => ToUint8(Argmax(pred.data[0][y][x]))));
      assert forall y, x, k :: 0 <= y < s.height && 0 <= x < s.width && IsFirstMax(pred.data[0][y][x], k) ==>
        cells[y][x] == ToUint8(k) by {
        forall y, x, k | 0 <= y < s.height && 0 <= x < s.width && IsFirstMax(pred.data[0][y][x], k)
          ensures cells[y][x] == ToUint8(k)
        {
          FirstMaxUnique(pred.data[0][y][x], k, Argmax(pred.data[0][y][x]));
        }
      }
      Some(Mask(s.height, s.width, cells))
  }

  /** With at most 256 classes the cast changes nothing: every cell is the
      first maximal class of its pixel, hence below the class count. */
  lemma PostprocessIsArgmax(pred: Tensor4)
    requires pred.shape.batch > 0 && 0 < pred.shape.depth <= 256
    ensures Postprocess(pred).Some?
    ensures forall y, x :: 0 <= y < pred.shape.height && 0 <= x < pred.shape.width ==>
              IsFirstMax(pred.data[0][y][x], Postprocess(pred).value.cells[y][x])
    ensures forall y, x :: 0 <= y < pred.shape.height && 0 <= x < pred.shape.width ==>
              Postprocess(pred).value.cells[y][x] < pred.shape.depth
  {
    var m := Postprocess(pred).value;
    forall y, x | 0 <= y < pred.shape.height && 0 <= x < pred.shape.width
      ensures IsFirstMax(pred.data[0][y][x], m.cells[y][x])
    {
      var k := Argmax(pred.data[0][y][x]);
      assert m.cells[y][x] == ToUint8(k);
    }
  }

  // ---------------------------------------------------------------------------
  // colorize_mask
  // ---------------------------------------------------------------------------

  /** `colorize_mask`: a pixel of class i in 0..7 becomes PALETTE[i]; any
      other value keeps the zeroed buffer's black. */
  function ColorizeMask(mask: Grid<nat>): (img: Grid<Rgb>)
    ensures SameShape(img, mask)
    ensures forall y, x :: 0 <= y < |mask| && 0 <= x < |mask[y]| && mask[y][x] < |PALETTE| ==>
              img[y][x] == PALETTE[mask[y][x]]
    ensures forall y, x :: 0 <= y < |mask| && 0 <= x < |mask[y]| && mask[y][x] >= |PALETTE| ==>
              img[y][x] == Black
  {
    Colorize(mask, PALETTE)
  }

  /** A class outside the palette cannot be told apart from class 7 (void). */
  lemma OutOfRangeLooksVoid(mask: Grid<nat>, y: nat, x: nat)
    requires y < |mask| && x < |mask[y]| && mask[y][x] >= |PALETTE|
    ensures ColorizeMask(mask)[y][x] == PALETTE[7]
  {
  }

  /** An all-zero mask colours every pixel with the road colour PALETTE[0]. */
  lemma ZeroMaskIsRoad(mask: Grid<nat>)
    requires forall y, x :: 0 <= y < |mask| && 0 <= x < |mask[y]| ==> mask[y][x] == 0
    ensures forall y, x :: 0 <= y < |mask| && 0 <= x < |mask[y]| ==> ColorizeMask(mask)[y][x] == PALETTE[0]
  {
  }

  // ---------------------------------------------------------------------------
  // Endpoints
  // ---------------------------------------------------------------------------

  /** Python's `content_type.split("/")[0]`: the text before the first '/'. */
  function MajorType(contentType: string): (t: string)
    ensures t <= contentType
    ensures '/' !in t
    ensures |t| < |contentType| ==> contentType[|t|] == '/'
  {
    if |contentType| == 0 || contentType[0] == '/' then ""
    else [contentType[0]] + MajorType(contentType[1..])
  }

  /** `MajorType` is determined by its contract: a slash-free prefix that
      stops at the end or at a '/' is the split's first part. */
  lemma {:induction false} MajorTypeIsPrefix(contentType: string, p: string)
    requires p <= contentType && '/' !in p
    requires |p| < |contentType| ==> contentType[|p|] == '/'
    ensures MajorType(contentType) == p
    decreases |p|
  {
    if |p| > 0 {
      assert contentType[0] == p[0];
      MajorTypeIsPrefix(contentType[1..], p[1..]);
      assert [p[0]] + p[1..] == p;
    }
  }

  /** The content types the guard is meant to let through. */
  predicate IsImageType(contentType: string) {
    contentType == "image" || (|contentType| >= 6 && contentType[..6] == "image/")
  }

  /** A type whose first part is "image" is "image" itself or starts with "image/". */
  lemma AcceptedTypeIsImage(contentType: string)
    requires MajorType(contentType) == "image"
    ensures IsImageType(contentType)
  {
    assert contentType[..5] == "image";
    if |contentType| == 5 {
      assert contentType == contentType[..5];
    } else {
      assert contentType[5] == '/';
      assert contentType[..6] == contentType[..5] + [contentType[5]];
    }
  }

  /** "image" and every type starting with "image/" pass the guard. */
  lemma ImageTypeIsAccepted(contentType: string)
    requires IsImageType(contentType)
    ensures MajorType(contentType) == "image"
  {
    var p := "image";
    if |contentType| >= 6 {
      assert contentType[..5] == contentType[..6][..5];
    }
    assert contentType[..5] == p;
    assert '/' !in p;
    MajorTypeIsPrefix(contentType, p);
  }

  /** The 400 guard lets through exactly "image" and the types starting with
      "image/"; the comparison is case-sensitive. */
  lemma AcceptsImageTypes(contentType: string)
    ensures MajorType(contentType) == "image" <==> IsImageType(contentType)
  {
    if MajorType(contentType) == "image" {
      AcceptedTypeIsImage(contentType);
    }
    if IsImageType(contentType) {
      ImageTypeIsAccepted(contentType);
    }
  }

  /** The guard compares case-sensitively: "Image/png" is refused. */
  lemma CapitalisedImageRefused()
    ensures MajorType("Image/png") != "image"
  {
    assert MajorType("Image/png")[0] == 'I';
  }

  datatype RootStatus = RootStatus(status: string, modelLoaded: bool)

  /** `GET /`. */
  function ReadRoot(svc: Service): (r: RootStatus)
    ensures r.modelLoaded <==> svc.model.Some?
    ensures r.status == "API is running"
  {
    RootStatus("API is running", svc.model.Some?)
  }

  /** The outcome of a POST endpoint; `Ok` carries the 200 body. */
  datatype Reply<T> = Unavailable | NotAnImage | Failed | Ok(body: T)

  function StatusCode<T>(r: Reply<T>): nat {
    match r
    case Unavailable => 503
    case NotAnImage => 400
    case Failed => 500
    case Ok(_) => 200
  }

  /** The shared try-block: pre-process, run the network, post-process. */
  function Segment(net: Network, bytes: seq<Byte>, pil: Pil): (r: Option<Mask>)
    ensures r.Some? <==>
              && Preprocess(bytes, pil).Some?
              && net(Preprocess(bytes, pil).value).Some?
              && Postprocess(net(Preprocess(bytes, pil).value).value).Some?
    ensures r.Some? ==>
              var pred := net(Preprocess(bytes, pil).value).value;
              && r.value.height == pred.shape.height && r.value.width == pred.shape.width
              && HasSize(r.value.cells, r.value.height, r.value.width)
              && forall y, x, k ::
                   (0 <= y < pred.shape.height && 0 <= x < pred.shape.width && IsFirstMax(pred.data[0][y][x], k))
                   ==> r.value.cells[y][x] == ToUint8(k)
  {
    match Preprocess(bytes, pil)
    case None => None
    case Some(input) =>
      match net(input)
      case None => None
      case Some(pred) => Postprocess(pred)
  }

  datatype MaskBody = MaskBody(filename: string, mask: Grid<nat>, shape: (nat, nat))

  /** `POST /predict`: 503 without a model, whatever the upload; then 400
      for a non-image type; then 500 when the pipeline raises; otherwise
      the mask with its shape. */
  function Predict(svc: Service, upload: Upload, pil: Pil): (r: Reply<MaskBody>)
    ensures svc.model.None? ==> r == Unavailable
    ensures svc.model.Some? && MajorType(upload.contentType) != "image" ==> r == NotAnImage
    ensures svc.model.Some? && MajorType(upload.contentType) == "image" ==>
              (r.Failed? <==> Segment(svc.model.value, upload.contents, pil).None?)
    ensures (svc.model.Some? && MajorType(upload.contentType) == "image" &&
             Segment(svc.model.value, upload.contents, pil).Some?) ==> r.Ok?
    ensures r.Ok? ==> r.body.filename == upload.filename
    ensures r.Ok? ==> HasSize(r.body.mask, r.body.shape.0, r.body.shape.1)
    ensures r.Ok? ==>
              var pred := svc.model.value(Preprocess(upload.contents, pil).value).value;
              && r.body.shape == (pred.shape.height, pred.shape.width)
              && forall y, x, k ::
                   (0 <= y < r.body.shape.0 && 0 <= x < r.body.shape.1 && IsFirstMax(pred.data[0][y][x], k))
                   ==> r.body.mask[y][x] == ToUint8(k)
  {
    match svc.model
    case None => Unavailable
    case Some(net) =>
      if MajorType(upload.contentType) != "image" then NotAnImage
      else
        match Segment(net, upload.contents, pil)
        case None => Failed
        case Some(m) => Ok(MaskBody(upload.filename, m.cells, (m.height, m.width)))
  }

  /** PIL's PNG encoder refuses an image without pixels (its tile would be
      empty); the error is raised inside the try-block. */
  predicate Encodable(m: Mask)
  {
    m.height > 0 && m.width > 0
  }

  /** `POST /predict_image`: the same guards and pipeline, then the mask is
      colorized and encoded as PNG. The encoded bytes are not modelled: the
      reply holds the painted grid, and the encoding fails (500) exactly on
      a mask without pixels. */
  function PredictImage(svc: Service, upload: Upload, pil: Pil): (r: Reply<Grid<Rgb>>)
    ensures svc.model.None? ==> r == Unavailable
    ensures svc.model.Some? && MajorType(upload.contentType) != "image" ==> r == NotAnImage
    ensures svc.model.Some? && MajorType(upload.contentType) == "image" ==>
              (r.Failed? <==> Segment(svc.model.value, upload.contents, pil).None? ||
                              !Encodable(Segment(svc.model.value, upload.contents, pil).value))
    ensures (svc.model.Some? && MajorType(upload.contentType) == "image" &&
             Segment(svc.model.value, upload.contents, pil).Some? &&
             Encodable(Segment(svc.model.value, upload.contents, pil).value)) ==> r.Ok?
    ensures r.Ok? ==>
              var pred := svc.model.value(Preprocess(upload.contents, pil).value).value;
              && HasSize(r.body, pred.shape.height, pred.shape.width)
              && forall y, x, k ::
                   (0 <= y < pred.shape.height && 0 <= x < pred.shape.width && IsFirstMax(pred.data[0][y][x], k))
                   ==> r.body[y][x] == LookupColor(ToUint8(k), PALETTE)
  {
    match svc.model
    case None => Unavailable
    case Some(net) =>
      if MajorType(upload.contentType) != "image" then NotAnImage
      else
        match Segment(net, upload.contents, pil)
        case None => Failed
        case Some(m) => if Encodable(m) then Ok(ColorizeMask(m.cells)) else Failed
  }

  /** The status code of `/predict` in each case of the guard order. */
  lemma PredictStatus(svc: Service, upload: Upload, pil: Pil)
    ensures StatusCode(Predict(svc, upload, pil)) == 503 <==> svc.model.None?
    ensures StatusCode(Predict(svc, upload, pil)) == 400 <==>
              svc.model.Some? && MajorType(upload.contentType) != "image"
    ensures StatusCode(Predict(svc, upload, pil)) == 500 <==>
              svc.model.Some? && MajorType(upload.contentType) == "image" &&
              Segment(svc.model.value, upload.contents, pil).None?
    ensures StatusCode(Predict(svc, upload, pil)) == 200 <==>
              svc.model.Some? && MajorType(upload.contentType) == "image" &&
              Segment(svc.model.value, upload.contents, pil).Some?
  {
  }

  /** A `/predict` reply with at least one pixel. */
  predicate HasPixels(r: Reply<MaskBody>)
  {
    r.Ok? ==> r.body.shape.0 > 0 && r.body.shape.1 > 0
  }

  /** `/predict_image` answers with the same status as `/predict` whenever
      the mask has at least one pixel, and then its image is the
      colorization of `/predict`'s mask; a mask without pixels is a 200 from
      `/predict` but a 500 from `/predict_image`. */
  lemma PredictImageAgrees(svc: Service, upload: Upload, pil: Pil)
    ensures HasPixels(Predict(svc, upload, pil)) ==>
              StatusCode(PredictImage(svc, upload, pil)) == StatusCode(Predict(svc, upload, pil))
    ensures !HasPixels(Predict(svc, upload, pil)) ==>
              StatusCode(Predict(svc, upload, pil)) == 200 && StatusCode(PredictImage(svc, upload, pil)) == 500
    ensures Predict(svc, upload, pil).Ok? && HasPixels(Predict(svc, upload, pil)) ==>
              PredictImage(svc, upload, pil) == Ok(ColorizeMask(Predict(svc, upload, pil).body.mask))
  {
  }

  /** A ready service, an image upload the library can read, and a network
      answering with an 8-class 224 x 224 prediction: the reply is a
      224 x 224 mask whose values are classes 0..7. */
  lemma ReadyServiceAnswersMask(svc: Service, upload: Upload, pil: Pil)
    requires svc.model.Some?
    requires upload.contentType == "image/jpeg"
    requires pil.decode(upload.contents).Some?
    requires var out := svc.model.value(Preprocess(upload.contents, pil).value);
             out.Some? && out.value.shape == Shape4(1, IMG_HEIGHT, IMG_WIDTH, |PALETTE|)
    ensures Predict(svc, upload, pil).Ok?
    ensures Predict(svc, upload, pil).body.shape == (IMG_HEIGHT, IMG_WIDTH)
    ensures forall y, x :: 0 <= y < IMG_HEIGHT && 0 <= x < IMG_WIDTH ==>
              Predict(svc, upload, pil).body.mask[y][x] < |PALETTE|
  {
    ImageTypeIsAccepted(upload.contentType);
    var pred := svc.model.value(Preprocess(upload.contents, pil).value).value;
    PostprocessIsArgmax(pred);
  }
}
