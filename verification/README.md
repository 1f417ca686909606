# Segmentation demo: inference service and dashboard rules

This project is a Dafny model of the small deterministic core of a
semantic-segmentation demo for Cityscapes street scenes. The demo has two parts.

- **The inference service** (`app/api/main.py`) loads a Keras network once.
  `POST /predict` turns an uploaded image into a 224 x 224 grid of class
  indices. `POST /predict_image` turns it into the same grid painted with
  the 8-colour Cityscapes palette. `GET /` reports whether the model is loaded.
- **The dashboard** (`app/ui/app.py`) lists the sample IDs found in a
  directory of `*_leftImg8bit.png` files. It can mirror the selected image,
  and it mirrors the ground-truth mask along with it. It sends the image to
  the service and paints the mask that comes back.

The network, PIL's decoding and resampling, and PIL's enhancers are opaque.
The model takes them as function values:

- `Api.Network` is the network's `predict`. `None` stands for an exception.
- `Api.Pil` holds `decode` and `resample`.
- `Dashboard.Enhancers` holds the brightness and contrast enhancers.

Everything the repository decides itself is modelled as pure functions. That
covers the tensor shapes, the [0, 1] scaling, numpy's first-maximum argmax,
the `uint8` cast, the palette loop, the guard order of the endpoints, Python's
`split("/")[0]`, `str.replace`, `endswith` and `sorted`, `os.path.join`, and
the mirror.

Modules:

- `Options` is the optional value that stands for an exception or a missing object.
- `Imaging` holds bytes, RGB colours and pixel grids. It also holds the
  mirror and the palette colorization, written as the source's loop over
  palette entries and proved equal to direct lookup with a black fallback.
- `Tensors` holds 4-axis numpy arrays (a subset type of rectangular data),
  the first-maximum argmax and the `uint8` cast.
- `Api` models the service: pre-processing, post-processing,
  colorization, `GET /`, `/predict` and `/predict_image`.
- `SampleIds` models the dashboard's file-name rules: sample IDs,
  rebuilt file names and the sorted ID list.
- `Dashboard` models the rest of the dashboard: its palette and legend,
  the sample paths, the flip, the ground-truth view, and the request
  together with its reply.

Behaviour of the code worth knowing:

- The content-type guard compares the text before the first `/` with
  `image`. The bare type `image` is therefore accepted, not only types
  starting with `image/` (`Api.AcceptsImageTypes`).
- A mask value outside the palette is not rejected. It stays black, exactly
  like class 7 "void" (`Api.OutOfRangeLooksVoid`).
- A failed model load leaves the same state as no load (`model` is None).
- The dashboard's transform is mirror, then brightness, then contrast
  (app/ui/app.py:50-61).
- A network output with zero height or zero width is a 200 with an empty
  mask from `/predict`, but a 500 from `/predict_image`, whose PNG encoding
  of the empty image raises inside the try-block (`Api.PredictImageAgrees`).

An edge case the model exposes: a file named exactly `_leftImg8bit.png` yields
the ID `""`. That ID sorts first, so it is the default selection, and Python
treats it as false in `if selected_id:`. The dashboard then shows nothing
(`Dashboard.EmptyIdSelectsNothing`).

## Model

| member | source | states |
|---|---|---|
| `Imaging.Mirror` | app/ui/app.py:52-53 | The mirror keeps every row's length. Pixel (y, x) of the result is pixel (y, w-1-x) of the input. |
| `Imaging.MirrorInvolution` | app/ui/app.py:52-53 | Mirroring twice gives back the original grid exactly. |
| `Imaging.PaintClasses` | app/api/main.py:108-112 | After the loop has handled palette entries 0..n-1, a pixel of class v holds `palette[v]` when v < n and black otherwise. This is the invariant of the zero-buffer-then-paint loop. |
| `Imaging.Colorize` | app/api/main.py:107-114 | The painted image has the mask's shape. Every pixel is the direct palette lookup of its class, or black when the class is outside the palette. |
| `Tensors.Argmax` | app/api/main.py:95 | The index returned is a maximal score. Every earlier score is strictly smaller, so ties go to the first maximum. |
| `Tensors.FirstMaxUnique` | app/api/main.py:95 | At most one index has the first-maximum property, so argmax is determined by it. |
| `Tensors.ToUint8` | app/api/main.py:100 | The cast result is a byte congruent to the index modulo 256. An index below 256 is unchanged. |
| `Api.Resize` | app/api/main.py:79 | A resize to (width, height) gives `height` rows of `width` pixels. Each pixel is the resampler's colour for that position. |
| `Api.ToUnit` | app/api/main.py:82 | A byte sample v becomes a value in [0, 1] whose product with 255 is v. |
| `Api.ToUnitInjective` | app/api/main.py:82 | Distinct byte samples give distinct normalised values. |
| `Api.Preprocess` | app/api/main.py:68-87 | Pre-processing fails exactly when decoding fails. On success the tensor has shape (1, 224, 224, 3), every sample lies in [0, 1], and each pixel holds the scaled channels of the resized image. |
| `Api.Postprocess` | app/api/main.py:89-100 | It fails exactly on an empty batch or an empty class axis. Otherwise the mask has the prediction's height and width, and each cell is the uint8 cast of the pixel's first-maximum class. |
| `Api.PostprocessIsArgmax` | app/api/main.py:93-100 | With 1 to 256 classes, each cell is the first-maximum class itself, and it is below the class count. |
| `Api.ColorizeMask` | app/api/main.py:102-114 | The service's colorization keeps the mask's shape. Class i in 0..7 becomes `PALETTE[i]`, and any larger value becomes black. |
| `Api.OutOfRangeLooksVoid` | app/api/main.py:56-65 | A value outside the palette is painted the same colour as class 7, void. |
| `Api.ZeroMaskIsRoad` | app/api/main.py:108-112 | An all-zero mask is painted entirely with `PALETTE[0]`. |
| `Api.MajorType` | app/api/main.py:130 | The split's first part is a prefix of the content type with no '/'. It stops at the end or at a '/'. |
| `Api.MajorTypeIsPrefix` | app/api/main.py:130 | Any prefix with that property is the first part. |
| `Api.AcceptedTypeIsImage` | app/api/main.py:130 | A content type that passes the 400 guard is `image` or starts with `image/`. |
| `Api.ImageTypeIsAccepted` | app/api/main.py:130 | `image` and every content type starting with `image/` pass the 400 guard. |
| `Api.AcceptsImageTypes` | app/api/main.py:130 | The 400 guard passes a content type if and only if it is `image` or starts with `image/`. |
| `Api.CapitalisedImageRefused` | app/api/main.py:130 | The comparison is case-sensitive: `Image/png` is refused. |
| `Api.ReadRoot` | app/api/main.py:117-119 | `model_loaded` is true exactly when a model is present. |
| `Api.Segment` | app/api/main.py:133-144 | The try-block succeeds exactly when decoding, the network and post-processing all succeed. The mask then has the network output's height and width, and each cell is the uint8 cast of that pixel's first-maximum class. |
| `Api.Predict` | app/api/main.py:121-154 | Without a model the reply is 503, whatever the upload. With a model, a non-image type gives 400. Otherwise it fails (500) exactly when the pipeline fails, and succeeds (200) exactly when the pipeline succeeds. A success carries the filename and the network output's spatial shape. Its mask has that shape, and each cell is the uint8 cast of the first-maximum class of the network's scores for that pixel. |
| `Api.PredictImage` | app/api/main.py:158-194 | `/predict_image` has the same guard order. Past the guards it fails (500) exactly when the pipeline fails or the mask has no pixels (PNG encoding raises), and succeeds otherwise. On success the image has the network output's height and width. Each pixel is the palette colour of the uint8 cast of that pixel's first-maximum class. |
| `Api.PredictStatus` | app/api/main.py:127-154 | Each status code 503, 400, 500 and 200 is given exactly under its guard condition. |
| `Api.PredictImageAgrees` | app/api/main.py:147-194 | Whenever the mask has at least one pixel, `/predict_image` has the same status as `/predict`, and on success its image is the colorization of `/predict`'s mask. A mask without pixels is a 200 from `/predict` and a 500 from `/predict_image`. |
| `Api.ReadyServiceAnswersMask` | app/api/main.py:121-151 | Take a loaded model, an `image/jpeg` upload that decodes, and a network that answers (1, 224, 224, 8). The reply is then a 224 x 224 mask with values in 0..7. |
| `SampleIds.RemoveTag` | app/ui/app.py:47 | Deleting every `_leftImg8bit.png` never lengthens the name. The result equals the name if and only if the name has no occurrence. |
| `SampleIds.RemoveTagSplit` | app/ui/app.py:47 | On `x + "_leftImg8bit.png" + y`, the result is the result on `x` followed by the result on `y`. With the identity on names without an occurrence, this fixes the result on every name: every occurrence is deleted. |
| `SampleIds.RemoveTagAppend` | app/ui/app.py:47 | Appending the suffix to a name does not change what `replace` leaves. |
| `SampleIds.SampleId` | app/ui/app.py:47 | An ID is never longer than its file name. It equals the file name exactly when the name has no suffix occurrence. |
| `SampleIds.ImageFileName` | app/ui/app.py:213 | The rebuilt image file name starts with the ID and ends with `_leftImg8bit.png`. |
| `SampleIds.MaskFileName` | app/ui/app.py:214 | The ground-truth file name starts with the ID and ends with `_gtFine_labelIds.png`. |
| `SampleIds.MaskFileNameInjective` | app/ui/app.py:214 | Different IDs never share a ground-truth file. |
| `SampleIds.RoundTrip` | app/ui/app.py:213 | Rebuilding the image name from a scanned name's ID (line 47) gives the scanned name back if and only if it is `x + "_leftImg8bit.png"` and `x` has no occurrence of that suffix. |
| `SampleIds.UntaggedNameDoesNotRoundTrip` | app/ui/app.py:46-47 | A `.png` name without the suffix is its own ID, and the rebuilt image name differs from it. |
| `SampleIds.Sort` | app/ui/app.py:48 | The sorted IDs are in Python string order and are a permutation of the input. |
| `SampleIds.SortedPermutationUnique` | app/ui/app.py:48 | Two sorted permutations of the same strings are equal. |
| `SampleIds.PngNames` | app/ui/app.py:46 | The kept names are the listed names ending in `.png`, each with its multiplicity in the listing. No other name is kept. |
| `SampleIds.PngIds` | app/ui/app.py:46-47 | There is one ID per kept `.png` name, and ID i is the ID of kept name i. An ID is produced if and only if some listed name ends in `.png` and has that ID. |
| `SampleIds.LoadLocalImages` | app/ui/app.py:42-48 | A missing directory gives no IDs. Otherwise the IDs are sorted and, with multiplicity, are the IDs of the `.png` names. |
| `SampleIds.LoadLocalImagesIsSortedOrder` | app/ui/app.py:48 | The ID list equals every sorted permutation of the scanned IDs, which is what Python's `sorted` returns. |
| `Dashboard.ColorizeMask` | app/ui/app.py:32-40 | The dashboard's colorization keeps the mask's shape. Class i in 0..7 becomes `PALETTE[i]`, and any other value stays black. |
| `Dashboard.ColorizeAgreesWithService` | app/ui/app.py:17-26 | The dashboard's palette equals the service's palette, so both colorizations agree on every mask. |
| `Dashboard.Legend` | app/ui/app.py:299-300 | There is one legend entry per label, and `LABELS` and `PALETTE` both have 8 entries. Entry i shows label i with the colour class i is painted with. |
| `Dashboard.Join` | app/ui/app.py:213 | An absolute second part replaces the path. Otherwise the path is the directory, then the file name, with exactly one `/` between them. The `/` is left out when the directory is empty or already ends in `/`. |
| `Dashboard.DefaultSelection` | app/ui/app.py:192-197 | Nothing is selected exactly when no ID was found. Otherwise the default selection is one of the IDs, and when the ID list is sorted (as `load_local_images` returns it) it is below or equal to every ID, so it is the smallest. |
| `Dashboard.PathsFor` | app/ui/app.py:212-214 | Paths are built exactly when the selected ID is present and non-empty. For an ID that does not start with `/`, they are the image directory, `/` and the image file name, and the mask directory, `/` and the mask file name. |
| `Dashboard.EmptyIdSelectsNothing` | app/ui/app.py:192-212 | When the listing holds a file named exactly `_leftImg8bit.png`, the default selection is the empty ID, and the dashboard builds no paths for it. |
| `Dashboard.ScannedImageReopens` | app/ui/app.py:213 | A scanned `x + "_leftImg8bit.png"` with a non-empty, suffix-free `x` reopens the same file. |
| `Dashboard.ApplyTransforms` | app/ui/app.py:50-61 | Without flip, brightness is applied and then contrast. With flip, the mirror comes before brightness and contrast: the result is the unflipped transform of the mirrored image. |
| `Dashboard.FlipTwiceIsIdentity` | app/ui/app.py:52-53 | Flipping twice returns the original image. |
| `Dashboard.GroundTruthView` | app/ui/app.py:222-227 | The ground truth is shown exactly when its file exists. Its pixel (y, x) comes from the column mirrored exactly when `flip` is set. |
| `Dashboard.FlipKeepsTruthAligned` | app/ui/app.py:225-226 | For an image and mask of the same shape, the mirrored input (before brightness and contrast) and the shown ground truth take each pixel from the same source position. |
| `Dashboard.PredictionUpload` | app/ui/app.py:242 | The dashboard's upload is named `image.png`, typed `image/png`, carries the given bytes, and passes the service's 400 guard. |
| `Dashboard.PredictionView` | app/ui/app.py:245-250 | A new prediction is painted exactly on a 200 reply (a zero-row mask, on which the dashboard's colorization raises, is not modelled). It has the reply mask's shape, and each pixel is the palette colour of that mask cell. |
| `Dashboard.DashboardMatchesPredictImage` | app/ui/app.py:242-250 | Against a loaded model the dashboard gets only 200 or 500. Whenever the mask has at least one pixel, the mask it paints equals `/predict_image`'s image for the same upload; for a mask without pixels `/predict_image` answers 500. |

## Left out

- Loading the Keras model at startup (existence check, `load_model`, printing). This is file I/O and a foreign call. The service state is just "model present or absent".
- The network itself. It is an opaque function from tensors to an optional tensor.
- PIL decoding, RGB conversion and resampling. They are library internals. Decoding is a black box that may fail, and resampling is a black-box colour function. Only the resized shape is modelled.
- Api.ToUnit: uses exact real division, not float32 division with rounding, because floating-point numerics are not modelled.
- Tensors.Argmax: scores are reals. numpy's NaN handling, where the first NaN wins, is not modelled.
- Api.PredictImage: returns the painted grid, not PNG bytes. Of the PNG encoder only its refusal of an image without pixels is modelled; the encoded bytes are not.
- Api.Predict: does not model the `detail` text of the HTTP errors or JSON serialisation. An upload whose content type is absent (an exception outside the try-block) is not modelled. The content type is always a string.
- FastAPI routing, CORS, multipart parsing, `file.read()` and `uvicorn`. These are HTTP plumbing.
- Brightness and contrast enhancement. These are floating-point image numerics, and they are black boxes in `Dashboard.Enhancers`.
- Dashboard.ColorizeMask: works on a grid of naturals. The dashboard's `np.array(..., dtype=np.uint8)` conversion of the JSON mask is not modelled, because service masks already hold bytes. A zero-row mask, which numpy reads as one-dimensional, is not modelled either.
- Dashboard.PredictionView: gives only the new prediction of one request. The session state is not modelled. After a non-200 reply or a failed request, the column keeps the previous prediction (app/ui/app.py:209-210, 256-258, 283-284). That prediction may belong to another image or to the other flip orientation. A 200 reply with a zero-row mask also paints nothing in the source, because the colorization raises (app/ui/app.py:34, caught at 259), while the model paints an empty grid.
- The nearest-neighbour resize of the painted prediction to the input's size (app/ui/app.py:254). It is a PIL call.
- Streamlit layout, session state, CSS, the HTML legend string, `requests.post` and its error messages. These are presentation and I/O. Directory existence and `os.listdir` contents are inputs of `SampleIds.LoadLocalImages`.
