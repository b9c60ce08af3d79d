# Background remover page: a Dafny model

The page (`app/page.tsx`) takes one uploaded photograph and produces a PNG
with a transparent background, entirely in the browser. This project models
its logic:

- **Mask construction** (`Mask`): the loop that fills a fresh RGBA
  `ImageData` buffer from the BodyPix segmentation's `data` array. Colour
  bytes become 255. The alpha byte becomes 255 exactly where the value is 1
  and 0 everywhere else. The method allocates an `array<byte>`, runs the
  counting loop with its invariants, and is proved against `MaskImageData`.
- **Source-in compositing** (`Compositing`): `putImageData` of the mask and
  `drawImage` of the photograph with `globalCompositeOperation =
  "source-in"`. This is the Porter-Duff source-in operator, one of the
  operators of section 9.1 ("Porter Duff Operators") of W3C Compositing and
  Blending Level 1, written as a pure per-pixel function. The result has
  alpha = source alpha x mask alpha / 255 and keeps the photograph's colour.
  A browser gives that colour back exactly only where the result alpha is
  255, that is, at an opaque photograph pixel with segmentation value 1.
- **Lazy model initialisation** (`ModelInit`): `ensureNet` is a class over
  the cached refs (`tfModuleRef`, `tfReadyRef`, `bodyPixModuleRef`,
  `netRef`). It tries `setBackend("webgl")` first and `setBackend("cpu")`
  only if that throws. An `InitOracle` says how each awaited library call
  turns out. The method returns the library calls it made, and a pure
  function `EnsureNetSpec` specifies it.
- **Session bookkeeping** (`Session`): `clearObjectUrl` and
  `runBackgroundRemoval` on a `HomePage` class. The class holds the React
  state (`isProcessing`, `error`, `sourceUrl`, `resultUrl`, `fileName`) and
  records of the `URL.createObjectURL` / `URL.revokeObjectURL` calls. Its
  `Valid()` invariant says that at most one object URL is live, and that it is
  the source on display. A `RunOracle` supplies the outcomes of image
  decoding, inference, `getContext` and `toDataURL`. The `buttonLabel` memo is
  also here.
- **File names** (`Naming`): the base name at line 74
  (`name.replace(/\.[^.]+$/, "") || "ali-bg-remover"`) and the
  `downloadFileName` memo. The memo trims the name, turns each whitespace run
  into "-", lower-cases it and appends "-no-bg.png".

`runBackgroundRemoval` revokes the `sourceUrl` and `resultUrl` captured when
the callback was created. In the sequential model these are the state before
the run, so `BeginRun` takes them as parameters. Line 115 revokes that
captured `resultUrl` a second time. The model keeps that second call, and the
`Valid()` invariant shows it never revokes anything, because a result URL is
always a `data:` URL.

## Model

| member | source | states |
|---|---|---|
| `Mask.MaskAlpha` | app/page.tsx:103-107 | The alpha is 255 exactly when the segmentation value is 1, and 0 exactly when it is anything else. |
| `Mask.CreateMaskImageData` | app/page.tsx:99-108 | For a positive width and height, `createImageData` plus the counting loop produce exactly `MaskImageData`: a zeroed buffer of 4·width·height bytes where pixel i < data.length is white with the mask alpha. Stores past the end of the buffer are ignored, as a `Uint8ClampedArray` ignores them. A zero width or height throws in `createImageData`, so the method requires positive ones, and `Session.HomePage.Process` takes the throwing path before the call. |
| `Mask.Store` | app/page.tsx:104-107 | An indexed store changes only that byte when the index is in range, and nothing otherwise. |
| `Mask.MaskImageDataMeaning` | app/page.tsx:99-108 | The buffer has 4·width·height bytes. For each i < data.length, bytes 4i..4i+2 are 255 and byte 4i+3 is 255 iff data[i] == 1 and 0 iff data[i] != 1. Every byte from 4·data.length onward stays 0. |
| `Mask.MaskAlphaIsHard` | app/page.tsx:107 | Every alpha byte of the mask buffer is 0 or 255. |
| `Mask.FillStep` | app/page.tsx:101-108 | One loop iteration turns the buffer after i pixels into the buffer after i+1 pixels, or changes nothing when pixel i lies past the end. |
| `Compositing.MulAlpha` | app/page.tsx:111-112 | The product of two alphas never exceeds either factor. |
| `Compositing.MulAlphaByHardValue` | app/page.tsx:111-112 | Multiplying by an opaque alpha (255) keeps the other alpha, and multiplying by 0 gives 0. |
| `Compositing.SourceIn` | app/page.tsx:110-112 | The source-in alpha is at most the source alpha and at most the destination alpha. |
| `Compositing.SourceInAgainstHardMask` | app/page.tsx:110-112 | Against an opaque mask pixel the source pixel comes through unchanged. Against a transparent one the result is transparent. The mask pixel's colour never matters. |
| `Compositing.Composite` | app/page.tsx:110-112 | Drawing with source-in keeps the canvas size. |
| `Compositing.MaskedImage` | app/page.tsx:99-112 | The canvas after the mask is put and the image is drawn has one pixel per image pixel. |
| `Compositing.MaskedImageAt` | app/page.tsx:99-112 | Result pixel i has the photograph's colour. In a browser that colour survives exactly only where the result alpha is 255, that is, an opaque photograph pixel with data[i] == 1 (see `Compositing.SourceIn` under Left out). Its alpha is the photograph's alpha where data[i] == 1, and 0 elsewhere, including pixels the segmentation does not cover. |
| `Compositing.OpaqueImageGetsHardAlpha` | app/page.tsx:99-112 | For an opaque photograph every result alpha is 0 or 255, and it is 255 exactly where data[i] == 1. |
| `Compositing.NoPersonGivesTransparentImage` | app/page.tsx:99-112 | A segmentation with no value 1 gives a fully transparent result. |
| `Compositing.AllPersonKeepsImage` | app/page.tsx:99-112 | A segmentation that covers every pixel with 1 gives back the photograph: its alpha everywhere, and its colour wherever the photograph is opaque (see `Compositing.SourceIn` under Left out for partial alpha). |
| `ModelInit.SelectBackend` | app/page.tsx:41-45 | "webgl" is always tried first, and "cpu" is tried iff it throws. The backend step fails iff both throw, and then with the cpu error. |
| `ModelInit.EnsureNetKeepsRefsValid` | app/page.tsx:37-61 | Every call keeps the refs consistent. The backend is ready only with tfjs imported, BodyPix is imported only after the backend is ready, and a network exists only with BodyPix imported. |
| `ModelInit.SuccessCachesNet` | app/page.tsx:52-60 | A successful call returns the network now held in `netRef`, with the backend ready and BodyPix imported. |
| `ModelInit.IdempotentAfterSuccess` | app/page.tsx:38-60 | After a successful call, every later call makes no library call and returns the same handle, whatever its library calls would have done. |
| `ModelInit.CpuOnlyAfterWebglFails` | app/page.tsx:41-45 | `setBackend("cpu")` is called iff the backend block runs, both imports resolve and `setBackend("webgl")` throws. It always comes right after the webgl attempt. |
| `ModelInit.BackendStageCpu` | app/page.tsx:41-45 | Within the backend block alone, "cpu" is called iff the block runs, both imports resolve and "webgl" throws, and only right after "webgl". |
| `ModelInit.ReadyOnlyAfterBackendAndReady` | app/page.tsx:38-48 | `tfReadyRef` turns true only after a backend was set without throwing and `ready()` resolved. |
| `ModelInit.BothBackendsFailThenRetry` | app/page.tsx:38-47 | When both backends throw, the call fails with the cpu error after exactly the calls import, import, webgl, cpu. The ready flag stays false and no network exists. The next call starts again from the tfjs import. |
| `ModelInit.ModelManager.constructor` | app/page.tsx:16-19 | The refs start empty: no modules, not ready, no network. |
| `ModelInit.ModelManager.EnsureNet` | app/page.tsx:37-61 | The new refs, the result and the library calls made are exactly those of `EnsureNetSpec` on the old refs. |
| `ModelInit.ModelManager.RunBackendStage` | app/page.tsx:38-48 | The backend block changes the refs, throws and calls the library exactly as `BackendStage` says: nothing once the backend is ready, otherwise the imports, "webgl" with the "cpu" fallback, and `ready()`, stopping at the first throw. |
| `ModelInit.ModelManager.RunBodyPixStage` | app/page.tsx:49-51 | The BodyPix import runs only when it is not cached, and caches it unless it throws, as `BodyPixStage` says. |
| `ModelInit.ModelManager.RunLoadStage` | app/page.tsx:52-59 | `bodyPix.load` with the fixed options runs only when no network is cached, and caches its network unless it throws, as `LoadStage` says. |
| `Naming.LastDot` | app/page.tsx:74 | Returns the index of the last '.' in the name, or -1 exactly when the name has no dot. |
| `Naming.StripExtension` | app/page.tsx:74 | The regex replacement always leaves a prefix of the name. |
| `Naming.StripsLastExtension` | app/page.tsx:74 | A name stem + "." + ext, with ext non-empty and dot-free, becomes exactly stem. |
| `Naming.KeepsNameWithoutExtension` | app/page.tsx:74 | A name without a dot, or one ending in '.', is kept whole. |
| `Naming.StrippedPartIsExtension` | app/page.tsx:74 | Whatever is removed is a '.' followed by a non-empty, dot-free extension. |
| `Naming.BaseName` | app/page.tsx:74 | The stored base name is never empty. It is either "ali-bg-remover" or a prefix of the uploaded name. It is the name without its last extension whenever that is non-empty. |
| `Naming.BaseNameCases` | app/page.tsx:74 | stem + "." + ext gives stem for a non-empty stem and a non-empty, dot-free ext. A bare "." + ext gives "ali-bg-remover". A non-empty name with no dot, or ending in '.', is kept whole. |
| `Naming.TrimStart` | app/page.tsx:153 | Drops exactly the leading whitespace and leaves a suffix that does not start with whitespace. |
| `Naming.TrimEnd` | app/page.tsx:153 | Drops exactly the trailing whitespace and leaves a prefix that does not end with whitespace. |
| `Naming.Trim` | app/page.tsx:153 | `trim()` never lengthens the name, and its result neither starts nor ends with whitespace. `Naming.TrimIsInnerPart` says which part of the name it is. |
| `Naming.TrimIsInnerPart` | app/page.tsx:153 | `trim()` returns the middle of the name between a whitespace prefix and a whitespace suffix. It neither starts nor ends with whitespace. |
| `Naming.HyphenateWhitespace` | app/page.tsx:153 | `replace(/\s+/g, "-")` leaves no whitespace and never lengthens the name. |
| `Naming.HyphenateRun` | app/page.tsx:153 | A non-empty run of whitespace alone becomes exactly one "-". |
| `Naming.HyphenateSplits` | app/page.tsx:153 | Hyphenating a string equals hyphenating its two pieces and joining them, for any split that does not fall inside a whitespace run. With `HyphenateRun` and `HyphenateIdentity` this says each maximal whitespace run becomes one "-" and every other character stays in place. |
| `Naming.HyphenateKeepsVisible` | app/page.tsx:153 | Hyphenation keeps every non-whitespace, non-hyphen character, in order. |
| `Naming.HyphenateIdentity` | app/page.tsx:153 | A name without whitespace is not changed. |
| `Naming.LowerChar` | app/page.tsx:153 | An ASCII capital becomes its own lower-case letter, and any other character is kept, so the result is never an ASCII capital. |
| `Naming.ToLower` | app/page.tsx:153 | `toLowerCase()` keeps the length, turns each ASCII capital into its own lower-case letter at the same position, and keeps every other character. No ASCII capital is left. |
| `Naming.Sanitize` | app/page.tsx:153 | The stem (trim, hyphenate, lower-case) is no longer than the name, has no whitespace and no ASCII capital. `Naming.SanitizeKeepsVisible` and `Naming.SanitizeIdempotent` state the rest. |
| `Naming.SanitizeIdempotent` | app/page.tsx:153 | Trim, hyphenate and lower-case applied to an already sanitized stem change nothing. |
| `Naming.SanitizeKeepsVisible` | app/page.tsx:153 | The sanitized stem keeps the trimmed name's visible characters, lower-cased, in order. |
| `Naming.DownloadFileName` | app/page.tsx:151-154 | The download name never contains whitespace and always ends in ".png". `Naming.DownloadNameShape` says which name is chosen. |
| `Naming.DownloadNameShape` | app/page.tsx:151-154 | The download name has no whitespace and ends in ".png". A missing or empty base name gives "ali-bg-remover.png". Any other gives a name ending in "-no-bg.png" whose stem keeps the base name's visible characters, lower-cased. |
| `Session.ButtonLabel` | app/page.tsx:26-29 | The label is always one of the three texts. `Session.ButtonLabelCases` says when each is shown. |
| `Session.ButtonLabelCases` | app/page.tsx:26-29 | The label is "Removing background…" iff processing. It is "Choose another image" iff not processing and a non-empty source URL is shown. Otherwise it is "Upload image". |
| `Session.RevocationCases` | app/page.tsx:31-35 | A missing URL or a `data:` URL is never revoked. A `blob:` URL always is. |
| `Session.SuccessPublishesMaskedImage` | app/page.tsx:76-114 | A successful run decoded the image, got a network from `ensureNet` and a segmentation from it. The context existed and the image had a positive width and height. It publishes "data:image/png;base64," + the encoding of `MaskedImage`, which `clearObjectUrl` never revokes. |
| `Common.ErrorMessage` | app/page.tsx:118-119 | A thrown `Error` shows its own message. |
| `Common.ErrorMessageCases` | app/page.tsx:118-119 | "Unknown processing error" is shown exactly when the thrown value is not an `Error`, or is an `Error` with that very message. |
| `Session.SizeFailure` | app/page.tsx:99 | The error `createImageData` throws for a zero width or height is an `Error`, and the page shows its message. |
| `Session.ProcessKeepsRefsValid` | app/page.tsx:84 | A run leaves the model refs consistent, as `ensureNet` does. |
| `Session.EarlyFailureMessages` | app/page.tsx:76-99 | A decode failure fails the run with "Failed to load image" and leaves the refs untouched. A missing 2D context fails it with "Canvas context unavailable". With a context, an image of zero width or height fails it with the `IndexSizeError` of `createImageData`. |
| `Session.BackendFailureIsRetried` | app/page.tsx:41-47 | When both backends throw, the run fails with the cpu error and the ready flag stays false. The next run that decodes its image starts the backend setup again from the tfjs import. |
| `Session.UploadDownloadName` | app/page.tsx:74 | For any uploaded file, the stored base name gives a download name ending in "-no-bg.png" and free of whitespace. |
| `Session.DataUrlIsNotBlob` | app/page.tsx:31-35 | A PNG data URL from `toDataURL` never starts with "blob:", so `clearObjectUrl` never revokes a result. |
| `Session.NewSourceKeepsUrlsValid` | app/page.tsx:65-73 | After the previous source and result go through `clearObjectUrl` and a new blob URL becomes the source, the only live object URL is that new source. |
| `Session.PublishKeepsUrlsValid` | app/page.tsx:114-116 | Publishing a URL that is not a blob URL, and revoking more URLs, keeps every created URL except the source revoked. |
| `Session.HomePage.constructor` | app/page.tsx:15-24 | The page starts with no source, no result, no error, no file name, not processing, no object URLs and empty refs. |
| `Session.HomePage.ClearObjectUrl` | app/page.tsx:31-35 | Revokes the URL exactly when it is present and starts with "blob:", and changes nothing else. |
| `Session.HomePage.BeginRun` | app/page.tsx:65-69 | At the start of a run `isProcessing` is true, `error` and `resultUrl` are null, and the previous source and result URLs have been passed to `clearObjectUrl`. |
| `Session.HomePage.RunBackgroundRemoval` | app/page.tsx:63-126 | Keeps `Valid()`: at most one object URL is live and it is the shown source, and the model refs stay consistent. Whatever the outcome, `isProcessing` ends false, the new blob URL is the source and the base name is stored. On success `resultUrl` is the data URL and `error` is null. On failure `error` is the thrown message or "Unknown processing error", and `resultUrl` stays null. Failures include an image of zero width or height, for which `createImageData` throws. The previous source and result were each revoked if they were blobs, and the refs are those of `ProcessSpec`. |
| `Session.HomePage.Process` | app/page.tsx:76-116 | The refs and the outcome are exactly those of `ProcessSpec`, which fails at each step that throws, including `createImageData` for a zero width or height. On success `resultUrl` is set and only the captured result URL is passed to `clearObjectUrl`. On failure neither changes. |

## Left out

- Module imports, `setBackend`, `ready`, `bodyPix.load` and `segmentPerson` are foreign TensorFlow.js / BodyPix code with floating-point numerics. Each is an abstract outcome (resolves or throws) in `InitOracle` / `RunOracle`. The segmentation is an abstract `seq<int>`.
- Image decoding (`onload` / `onerror`) is a browser I/O step, modelled as an optional decoded image. `toDataURL` is modelled as an abstract encoder of the canvas pixels. Whether PNG encoding is lossless is therefore not modelled.
- The text of the `IndexSizeError` that `createImageData` throws is up to the browser, so it is a field of `RunOracle`.
- `URL.createObjectURL` is treated as always succeeding with a fresh `blob:` URL (`WellFormedOracle`), so the model has no path where it throws.
- The canvas APIs (`createElement`, `getContext`, `putImageData`, `drawImage`) are modelled only through their pixel semantics. The canvas has the image's size, and the image is drawn at (0, 0) at its natural size.
- `Compositing.MulAlpha`: rounds the 8-bit alpha product to the nearest value. Browsers store premultiplied colour and round in their own way, so for partial alphas this is an approximation. The mask built here only has alphas 0 and 255, and for those the result is exact.
- `Compositing.SourceIn`: keeps the source colour exactly whatever the alphas. A browser canvas stores 8-bit premultiplied colour through `drawImage` and `toDataURL`. So a pixel whose result alpha is 0 comes back as transparent black. A photograph pixel with 0 < alpha < 255 can come back with a slightly different colour. Only pixels whose result alpha is 255, that is, opaque photograph pixels with segmentation value 1, keep their colour exactly. The model does not track that rounding.
- `Naming.LowerChar`: lower-cases only ASCII A-Z. JavaScript's `toLowerCase` applies the full Unicode case mapping, which is not modelled.
- `Naming.ToLower` and `Naming.Sanitize`: built on `Naming.LowerChar`, so "no capital" means no ASCII capital.
- Strings are sequences of Unicode scalar values, not UTF-16 code units. This makes no difference to the dot, whitespace and ASCII handling modelled here.
- Overlapping runs are not modelled. `handleDrop` does not check `isProcessing`, the code has no sequence-id guard, and two concurrent `ensureNet` calls can each start initialisation. These are async interleavings of a sequential model, and the model gives no guarantee about them.
- Because of that, the callback's captured `sourceUrl` / `resultUrl` are modelled as the state at the start of the run. A stale closure under overlapping runs is not modelled.
- `handleFileInput`, `handleDrop`, `handleDragOver`, the JSX rendering and `app/layout.tsx` are UI plumbing with no logic beyond calling `runBackgroundRemoval`.
- `setBackend` is modelled as succeeding unless it throws, as the code's `try`/`catch` treats it. Its boolean result is ignored, as in the code.
