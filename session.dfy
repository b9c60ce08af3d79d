/** The page's processing session: the state `runBackgroundRemoval` sets
    (`isProcessing`, `error`, `sourceUrl`, `resultUrl`, `fileName`), the
    object URLs it creates and revokes, and the run itself, from the upload to
    the published PNG or the recorded error. Image decoding, inference, the
    canvas and PNG encoding are abstract steps supplied by a `RunOracle`. */
module Session {
  import opened Common
  import opened Naming
  import opened Mask
  import opened Compositing
  import opened ModelInit

  /** An uploaded file; only its name matters to the page's logic. */
  datatype File = File(name: string)

  // ---------------------------------------------------------------------
  // Button label
  // ---------------------------------------------------------------------

  const ProcessingLabel := "Removing background\U{2026}"
  const ChooseAnotherLabel := "Choose another image"
  const UploadLabel := "Upload image"

  /** The `buttonLabel` memo; a source URL counts only when it is a
      non-empty string (JavaScript truthiness). */
  function ButtonLabel(isProcessing: bool, sourceUrl: Option<string>): (text: string)
    ensures text == ProcessingLabel || text == ChooseAnotherLabel || text == UploadLabel
  {
    if isProcessing then ProcessingLabel
    else if sourceUrl.Some? && sourceUrl.value != [] then ChooseAnotherLabel
    else UploadLabel
  }

  /** The label says "processing" exactly while a run is in progress, and
      otherwise offers another image exactly when a source is shown. */
  lemma ButtonLabelCases(isProcessing: bool, sourceUrl: Option<string>)
    ensures ButtonLabel(isProcessing, sourceUrl) == ProcessingLabel <==> isProcessing
    ensures ButtonLabel(isProcessing, sourceUrl) == ChooseAnotherLabel
            <==> !isProcessing && sourceUrl.Some? && sourceUrl.value != []
    ensures ButtonLabel(isProcessing, sourceUrl) in {ProcessingLabel, ChooseAnotherLabel, UploadLabel}
  {
    assert ProcessingLabel[0] != ChooseAnotherLabel[0];
    assert UploadLabel[0] != ChooseAnotherLabel[0];
  }

  // ---------------------------------------------------------------------
  // Object URLs
  // ---------------------------------------------------------------------

  const BlobScheme := "blob:"
  const PngDataUrlPrefix := "data:image/png;base64,"

  /** The guard of `clearObjectUrl`: a present URL that starts with "blob:". */
  predicate Revocable(url: Option<string>)
  {
    url.Some? && IsPrefix(BlobScheme, url.value)
  }

  /** The `URL.revokeObjectURL` calls one `clearObjectUrl(url)` makes. */
  function Revocations(url: Option<string>): (urls: seq<string>)
  {
    if Revocable(url) then [url.value] else []
  }

  /** Neither a missing URL nor a data URL (such as the PNG result) is ever
      revoked; a blob URL always is. */
  lemma RevocationCases(url: Option<string>)
    ensures url.None? ==> Revocations(url) == []
    ensures url.Some? && IsPrefix("data:", url.value) ==> Revocations(url) == []
    ensures url.Some? && IsPrefix(BlobScheme, url.value) ==> Revocations(url) == [url.value]
  {
    if url.Some? && IsPrefix("data:", url.value) {
      assert url.value[0] == 'd';
    }
  }

  // ---------------------------------------------------------------------
  // One run
  // ---------------------------------------------------------------------

  /** The options passed to `segmentPerson`. */
  datatype SegmentationConfig = SegmentationConfig(internalResolution: string, segmentationThreshold: real)

  const SegmentConfig := SegmentationConfig("medium", 0.7)

  const DecodeFailure := ErrorObject("Failed to load image")
  const ContextFailure := ErrorObject("Canvas context unavailable")

  /** The `IndexSizeError` `DOMException` of `createImageData(0, h)` or
      `createImageData(w, 0)`. A `DOMException` is an `Error`, so its message
      reaches the page. */
  function SizeFailure(o: RunOracle): (t: Thrown)
    ensures t.ErrorObject? && ErrorMessage(t) == o.sizeErrorMessage
  {
    ErrorObject(o.sizeErrorMessage)
  }

  /** The outcomes of the browser and library calls one run makes:
      `createObjectURL`'s URL, the image decode (`onload` with the image or
      `onerror`), the calls inside `ensureNet`, `segmentPerson` (given the
      network, the image and the options), whether `getContext("2d")` gives a
      context, the message of the `IndexSizeError` that `createImageData`
      throws for a zero width or height (its text is up to the browser), and
      `toDataURL("image/png")` on the canvas pixels (the base64 payload, or
      what it throws). */
  datatype RunOracle = RunOracle(
    objectUrl: string,
    decoded: Option<Image>,
    init: InitOracle,
    segment: (Net, Image, SegmentationConfig) -> Result<seq<int>, Thrown>,
    hasContext: bool,
    sizeErrorMessage: string,
    encode: seq<Rgba> -> Result<string, Thrown>)

  /** What the browser guarantees of a run's oracle: `createObjectURL` gives
      a new blob URL, and a decoded image has a pixel for every position. */
  predicate WellFormedOracle(o: RunOracle, created: seq<string>)
  {
    && IsPrefix(BlobScheme, o.objectUrl)
    && o.objectUrl !in created
    && (o.decoded.Some? ==> o.decoded.value.Valid())
  }

  /** The awaited part of the `try` block (lines 76-114): the refs after it
      and the result URL or the error that escaped. */
  function ProcessSpec(refs: Refs, o: RunOracle): (after: (Refs, Result<string, Thrown>))
    requires o.decoded.Some? ==> o.decoded.value.Valid()
  {
    if o.decoded.None? then (refs, Err(DecodeFailure))
    else
      var img := o.decoded.value;
      var init := EnsureNetSpec(refs, o.init);
      if init.result.Err? then (init.refs, Err(init.result.error))
      else
        var segmentation := o.segment(init.result.value, img, SegmentConfig);
        if segmentation.Err? then (init.refs, Err(segmentation.error))
        else if !o.hasContext then (init.refs, Err(ContextFailure))
        else if img.width == 0 || img.height == 0 then (init.refs, Err(SizeFailure(o)))
        else
          var encoded := o.encode(MaskedImage(img, segmentation.value));
          if encoded.Err? then (init.refs, Err(encoded.error))
          else (init.refs, Ok(PngDataUrlPrefix + encoded.value))
  }

  /** A successful run publishes a PNG data URL of the masked image, built
      with the network `ensureNet` returned; its pixels carry the photograph's
      colour and are transparent wherever the segmentation is not 1. */
  lemma SuccessPublishesMaskedImage(refs: Refs, o: RunOracle)
    requires o.decoded.Some? ==> o.decoded.value.Valid()
    ensures var (_, outcome) := ProcessSpec(refs, o);
            outcome.Ok? ==>
              && o.decoded.Some?
              && var img, init := o.decoded.value, EnsureNetSpec(refs, o.init);
              && init.result.Ok?
              && var segmentation := o.segment(init.result.value, img, SegmentConfig);
              && segmentation.Ok?
              && o.hasContext && img.width > 0 && img.height > 0
              && outcome.value == PngDataUrlPrefix + o.encode(MaskedImage(img, segmentation.value)).value
              && IsPrefix("data:", outcome.value)
              && !Revocable(Some(outcome.value))
  {
    var (_, outcome) := ProcessSpec(refs, o);
    if outcome.Ok? {
      var url := outcome.value;
      assert url[..|PngDataUrlPrefix|] == PngDataUrlPrefix;
      assert url[..5] == PngDataUrlPrefix[..5];
      RevocationCases(Some(url));
    }
  }

  /** A PNG data URL is never a blob URL. */
  lemma DataUrlIsNotBlob(url: string)
    requires IsPrefix(PngDataUrlPrefix, url)
    ensures !IsPrefix(BlobScheme, url)
  {
    assert url[0] == PngDataUrlPrefix[0];
  }

  /** A run keeps the refs in a shape a sequence of `ensureNet` calls can
      produce. */
  lemma ProcessKeepsRefsValid(refs: Refs, o: RunOracle)
    requires o.decoded.Some? ==> o.decoded.value.Valid()
    requires refs.Valid()
    ensures ProcessSpec(refs, o).0.Valid()
  {
    EnsureNetKeepsRefsValid(refs, o.init);
  }

  /** A decode failure stops the run before the model is touched and reports
      "Failed to load image"; a missing canvas context reports "Canvas context
      unavailable"; with a context, an image of zero width or height reports
      the `IndexSizeError` of `createImageData`. */
  lemma EarlyFailureMessages(refs: Refs, o: RunOracle)
    requires o.decoded.Some? ==> o.decoded.value.Valid()
    ensures o.decoded.None? ==>
              ProcessSpec(refs, o) == (refs, Err(DecodeFailure))
              && ErrorMessage(DecodeFailure) == "Failed to load image"
    ensures (o.decoded.Some? && EnsureNetSpec(refs, o.init).result.Ok?
             && o.segment(EnsureNetSpec(refs, o.init).result.value, o.decoded.value, SegmentConfig).Ok?
             && !o.hasContext) ==>
              ProcessSpec(refs, o).1 == Err(ContextFailure)
              && ErrorMessage(ContextFailure) == "Canvas context unavailable"
    ensures (o.decoded.Some? && EnsureNetSpec(refs, o.init).result.Ok?
             && o.segment(EnsureNetSpec(refs, o.init).result.value, o.decoded.value, SegmentConfig).Ok?
             && o.hasContext && (o.decoded.value.width == 0 || o.decoded.value.height == 0)) ==>
              ProcessSpec(refs, o).1 == Err(SizeFailure(o))
              && ErrorMessage(ProcessSpec(refs, o).1.error) == o.sizeErrorMessage
  {
  }

  /** When both backends fail the run ends with the cpu attempt's error and
      the refs still not ready, so the next run that decodes its image sets
      up the backend again from the tfjs import. */
  lemma BackendFailureIsRetried(refs: Refs, o: RunOracle, next: RunOracle)
    requires o.decoded.Some? ==> o.decoded.value.Valid()
    requires next.decoded.Some? ==> next.decoded.value.Valid()
    requires refs.Valid() && !refs.tfReady
    requires o.decoded.Some?
    requires o.init.importTf.Completes? && o.init.importWebglBackend.Completes?
    requires o.init.setWebgl.Throws? && o.init.setCpu.Throws?
    ensures var (after, outcome) := ProcessSpec(refs, o);
            && outcome == Err(o.init.setCpu.err)
            && !after.tfReady
            && (next.decoded.Some? ==> EnsureNetSpec(after, next.init).actions[0] == ImportTf)
  {
    assert refs.net.None?;
    BothBackendsFailThenRetry(refs, o.init, next.init);
  }

  /** The base name stored for any upload gives a download name ending in
      "-no-bg.png", without whitespace. */
  lemma UploadDownloadName(file: File)
    ensures var name := DownloadFileName(Some(BaseName(file.name)));
            IsSuffix(DownloadSuffix, name) && NoWhitespace(name)
  {
    DownloadNameShape(Some(BaseName(file.name)));
  }

  /** Every object URL the page created is a blob URL, and every one except
      the source on display has been revoked: at most one object URL is live,
      and it is the source's. The result is never an object URL. */
  ghost predicate UrlsValid(created: seq<string>, revoked: seq<string>, sourceUrl: Option<string>, resultUrl: Option<string>)
  {
    && (forall u :: u in created ==> IsPrefix(BlobScheme, u))
    && (forall u :: u in created && Some(u) != sourceUrl ==> u in revoked)
    && (sourceUrl.Some? && IsPrefix(BlobScheme, sourceUrl.value) ==> sourceUrl.value in created)
    && (resultUrl.Some? ==> !IsPrefix(BlobScheme, resultUrl.value))
  }

  /** Showing a new blob URL as the source, after the previous source and
      result went through `clearObjectUrl` and the result was cleared, leaves
      only the new source live. */
  lemma NewSourceKeepsUrlsValid(created: seq<string>, revoked: seq<string>, sourceUrl: Option<string>,
                                resultUrl: Option<string>, url: string)
    requires UrlsValid(created, revoked, sourceUrl, resultUrl)
    requires IsPrefix(BlobScheme, url) && url !in created
    ensures UrlsValid(created + [url], revoked + Revocations(sourceUrl) + Revocations(resultUrl), Some(url), None)
  {
    var revoked' := revoked + Revocations(sourceUrl) + Revocations(resultUrl);
    forall u | u in created + [url] && Some(u) != Some(url) ensures u in revoked' {
      assert u in created;
      if Some(u) == sourceUrl {
        assert Revocable(sourceUrl);
      }
    }
  }

  /** Publishing a URL that is not a blob URL, and revoking more URLs, keeps
      the invariant. */
  lemma PublishKeepsUrlsValid(created: seq<string>, revoked: seq<string>, sourceUrl: Option<string>,
                              resultUrl: Option<string>, more: seq<string>, url: Option<string>)
    requires UrlsValid(created, revoked, sourceUrl, resultUrl)
    requires url.Some? ==> !IsPrefix(BlobScheme, url.value)
    ensures UrlsValid(created, revoked + more, sourceUrl, url)
  {
  }

  // ---------------------------------------------------------------------
  // The page state
  // ---------------------------------------------------------------------

  /** The state of the page component and the object URLs the browser holds
      for it. `created` and `revoked` record the `URL.createObjectURL` and
      `URL.revokeObjectURL` calls. */
  class HomePage {
    var sourceUrl: Option<string>
    var resultUrl: Option<string>
    var isProcessing: bool
    var error: Option<string>
    var fileName: Option<string>
    var created: seq<string>
    var revoked: seq<string>
    const models: ModelManager

    /** The object URLs obey `UrlsValid`, and the model refs are in a shape
        a sequence of `ensureNet` calls can produce. */
    ghost predicate Valid()
      reads this, models
    {
      && UrlsValid(created, revoked, sourceUrl, resultUrl)
      && models.Cached().Valid()
    }

    /** The page as first rendered. */
    constructor ()
      ensures Valid() && fresh(models)
      ensures sourceUrl.None? && resultUrl.None? && !isProcessing && error.None? && fileName.None?
      ensures created == [] && revoked == []
      ensures models.Cached() == InitialRefs
    {
      sourceUrl, resultUrl, isProcessing, error, fileName := None, None, false, None, None;
      created, revoked := [], [];
      models := new ModelManager();
    }

    /** `clearObjectUrl`: revokes the URL when it is a blob URL. */
    method ClearObjectUrl(url: Option<string>)
      modifies this`revoked
      ensures revoked == old(revoked) + Revocations(url)
    {
      if url.Some? && IsPrefix(BlobScheme, url.value) {
        revoked := revoked + [url.value];
      }
    }

    /** Lines 65-69: the state the page shows as soon as a run starts. The
        URLs revoked are the ones the callback captured when it was created,
        that is, the state before the run. */
    method BeginRun(prevSource: Option<string>, prevResult: Option<string>)
      modifies this`isProcessing, this`error, this`resultUrl, this`revoked
      ensures isProcessing && error.None? && resultUrl.None?
      ensures revoked == old(revoked) + Revocations(prevSource) + Revocations(prevResult)
    {
      isProcessing := true;
      error := None;
      resultUrl := None;
      ClearObjectUrl(prevSource);
      ClearObjectUrl(prevResult);
    }

    /** `runBackgroundRemoval`: whatever happens, the run ends with
        `isProcessing` false, the new blob URL shown as the source and the
        previous source revoked. On success the result is the PNG data URL and
        no error is shown; on failure the error message is recorded and no
        result is shown. */
    method RunBackgroundRemoval(file: File, o: RunOracle)
      requires Valid() && WellFormedOracle(o, created)
      modifies this, models
      ensures Valid()
      ensures !isProcessing
      ensures created == old(created) + [o.objectUrl]
      ensures sourceUrl == Some(o.objectUrl)
      ensures fileName == Some(BaseName(file.name))
      ensures models.Cached() == ProcessSpec(old(models.Cached()), o).0
      ensures var outcome := ProcessSpec(old(models.Cached()), o).1;
              && (outcome.Ok? ==>
                    && resultUrl == Some(outcome.value) && error.None?
                    && revoked == old(revoked) + Revocations(old(sourceUrl))
                                  + Revocations(old(resultUrl)) + Revocations(old(resultUrl)))
              && (outcome.Err? ==>
                    && resultUrl.None? && error == Some(ErrorMessage(outcome.error))
                    && revoked == old(revoked) + Revocations(old(sourceUrl)) + Revocations(old(resultUrl)))
    {
      var prevSource, prevResult := sourceUrl, resultUrl;
      NewSourceKeepsUrlsValid(created, revoked, prevSource, prevResult, o.objectUrl);
      BeginRun(prevSource, prevResult);
      assert Revocations(prevResult) == [];
      // try
      created := created + [o.objectUrl];
      sourceUrl := Some(o.objectUrl);
      fileName := Some(BaseName(file.name));
      ghost var revokedBefore := revoked;
      var outcome := Process(o, prevResult);
      // catch
      if outcome.Err? {
        error := Some(ErrorMessage(outcome.error));
      }
      // finally
      isProcessing := false;
      if outcome.Ok? {
        DataUrlIsNotBlob(outcome.value);
      }
      PublishKeepsUrlsValid(created, revokedBefore, sourceUrl, None, Revocations(prevResult), resultUrl);
      ProcessKeepsRefsValid(old(models.Cached()), o);
    }

    /** The awaited part of the `try` block: decode, `ensureNet`,
        `segmentPerson`, the canvas, `toDataURL`, and on success the
        `clearObjectUrl(resultUrl)` and `setResultUrl` of lines 115-116. */
    method Process(o: RunOracle, prevResult: Option<string>) returns (outcome: Result<string, Thrown>)
      requires o.decoded.Some? ==> o.decoded.value.Valid()
      modifies models, this`resultUrl, this`revoked
      ensures (models.Cached(), outcome) == ProcessSpec(old(models.Cached()), o)
      ensures outcome.Ok? ==> IsPrefix(PngDataUrlPrefix, outcome.value)
      ensures outcome.Ok? ==> resultUrl == Some(outcome.value) && revoked == old(revoked) + Revocations(prevResult)
      ensures outcome.Err? ==> resultUrl == old(resultUrl) && revoked == old(revoked)
    {
      if o.decoded.None? {
        return Err(DecodeFailure);
      }
      var image := o.decoded.value;
      var net, _ := models.EnsureNet(o.init);
      if net.Err? {
        return Err(net.error);
      }
      var segmentation := o.segment(net.value, image, SegmentConfig);
      if segmentation.Err? {
        return Err(segmentation.error);
      }
      if !o.hasContext {
        return Err(ContextFailure);
      }
      if image.width == 0 || image.height == 0 {
        return Err(SizeFailure(o));
      }
      var maskBytes := CreateMaskImageData(image.width, image.height, segmentation.value);
      MaskLength(image.width, image.height, segmentation.value);
      var canvas := Composite(image.pixels, PixelsOf(maskBytes));
      var encoded := o.encode(canvas);
      if encoded.Err? {
        return Err(encoded.error);
      }
      var transparentUrl := PngDataUrlPrefix + encoded.value;
      assert transparentUrl[..|PngDataUrlPrefix|] == PngDataUrlPrefix;
      ClearObjectUrl(prevResult);
      resultUrl := Some(transparentUrl);
      outcome := Ok(transparentUrl);
    }
  }
}
