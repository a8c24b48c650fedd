/** The image handles of src/image/index.ts: factories for steps that draw
    on, resize or export a canvas, and the context that runs a list of them
    on its own canvas.

    The canvas is modelled by its size and by the drawing calls made on its
    2D context since its bitmap was last cleared. What the canvas encodes
    into a data URL (canvas.toDataURL) and what atob decodes are supplied by
    the browser: they are the two functions of a Host. */
module ImageHandles {
  import opened Wrappers
  import opened DataUrl

  /** The size of a freshly created canvas element in HTML. */
  const DefaultWidth: int := 300
  const DefaultHeight: int := 150

  /** The `type` the export handles use when none is given. */
  const DefaultMimeType: string := "image/jpeg"

  /** An HTMLImageElement as drawImage reads it. */
  datatype ImageElement = ImageElement(src: string, width: int, height: int)

  /** A drawing call made on the canvas's 2D context. */
  datatype Call =
    | ClearRectAt(x: int, y: int, width: int, height: int)
    | DrawImageAt(image: ImageElement, x: int, y: int, width: int, height: int)

  /** A canvas as a value: its size and what was drawn since its bitmap was
      last cleared. */
  datatype CanvasState = CanvasState(width: int, height: int, calls: seq<Call>)

  /** The browser services the handles call: canvas.toDataURL(type) and atob. */
  datatype Host = Host(toDataUrl: (CanvasState, string) -> string, atob: Decoder)

  /** An ImageHandle, named by the ImageHandles factory that made it and the
      arguments it was given (None where an argument was left out). The
      `quality` argument of the export factories is left out. */
  datatype Handle =
    | Clear(width: Option<int>, height: Option<int>, x: Option<int>, y: Option<int>)
    | DrawImage(image: ImageElement, x: Option<int>, y: Option<int>, width: Option<int>, height: Option<int>)
    | SetWidthHeight(newWidth: int, newHeight: int)
    | ToImage(mimeType: Option<string>)
    | ToFile(fileName: string, mimeType: Option<string>)
    | ToDataURL(mimeType: Option<string>)
    | ToBlobResult(mimeType: Option<string>)

  /** What a handle returns. */
  datatype Value =
    | Undefined
    | Null
    | NewImage(src: string)
    | FileValue(file: File)
    | Text(text: string)
    | BlobValue(result: BlobResult)

  /** JavaScript truthiness of a handle's return value. */
  predicate Truthy(v: Value)
    ensures Truthy(v) ==> !v.Undefined? && !v.Null?
    ensures v.NewImage? || v.FileValue? || v.BlobValue? ==> Truthy(v)
    ensures v.Text? ==> (Truthy(v) <==> v.text != [])
  {
    match v
    case Undefined => false
    case Null => false
    case Text(t) => t != []
    case _ => true
  }

  /** `value || fallback` for a numeric argument: a missing argument and 0
      both give the fallback. */
  function Or(value: Option<int>, fallback: int): (r: int)
    ensures r == 0 ==> fallback == 0
    ensures r != fallback ==> value == Some(r) && r != 0
    ensures value.Some? && value.value != 0 ==> r == value.value
  {
    if value.None? || value.value == 0 then fallback else value.value
  }

  /** toFile's answer for what dataUrlToBlob returned: null unless there is
      both a MIME type and bytes, else the File built from them. */
  function FileOf(r: Option<BlobResult>, fileName: string): (v: Value)
    ensures v.Null? || v.FileValue?
    ensures v.FileValue? <==> r.Some? && r.value.blob.Some? && r.value.mime.Some?
    ensures v.FileValue? ==> v.file == r.value.ToFile(fileName)
  {
    match r
    case None => Null
    case Some(b) =>
      if b.blob.None? || b.mime.None? then Null else FileValue(b.ToFile(fileName))
  }

  /** toBlobResult's answer: the result object, or null. */
  function BlobOf(r: Option<BlobResult>): (v: Value)
    ensures v.Null? || v.BlobValue?
    ensures v.Null? <==> r.None?
    ensures v.BlobValue? ==> v.result == r.value
  {
    match r
    case None => Null
    case Some(b) => BlobValue(b)
  }

  /** The canvas after a handle ran and what the handle returned or threw. */
  datatype StepResult = StepResult(state: CanvasState, out: Result<Value, Error>)

  /** Invoking one handle on a canvas. */
  function Step(s: CanvasState, h: Handle, host: Host): (r: StepResult)
    ensures h.Clear? || h.DrawImage? || h.SetWidthHeight? ==> r.out == Success(Undefined)
    ensures h.Clear? || h.DrawImage? ==>
      && r.state.width == s.width && r.state.height == s.height
      && |r.state.calls| == |s.calls| + 1 && r.state.calls[..|s.calls|] == s.calls
  {
    match h
    case Clear(width, height, x, y) =>
      StepResult(s.(calls := s.calls + [ClearRectAt(x.GetOr(0), y.GetOr(0), Or(width, s.width), Or(height, s.height))]),
                 Success(Undefined))
    case DrawImage(image, x, y, width, height) =>
      StepResult(s.(calls := s.calls + [DrawImageAt(image, x.GetOr(0), y.GetOr(0), Or(width, image.width), Or(height, image.height))]),
                 Success(Undefined))
    case SetWidthHeight(width, height) =>
      StepResult(CanvasState(width, height, []), Success(Undefined))
    case ToImage(mimeType) =>
      StepResult(s, Success(NewImage(host.toDataUrl(s, mimeType.GetOr(DefaultMimeType)))))
    case ToFile(fileName, mimeType) =>
      (match ParseDataUrl(host.toDataUrl(s, mimeType.GetOr(DefaultMimeType)), host.atob)
       case Failure(e) => StepResult(s, Failure(e))
       case Success(r) => StepResult(s, Success(FileOf(r, fileName))))
    case ToDataURL(mimeType) =>
      StepResult(s, Success(Text(host.toDataUrl(s, mimeType.GetOr(DefaultMimeType)))))
    case ToBlobResult(mimeType) =>
      (match ParseDataUrl(host.toDataUrl(s, mimeType.GetOr(DefaultMimeType)), host.atob)
       case Failure(e) => StepResult(s, Failure(e))
       case Success(r) => StepResult(s, Success(BlobOf(r))))
  }

  /** The canvas after a list of handles ran, the truthy values they
      returned, in order, and the error that stopped the list, if any. */
  datatype RunResult = RunResult(state: CanvasState, results: seq<Value>, thrown: Option<Error>)

  /** handleImage(...handles): each handle in turn; a thrown error ends the
      run and leaves the canvas as the failing handle left it. */
  function Run(s: CanvasState, handles: seq<Handle>, host: Host): (r: RunResult)
    ensures |r.results| <= |handles|
    decreases |handles|
  {
    if handles == [] then RunResult(s, [], None)
    else
      var st := Step(s, handles[0], host);
      match st.out
      case Failure(e) => RunResult(st.state, [], Some(e))
      case Success(v) =>
        var rest := Run(st.state, handles[1..], host);
        RunResult(rest.state, (if Truthy(v) then [v] else []) + rest.results, rest.thrown)
  }

  /** A run continued with more handles, unless it already threw. */
  function Then(r: RunResult, more: seq<Handle>, host: Host): RunResult {
    if r.thrown.Some? then r
    else
      var r2 := Run(r.state, more, host);
      RunResult(r2.state, r.results + r2.results, r2.thrown)
  }

  // ------------------------------------------------------------ classes

  /** An HTMLCanvasElement together with its 2D context. */
  class Canvas {
    var width: int
    var height: int
    var calls: seq<Call>

    /** document.createElement('canvas'). */
    constructor ()
      ensures State() == CanvasState(DefaultWidth, DefaultHeight, [])
    {
      width := DefaultWidth;
      height := DefaultHeight;
      calls := [];
    }

    function State(): CanvasState
      reads this
    {
      CanvasState(width, height, calls)
    }

    /** `canvas.width = w`: setting a dimension clears the bitmap. */
    method SetWidth(w: int)
      modifies this
      ensures State() == CanvasState(w, old(height), [])
    {
      width := w;
      calls := [];
    }

    /** `canvas.height = h`. */
    method SetHeight(h: int)
      modifies this
      ensures State() == CanvasState(old(width), h, [])
    {
      height := h;
      calls := [];
    }

    /** `context.clearRect(x, y, w, h)`. */
    method ContextClearRect(x: int, y: int, w: int, h: int)
      modifies this
      ensures State() == old(State()).(calls := old(calls) + [ClearRectAt(x, y, w, h)])
    {
      calls := calls + [ClearRectAt(x, y, w, h)];
    }

    /** `context.drawImage(image, x, y, w, h)`. */
    method ContextDrawImage(image: ImageElement, x: int, y: int, w: int, h: int)
      modifies this
      ensures State() == old(State()).(calls := old(calls) + [DrawImageAt(image, x, y, w, h)])
    {
      calls := calls + [DrawImageAt(image, x, y, w, h)];
    }

    /** `canvas.toDataURL(type)`. */
    method ToDataUrl(mimeType: string, host: Host) returns (url: string)
      ensures url == host.toDataUrl(State(), mimeType)
    {
      url := host.toDataUrl(State(), mimeType);
    }
  }

  /** Calling the ImageHandle `h` on `canvas`. */
  method Invoke(h: Handle, canvas: Canvas, host: Host) returns (out: Result<Value, Error>)
    modifies canvas
    ensures StepResult(canvas.State(), out) == Step(old(canvas.State()), h, host)
  {
    match h
    case Clear(width, height, x, y) =>
      canvas.ContextClearRect(x.GetOr(0), y.GetOr(0), Or(width, canvas.width), Or(height, canvas.height));
      out := Success(Undefined);
    case DrawImage(image, x, y, width, height) =>
      var w := width;
      if w.None? || w.value == 0 {
        w := Some(image.width);
      }
      var ht := height;
      if ht.None? || ht.value == 0 {
        ht := Some(image.height);
      }
      canvas.ContextDrawImage(image, x.GetOr(0), y.GetOr(0), w.value, ht.value);
      out := Success(Undefined);
    case SetWidthHeight(width, height) =>
      canvas.SetWidth(width);
      canvas.SetHeight(height);
      out := Success(Undefined);
    case ToImage(mimeType) =>
      var dataUrl := canvas.ToDataUrl(mimeType.GetOr(DefaultMimeType), host);
      out := Success(NewImage(dataUrl));
    case ToFile(fileName, mimeType) =>
      var dataUrl := canvas.ToDataUrl(mimeType.GetOr(DefaultMimeType), host);
      var blobResult := DataUrlToBlob(dataUrl, host.atob);
      if blobResult.Failure? {
        return Failure(blobResult.error);
      }
      var r := blobResult.value;
      if r.None? || r.value.blob.None? || r.value.mime.None? {
        return Success(Null);
      }
      out := Success(FileValue(r.value.ToFile(fileName)));
    case ToDataURL(mimeType) =>
      var dataUrl := canvas.ToDataUrl(mimeType.GetOr(DefaultMimeType), host);
      out := Success(Text(dataUrl));
    case ToBlobResult(mimeType) =>
      var dataUrl := canvas.ToDataUrl(mimeType.GetOr(DefaultMimeType), host);
      var blobResult := DataUrlToBlob(dataUrl, host.atob);
      if blobResult.Failure? {
        return Failure(blobResult.error);
      }
      out := Success(BlobOf(blobResult.value));
  }

  /** ImageHandleContext: a canvas and the handles run on it. */
  class ImageHandleContext {
    const canvas: Canvas

    constructor (canvas: Canvas)
      ensures this.canvas == canvas
    {
      this.canvas := canvas;
    }

    /** handleImage(...handles): invokes the handles in order and keeps the
        truthy values they return. The source builds this list and then
        drops it; here it is returned. An error thrown by a handle ends the
        call and is returned as `thrown`. */
    method HandleImage(handles: seq<Handle>, host: Host) returns (result: seq<Value>, thrown: Option<Error>)
      modifies canvas
      ensures RunResult(canvas.State(), result, thrown) == Run(old(canvas.State()), handles, host)
    {
      result := [];
      thrown := None;
      var i := 0;
      while i < |handles|
        invariant 0 <= i <= |handles|
        invariant Run(old(canvas.State()), handles[..i], host) == RunResult(canvas.State(), result, None)
      {
        var r := Invoke(handles[i], canvas, host);
        RunSnoc(old(canvas.State()), handles[..i], handles[i], host);
        assert handles[..i] + [handles[i]] == handles[..i + 1];
        if r.Failure? {
          RunStops(old(canvas.State()), handles[..i + 1], handles[i + 1..], host);
          assert handles[..i + 1] + handles[i + 1..] == handles;
          return result, Some(r.error);
        }
        if Truthy(r.value) {
          result := result + [r.value];
        }
        i := i + 1;
      }
      assert handles[..i] == handles;
    }
  }

  /** createImageHandleContext(): a context over a new default-size canvas. */
  method CreateImageHandleContext() returns (ctx: ImageHandleContext)
    ensures fresh(ctx) && fresh(ctx.canvas)
    ensures ctx.canvas.State() == CanvasState(DefaultWidth, DefaultHeight, [])
  {
    var canvas := new Canvas();
    ctx := new ImageHandleContext(canvas);
  }

  // ---------------------------------------------------------- properties

  /** Running two lists one after the other is running their concatenation:
      the handles run in order, each once, and the results of the first
      list come first. */
  lemma {:induction false} RunAppend(s: CanvasState, first: seq<Handle>, second: seq<Handle>, host: Host)
    ensures Run(s, first + second, host) == Then(Run(s, first, host), second, host)
    decreases |first|
  {
    if first == [] {
      assert first + second == second;
    } else {
      assert (first + second)[0] == first[0];
      assert (first + second)[1..] == first[1..] + second;
      var st := Step(s, first[0], host);
      if st.out.Success? {
        RunAppend(st.state, first[1..], second, host);
        var head := if Truthy(st.out.value) then [st.out.value] else [];
        var r1 := Run(st.state, first[1..], host);
        if r1.thrown.None? {
          var r2 := Run(r1.state, second, host);
          assert head + (r1.results + r2.results) == (head + r1.results) + r2.results;
        }
      }
    }
  }

  /** handleImage keeps only truthy values. */
  lemma {:induction false} RunResultsTruthy(s: CanvasState, handles: seq<Handle>, host: Host)
    ensures forall k :: 0 <= k < |Run(s, handles, host).results| ==> Truthy(Run(s, handles, host).results[k])
    decreases |handles|
  {
    if handles != [] {
      var st := Step(s, handles[0], host);
      if st.out.Success? {
        RunResultsTruthy(st.state, handles[1..], host);
      }
    }
  }

  /** One more handle after a run that did not throw: its value joins the
      results when truthy, and its error, if any, ends the run. */
  lemma RunSnoc(s: CanvasState, prefix: seq<Handle>, h: Handle, host: Host)
    requires Run(s, prefix, host).thrown.None?
    ensures var r := Run(s, prefix, host);
            var st := Step(r.state, h, host);
            Run(s, prefix + [h], host)
              == if st.out.Failure? then RunResult(st.state, r.results, Some(st.out.error))
                 else RunResult(st.state, r.results + (if Truthy(st.out.value) then [st.out.value] else []), None)
  {
    RunAppend(s, prefix, [h], host);
    var r := Run(s, prefix, host);
    assert [h][1..] == [];
    var st := Step(r.state, h, host);
    if st.out.Success? {
      var head := if Truthy(st.out.value) then [st.out.value] else [];
      assert Run(st.state, [], host) == RunResult(st.state, [], None);
      assert head + [] == head;
    } else {
      assert r.results + [] == r.results;
    }
  }

  /** Once a run has thrown, the handles after it do not run. */
  lemma RunStops(s: CanvasState, first: seq<Handle>, second: seq<Handle>, host: Host)
    requires Run(s, first, host).thrown.Some?
    ensures Run(s, first + second, host) == Run(s, first, host)
  {
    RunAppend(s, first, second, host);
  }

  /** Only toFile and toBlobResult can throw, and only when atob throws on
      the data URL the canvas produced. */
  lemma StepThrows(s: CanvasState, h: Handle, host: Host)
    ensures Step(s, h, host).out.Failure? <==>
      && (h.ToFile? || h.ToBlobResult?)
      && ParseDataUrl(host.toDataUrl(s, h.mimeType.GetOr(DefaultMimeType)), host.atob).Failure?
  {
  }

  /** clear() with no size clears the whole canvas at its current size; a
      width of 0 is the same as no width, and a height of 0 the same as no
      height, each on its own. */
  lemma ClearWholeCanvas(s: CanvasState, width: Option<int>, height: Option<int>, x: Option<int>, y: Option<int>, host: Host)
    ensures Step(s, Clear(None, None, None, None), host).state.calls == s.calls + [ClearRectAt(0, 0, s.width, s.height)]
    ensures Step(s, Clear(Some(0), height, x, y), host) == Step(s, Clear(None, height, x, y), host)
    ensures Step(s, Clear(width, Some(0), x, y), host) == Step(s, Clear(width, None, x, y), host)
  {
  }

  /** setWidthHeight(w, h) then clear() clears exactly the new w by h area,
      for every w and h, 0 included. */
  lemma ClearAfterResize(s: CanvasState, w: int, h: int, host: Host)
    ensures Run(s, [SetWidthHeight(w, h), Clear(None, None, None, None)], host)
         == RunResult(CanvasState(w, h, [ClearRectAt(0, 0, w, h)]), [], None)
  {
    var hs := [SetWidthHeight(w, h), Clear(None, None, None, None)];
    var resized := CanvasState(w, h, []);
    assert Step(s, hs[0], host) == StepResult(resized, Success(Undefined));
    assert hs[1..] == [Clear(None, None, None, None)];
    assert hs[1..][1..] == [];
    assert Run(resized, hs[1..], host) == RunResult(CanvasState(w, h, [ClearRectAt(0, 0, w, h)]), [], None);
  }

  /** drawImage without a size draws the image at its own size; a width of
      0 is the same as no width, and a height of 0 the same as no height,
      each on its own. */
  lemma DrawImageNaturalSize(s: CanvasState, image: ImageElement, x: Option<int>, y: Option<int>, width: Option<int>, height: Option<int>, host: Host)
    ensures Step(s, DrawImage(image, x, y, None, None), host).state.calls
         == s.calls + [DrawImageAt(image, x.GetOr(0), y.GetOr(0), image.width, image.height)]
    ensures Step(s, DrawImage(image, x, y, Some(0), height), host) == Step(s, DrawImage(image, x, y, None, height), host)
    ensures Step(s, DrawImage(image, x, y, width, Some(0)), host) == Step(s, DrawImage(image, x, y, width, None), host)
  {
  }

  /** The export handles read the canvas and leave it as it was. */
  lemma ExportsKeepCanvas(s: CanvasState, h: Handle, host: Host)
    requires h.ToImage? || h.ToFile? || h.ToDataURL? || h.ToBlobResult?
    ensures Step(s, h, host).state == s
  {
  }

  /** setWidthHeight at the head of a list wipes out everything drawn
      before: the rest runs as on a fresh canvas of that size. */
  lemma ResizeForgetsDrawing(s: CanvasState, w: int, h: int, rest: seq<Handle>, host: Host)
    ensures Run(s, [SetWidthHeight(w, h)] + rest, host) == Run(CanvasState(w, h, []), rest, host)
  {
    assert ([SetWidthHeight(w, h)] + rest)[1..] == rest;
  }

  /** toFile on a canvas whose data URL is `data:<mime>;base64,<payload>`:
      a File named as asked, of type <mime>, holding the decoded bytes; null
      when the payload decodes to nothing; and atob's error when it does
      not decode. */
  lemma ToFileOfDataUrl(s: CanvasState, fileName: string, mimeType: Option<string>, mime: string, payload: string, host: Host)
    requires host.toDataUrl(s, mimeType.GetOr(DefaultMimeType)) == MakeDataUrl(mime, payload)
    requires IsPlainMime(mime) && ',' !in payload
    ensures host.atob(payload).None? ==> Step(s, ToFile(fileName, mimeType), host).out == Failure(InvalidCharacterError)
    ensures host.atob(payload) == Some([]) ==> Step(s, ToFile(fileName, mimeType), host).out == Success(Null)
    ensures host.atob(payload).Some? && host.atob(payload).value != [] ==>
      Step(s, ToFile(fileName, mimeType), host).out
        == Success(FileValue(File(CharCodes(host.atob(payload).value), fileName, mime)))
  {
    ParseMakeDataUrl(mime, payload, host.atob);
  }

  /** A canvas of width or height 0 exports "data:," (HTML's answer for an
      empty bitmap); atob("") is "". Then toDataURL gives that text, toFile
      gives null, and toBlobResult gives a result with neither MIME type nor
      bytes. */
  lemma EmptyBitmapExports(s: CanvasState, mimeType: Option<string>, fileName: string, host: Host)
    requires host.toDataUrl(s, mimeType.GetOr(DefaultMimeType)) == "data:,"
    requires host.atob([]) == Some([])
    ensures Step(s, ToDataURL(mimeType), host).out == Success(Text("data:,"))
    ensures Step(s, ToFile(fileName, mimeType), host).out == Success(Null)
    ensures Step(s, ToBlobResult(mimeType), host).out == Success(BlobValue(BlobResult(None, None)))
  {
    var url := host.toDataUrl(s, mimeType.GetOr(DefaultMimeType));
    ParseEmptyDataUrl(host.atob);
    var parsed := ParseDataUrl(url, host.atob);
    assert parsed == Success(Some(BlobResult(None, None)));
    assert Step(s, ToFile(fileName, mimeType), host) == StepResult(s, Success(FileOf(parsed.value, fileName)));
    assert Step(s, ToBlobResult(mimeType), host) == StepResult(s, Success(BlobOf(parsed.value)));
  }
}
