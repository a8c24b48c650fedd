# pergola-ts image and identifier utilities, in Dafny

This project models two utility modules of pergola-ts and proves what they
promise.

- `src/image/index.ts`:
  - `dataUrlToBlob` takes a data URL `data:<mime>;base64,<payload>`
    (RFC 2397) apart into its MIME type and the bytes of its decoded payload.
  - `ImageHandles` builds canvas steps that draw, resize and export.
  - `ImageHandleContext.handleImage` runs a list of these steps on one
    canvas.
- `src/unique/index.ts`:
  - `nextNumbers` draws base-16 digits from the clock and `Math.random()`.
  - `uuid` formats 31 of them as a version-4 UUID (RFC 4122).
  - `shortUUID` uses 16 of them as indices into a caller's table.

## Files

- `wrappers.dfy` (module `Wrappers`): `Option` and `Result`.
- `unique.dfy` (module `Unique`): nextNumbers, uuid, shortUUID.
  - The clock is a natural-number parameter.
  - `Math.random()` is an oracle `rand` that gives one value in 0..15 per
    draw.
- `dataurl.dfy` (module `DataUrl`): dataUrlToBlob and DataUrlToBlobResult.
  - `atob` is a parameter: a function from text to decoded text, or None
    where atob throws.
  - The Uint8Array fill is a method over a Dafny `array`.
- `imagehandles.dfy` (module `ImageHandles`): the handles, the canvas and
  the context.
  - The canvas is a class with `width`, `height` and the log of 2D-context
    calls made since its bitmap was last cleared.
  - Each handle is a variant of `Handle`, carrying the factory's arguments.
  - `Step` and `Run` specify one handle and a list of handles on a canvas
    value.
  - `Invoke` and `ImageHandleContext.HandleImage` are the imperative code,
    proved equal to them.
  - canvas.toDataURL and atob are the two functions of a `Host`.

## Model

| member | source | states |
|---|---|---|
| Unique.DigitCount | src/unique/index.ts:2-4 | a missing, 0 or negative count becomes 16; a positive count is kept |
| Unique.Digit | src/unique/index.ts:12 | each digit lies in 0..15 and is congruent modulo 16 to the accumulator plus the random part |
| Unique.DrawsAt | src/unique/index.ts:11-18 | the i-th digit drawn is the digit of the clock div 16^i and the i-th random draw |
| Unique.AccumulatorIsQuotient | src/unique/index.ts:13 | after k rounds of `floor(d / 16)` the accumulator is the seed div 16^k |
| Unique.Draws | src/unique/index.ts:11-18 | the first k digits nextNumbers pushes, exactly k of them, each from the accumulator and the draw of its round |
| Unique.NextNumbers | src/unique/index.ts:1-20 | returns exactly DigitCount(len) digits, the ones Draws specifies (one per round, the accumulator divided by 16 after each); a given callback is called once per digit, in order, with that digit; without one nothing is called |
| Unique.Hex | src/unique/index.ts:27 | `toString(16)` of a digit is a lowercase hex character whose value is the digit |
| Unique.HexValue | src/unique/index.ts:27 | reading a lowercase hex character back gives the digit that Hex maps to it |
| Unique.VariantBits | src/unique/index.ts:27 | `r & 0x3` with bit 0x8 set lies in 8..11 and keeps the low two bits of r |
| Unique.Emit | src/unique/index.ts:26-27 | the replace callback's character is lowercase hex: the digit itself for `x`, and for `y` a value in 8..11 keeping the digit's low two bits |
| Unique.Fill | src/unique/index.ts:25-27 | the template with every placeholder replaced by the callback's character for the next digit; the length is kept |
| Unique.TemplateIsLiteral | src/unique/index.ts:25 | the template assembled from its groups is the literal `xxxxxxxx-xxxx-4xxx-yxxx-xxxxxxxxxxxx` |
| Unique.TemplatePlaceholders | src/unique/index.ts:23-25 | the template has exactly 31 `x`/`y` placeholders, as many as digits drawn |
| Unique.FillGroup | src/unique/index.ts:25-27 | a run of n `x` placeholders takes the next n digits, in order, as hex |
| Unique.FillVariant | src/unique/index.ts:27 | the `y` placeholder takes the next digit through `r & 0x3` with bit 0x8 set |
| Unique.ReplaceStep | src/unique/index.ts:25-27 | each character of the template either stays or, as a placeholder, takes the digit at the running index, which then advances by one |
| Unique.ReplacePlaceholders | src/unique/index.ts:24-28 | the replace callback with its running index fills the placeholders left to right, one digit each |
| Unique.UuidText | src/unique/index.ts:22-28 | the identifier uuid() builds from 31 digits; it is as long as the template |
| Unique.UuidLayout | src/unique/index.ts:22-28 | the result is 8-4-4-4-12 hex groups: digits 0-7, 8-11, then `4` and 12-14, then the variant of digit 15 and 16-18, then 19-30 |
| Unique.UuidShape | src/unique/index.ts:22-28 | for every draw the result is 36 characters, `-` at 8, 13, 18 and 23, `4` at 14, one of `8 9 a b` at 19 and lowercase hex elsewhere |
| Unique.UuidDigitsReadBack | src/unique/index.ts:25-27 | every drawn digit except the variant one reads back from its position; the variant digit keeps its low two bits |
| Unique.Uuid | src/unique/index.ts:22-29 | uuid() is the template filled with the first 31 digits drawn, and is a version-4 UUID |
| Unique.ShortUUID | src/unique/index.ts:31-40 | throws exactly when the table is missing, empty or shorter than 16; otherwise returns 16 elements, element i being the table's entry at digit i |
| DataUrl.Split | src/image/index.ts:46 | split always gives at least one piece, and no piece holds a comma |
| DataUrl.JoinSplit | src/image/index.ts:46 | joining the pieces with commas gives the URL back |
| DataUrl.SplitJoin | src/image/index.ts:46 | splitting joined comma-free pieces gives those pieces back |
| DataUrl.SplitFree | src/image/index.ts:46 | text without a comma is a single piece |
| DataUrl.SplitAt | src/image/index.ts:46 | the first piece is the text before the first comma; the later pieces are those of the text after it |
| DataUrl.LazyEnd | src/image/index.ts:54 | lazy `(.*?);` ends at the first `;`, and fails exactly when a line terminator or the end comes first |
| DataUrl.Search | src/image/index.ts:54 | a found position is a match of `:(.*?);` at or after the start |
| DataUrl.SearchLeftmost | src/image/index.ts:54 | the search finds the leftmost match, with the `;` that closes it |
| DataUrl.MatchMimeLeftmost | src/image/index.ts:54-57 | the MIME type is the text between the `:` and the first `;` of the leftmost match |
| DataUrl.MatchMimeNone | src/image/index.ts:54-57 | the MIME type stays null exactly when the header has no match |
| DataUrl.MatchMime | src/image/index.ts:54-57 | the capture of `/:(.*?);/` holds neither a `;` nor a line terminator |
| DataUrl.HeaderMime | src/image/index.ts:52-58 | the MIME type is null exactly when the header has no match, the empty header included |
| DataUrl.HeaderMimeOfDataHeader | src/image/index.ts:52-58 | the header `data:<mime>;base64` gives exactly `<mime>`, the empty type included |
| DataUrl.CharCode | src/image/index.ts:64 | the store into a Uint8Array keeps a code below 256 unchanged |
| DataUrl.CharCodes | src/image/index.ts:61-65 | the byte array has as many bytes as the decoded text has characters |
| DataUrl.CharCodesRoundTrip | src/image/index.ts:59-66 | the bytes of a binary string spell it back, and bytes are the codes of the text they spell |
| DataUrl.FillBlob | src/image/index.ts:60-66 | the count-down loop over a zeroed Uint8Array leaves byte i equal to the code of character i, for every i |
| DataUrl.DecodePayload | src/image/index.ts:51 | with no second piece, atob receives `undefined` and throws; otherwise the result is atob's |
| DataUrl.ParseDataUrl | src/image/index.ts:45-68 | dataUrlToBlob as a value: a result that is never null, whose bytes, when present, are never empty |
| DataUrl.DataUrlToBlob | src/image/index.ts:45-68 | the imperative parse equals ParseDataUrl, and it never returns null |
| DataUrl.ParseWithoutComma | src/image/index.ts:46-51 | a URL without a comma makes dataUrlToBlob throw |
| DataUrl.ParseAtFirstComma | src/image/index.ts:46-67 | it throws exactly when the text between the first and second comma fails to decode; the MIME type depends only on the text before the first comma; the bytes depend only on the decoded payload and are null when it is empty |
| DataUrl.ParseMakeDataUrl | src/image/index.ts:45-68 | `data:<mime>;base64,<payload>` parses back to `<mime>` and the decoded bytes, or throws exactly when the payload does not decode |
| DataUrl.ParseEmptyDataUrl | src/image/index.ts:45-68 | `data:,` gives neither a MIME type nor bytes |
| DataUrl.BlobResult.ToFile | src/image/index.ts:20-22 | the File holds the blob's bytes, the given name and the MIME type, or "null" when there is none |
| ImageHandles.Truthy | src/image/index.ts:145 | `undefined`, `null` and the empty string are falsy; any other string and every object a handle returns are truthy |
| ImageHandles.Or | src/image/index.ts:83 | the logical-or defaulting of a size: a present non-zero value is returned as it is; a missing value or 0 gives the fallback, so the result is 0 only when the fallback is |
| ImageHandles.Step | src/image/index.ts:81-130 | clear, drawImage and setWidthHeight return undefined; clear and drawImage keep the canvas size and earlier calls and append exactly one call |
| ImageHandles.BlobOf | src/image/index.ts:128 | toBlobResult returns null or a result object: null exactly when dataUrlToBlob does, and otherwise that very result |
| ImageHandles.FileOf | src/image/index.ts:115-118 | toFile returns a File exactly when there is a result with both bytes and a MIME type, and null otherwise; the File is the result's own `toFile(fileName)` |
| ImageHandles.Canvas.constructor | src/image/index.ts:71 | a new canvas is 300 by 150 with an empty bitmap |
| ImageHandles.Canvas.SetWidth | src/image/index.ts:99 | the width becomes exactly the argument, the height is kept, and the bitmap is cleared |
| ImageHandles.Canvas.SetHeight | src/image/index.ts:100 | the height becomes exactly the argument, the width is kept, and the bitmap is cleared |
| ImageHandles.Canvas.ContextClearRect | src/image/index.ts:83 | appends the clearRect call to the log and changes nothing else |
| ImageHandles.Canvas.ContextDrawImage | src/image/index.ts:94 | appends the drawImage call to the log and changes nothing else |
| ImageHandles.Canvas.ToDataUrl | src/image/index.ts:105 | the data URL is the encoder's function of the canvas and the type |
| ImageHandles.Invoke | src/image/index.ts:81-130 | calling each kind of handle on the canvas has the effect and the return value Step gives |
| ImageHandles.ImageHandleContext.constructor | src/image/index.ts:136-139 | the context keeps the canvas it is given |
| ImageHandles.ImageHandleContext.HandleImage | src/image/index.ts:141-149 | calls the handles in order on the same canvas and collects their truthy results in call order; a thrown error stops the list; canvas and result are those of Run |
| ImageHandles.CreateImageHandleContext | src/image/index.ts:70-74 | a new context over a fresh default-size canvas |
| ImageHandles.RunAppend | src/image/index.ts:143-148 | running two lists one after the other is running their concatenation: each handle once, in order, results of the first list first |
| ImageHandles.Run | src/image/index.ts:141-149 | the handles run in order, each on the canvas the one before left; there is at most one collected result per handle |
| ImageHandles.RunResultsTruthy | src/image/index.ts:144-147 | every collected result is truthy |
| ImageHandles.RunSnoc | src/image/index.ts:143-148 | one more handle after a run that did not throw: its value joins the results when truthy, and its error ends the run |
| ImageHandles.RunStops | src/image/index.ts:143-148 | once a handle has thrown, the handles after it do not run and change nothing |
| ImageHandles.StepThrows | src/image/index.ts:111-130 | only toFile and toBlobResult throw, and only when parsing the canvas's data URL throws |
| ImageHandles.ClearWholeCanvas | src/image/index.ts:81-85 | clear() with no size clears from (0, 0) over the current canvas size; a width of 0 counts as an omitted width and a height of 0 as an omitted height, each whatever the other argument is |
| ImageHandles.ClearAfterResize | src/image/index.ts:81-85 | clear() after setWidthHeight(w, h) clears exactly the new w by h area |
| ImageHandles.DrawImageNaturalSize | src/image/index.ts:86-95 | drawImage with no size draws at the image's own size and at (0, 0) when x and y are omitted; a width of 0 counts as an omitted width and a height of 0 as an omitted height, each whatever the other argument is |
| ImageHandles.ExportsKeepCanvas | src/image/index.ts:103-130 | toImage, toFile, toDataURL and toBlobResult leave the canvas as it was |
| ImageHandles.ResizeForgetsDrawing | src/image/index.ts:97-102 | after setWidthHeight(w, h) the canvas is exactly w by h, and the rest of the list runs as on a fresh canvas of that size |
| ImageHandles.ToFileOfDataUrl | src/image/index.ts:111-120 | on a canvas whose data URL is `data:<mime>;base64,<payload>`, toFile gives the File of the decoded bytes named as asked and typed `<mime>`; it gives null for an empty payload and throws for an undecodable one |
| ImageHandles.EmptyBitmapExports | src/image/index.ts:111-130 | on a canvas that encodes to `data:,`, toDataURL gives that text, toFile gives null, and toBlobResult gives a result with neither type nor bytes |

## Left out

- `handleImage` accepts any function as a handle (src/image/index.ts:76-78), and `if (r)` then judges the truthiness of whatever it returns, such as `0`, `false` or `NaN`. The model has only the seven handles the `ImageHandles` factories build, so `ImageHandles.Truthy` covers only the six kinds of value they return.
- `fileToImage` is asynchronous. It works through a Promise, FileReader and an image `onload` callback, and none of that is modelled.
- Pixel rendering is not modelled. The canvas is its size plus the log of clearRect and drawImage calls since its bitmap was last cleared.
  - What canvas.toDataURL encodes is an uninterpreted function of that state and the type (`Host.toDataUrl`).
  - An exception from toDataURL, such as the SecurityError of a tainted canvas, is not modelled.
- The `quality` argument of the export handles is not modelled. It is a floating-point hint passed straight to the encoder.
- The internals of `atob` (forgiving base64, section 4 of RFC 4648) are not modelled. Decoding is the function `Host.atob`, or the `atob` parameter of dataUrlToBlob.
  - Apart from preconditions, the one fact used about atob is that it throws for the text "undefined", whose length leaves remainder 1 modulo 4.
  - atob("") is "" appears only as a precondition, of `DataUrl.ParseEmptyDataUrl` and of `ImageHandles.EmptyBitmapExports`.
- That a zero-size canvas encodes to "data:," appears only as a precondition of `ImageHandles.EmptyBitmapExports`.
- `Unique.NextNumbers` does not model the floating-point sum of `Date.getTime()`, `performance.now()` and `Math.random() * 16`.
  - The clock is a whole number of milliseconds.
  - Each draw is a digit supplied by `rand`, with the first draw absorbing the clock's fraction of a millisecond.
  - Loss of precision in that floating-point sum is not modelled.
- `Unique.NextNumbers` models `len` as an integer. A fractional `len` (which in JavaScript runs the loop ceil(len) times) is not modelled.
- `Unique.NextNumbers` models the callback by the values it returns, in call order. Effects the callback has elsewhere are not modelled.
- `Unique.ShortUUID` models the table as a sequence of elements. A string table is the sequence of its UTF-16 code units, which `length` and indexing count. Dafny's `string` holds Unicode scalar values, so `ShortUUID<char>` models a string table only when every character lies in the Basic Multilingual Plane: a table of 8 characters outside it has 16 code units, which the source accepts and `ShortUUID<char>` rejects.
- `ImageHandles.ImageHandleContext.HandleImage` returns the collected `result` list and the thrown error. The source builds the list and then discards it, returning nothing, and lets the error propagate.
- `ImageHandles.StepThrows`: an `ImageElement` has no broken state. In HTML, drawImage throws an InvalidStateError for a broken image (src/image/index.ts:94), and that error would end handleImage; the model never throws there.
- `ImageHandles.Invoke` models drawImage's reassignment of its captured `width`/`hegiht` as local defaulting.
  - Because an image's size is a fixed value here, invoking the handle again gives the same call.
  - The source keeps the first non-zero size it read, even if the image's size changes later. A size read as 0, as an image that has not loaded yet reports, is read again on the next call.
- `ImageHandles.Canvas.SetWidth` and `ImageHandles.Canvas.SetHeight` take any integer.
  - The HTML conversion of negative or fractional values to an unsigned size is not modelled.
  - Both clear the call log, because setting a canvas dimension resets its bitmap in HTML.
- `DataUrl.BlobResult.ToFile` keeps the MIME type as read. The File constructor normalises its type, and that is not modelled: a type holding any character outside U+0020 to U+007E becomes the empty string, and any other type is lower-cased.
- Character codes: Dafny characters are Unicode scalar values. `DataUrl.CharCode` stores a character's whole code modulo 256.
  - atob only produces codes below 256, so this agrees with the UTF-16 `charCodeAt` of the source.
- `dist/` is not part of this model. It is compiled output and type declarations that mirror `src/`.
- The `return null` after the split (src/image/index.ts:47-49) cannot happen, because split always yields at least one piece.
  - The model keeps the branch, and `DataUrl.DataUrlToBlob` proves that it is never taken.
  - `dataUrl.split(',')` splits on every comma, not only the first, and the model follows the code.
