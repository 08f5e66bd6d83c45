# Image enhancer: a Dafny model of its processing core

The page `js/main.js` lets a user pick images, enhances each one on a canvas
and offers the results one by one or as a zip archive. This project models the
parts of it that compute something:

- **Channel** (`channel.dfy`): the `truncate` clamp, the conversion a
  `Uint8ClampedArray` applies when a number is stored into it (ECMAScript
  ToUint8Clamp: clamp, then round half to even), and `Math.round`.
- **Pixels** (`pixels.dfy`): an RGBA buffer whose length is a multiple of 4,
  walked in steps of 4. The in-place loop rewrites R, G and B through a pixel
  transform and leaves alpha alone.
- **Enhance** (`enhance.dfy`): the enhancement formula. Contrast 1.3 and
  brightness +20 are applied to each channel, then saturation 1.15 about the
  mean of the three adjusted channels, with a clamp after each step. The
  enhancement runs as an in-place method over an `array`.
- **Resize** (`resize.dfy`): the canvas size. The ratio is `min(1, 800 / width)`
  and each side is the rounded scaled side.
- **Text** (`text.dfy`): JavaScript's `trim`, and a global replace of `/\s+/`
  by `_`, over JavaScript's whitespace set.
- **Naming** (`naming.dfy`):
  - stripping the extension with `/\.[^/.]+$/`;
  - the output file name;
  - the MIME type and quality handed to `toDataURL`;
  - the archive name;
  - `split(',')[1]` on a data URL.
- **Batch** (`batch.dfy`):
  - the page's session state `filesList`, `processedImages` and the overall
    progress bar, as a `class Session`;
  - file selection, the process button (a loop over the files in order) and
    the zip button;
  - the per-file pipeline: decode, size, draw, enhance in place, encode, name.

Reading a file, decoding it into an image, drawing it scaled onto a canvas and
encoding a canvas as a data URL are browser services. They are the three
function-typed fields of a `Platform` value passed to the process method. The
page's text fields, slider and format drop-down are inputs: `commonInput`,
`zipInput` and `Settings`. The model reads them once per press of a button;
the page reads the format once per image (see "## Left out").

JavaScript numbers are modelled as exact reals. Every value the enhancer
stores has been clamped first, so its bounds and structure carry over.

Three facts about the page shape the model:
- The page does not skip a file whose image fails to load. There is no
  error handler, so the batch waits for ever. The model's decode is total.
- The page does not skip a file whose canvas gets a zero side either. That
  happens for an image with a zero side and for one more than 1600 times as
  wide as it is high (2000 by 1, say), whose scaled height rounds to 0.
  Reading back such a canvas throws, the file's promise is never resolved,
  and the batch stops there with the bar at k/N. The model's process loop
  stops at that file in the same state.
- The archive payload is exactly `dataURL.split(',')[1]`: the text between
  the first comma and the next one, if any. Adding a file to the archive
  under a name already present replaces the earlier one, so the archive is a
  map from names.

## Model

| member | source | states |
|---|---|---|
| Channel.Truncate | js/main.js:78 | the result lies in [0, 255]; a value already in range is returned unchanged; below 0 gives 0, above 255 gives 255 |
| Channel.TruncateIdempotent | js/main.js:78 | clamping twice is clamping once |
| Channel.TruncateMonotone | js/main.js:78 | clamping keeps the order of values |
| Channel.ToUint8Clamp | js/main.js:209 | storing a number gives 0 at or below 0, 255 at or above 255, and otherwise a byte within 1/2 of the number |
| Channel.ToUint8ClampTiesToEven | js/main.js:209 | an exact half between two bytes is stored as the even one of the two |
| Channel.ToUint8ClampOfByte | js/main.js:209 | a number that already is a byte is stored unchanged |
| Channel.ToUint8ClampMonotone | js/main.js:209 | a larger number is never stored as a smaller byte |
| Channel.MathRound | js/main.js:191-192 | Math.round is an integer n with x - 1/2 < n <= x + 1/2, so halves round up |
| Channel.MathRoundOfInt | js/main.js:191-192 | Math.round leaves integers alone |
| Channel.MathRoundMonotone | js/main.js:191-192 | Math.round keeps order |
| Pixels.MapPixels | js/main.js:200-210 | the buffer after the pixel loop has the length of the buffer before it |
| Pixels.MapPixelsAt | js/main.js:200-210 | pixel p of the result is the transform of pixel p of the input, and its alpha byte is the input's alpha byte |
| Pixels.PixelsMappedIsMapPixels | js/main.js:200-210 | a buffer whose every pixel is the transform of the old pixel, keeping its alpha, is exactly the mapped buffer |
| Pixels.MapPixelsInPlace | js/main.js:200-210 | stepping i by 4, the loop writes only bytes i, i+1 and i+2; every pixel ends up transformed and every alpha byte keeps its value |
| Enhance.Contrasted | js/main.js:201-204 | the contrast and brightness step of a channel lies in [0, 255] |
| Enhance.Saturated | js/main.js:205-208 | the saturation step of a channel lies in [0, 255] |
| Enhance.StepsKeepOrder | js/main.js:201-209 | with the same mean, the two steps and the byte store never reverse the order of two channel values |
| Enhance.EnhancePixel | js/main.js:201-209 | the transform of one pixel, from the contrast step through the byte store; it never swaps the order of two of its channels (all six orderings) |
| Enhance.Enhanced | js/main.js:199-210 | enhancement keeps the buffer's length |
| Enhance.EnhancedKeepsAlpha | js/main.js:200-210 | every byte at an index 3 mod 4 (alpha) is unchanged by the enhancement |
| Enhance.EnhancedPixelAt | js/main.js:200-210 | the enhanced colour of pixel p is the pixel formula applied to the old colour of p |
| Enhance.EnhancedPixelwise | js/main.js:200-210 | pixels are enhanced independently: equal old colours at p give equal new colours at p, whatever the other pixels and the alpha bytes hold |
| Enhance.GreyStaysGrey | js/main.js:201-209 | a grey pixel (r = g = b) stays grey, because the saturation step changes nothing when every channel equals the mean; its level is the stored contrast step of the old level |
| Enhance.BlackAndWhiteFixed | js/main.js:201-209 | black and white are left as they are |
| Enhance.EnhanceNotIdempotent | js/main.js:199-209 | grey 128 becomes 148, and enhancing again gives 174: enhancement is not idempotent |
| Enhance.ContrastedMonotone | js/main.js:202-204 | the contrast step keeps the order of channel values |
| Enhance.EnhanceInPlace | js/main.js:197-211 | the in-place loop leaves the byte array equal to the enhanced old contents, and every alpha byte unchanged |
| Resize.Ratio | js/main.js:189-190 | the ratio is in (0, 1]; it is 1 for widths up to 800 (and for 0, where 800/0 is Infinity) and scales wider images to exactly 800 |
| Resize.CanvasSize | js/main.js:189-192 | each side is within 1/2 of the exact scaled side |
| Resize.NarrowUnchanged | js/main.js:189-192 | an image at most 800 wide keeps its size |
| Resize.WideBecomesMaxWidth | js/main.js:189-192 | a wider image gets width exactly 800 and height round(h * 800 / w) |
| Resize.NeverUpscales | js/main.js:189-192 | neither side grows, no side is negative, and the width is at most 800 |
| Resize.ZeroSide | js/main.js:189-192 | the canvas has a zero side exactly when the image has one or is more than 1600 times as wide as it is high (both directions) |
| Text.IsSpace | js/main.js:252 | the white-space set that `trim` removes and `\s` matches: tab, line feed, vertical tab, form feed, carriage return, space, U+00A0, U+1680, U+2000 to U+200A, U+2028, U+2029, U+202F, U+205F, U+3000 and U+FEFF |
| Text.TrimStart | js/main.js:163 | the result is a suffix of the input that does not start with white space, and everything removed is white space |
| Text.TrimEnd | js/main.js:163 | the result is a prefix of the input that does not end with white space, and everything removed is white space |
| Text.Trim | js/main.js:163 | trim is no longer than its input and has white space at neither end |
| Text.TrimCuts | js/main.js:163 | trim is the piece of the input between its leading and trailing white space, and everything cut off is white space |
| Text.TrimEmpty | js/main.js:252 | trim is empty exactly when the input is all white space (both directions) |
| Text.TrimAround | js/main.js:163 | trim removes exactly the white space around a piece that starts and ends with other characters |
| Text.TrimNoSpace | js/main.js:163 | a string without white space is its own trim |
| Text.UnderscoreSpaces | js/main.js:252 | the replace leaves no white space, never lengthens, and gives the empty string only for the empty string |
| Text.UnderscoreSpacesKeepsWord | js/main.js:252 | characters other than white space are copied one for one |
| Text.UnderscoreSpacesRun | js/main.js:252 | a maximal run of white space becomes a single underscore |
| Text.UnderscoreSpacesTwoWords | js/main.js:252 | two words with white space between them are joined by one underscore |
| Text.UnderscoreSpacesNoSpace | js/main.js:252 | a string without white space is unchanged, so replacing twice is replacing once |
| Naming.ScanExtension | js/main.js:87 | the backwards scan finds a position where the extension regex matches, or reports correctly that there is none |
| Naming.ExtensionDotUnique | js/main.js:87 | the regex matches in at most one place |
| Naming.BaseName | js/main.js:216 | the base name is a prefix of the name; it is the whole name exactly when the regex does not match, and otherwise it ends where the matched dot begins |
| Naming.BaseNameExamples | js/main.js:87 | "photo.JPG" gives "photo", "a.b.c" gives "a.b", "photo." and "photo" are unchanged, ".hidden" gives "", "v1.0/x" is unchanged |
| Naming.BaseNameOfExtension | js/main.js:216 | stripping a non-empty extension without dot or slash gives back what precedes its dot |
| Naming.OutputName | js/main.js:217 | the output name ends with a dot and the format |
| Naming.OutputNameStrips | js/main.js:216-217 | for a format without dot or slash, stripping the extension of the output name gives back the prefixed (or bare) base name |
| Naming.OutputNameIgnoresExtension | js/main.js:216-217 | files that differ only in their extension get the same output name |
| Naming.OutputNameExamples | js/main.js:217 | common name "trip", file "photo.JPG", format "png" give "trip_photo.png"; no common name gives "photo.jpeg" for JPEG |
| Naming.Mime | js/main.js:218 | the MIME type always starts with "image/", and both "jpg" and "jpeg" give "image/jpeg" |
| Naming.MimeInjective | js/main.js:218 | two formats share a MIME type exactly when they are equal or are the two spellings jpg and jpeg (both directions) |
| Naming.Quality | js/main.js:219 | a quality is passed exactly for jpeg and jpg; it is the slider value divided by 100, so within [0, 1] for slider values 0 to 100 |
| Naming.EncoderArgs | js/main.js:218-219 | the arguments handed to `toDataURL`: a quality is passed exactly when the MIME type is "image/jpeg", and it is the slider value divided by 100 |
| Naming.DefaultFormatIsJpeg | js/main.js:20 | with the initial format the encoder gets "image/jpeg" and the slider's quality |
| Naming.ZipName | js/main.js:252 | the archive name is never empty and has no white space; all-white-space input gives "enhanced_images"; otherwise it is the replace applied to the trimmed input |
| Naming.DefaultZipNameClean | js/main.js:252 | the fallback name has no white space, so the replace leaves it as it is |
| Naming.ZipFileName | js/main.js:252-261 | the download name is longer than ".zip", ends with ".zip" and has no white space |
| Naming.ZipNameIdempotent | js/main.js:252 | sanitising an archive name again changes nothing |
| Naming.ZipNameTwoWords | js/main.js:252 | two words with white space between and around them give the words joined by one underscore, as "My Photos" gives "My_Photos" |
| Naming.IndexOf | js/main.js:255 | the first position of a character, or none when it does not occur |
| Naming.SecondField | js/main.js:255 | the field after the first comma is undefined exactly when there is no comma |
| Naming.IndexOfAfter | js/main.js:255 | the first comma of header + "," + rest is the one after the header, when the header has none |
| Naming.SecondFieldOfDataUrl | js/main.js:255 | for a data URL whose only comma ends the header, the field is the whole base64 payload |
| Batch.Canvas | js/main.js:189-192 | the canvas size of one file: CanvasSize of its decoded image, so at most 800 wide and never larger than the image (Resize.NeverUpscales) |
| Batch.Drawn | js/main.js:193-197 | the RGBA bytes read back after drawing the decoded image onto its canvas; what they hold is the browser's, so no contract constrains them |
| Batch.Stalls | js/main.js:197 | a file stalls when its canvas has a zero side, where `getImageData` throws IndexSizeError and the file's promise is never resolved |
| Batch.StallsIff | js/main.js:189-197 | a file stalls, its canvas having a zero side that getImageData refuses, exactly when its image has a zero side or is more than 1600 times as wide as it is high |
| Batch.FirstStall | js/main.js:170-197 | the index of the first file that stalls: every earlier file does not stall, and the file there does, unless the index is the number of files |
| Batch.ProcessOne | js/main.js:172-226 | a file's result is named from its file name, the trimmed common name and the format |
| Batch.ProcessAll | js/main.js:170-238 | a batch gives one result per file |
| Batch.ProcessAllAt | js/main.js:170-238 | result k is what the page produces for file k, so results are in input order |
| Batch.ProcessAllAppend | js/main.js:170-238 | files are processed independently: a joined batch gives the joined results |
| Batch.ProcessFile | js/main.js:172-226 | one file gives no result exactly when it stalls at getImageData; otherwise decoding, sizing, drawing, enhancing the canvas bytes in place, encoding and naming it give ProcessOne of that file |
| Batch.Progress | js/main.js:238 | the bar width after `completed` of N files, (completed / N) · 100 percent; its bounds and growth are ProgressBounds and ProgressIncreasing |
| Batch.ProgressBounds | js/main.js:166-238 | the bar starts at 0, stays within 0 to 100 percent, and is full exactly when every file is done |
| Batch.ProgressIncreasing | js/main.js:237-238 | the bar moves forward with every completed file |
| Batch.Entries | js/main.js:254-257 | the archive the forEach builds; the last result added is always present under its name with its payload |
| Batch.AddEntries | js/main.js:254-257 | the forEach over the results builds the archive entries, each data URL's payload added under its name |
| Batch.EntriesKeys | js/main.js:254-257 | the archive has exactly one entry per distinct output name |
| Batch.EntriesLastWins | js/main.js:254-257 | the entry for a name holds the payload of the last result with that name |
| Batch.EntriesOnePerResult | js/main.js:254-257 | with pairwise different names, every result's payload is in the archive under its name |
| Batch.Session.constructor | js/main.js:74-75 | the session starts with no files and no results |
| Batch.Session.Select | js/main.js:135-145 | choosing files, by dropping or by the file input, makes them the batch and discards all earlier results |
| Batch.Session.Process | js/main.js:161-238 | with no files the button refuses and changes nothing; otherwise, with s the first file that stalls (or N), the results are exactly ProcessAll of the files before s with the trimmed common name, the bar stops at s/N·100 after the widths k/N·100 for k = 0..s, and it ends full exactly when no file stalls |
| Batch.Session.ProcessFiles | js/main.js:165-238 | earlier results are discarded; the results are those of the files before the first one that stalls, in input order; the bar passes through k/N·100 up to that file, as `completed` counts the files done, and ends full exactly when no file stalls |
| Batch.Session.ExportZip | js/main.js:250-261 | with no results the button refuses; otherwise the archive holds the entries of the results and is named ZipName + ".zip" |

## Left out

- DOM construction, gallery cards, per-item mini bars, the single-image
  download buttons, toasts and `setTimeout` (js/main.js:79-129, 222-234):
  user interface only.
- `previewFiles` (js/main.js:148-158): it only builds preview cards.
- `localStorage` persistence of settings and the custom format drop-down
  (js/main.js:22-72): they only decide which values reach `Settings`.
- `parseInt` of the slider value: the quality is taken as the integer it
  yields.
- Reading and decoding files, `drawImage` resampling, the bytes
  `getImageData` returns and `toDataURL` encoding: browser services,
  modelled as the uninterpreted total functions of `Platform`. The one
  failure of `getImageData` the page's own sizing can cause, a canvas with
  a zero side, is modelled as the stall it causes.
- A failed image load: the page has no error handler, so the batch stalls.
  The model's decode always succeeds.
- JSZip's compression, `generateAsync` and the blob download
  (js/main.js:253-264): a foreign library. The model stops at the map of
  names to payloads handed to it and the download name.
- Batch.Session.Process: `async`/`await` and promise sequencing are left
  out; the batch is a sequential loop that nothing else interleaves with.
  So the model does not capture three effects of user actions during a run:
  - The page reads `filesList` afresh on every iteration, so selecting new
    files would change the bound and the progress.
  - The page reads `selectedFormat` only when each image has loaded
    (js/main.js:217-219), while the common name and quality are read once
    (js/main.js:163-164). Picking another format in the drop-down
    (js/main.js:55) would change the names, MIME type and quality of the
    remaining files. The model passes one `Settings` for the whole run.
  - A second press of the process button would reassign `processedImages`
    (js/main.js:167) while the first loop still pushes into it
    (js/main.js:225). The model runs one batch at a time.
- Bit-exact IEEE-754 arithmetic for 1.3, 1.15 and the divisions: numbers
  are exact reals. The byte store is ECMAScript's ToUint8Clamp applied to
  these exact values.
- The initial width of the progress bar comes from the page's stylesheet,
  which is not part of this model. The constructor starts it at 0.
