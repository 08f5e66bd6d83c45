/** How processed images and the archive are named, and the arguments the
    page hands to the canvas encoder. */
module Naming {
  import opened Wrappers
  import opened Text

  /** d is where the regular expression `/\.[^/.]+$/` matches in s: a dot
      followed, up to the end, by at least one character and by no dot and
      no slash. */
  predicate IsExtensionDot(s: string, d: int) {
    0 <= d < |s| - 1 && s[d] == '.' &&
    forall j :: d < j < |s| ==> s[j] != '.' && s[j] != '/'
  }

  /** Scans s from position j towards the front for the dot that starts an
      extension, given that nothing after j is a dot or a slash. */
  function ScanExtension(s: string, j: int): (r: Option<nat>)
    requires -1 <= j < |s|
    requires forall k :: j < k < |s| ==> s[k] != '.' && s[k] != '/'
    ensures r.Some? ==> IsExtensionDot(s, r.value)
    ensures r.None? ==> forall d :: !IsExtensionDot(s, d)
    decreases j + 1
  {
    if j < 0 then None
    else if s[j] == '/' then None
    else if s[j] == '.' then (if j < |s| - 1 then Some(j) else None)
    else ScanExtension(s, j - 1)
  }

  /** The regular expression matches in at most one place. */
  lemma ExtensionDotUnique(s: string, d: int, e: int)
    requires IsExtensionDot(s, d) && IsExtensionDot(s, e)
    ensures d == e
  {
  }

  /** `name.replace(/\.[^/.]+$/, '')`: the name without a trailing
      extension; a name with no extension is returned as it is. */
  function BaseName(name: string): (r: string)
    ensures |r| <= |name| && r == name[..|r|]
    ensures r == name <==> forall d :: !IsExtensionDot(name, d)
    ensures r != name ==> IsExtensionDot(name, |r|)
  {
    match ScanExtension(name, |name| - 1)
    case Some(d) => name[..d]
    case None => name
  }

  lemma BaseNameExamples()
    ensures BaseName("photo.JPG") == "photo"
    ensures BaseName("a.b.c") == "a.b"
    ensures BaseName("photo.") == "photo."
    ensures BaseName("photo") == "photo"
    ensures BaseName(".hidden") == ""
    ensures BaseName("v1.0/x") == "v1.0/x"
  {
    assert IsExtensionDot("photo.JPG", 5);
    assert IsExtensionDot("a.b.c", 3);
    assert !IsExtensionDot("photo.", 5) && forall d :: !IsExtensionDot("photo.", d);
    assert IsExtensionDot(".hidden", 0);
    assert forall d :: !IsExtensionDot("v1.0/x", d) by {
      forall d ensures !IsExtensionDot("v1.0/x", d) {
        if 0 <= d < 4 { assert "v1.0/x"[4] == '/'; }
      }
    }
  }

  /** The file name of a processed image: the trimmed common name, if any,
      and an underscore, then the base name, a dot and the format. */
  function OutputName(common: string, fileName: string, format: string): (r: string)
    ensures |r| > |format| && r[|r| - |format| - 1..] == "." + format
  {
    Stem(common, fileName) + "." + format
  }

  /** The part of an output name before its format: the base name, after
      the common name and an underscore when there is a common name. */
  function Stem(common: string, fileName: string): string {
    if common != "" then common + "_" + BaseName(fileName) else BaseName(fileName)
  }

  /** Stripping a proper extension (not empty, no dot, no slash) gives back
      exactly what precedes its dot. */
  lemma BaseNameOfExtension(stem: string, ext: string)
    requires ext != [] && forall k :: 0 <= k < |ext| ==> ext[k] != '.' && ext[k] != '/'
    ensures BaseName(stem + "." + ext) == stem
  {
    var s := stem + "." + ext;
    assert IsExtensionDot(s, |stem|);
    ExtensionDotUnique(s, |BaseName(s)|, |stem|);
  }

  /** Naming round trip: when the format is a proper extension, stripping
      the extension of an output name gives back the prefixed base name. */
  lemma OutputNameStrips(common: string, fileName: string, format: string)
    requires format != [] && forall k :: 0 <= k < |format| ==> format[k] != '.' && format[k] != '/'
    ensures BaseName(OutputName(common, fileName, format)) == Stem(common, fileName)
  {
    BaseNameOfExtension(Stem(common, fileName), format);
  }

  /** The output name does not depend on the input's extension: files that
      differ only there get the same name ("a.png" and "a.jpg" both give
      "a.png" as PNG). */
  lemma OutputNameIgnoresExtension(common: string, stem: string, e1: string, e2: string, format: string)
    requires e1 != [] && forall k :: 0 <= k < |e1| ==> e1[k] != '.' && e1[k] != '/'
    requires e2 != [] && forall k :: 0 <= k < |e2| ==> e2[k] != '.' && e2[k] != '/'
    ensures OutputName(common, stem + "." + e1, format) == OutputName(common, stem + "." + e2, format)
  {
    BaseNameOfExtension(stem, e1);
    BaseNameOfExtension(stem, e2);
  }

  lemma OutputNameExamples()
    ensures OutputName("trip", "photo.JPG", "png") == "trip_photo.png"
    ensures OutputName("", "photo.JPG", "jpeg") == "photo.jpeg"
  {
    BaseNameExamples();
  }

  /** The encoder arguments: a MIME type and, for JPEG only, a quality. */
  datatype EncodeArgs = EncodeArgs(mime: string, quality: Option<real>)

  /** The MIME type for a selected format: "jpg" is spelled "jpeg". */
  function Mime(format: string): (m: string)
    ensures |m| >= 6 && m[..6] == "image/"
    ensures format == "jpg" || format == "jpeg" ==> m == "image/jpeg"
  {
    "image/" + (if format == "jpg" then "jpeg" else format)
  }

  /** Two formats give the same MIME type exactly when they are equal or
      are the two spellings of JPEG. */
  lemma MimeInjective(a: string, b: string)
    ensures Mime(a) == Mime(b) <==> a == b || (a in {"jpg", "jpeg"} && b in {"jpg", "jpeg"})
  {
    var ta := if a == "jpg" then "jpeg" else a;
    var tb := if b == "jpg" then "jpeg" else b;
    assert Mime(a)[6..] == ta && Mime(b)[6..] == tb;
  }

  /** A quality of percent / 100 is passed for "jpeg" and "jpg" only; other
      formats get the encoder's default. */
  function Quality(format: string, percent: int): (q: Option<real>)
    ensures q.Some? <==> format == "jpeg" || format == "jpg"
    ensures q.Some? ==> q.value * 100.0 == percent as real
    ensures q.Some? && 0 <= percent <= 100 ==> 0.0 <= q.value <= 1.0
  {
    if format == "jpeg" || format == "jpg" then Some(percent as real / 100.0) else None
  }

  /** The format selected when the page loads. */
  const DefaultFormat: string := "jpeg"

  /** By default the image is encoded as JPEG with the slider's quality. */
  lemma DefaultFormatIsJpeg(percent: int)
    ensures EncoderArgs(DefaultFormat, percent) == EncodeArgs("image/jpeg", Some(percent as real / 100.0))
  {
  }

  /** The arguments handed to toDataURL: a quality is passed exactly when
      the MIME type is JPEG, and it is the slider's percentage. */
  function EncoderArgs(format: string, percent: int): (r: EncodeArgs)
    ensures r.quality.Some? <==> r.mime == "image/jpeg"
    ensures r.quality.Some? ==> r.quality.value * 100.0 == percent as real
  {
    MimeInjective(format, "jpeg");
    EncodeArgs(Mime(format), Quality(format, percent))
  }

  const DefaultZipName: string := "enhanced_images"

  /** The archive's base name: the trimmed input, or "enhanced_images" when
      that is empty, with every run of white space made one underscore. */
  function ZipName(input: string): (r: string)
    ensures r != [] && NoSpace(r)
    ensures AllSpace(input) ==> r == DefaultZipName
    ensures !AllSpace(input) ==> r == UnderscoreSpaces(Trim(input))
  {
    var t := Trim(input);
    TrimEmpty(input);
    DefaultZipNameClean();
    UnderscoreSpaces(if t == [] then DefaultZipName else t)
  }

  /** The fallback name has no white space, so the replace keeps it. */
  lemma DefaultZipNameClean()
    ensures NoSpace(DefaultZipName) && UnderscoreSpaces(DefaultZipName) == DefaultZipName
  {
    assert NoSpace(DefaultZipName);
    UnderscoreSpacesNoSpace(DefaultZipName);
  }

  const ZipExtension: string := ".zip"

  /** A clean name followed by ".zip" is a clean name ending with ".zip". */
  lemma WithZipExtension(z: string)
    requires z != [] && NoSpace(z)
    ensures |z + ZipExtension| > 4 && (z + ZipExtension)[|z + ZipExtension| - 4..] == ZipExtension
    ensures NoSpace(z + ZipExtension)
  {
    VisibleNoSpace(ZipExtension);
    NoSpaceAppend(z, ZipExtension);
    assert (z + ZipExtension)[|z|..] == ZipExtension;
  }

  /** The download name of the archive: a non-empty name without white
      space, then ".zip". */
  function ZipFileName(input: string): (r: string)
    ensures |r| > 4 && r[|r| - 4..] == ZipExtension && NoSpace(r)
  {
    var z := ZipName(input);
    WithZipExtension(z);
    z + ZipExtension
  }

  /** Sanitising a sanitised name changes nothing. */
  lemma ZipNameIdempotent(input: string)
    ensures ZipName(ZipName(input)) == ZipName(input)
  {
    var z := ZipName(input);
    TrimNoSpace(z);
    TrimEmpty(z);
    UnderscoreSpacesNoSpace(z);
  }

  /** Two words with white space between them and around them become the
      two words joined by one underscore ("  My  Photos " gives "My_Photos"). */
  lemma ZipNameTwoWords(lead: string, a: string, gap: string, b: string, trail: string)
    requires a != [] && b != [] && NoSpace(a) && NoSpace(b)
    requires gap != [] && AllSpace(gap) && AllSpace(lead) && AllSpace(trail)
    ensures ZipName(lead + a + gap + b + trail) == a + "_" + b
  {
    var inner := a + gap + b;
    assert lead + a + gap + b + trail == lead + inner + trail;
    assert inner[0] == a[0] && inner[|inner| - 1] == b[|b| - 1];
    TrimAround(lead, inner, trail);
    TrimEmpty(lead + inner + trail);
    UnderscoreSpacesTwoWords(a, gap, b);
  }

  /** Position of the first c in s, if any. */
  function IndexOf(s: string, c: char): (r: Option<nat>)
    ensures r.Some? ==> r.value < |s| && s[r.value] == c && c !in s[..r.value]
    ensures r.None? ==> c !in s
  {
    if s == [] then None
    else if s[0] == c then Some(0)
    else match IndexOf(s[1..], c)
      case None => None
      case Some(i) => assert s[1..][..i] == s[1..i + 1]; Some(i + 1)
  }

  /** `url.split(',')[1]`: the text between the first comma and the next
      (or the end); undefined when there is no comma. */
  function SecondField(url: string): (r: Option<string>)
    ensures r.None? <==> ',' !in url
  {
    match IndexOf(url, ',')
    case None => None
    case Some(i) =>
      var rest := url[i + 1..];
      match IndexOf(rest, ',')
      case None => Some(rest)
      case Some(j) => Some(rest[..j])
  }

  /** The first c in a + b is at |a| when a has none and b starts with c. */
  lemma {:induction false} IndexOfAfter(a: string, b: string, c: char)
    requires c !in a && b != [] && b[0] == c
    ensures IndexOf(a + b, c) == Some(|a|)
  {
    if a != [] {
      assert (a + b)[1..] == a[1..] + b;
      IndexOfAfter(a[1..], b, c);
    } else {
      assert a + b == b;
    }
  }

  /** For a data URL, whose only comma ends the header, the field is the
      whole base64 payload. */
  lemma SecondFieldOfDataUrl(header: string, payload: string)
    requires ',' !in header && ',' !in payload
    ensures SecondField(header + "," + payload) == Some(payload)
  {
    var url := header + "," + payload;
    assert url == header + ("," + payload);
    IndexOfAfter(header, "," + payload, ',');
    assert url[|header| + 1..] == payload;
  }
}
