/** The page's batch session: the selected files, the processed results,
    the overall progress bar, and what the archive download is built from.
    The browser services the loop relies on (reading and decoding a file,
    drawing onto a canvas, encoding a canvas as a data URL) are parameters. */
module Batch {
  import opened Wrappers
  import opened Channel
  import opened Pixels
  import opened Enhance
  import opened Resize
  import opened Text
  import opened Naming

  /** A file the user picked: its name and its bytes. */
  datatype SourceFile = SourceFile(name: string, bytes: seq<Byte>)

  /** A decoded image at its natural size. */
  datatype Picture = Picture(width: nat, height: nat, pixels: ImageData)

  /** The browser services used per file: decode the file into an image,
      draw the image scaled onto a canvas of the given size and read back its
      RGBA bytes, and encode RGBA bytes of the given size as a data URL with
      the given encoder arguments. */
  datatype Platform = Platform(
    decode: SourceFile -> Picture,
    draw: (Picture, int, int) -> ImageData,
    encode: (ImageData, int, int, EncodeArgs) -> string)

  /** The format chosen in the drop-down (DefaultFormat until the user picks
      one) and the value of the quality slider. */
  datatype Settings = Settings(format: string, quality: int)

  /** One processed result: its output file name and its data URL. */
  datatype Processed = Processed(name: string, data: string)

  /** Why a button did nothing but show an alert. */
  datatype Refusal = NoFilesSelected | NothingProcessed

  /** The archive handed to the zip library and its download name. Adding a
      file under a name already present replaces it, so entries is a map;
      None stands for an undefined payload. */
  datatype Archive = Archive(fileName: string, entries: map<string, Option<string>>)

  /** The canvas one file is drawn onto: at most 800 wide (NeverUpscales). */
  function Canvas(file: SourceFile, platform: Platform): Size {
    var picture := platform.decode(file);
    CanvasSize(picture.width, picture.height)
  }

  /** The pixels the page enhances for one file: the image drawn onto its
      canvas. */
  function Drawn(file: SourceFile, platform: Platform): ImageData {
    var size := Canvas(file, platform);
    platform.draw(platform.decode(file), size.width, size.height)
  }

  /** Reading back a canvas with a zero side throws IndexSizeError, as the
      HTML Living Standard specifies for getImageData. The image's onload handler
      then ends early, its promise is never resolved, and the batch waits at
      this file for ever. */
  predicate Stalls(file: SourceFile, platform: Platform) {
    Canvas(file, platform).width == 0 || Canvas(file, platform).height == 0
  }

  /** A file stalls exactly when its image has a zero side or is more than
      1600 times as wide as it is high (2000 by 1, say). */
  lemma StallsIff(file: SourceFile, platform: Platform)
    ensures Stalls(file, platform)
        <==> var p := platform.decode(file); p.width == 0 || p.height == 0 || 1600 * p.height < p.width
  {
    var p := platform.decode(file);
    ZeroSide(p.width, p.height);
  }

  /** The index of the first file that stalls, or the number of files when
      none does. */
  function FirstStall(files: seq<SourceFile>, platform: Platform): (k: nat)
    ensures k <= |files|
    ensures forall j :: 0 <= j < k ==> !Stalls(files[j], platform)
    ensures k < |files| ==> Stalls(files[k], platform)
  {
    if files == [] || Stalls(files[0], platform) then 0
    else 1 + FirstStall(files[1..], platform)
  }

  /** What the page produces for one file that does not stall, with common
      the trimmed common name. */
  function ProcessOne(file: SourceFile, common: string, settings: Settings, platform: Platform): (p: Processed)
    ensures p.name == OutputName(common, file.name, settings.format)
  {
    var size := Canvas(file, platform);
    Processed(OutputName(common, file.name, settings.format),
              platform.encode(Enhanced(Drawn(file, platform)), size.width, size.height,
                              EncoderArgs(settings.format, settings.quality)))
  }

  /** The results of running step on each file, in file order. */
  function MapFiles(files: seq<SourceFile>, step: SourceFile -> Processed): (ps: seq<Processed>)
    ensures |ps| == |files|
  {
    if files == [] then []
    else MapFiles(files[..|files| - 1], step) + [step(files[|files| - 1])]
  }

  lemma {:induction false} MapFilesAt(files: seq<SourceFile>, step: SourceFile -> Processed, k: nat)
    requires k < |files|
    ensures MapFiles(files, step)[k] == step(files[k])
  {
    var init := files[..|files| - 1];
    if k < |files| - 1 {
      MapFilesAt(init, step, k);
      assert init[k] == files[k];
    }
  }

  lemma {:induction false} MapFilesAppend(a: seq<SourceFile>, b: seq<SourceFile>, step: SourceFile -> Processed)
    ensures MapFiles(a + b, step) == MapFiles(a, step) + MapFiles(b, step)
    decreases |b|
  {
    if b == [] {
      assert a + b == a;
    } else {
      var ab := a + b;
      assert ab[..|ab| - 1] == a + b[..|b| - 1];
      assert ab[|ab| - 1] == b[|b| - 1];
      MapFilesAppend(a, b[..|b| - 1], step);
    }
  }

  /** The results of a whole batch, one per file, in file order. */
  function ProcessAll(files: seq<SourceFile>, common: string, settings: Settings, platform: Platform): (ps: seq<Processed>)
    ensures |ps| == |files|
  {
    MapFiles(files, file => ProcessOne(file, common, settings, platform))
  }

  /** Result k is what the page produces for file k. */
  lemma ProcessAllAt(files: seq<SourceFile>, common: string, settings: Settings, platform: Platform, k: nat)
    requires k < |files|
    ensures ProcessAll(files, common, settings, platform)[k] == ProcessOne(files[k], common, settings, platform)
  {
    MapFilesAt(files, file => ProcessOne(file, common, settings, platform), k);
  }

  /** Each file is processed on its own: the results for two batches one
      after the other are the results of the joined batch. */
  lemma ProcessAllAppend(a: seq<SourceFile>, b: seq<SourceFile>, common: string, settings: Settings, platform: Platform)
    ensures ProcessAll(a + b, common, settings, platform)
         == ProcessAll(a, common, settings, platform) + ProcessAll(b, common, settings, platform)
  {
    MapFilesAppend(a, b, file => ProcessOne(file, common, settings, platform));
  }

  /** The width of the overall progress bar, in percent, after completed of
      total files. */
  function Progress(completed: nat, total: nat): real
    requires 0 < total
  {
    completed as real / total as real * 100.0
  }

  /** The bar starts empty, stays within 0 to 100 percent, and is full
      exactly when every file is done. */
  lemma ProgressBounds(completed: nat, total: nat)
    requires 0 < total
    ensures completed <= total ==> 0.0 <= Progress(completed, total) <= 100.0
    ensures Progress(completed, total) == 100.0 <==> completed == total
    ensures completed == 0 ==> Progress(completed, total) == 0.0
  {
  }

  /** The bar only moves forward. */
  lemma ProgressIncreasing(j: nat, k: nat, total: nat)
    requires 0 < total && j < k
    ensures Progress(j, total) < Progress(k, total)
  {
    var t := total as real;
    assert j as real / t < k as real / t by {
      assert j as real / t * t == j as real && k as real / t * t == k as real;
    }
  }

  /** The archive entries for some results, added one after the other: the
      payload of each data URL is its text after the first comma. */
  function Entries(ps: seq<Processed>): (m: map<string, Option<string>>)
    ensures ps != [] ==> ps[|ps| - 1].name in m && m[ps[|ps| - 1].name] == SecondField(ps[|ps| - 1].data)
  {
    if ps == [] then map[]
    else
      var last := ps[|ps| - 1];
      Entries(ps[..|ps| - 1])[last.name := SecondField(last.data)]
  }

  /** Entries of the first i results, one result at a time; all of them
      when i is the number of results. */
  lemma EntriesStep(ps: seq<Processed>, i: nat)
    requires i <= |ps|
    ensures i < |ps| ==> Entries(ps[..i + 1]) == Entries(ps[..i])[ps[i].name := SecondField(ps[i].data)]
    ensures i == |ps| ==> Entries(ps[..i]) == Entries(ps)
  {
    if i < |ps| {
      assert ps[..i + 1][..i] == ps[..i];
    } else {
      assert ps[..i] == ps;
    }
  }

  /** The forEach over the results that adds each one to the archive. */
  method AddEntries(results: seq<Processed>) returns (zip: map<string, Option<string>>)
    ensures zip == Entries(results)
  {
    zip := map[];
    for i := 0 to |results|
      invariant zip == Entries(results[..i])
    {
      var img := results[i];
      var base64 := SecondField(img.data);
      EntriesStep(results, i);
      zip := zip[img.name := base64];
    }
    EntriesStep(results, |results|);
  }

  /** The archive holds one entry per distinct output name. */
  lemma {:induction false} EntriesKeys(ps: seq<Processed>)
    ensures Entries(ps).Keys == set p | p in ps :: p.name
  {
    if ps != [] {
      var init := ps[..|ps| - 1];
      EntriesKeys(init);
      assert ps == init + [ps[|ps| - 1]];
      assert forall p :: p in ps <==> p in init || p == ps[|ps| - 1];
    }
  }

  /** The entry for a name holds the payload of the last result with that
      name: earlier ones are overwritten. */
  lemma {:induction false} EntriesLastWins(ps: seq<Processed>, k: nat)
    requires k < |ps|
    requires forall j :: k < j < |ps| ==> ps[j].name != ps[k].name
    ensures ps[k].name in Entries(ps) && Entries(ps)[ps[k].name] == SecondField(ps[k].data)
  {
    var init := ps[..|ps| - 1];
    if k < |ps| - 1 {
      assert init[k] == ps[k];
      EntriesLastWins(init, k);
    }
  }

  /** Results with pairwise different names give one entry each. */
  lemma EntriesOnePerResult(ps: seq<Processed>)
    requires forall i, j :: 0 <= i < j < |ps| ==> ps[i].name != ps[j].name
    ensures forall k :: 0 <= k < |ps| ==> ps[k].name in Entries(ps) && Entries(ps)[ps[k].name] == SecondField(ps[k].data)
  {
    forall k | 0 <= k < |ps|
      ensures ps[k].name in Entries(ps) && Entries(ps)[ps[k].name] == SecondField(ps[k].data)
    {
      EntriesLastWins(ps, k);
    }
  }

  /** The work done for one file: decode it, draw it onto a canvas of the
      computed size, read the canvas back (which throws, giving None, when a
      side is 0), enhance its bytes in place, encode the canvas and name the
      result. */
  method ProcessFile(file: SourceFile, common: string, settings: Settings, platform: Platform)
    returns (p: Option<Processed>)
    ensures p.None? <==> Stalls(file, platform)
    ensures p.Some? ==> p.value == ProcessOne(file, common, settings, platform)
  {
    var picture := platform.decode(file);
    var size := CanvasSize(picture.width, picture.height);
    if size.width == 0 || size.height == 0 {
      return None;
    }
    var drawn := platform.draw(picture, size.width, size.height);
    var data := new Byte[|drawn|](i requires 0 <= i < |drawn| => drawn[i]);
    assert data[..] == drawn;
    EnhanceInPlace(data);
    var outName := OutputName(common, file.name, settings.format);
    var mime := Mime(settings.format);
    var quality := Quality(settings.format, settings.quality);
    var dataUrl := platform.encode(data[..], size.width, size.height, EncodeArgs(mime, quality));
    return Some(Processed(outName, dataUrl));
  }

  /** The session state kept by the page between button presses. */
  class Session {
    var filesList: seq<SourceFile>
    var processedImages: seq<Processed>
    /** Width of the overall progress bar, in percent. */
    var progress: real

    constructor()
      ensures filesList == [] && processedImages == [] && progress == 0.0
    {
      filesList, processedImages, progress := [], [], 0.0;
    }

    /** Choosing files, by the file input or by dropping them: they become
        the batch and earlier results are discarded. */
    method Select(files: seq<SourceFile>)
      modifies this
      ensures filesList == files && processedImages == [] && progress == old(progress)
    {
      filesList := files;
      processedImages := [];
    }

    /** The process button. With no files it refuses and changes nothing.
        Otherwise it processes the files with the trimmed common name, up to
        the first file that stalls, and returns the successive widths of the
        progress bar. */
    method Process(commonInput: string, settings: Settings, platform: Platform)
      returns (r: Result<seq<real>, Refusal>)
      modifies this
      ensures filesList == old(filesList)
      ensures filesList == [] ==>
        r == Failure(NoFilesSelected) && processedImages == old(processedImages) && progress == old(progress)
      ensures filesList != [] ==>
        var k := FirstStall(filesList, platform);
        && r.Success?
        && processedImages == ProcessAll(filesList[..k], Trim(commonInput), settings, platform)
        && progress == Progress(k, |filesList|)
        && (progress == 100.0 <==> forall j :: 0 <= j < |filesList| ==> !Stalls(filesList[j], platform))
        && |r.value| == k + 1
        && (forall j :: 0 <= j <= k ==> r.value[j] == Progress(j, |filesList|))
    {
      if |filesList| == 0 {
        return Failure(NoFilesSelected);
      }
      var common := Trim(commonInput);
      var widths := ProcessFiles(common, settings, platform);
      return Success(widths);
    }

    /** The loop behind the process button: discard earlier results, then
        for each file in order add its result and move the progress bar,
        until a file stalls or every file is done. */
    method ProcessFiles(common: string, settings: Settings, platform: Platform) returns (widths: seq<real>)
      requires filesList != []
      modifies this
      ensures filesList == old(filesList)
      ensures processedImages == ProcessAll(filesList[..FirstStall(filesList, platform)], common, settings, platform)
      ensures progress == Progress(FirstStall(filesList, platform), |filesList|)
      ensures progress == 100.0 <==> forall j :: 0 <= j < |filesList| ==> !Stalls(filesList[j], platform)
      ensures |widths| == FirstStall(filesList, platform) + 1
      ensures forall j :: 0 <= j < |widths| ==> widths[j] == Progress(j, |filesList|)
    {
      var files := filesList;
      ghost var stop := FirstStall(files, platform);
      var completed := 0;
      progress := 0.0;
      processedImages := [];
      ProgressBounds(0, |files|);
      widths := [progress];
      var idx := 0;
      var stalled := false;
      while idx < |files| && !stalled
        invariant filesList == files
        invariant 0 <= idx <= stop
        invariant stalled ==> idx == stop
        invariant completed == idx
        invariant processedImages == ProcessAll(files[..idx], common, settings, platform)
        invariant |widths| == idx + 1
        invariant forall j :: 0 <= j <= idx ==> widths[j] == Progress(j, |files|)
        invariant progress == Progress(idx, |files|)
        decreases |files| - idx, !stalled
      {
        var result := ProcessFile(files[idx], common, settings, platform);
        match result
        case None =>
          stalled := true;
        case Some(p) =>
          processedImages := processedImages + [p];
          assert files[..idx + 1][..idx] == files[..idx];
          completed := completed + 1;
          progress := Progress(completed, |files|);
          widths := widths + [progress];
          idx := idx + 1;
      }
      ProgressBounds(stop, |files|);
    }

    /** The archive button. With no results it refuses; otherwise it adds
        every result under its name, in order, and names the archive. */
    method ExportZip(zipInput: string) returns (r: Result<Archive, Refusal>)
      ensures processedImages == [] ==> r == Failure(NothingProcessed)
      ensures processedImages != [] ==> r == Success(Archive(ZipFileName(zipInput), Entries(processedImages)))
    {
      if |processedImages| == 0 {
        return Failure(NothingProcessed);
      }
      var zipName := ZipName(zipInput);
      var zip := AddEntries(processedImages);
      return Success(Archive(zipName + ZipExtension, zip));
    }
  }
}
