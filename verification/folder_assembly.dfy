/** One execution folder turned into a video, over an immutable snapshot of
    the filesystem and of what the codecs would do with each file. */
module FolderAssembly {
  import opened Wrappers
  import opened Sequences
  import opened Text
  import opened Paths
  import opened Resolution
  import opened ImageFit

  type Seconds = r: real | 0.0 <= r

  /** Everything the assembly and the batch ask of the outside world, keyed
      by full path. */
  datatype FileSystem = FileSystem(
    existing: set<string>,                // `os.path.exists` holds
    directories: set<string>,             // `os.path.isdir` holds
    listings: map<string, seq<string>>,   // `os.listdir` succeeds, with its entries
    narrations: map<string, Seconds>,     // the narration loader opens it; its duration
    music: set<string>,                   // the background step (gain, export, reload) succeeds
    pictures: map<string, Picture>,       // Pillow opens and converts it; its size
    fitFailures: set<string>,             // images whose resize, crop or array conversion raises
    concatFailures: set<string>,          // folders whose clip concatenation raises
    mixFailures: set<string>,             // folders whose audio compositing raises
    writeFailures: set<string>)           // output paths the encoder fails to write

  /** `os.listdir` only ever yields plain entry names. */
  predicate WellFormed(fs: FileSystem) {
    forall dir, i :: dir in fs.listings && 0 <= i < |fs.listings[dir]| ==>
      IsEntryName(fs.listings[dir][i])
  }

  datatype Reason =
    | ImagesDirMissing
    | ImagesDirUnlistable
    | NarrationMissing
    | MusicMissing
    | NarrationUnloadable
    | MusicUnloadable
    | NoImages
    | NoClips
    | ConcatenationFailed
    | AudioAttachFailed
    | WriteFailed

  /** One still shown for `seconds`: the picture at `image`, which the
      fitter accepted; `FrameOf` gives the geometry it is cut with. */
  datatype Clip = Clip(image: string, picture: Picture, seconds: real)

  /** A failed run, or a written video: its path, the frame size every
      clip is fitted to, and the clips shown in turn. */
  datatype Run = Failed(reason: Reason) | Written(output: string, frame: Size, clips: seq<Clip>)

  // The folder convention.

  function ImagesDir(folder: string): string {
    Join(folder, "imagenes")
  }

  function NarrationPath(folder: string): string {
    Join(folder, Basename(folder) + ".wav")
  }

  function MusicPath(folder: string): string {
    Join(folder, "music_" + Basename(folder) + ".mp3")
  }

  function OutputPath(folder: string): string {
    Join(folder, "video_" + Basename(folder) + ".mp4")
  }

  /** A folder reached as `join(parent, name)` uses `name` in all three
      conventional file names. */
  lemma ConventionalNames(parent: string, name: string)
    requires IsEntryName(name)
    ensures var folder := Join(parent, name);
      && NarrationPath(folder) == Join(folder, name + ".wav")
      && MusicPath(folder) == Join(folder, "music_" + name + ".mp3")
      && OutputPath(folder) == Join(folder, "video_" + name + ".mp4")
  {
    BasenameOfJoin(parent, name);
  }

  /** The case-insensitive extension rule for image files. */
  predicate IsImageName(name: string) {
    var lower := Lower(name);
    EndsWith(lower, ".png") || EndsWith(lower, ".jpg") || EndsWith(lower, ".jpeg")
  }

  /** Lower-casing twice changes nothing more than lower-casing once. */
  lemma LowerIdempotent(s: string)
    ensures Lower(Lower(s)) == Lower(s)
  {
  }

  /** The extension rule ignores case: a name and its lower-cased form are
      classified alike, and so are two names that differ only in case. */
  lemma ImageNameIgnoresCase(a: string, b: string)
    requires Lower(a) == Lower(b)
    ensures IsImageName(a) == IsImageName(b)
    ensures IsImageName(a) == IsImageName(Lower(a))
  {
    LowerIdempotent(a);
  }

  /** Examples of the rule: any case of `.png`, `.jpg` or `.jpeg` at the end
      makes an image name. */
  lemma ImageNameExamples()
    ensures IsImageName("FOTO.PNG") && IsImageName("b.JpEg") && IsImageName("a.jpg")
  {
    assert Lower("FOTO.PNG") == "foto.png";
    assert "foto.png"[4..] == ".png";
    assert Lower("b.JpEg") == "b.jpeg";
    assert "b.jpeg"[1..] == ".jpeg";
    assert Lower("a.jpg") == "a.jpg";
    assert "a.jpg"[1..] == ".jpg";
  }

  /** Counter-examples: another extension, the bare word, or an image
      extension that is not at the end. */
  lemma NonImageExamples()
    ensures !IsImageName("notes.txt") && !IsImageName("png") && !IsImageName("a.png.txt")
  {
    assert Lower("notes.txt") == "notes.txt";
    assert "notes.txt"[5..][0] == '.' && "notes.txt"[5..][1] == 't';
    assert "notes.txt"[4..][0] == 's';
    assert Lower("png") == "png";
    assert Lower("a.png.txt") == "a.png.txt";
    assert "a.png.txt"[5..][1] == 't';
    assert "a.png.txt"[4..][1] == '.';
  }

  /** The listing filtered by the extension rule, in listing order. */
  function ImageEntries(entries: seq<string>): seq<string>
    decreases |entries|
  {
    if entries == [] then []
    else (if IsImageName(entries[0]) then [entries[0]] else []) + ImageEntries(entries[1..])
  }

  /** The filter keeps each image name as often as it is listed and drops
      every other name. */
  lemma {:induction false} ImageEntriesExactly(entries: seq<string>)
    ensures forall x ::
      multiset(ImageEntries(entries))[x] == if IsImageName(x) then multiset(entries)[x] else 0
    decreases |entries|
  {
    if entries != [] {
      ImageEntriesExactly(entries[1..]);
      assert entries == [entries[0]] + entries[1..];
    }
  }

  /** The image names of a listing, in the order they are shown. */
  function ImageNames(entries: seq<string>): seq<string> {
    Sort(ImageEntries(entries))
  }

  /** The images shown are exactly the listed names that pass the extension
      rule, each as often as listed, in ascending order. */
  lemma ImageNamesExactly(entries: seq<string>)
    ensures Sorted(ImageNames(entries))
    ensures forall x ::
      multiset(ImageNames(entries))[x] == if IsImageName(x) then multiset(entries)[x] else 0
  {
    SortPermutes(ImageEntries(entries));
    ImageEntriesExactly(entries);
  }

  /** The fitter applied to one image path. */
  function FitAt(fs: FileSystem, path: string, target: Size): FitOutcome {
    FitImage(if path in fs.pictures then Some(fs.pictures[path]) else None, target,
             path !in fs.fitFailures)
  }

  function ImagesOf(clips: seq<Clip>): seq<string> {
    seq(|clips|, i requires 0 <= i < |clips| => clips[i].image)
  }

  function PathsIn(dir: string, names: seq<string>): seq<string> {
    seq(|names|, i requires 0 <= i < |names| => Join(dir, names[i]))
  }

  /** The image at `path` can be fitted: it opens with both dimensions
      positive, and its resize, crop and array conversion succeed. These are
      exactly the images the fitter accepts (see `ImageFit.FitOutcomes`). */
  predicate Fits(fs: FileSystem, path: string) {
    && path in fs.pictures
    && fs.pictures[path].width > 0 && fs.pictures[path].height > 0
    && path !in fs.fitFailures
  }

  lemma FitAtAccepts(fs: FileSystem, path: string, target: Size)
    ensures FitAt(fs, path, target).Fitted? <==> Fits(fs, path)
  {
  }

  /** The clip loop: every image is fitted in turn and kept, with the one
      per-image duration, when the fitter accepts it; others are skipped. */
  function Clips(fs: FileSystem, dir: string, names: seq<string>, each: real)
    : (clips: seq<Clip>)
    ensures forall c :: c in clips ==> c.seconds == each && Fits(fs, c.image)
    ensures forall i :: 0 <= i < |names| && Fits(fs, Join(dir, names[i])) ==>
      Join(dir, names[i]) in ImagesOf(clips)
    decreases |names|
  {
    if names == [] then []
    else
      var path := Join(dir, names[0]);
      var rest := Clips(fs, dir, names[1..], each);
      assert forall i :: 1 <= i < |names| ==> names[i] == names[1..][i - 1];
      if Fits(fs, path) then
        var clips := [Clip(path, fs.pictures[path], each)] + rest;
        assert ImagesOf(clips) == [path] + ImagesOf(rest);
        clips
      else
        rest
  }

  /** The kept images appear in the order of the listing. */
  lemma {:induction false} ClipsKeepOrder(fs: FileSystem, dir: string, names: seq<string>, each: real)
    ensures Subsequence(ImagesOf(Clips(fs, dir, names, each)), PathsIn(dir, names))
    decreases |names|
  {
    if names != [] {
      var path := Join(dir, names[0]);
      var rest := Clips(fs, dir, names[1..], each);
      ClipsKeepOrder(fs, dir, names[1..], each);
      assert PathsIn(dir, names) == [path] + PathsIn(dir, names[1..]);
      if Fits(fs, path) {
        var clips := [Clip(path, fs.pictures[path], each)] + rest;
        assert ImagesOf(clips) == [path] + ImagesOf(rest);
      }
    }
  }

  /** The geometry a clip's picture is cut with. */
  function FrameOf(c: Clip, target: Size): Fitting
    requires c.picture.width > 0 && c.picture.height > 0
  {
    Geometry(c.picture, target)
  }

  /** Each kept clip is the fitter's output for its image. */
  lemma {:induction false} ClipsCarryFitting(fs: FileSystem, dir: string, names: seq<string>,
                                             target: Size, each: real)
    ensures forall c :: c in Clips(fs, dir, names, each) ==>
      c.picture.width > 0 && c.picture.height > 0 &&
      FitAt(fs, c.image, target) == Fitted(FrameOf(c, target))
    decreases |names|
  {
    if names != [] {
      ClipsCarryFitting(fs, dir, names[1..], target, each);
    }
  }

  /** `crear_video_en_carpeta`: the checks in the source's order, then the
      clip loop, then the three library steps. */
  function AssembleFolder(fs: FileSystem, folder: string, target: Size): Run {
    var imagesDir := ImagesDir(folder);
    if imagesDir !in fs.existing then Failed(ImagesDirMissing)
    else if imagesDir !in fs.listings then Failed(ImagesDirUnlistable)
    else
      var images := ImageNames(fs.listings[imagesDir]);
      var narration := NarrationPath(folder);
      var music := MusicPath(folder);
      if narration !in fs.existing then Failed(NarrationMissing)
      else if music !in fs.existing then Failed(MusicMissing)
      else if narration !in fs.narrations then Failed(NarrationUnloadable)
      else if music !in fs.music then Failed(MusicUnloadable)
      else if |images| == 0 then Failed(NoImages)
      else
        var each := fs.narrations[narration] / |images| as real;
        Finish(fs, folder, target, Clips(fs, imagesDir, images, each))
  }

  /** The steps after the clip loop: no clips, then concatenation, audio
      attachment and writing, each of which can fail. */
  function Finish(fs: FileSystem, folder: string, frame: Size, clips: seq<Clip>): Run {
    if |clips| == 0 then Failed(NoClips)
    else if folder in fs.concatFailures then Failed(ConcatenationFailed)
    else if folder in fs.mixFailures then Failed(AudioAttachFailed)
    else if OutputPath(folder) in fs.writeFailures then Failed(WriteFailed)
    else Written(OutputPath(folder), frame, clips)
  }

  /** What the function returns to its caller: the path, or `None`. */
  function Output(run: Run): Option<string> {
    if run.Written? then Some(run.output) else None
  }

  function TotalSeconds(clips: seq<Clip>): real
    decreases |clips|
  {
    if clips == [] then 0.0 else clips[0].seconds + TotalSeconds(clips[1..])
  }

  /** Clips of one common duration add up to that duration times their count. */
  lemma {:induction false} TotalOfUniform(clips: seq<Clip>, each: real)
    requires forall i :: 0 <= i < |clips| ==> clips[i].seconds == each
    ensures TotalSeconds(clips) == |clips| as real * each
    decreases |clips|
  {
    if clips != [] {
      var rest := clips[1..];
      assert forall i :: 0 <= i < |rest| ==> rest[i] == clips[i + 1];
      var total := TotalSeconds(rest);
      TotalOfUniform(rest, each);
      AddShare(|clips|, each, total);
    }
  }

  /** A duration shared by every clip is shared by every position. */
  lemma EveryIndex(clips: seq<Clip>, each: real)
    requires forall c :: c in clips ==> c.seconds == each
    ensures forall i :: 0 <= i < |clips| ==> clips[i].seconds == each
  {
    assert forall i :: 0 <= i < |clips| ==> clips[i] in clips;
  }

  /** One more share: `x` added to `(n - 1)` shares of `x` makes `n`. */
  lemma AddShare(n: nat, x: real, total: real)
    requires n > 0 && total == (n - 1) as real * x
    ensures x + total == n as real * x
  {
  }

  // Properties of the assembly.

  /** The layout is checked in a fixed order before any audio is loaded: a
      missing `imagenes` directory wins over everything, then a missing
      narration file, then a missing music file, whatever the loaders or the
      images would do. */
  lemma LayoutChecksComeFirst(fs: FileSystem, folder: string, target: Size)
    ensures ImagesDir(folder) !in fs.existing ==>
      AssembleFolder(fs, folder, target) == Failed(ImagesDirMissing)
    ensures ImagesDir(folder) in fs.existing && ImagesDir(folder) in fs.listings ==>
      && (NarrationPath(folder) !in fs.existing ==>
            AssembleFolder(fs, folder, target) == Failed(NarrationMissing))
      && (NarrationPath(folder) in fs.existing && MusicPath(folder) !in fs.existing ==>
            AssembleFolder(fs, folder, target) == Failed(MusicMissing))
  {
  }

  /** An empty image list is only noticed after both audio loads: a load
      failure takes precedence over it. */
  lemma AudioLoadsBeforeImageCount(fs: FileSystem, folder: string, target: Size)
    requires ImagesDir(folder) in fs.existing && ImagesDir(folder) in fs.listings
    requires NarrationPath(folder) in fs.existing && MusicPath(folder) in fs.existing
    requires ImageNames(fs.listings[ImagesDir(folder)]) == []
    ensures NarrationPath(folder) !in fs.narrations ==>
      AssembleFolder(fs, folder, target) == Failed(NarrationUnloadable)
    ensures NarrationPath(folder) in fs.narrations && MusicPath(folder) !in fs.music ==>
      AssembleFolder(fs, folder, target) == Failed(MusicUnloadable)
    ensures NarrationPath(folder) in fs.narrations && MusicPath(folder) in fs.music ==>
      AssembleFolder(fs, folder, target) == Failed(NoImages)
  {
  }

  /** Some listed image can be fitted, so that the fitter accepts it. */
  predicate SomeImageFits(fs: FileSystem, folder: string)
    requires ImagesDir(folder) in fs.listings
  {
    var names := ImageNames(fs.listings[ImagesDir(folder)]);
    exists i :: 0 <= i < |names| && Fits(fs, Join(ImagesDir(folder), names[i]))
  }

  /** The clip loop keeps something exactly when some image can be fitted. */
  lemma {:induction false} ClipsEmptyExactly(fs: FileSystem, dir: string, names: seq<string>, each: real)
    ensures |Clips(fs, dir, names, each)| > 0 <==>
      exists i :: 0 <= i < |names| && Fits(fs, Join(dir, names[i]))
    decreases |names|
  {
    if names != [] {
      ClipsEmptyExactly(fs, dir, names[1..], each);
      if exists i :: 1 <= i < |names| && Fits(fs, Join(dir, names[i])) {
        var i :| 1 <= i < |names| && Fits(fs, Join(dir, names[i]));
        assert names[1..][i - 1] == names[i];
      }
      if exists i :: 0 <= i < |names[1..]| && Fits(fs, Join(dir, names[1..][i])) {
        var i :| 0 <= i < |names[1..]| && Fits(fs, Join(dir, names[1..][i]));
        assert names[i + 1] == names[1..][i];
      }
    }
  }

  /** A folder yields a video exactly when its layout is complete, both audio
      tracks load, at least one listed image can be fitted, and
      concatenation, audio attachment and writing all succeed; the video is
      then `video_<name>.mp4` inside the folder. */
  lemma WrittenExactly(fs: FileSystem, folder: string, target: Size)
    ensures AssembleFolder(fs, folder, target).Written? <==>
      && ImagesDir(folder) in fs.existing
      && ImagesDir(folder) in fs.listings
      && NarrationPath(folder) in fs.existing
      && MusicPath(folder) in fs.existing
      && NarrationPath(folder) in fs.narrations
      && MusicPath(folder) in fs.music
      && SomeImageFits(fs, folder)
      && folder !in fs.concatFailures
      && folder !in fs.mixFailures
      && OutputPath(folder) !in fs.writeFailures
    ensures AssembleFolder(fs, folder, target).Written? ==>
      AssembleFolder(fs, folder, target).output == Join(folder, "video_" + Basename(folder) + ".mp4")
  {
    var dir := ImagesDir(folder);
    if && dir in fs.existing && dir in fs.listings
       && NarrationPath(folder) in fs.existing && MusicPath(folder) in fs.existing
       && NarrationPath(folder) in fs.narrations && MusicPath(folder) in fs.music
    {
      var names := ImageNames(fs.listings[dir]);
      if |names| > 0 {
        var each := fs.narrations[NarrationPath(folder)] / |names| as real;
        var clips := Clips(fs, dir, names, each);
        AfterChecks(fs, folder, target);
        ClipsEmptyExactly(fs, dir, names, each);
        assert AssembleFolder(fs, folder, target) == Finish(fs, folder, target, clips);
      } else {
        assert !SomeImageFits(fs, folder);
      }
    }
  }

  /** A written run has passed every check before the clip loop. */
  lemma WrittenPassedChecks(fs: FileSystem, folder: string, target: Size)
    requires AssembleFolder(fs, folder, target).Written?
    ensures ImagesDir(folder) in fs.existing && ImagesDir(folder) in fs.listings
    ensures NarrationPath(folder) in fs.existing && MusicPath(folder) in fs.existing
    ensures NarrationPath(folder) in fs.narrations && MusicPath(folder) in fs.music
    ensures |ImageNames(fs.listings[ImagesDir(folder)])| > 0
  {
  }

  /** Once every check before the clip loop has passed, the outcome is that
      of the remaining steps on the clips of the listed images, each given
      the narration's duration divided by the listed count. */
  lemma AfterChecks(fs: FileSystem, folder: string, target: Size)
    requires ImagesDir(folder) in fs.existing && ImagesDir(folder) in fs.listings
    requires NarrationPath(folder) in fs.existing && MusicPath(folder) in fs.existing
    requires NarrationPath(folder) in fs.narrations && MusicPath(folder) in fs.music
    requires |ImageNames(fs.listings[ImagesDir(folder)])| > 0
    ensures var names := ImageNames(fs.listings[ImagesDir(folder)]);
      AssembleFolder(fs, folder, target) ==
        Finish(fs, folder, target, Clips(fs, ImagesDir(folder), names,
                                         fs.narrations[NarrationPath(folder)] / |names| as real))
  {
  }

  /** The last steps write the clips they are given, to `OutputPath`. */
  lemma FinishKeepsClips(fs: FileSystem, folder: string, frame: Size, clips: seq<Clip>)
    requires Finish(fs, folder, frame, clips).Written?
    ensures Finish(fs, folder, frame, clips) == Written(OutputPath(folder), frame, clips)
    ensures |clips| > 0
  {
  }

  /** The clips of a written run are those of the clip loop. */
  lemma WrittenUnfolds(fs: FileSystem, folder: string, target: Size)
    requires AssembleFolder(fs, folder, target).Written?
    ensures ImagesDir(folder) in fs.listings
    ensures NarrationPath(folder) in fs.narrations
    ensures |ImageNames(fs.listings[ImagesDir(folder)])| > 0
    ensures var names := ImageNames(fs.listings[ImagesDir(folder)]);
      AssembleFolder(fs, folder, target).clips ==
        Clips(fs, ImagesDir(folder), names,
              fs.narrations[NarrationPath(folder)] / |names| as real)
    ensures |AssembleFolder(fs, folder, target).clips| > 0
    ensures AssembleFolder(fs, folder, target).frame == target
  {
    WrittenPassedChecks(fs, folder, target);
    var names := ImageNames(fs.listings[ImagesDir(folder)]);
    var clips := Clips(fs, ImagesDir(folder), names,
                       fs.narrations[NarrationPath(folder)] / |names| as real);
    AfterChecks(fs, folder, target);
    assert AssembleFolder(fs, folder, target) == Finish(fs, folder, target, clips);
    FinishKeepsClips(fs, folder, target, clips);
  }

  /** The clips of a written video: taken from the listed images in display
      order, exactly the ones the fitter accepted, each with its fitting. */
  lemma WrittenClips(fs: FileSystem, folder: string, target: Size)
    requires AssembleFolder(fs, folder, target).Written?
    ensures AssembleFolder(fs, folder, target).frame == target
    ensures var run := AssembleFolder(fs, folder, target);
      var dir := ImagesDir(folder);
      var names := ImageNames(fs.listings[dir]);
      && Subsequence(ImagesOf(run.clips), PathsIn(dir, names))
      && (forall c :: c in run.clips ==>
            c.picture.width > 0 && c.picture.height > 0 &&
            FitAt(fs, c.image, target) == Fitted(FrameOf(c, target)))
      && (forall i :: 0 <= i < |names| && FitAt(fs, Join(dir, names[i]), target).Fitted? ==>
            Join(dir, names[i]) in ImagesOf(run.clips))
  {
    WrittenUnfolds(fs, folder, target);
    var names := ImageNames(fs.listings[ImagesDir(folder)]);
    ClipsCarryFitting(fs, ImagesDir(folder), names, target,
                      fs.narrations[NarrationPath(folder)] / |names| as real);
    ClipsKeepOrder(fs, ImagesDir(folder), names,
                   fs.narrations[NarrationPath(folder)] / |names| as real);
    forall i | 0 <= i < |names| && FitAt(fs, Join(ImagesDir(folder), names[i]), target).Fitted?
      ensures Join(ImagesDir(folder), names[i]) in ImagesOf(AssembleFolder(fs, folder, target).clips)
    {
      FitAtAccepts(fs, Join(ImagesDir(folder), names[i]), target);
    }
  }

  /** Splitting `d` into `n` equal shares: `k <= n` of them never exceed `d`,
      and, for positive `d`, make up all of it only when `k == n`. */
  lemma ShareOfWhole(k: nat, n: nat, d: real)
    requires 0 < n && k <= n && d >= 0.0
    ensures k as real * (d / n as real) <= d
    ensures d > 0.0 ==> (k as real * (d / n as real) == d <==> k == n)
  {
    var each := d / n as real;
    assert n as real * each == d;
    assert each >= 0.0;
    assert d - k as real * each == (n - k) as real * each;
    if k < n && d > 0.0 {
      assert each > 0.0;
      assert (n - k) as real * each > 0.0;
    }
  }

  /** `k` clips of `d / n` seconds each: together `k * d / n`, never more
      than `d`, and, for positive `d`, all of it exactly when `k == n`. */
  predicate SharesOfNarration(clips: seq<Clip>, n: nat, d: real)
    requires n > 0
  {
    && TotalSeconds(clips) == |clips| as real * (d / n as real)
    && TotalSeconds(clips) <= d
    && (d > 0.0 ==> (TotalSeconds(clips) == d <==> |clips| == n))
  }

  /** Timing of the clip loop when each clip gets `d / n` for the `n` listed
      images: the clips last `k * d / n` together, for `k` kept clips, which
      never exceeds `d` and, for positive `d`, equals it exactly when no
      image was skipped. */
  lemma ClipsTimeline(fs: FileSystem, dir: string, names: seq<string>, d: Seconds)
    requires |names| > 0
    ensures var clips := Clips(fs, dir, names, d / |names| as real);
      |clips| <= |names| && SharesOfNarration(clips, |names|, d)
  {
    var n := |names|;
    var clips := Clips(fs, dir, names, d / n as real);
    ClipsKeepOrder(fs, dir, names, d / n as real);
    SubsequenceLength(ImagesOf(clips), PathsIn(dir, names));
    UniformShares(clips, n, d);
  }

  /** Clips that each last `d / n`, at most `n` of them, share out `d`. */
  lemma UniformShares(clips: seq<Clip>, n: nat, d: real)
    requires 0 < n && |clips| <= n && d >= 0.0
    requires forall c :: c in clips ==> c.seconds == d / n as real
    ensures SharesOfNarration(clips, n, d)
  {
    EveryIndex(clips, d / n as real);
    TotalOfUniform(clips, d / n as real);
    ShareOfWhole(|clips|, n, d);
  }

  /** Every clip of a written video lasts `D / N`, where `D` is the
      narration's duration and `N` the number of listed images before any was
      skipped; at least one and at most `N` clips survive. */
  lemma WrittenClipDurations(fs: FileSystem, folder: string, target: Size)
    requires AssembleFolder(fs, folder, target).Written?
    ensures var run := AssembleFolder(fs, folder, target);
      var n := |ImageNames(fs.listings[ImagesDir(folder)])|;
      var d := fs.narrations[NarrationPath(folder)];
      && 0 < |run.clips| <= n
      && (forall c :: c in run.clips ==> c.seconds == d / n as real)
  {
    WrittenUnfolds(fs, folder, target);
    var names := ImageNames(fs.listings[ImagesDir(folder)]);
    var d := fs.narrations[NarrationPath(folder)];
    var clips := Clips(fs, ImagesDir(folder), names, d / |names| as real);
    assert AssembleFolder(fs, folder, target).clips == clips;
    ClipsTimeline(fs, ImagesDir(folder), names, d);
  }

  /** The `k` surviving clips of a written video last `k * D / N` together:
      never more than the narration's `D` and, for a non-silent narration,
      all of it exactly when no image was skipped. */
  lemma WrittenTotalDuration(fs: FileSystem, folder: string, target: Size)
    requires AssembleFolder(fs, folder, target).Written?
    ensures |ImageNames(fs.listings[ImagesDir(folder)])| > 0
    ensures SharesOfNarration(AssembleFolder(fs, folder, target).clips,
                              |ImageNames(fs.listings[ImagesDir(folder)])|,
                              fs.narrations[NarrationPath(folder)])
  {
    WrittenUnfolds(fs, folder, target);
    var names := ImageNames(fs.listings[ImagesDir(folder)]);
    var d := fs.narrations[NarrationPath(folder)];
    var clips := Clips(fs, ImagesDir(folder), names, d / |names| as real);
    assert AssembleFolder(fs, folder, target).clips == clips;
    ClipsTimeline(fs, ImagesDir(folder), names, d);
  }

  /** Three listed images and a thirty-second narration give ten-second
      clips: thirty seconds of video when all three fit, twenty when one of
      them cannot be decoded. */
  lemma ThreeImagesThirtySeconds(fs: FileSystem, folder: string, target: Size)
    requires AssembleFolder(fs, folder, target).Written?
    requires ImagesDir(folder) in fs.listings && NarrationPath(folder) in fs.narrations
    requires |ImageNames(fs.listings[ImagesDir(folder)])| == 3
    requires fs.narrations[NarrationPath(folder)] == 30.0
    ensures var clips := AssembleFolder(fs, folder, target).clips;
      && (forall c :: c in clips ==> c.seconds == 10.0)
      && (|clips| == 3 ==> TotalSeconds(clips) == 30.0)
      && (|clips| == 2 ==> TotalSeconds(clips) == 20.0)
  {
    WrittenClipDurations(fs, folder, target);
    WrittenTotalDuration(fs, folder, target);
    var clips := AssembleFolder(fs, folder, target).clips;
    var n := |ImageNames(fs.listings[ImagesDir(folder)])|;
    var d := fs.narrations[NarrationPath(folder)];
    TenSeconds(d, n);
    TenSecondShares(clips);
  }

  lemma TenSeconds(d: real, n: nat)
    requires d == 30.0 && n == 3
    ensures d / n as real == 10.0
  {
  }

  lemma TenSecondShares(clips: seq<Clip>)
    requires SharesOfNarration(clips, 3, 30.0)
    ensures |clips| == 3 ==> TotalSeconds(clips) == 30.0
    ensures |clips| == 2 ==> TotalSeconds(clips) == 20.0
  {
    TenSeconds(30.0, 3);
  }
}
