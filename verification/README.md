# Slideshow video assembly — a Dafny model

This project models the policy core of a tool that builds slideshow videos. Each
execution folder holds an `imagenes` directory of stills, a narration track
`<name>.wav` and a background track `music_<name>.mp3`. The tool shows the
stills one after another over the narration, each for the same length of time,
and writes `video_<name>.mp4` into the folder. A batch does this for every
subfolder of a parent directory.

The model covers four pieces of the source:

- **Resolution selection** (`obtener_resolucion`): a selector string, plus
  optional custom dimensions, gives a `(width, height)` pair or an error.
- **Fill-crop geometry** (`procesar_imagen`): the cover scale, the truncated
  scaled size and the centred crop box.
- **Folder assembly** (`crear_video_en_carpeta`): a pure function over an
  immutable `FileSystem` snapshot. The snapshot records what `os.path.exists`,
  `os.path.isdir` and `os.listdir` answer. It also records what the codecs do
  with each path: narration durations, background tracks that load, picture
  sizes, the images whose resize, crop or array conversion raises, and the
  folders or outputs where concatenation, audio attachment or writing fails.
  The result is either `Failed(reason)`, one reason per `return None` of the
  source, or `Written(path, frame, clips)`.
- **The batch** (`procesar_ejecuciones`): a recursive fold over the sorted
  subfolders. It returns an ordered list of pairs, and `AsDict` turns that list
  into the dictionary the source builds.

Modules: `Wrappers` (Option/Result), `Sequences` (subsequence), `Text`
(ASCII lower-casing, `endswith`, Python's string order, sorting), `Paths`
(`os.path.join` and `os.path.basename`), `Resolution`, `ImageFit`,
`FolderAssembly` and `Batch`.

Arithmetic conventions:

- Durations and the scale factor are Dafny `real`s. This idealises Python's
  floats.
- Pixel sizes are `int`s.
- Python's `int()` on a float truncates toward zero, and `ImageFit.Trunc`
  writes that out.
- `// 2` is Python floor division. Dafny's `/` agrees with it because the
  divisor is positive.

In these places the model follows the code, which a reader might not expect:

- A custom resolution is returned as given. Nothing checks that it is
  positive.
- A parent directory with no subdirectories yields `None`, not an empty
  mapping.
- Listing a parent that exists but is not a directory raises. Nothing catches
  that error, so the batch outcome is `ListingRaised`.
- The batch sorts the joined paths `parent/name`, not the bare names.
  `Batch.VisitOrderFollowsNames` shows that the two orders are the same.
- Only the fill-crop fitter exists in `utils/image_utils.py`, so that is the
  one modelled.

## Model

| member | source | states |
|---|---|---|
| `Resolution.Resolve` | utils/video_utils.py:9-30 | The three fixed selectors give exactly their entries in the `Presets` table, whatever custom values come along. "Personalizado" succeeds exactly when both custom dimensions are present, and then returns them. Every other selector fails with `UnknownOption`. The error is `CustomSizeMissing` exactly for "Personalizado". |
| `Resolution.FixedOptions` | utils/video_utils.py:18-28 | "1920x1080", "786x480" and "Vertical" give (1920,1080), (786,480) and (720,1280). A bare "Personalizado" is rejected. |
| `Resolution.CustomIsUnchecked` | utils/video_utils.py:24-26 | Any pair of custom integers, zero or negative included, comes back unchanged: there is no positivity check. |
| `Paths.Join` | utils/video_utils.py:35 | No ensures; characterised by `Paths.JoinPrefix`, `Paths.BasenameOfJoin` and `Paths.JoinInjective`. Models `os.path.join` as used at lines 35, 52-53, 118 and 133. |
| `Paths.Basename` | utils/video_utils.py:51 | No ensures; characterised by `Paths.BasenameIsLastComponent`. |
| `Text.Sort` | utils/video_utils.py:41-44 | `sorted` on strings returns a sequence of the same length, ordered by Python's code-point comparison. |
| `Text.SortPermutes` | utils/video_utils.py:41-44 | The sorted sequence holds every input string exactly as often as the input does. |
| `Text.SortedPermutationUnique` | utils/video_utils.py:41-44 | Two ordered permutations of the same strings are equal, so `Sort` agrees with Python's `sorted`. |
| `Text.LeCommonPrefix` | utils/video_utils.py:141 | Prefixing both strings with the same parent path does not change how they compare. |
| `Paths.BasenameIsLastComponent` | utils/video_utils.py:51 | `os.path.basename` gives the longest suffix with no separator: either the whole path or the part after the last `/`. |
| `Paths.BasenameOfJoin` | utils/video_utils.py:132-143 | A folder reached as `join(parent, entry)` has basename `entry`. |
| `Paths.JoinInjective` | utils/video_utils.py:132-136 | Distinct entry names joined to one parent give distinct folder paths. |
| `ImageFit.Trunc` | utils/image_utils.py:31-32 | `int()` on a float lands within one unit of its argument, on the side toward zero. For non-negative input it is the floor. |
| `ImageFit.CoverScale` | utils/image_utils.py:27-29 | The scale is at least both axis ratios `fw/ow` and `fh/oh`, and equals one of them: it is their maximum. |
| `ImageFit.FitImage` | utils/image_utils.py:17-44 | No ensures; characterised by `ImageFit.FitOutcomes`. Models `procesar_imagen`. |
| `ImageFit.Geometry` | utils/image_utils.py:23-41 | No ensures; characterised by `ImageFit.SameFactorOnBothAxes`, `ImageFit.ScaledCoversTarget`, `ImageFit.CropIsTargetSized` and `ImageFit.CropInsideAndCentred`. |
| `ImageFit.CentredBox` | utils/image_utils.py:38-41 | No ensures; characterised by `ImageFit.CropIsTargetSized` and `ImageFit.CropInsideAndCentred`. |
| `ImageFit.FitOutcomes` | utils/image_utils.py:17-44 | A file that cannot be opened gives `None` and no geometry. A picture gets geometry exactly when both of its dimensions are positive and the resize, crop and array conversion succeed, and that geometry is `Geometry` of the picture. Otherwise the fitter raises: a zero dimension makes the ratio divide by zero, and a failed resize, crop or conversion propagates. |
| `ImageFit.SameFactorOnBothAxes` | utils/image_utils.py:27-32 | The scale is positive, and both scaled dimensions are the original dimension times that one factor, truncated. The aspect ratio is kept up to the truncation: `-oh < new_w·oh − new_h·ow < ow`. |
| `ImageFit.AspectKept` | utils/image_utils.py:31-32 | Truncating `ow·s` and `oh·s` with one factor `s` keeps the cross products within one original dimension: `-oh < new_w·oh − new_h·ow < ow`. |
| `ImageFit.ScaledBounds` | utils/image_utils.py:31-32 | For a non-negative factor, the scaled dimension is at most the exact product and less than one pixel below it. |
| `ImageFit.AxisCovers` | utils/image_utils.py:27-32 | On one axis, a factor of at least `t/o` scales `o` to at least `t`, and the factor `t/o` scales it to exactly `t`. |
| `ImageFit.ScaledCoversTarget` | utils/image_utils.py:27-32 | For a positive target, the scaled picture covers the target on both axes. The axis whose ratio gave the scale matches its target exactly. |
| `ImageFit.CropIsTargetSized` | utils/image_utils.py:38-41 | The crop box is exactly the target size: `right-left = fw` and `bottom-top = fh`. |
| `ImageFit.CropInsideAndCentred` | utils/image_utils.py:38-43 | The box lies inside the scaled picture, at `0 <= left`, `0 <= top`, `right <= new_w` and `bottom <= new_h`. It is centred: each left (top) margin is at most the right (bottom) margin, which exceeds it by at most one. One pair of margins is zero. |
| `FolderAssembly.ConventionalNames` | utils/video_utils.py:51-53 | For a folder `join(parent, name)`, the narration, background and output files are `name.wav`, `music_name.mp3` and `video_name.mp4` inside it. |
| `FolderAssembly.ImageNameIgnoresCase` | utils/video_utils.py:41-44 | The extension rule gives the same answer for two names that differ only in letter case. |
| `FolderAssembly.IsImageName` | utils/video_utils.py:43 | No ensures; characterised by `FolderAssembly.ImageNameIgnoresCase`, `FolderAssembly.ImageNameExamples` and `FolderAssembly.NonImageExamples`. |
| `FolderAssembly.ImageNameExamples` | utils/video_utils.py:41-44 | Upper- and mixed-case `.PNG` and `.JpEg` are accepted, and so is `.jpg`. |
| `FolderAssembly.NonImageExamples` | utils/video_utils.py:41-44 | `.txt`, a bare `png` and `.png.txt` are rejected: an image extension must end the name. |
| `FolderAssembly.ImageEntriesExactly` | utils/video_utils.py:41-44 | The filter keeps every image name as many times as it was listed and drops every other name. |
| `FolderAssembly.ImageEntries` | utils/video_utils.py:42-43 | No ensures; characterised by `FolderAssembly.ImageEntriesExactly`. |
| `FolderAssembly.ImageNamesExactly` | utils/video_utils.py:41-44 | The image list holds exactly the listed names that pass the extension rule, each as often as listed, in ascending order. |
| `FolderAssembly.ImageNames` | utils/video_utils.py:41-44 | No ensures; characterised by `FolderAssembly.ImageNamesExactly`. |
| `FolderAssembly.FitAtAccepts` | utils/video_utils.py:87-94 | The fitter accepts an image path exactly when the picture there opens with both dimensions positive and its resize, crop and array conversion succeed. |
| `FolderAssembly.Clips` | utils/video_utils.py:83-96 | Every kept clip lasts the one per-image duration and shows an image the fitter accepts. Every listed image that the fitter accepts has a clip. |
| `FolderAssembly.ClipsKeepOrder` | utils/video_utils.py:83-96 | Skipping images keeps the survivors in listing order: the clip images form a subsequence of the image paths. |
| `FolderAssembly.ClipsCarryFitting` | utils/video_utils.py:88-96 | Each clip's frame is the geometry the fitter computed for that clip's image. |
| `FolderAssembly.TotalOfUniform` | utils/video_utils.py:80-96 | `k` clips of one duration last `k` times that duration together. |
| `FolderAssembly.LayoutChecksComeFirst` | utils/video_utils.py:35-60 | A missing `imagenes` directory fails first, whatever else holds. After it, a missing `<name>.wav` fails, then a missing `music_<name>.mp3`, before any audio is loaded. |
| `FolderAssembly.AudioLoadsBeforeImageCount` | utils/video_utils.py:62-78 | With no images listed, a narration load failure or a background load failure is reported, not the empty list. Only when both loads succeed is the result `NoImages`. |
| `FolderAssembly.ClipsEmptyExactly` | utils/video_utils.py:83-100 | The clip loop keeps at least one clip exactly when some listed image can be fitted: it opens with both dimensions positive, and its resize, crop and array conversion succeed. |
| `FolderAssembly.WrittenExactly` | utils/video_utils.py:32-126 | A folder yields a video exactly when all of these hold: the layout is complete, both tracks load, some listed image can be fitted, and concatenation, audio attachment and writing all succeed. The result is then `join(folder, "video_" + basename + ".mp4")`. |
| `FolderAssembly.AssembleFolder` | utils/video_utils.py:32-126 | No ensures; characterised by `FolderAssembly.WrittenExactly`, `FolderAssembly.LayoutChecksComeFirst`, `FolderAssembly.AudioLoadsBeforeImageCount`, `FolderAssembly.WrittenClips` and `FolderAssembly.WrittenTotalDuration`. Models `crear_video_en_carpeta`. |
| `FolderAssembly.Finish` | utils/video_utils.py:98-126 | No ensures; characterised by `FolderAssembly.FinishKeepsClips`. |
| `FolderAssembly.WrittenPassedChecks` | utils/video_utils.py:35-78 | A written video implies every check before the clip loop passed, including a non-empty image list. |
| `FolderAssembly.FinishKeepsClips` | utils/video_utils.py:98-126 | After the clip loop, success writes exactly the clips it was given, at the frame size it was given, to the conventional output path, and needs at least one clip. |
| `FolderAssembly.WrittenClips` | utils/video_utils.py:83-96 | A written video has the requested resolution as its frame size. Its clips are the accepted images, in listing order, each with its own fitting for that resolution. |
| `FolderAssembly.ClipsTimeline` | utils/video_utils.py:80-96 | With `D/N` per clip over `N` listed images, the at most `N` kept clips last `k·D/N`. That is never more than `D` and, for `D > 0`, equals `D` exactly when no image was skipped. |
| `FolderAssembly.WrittenClipDurations` | utils/video_utils.py:75-96 | Every clip of a written video lasts `D/N`. `N` counts the images listed before any decode failure, so the duration is not recomputed after a skip. Between 1 and `N` clips survive. |
| `FolderAssembly.WrittenTotalDuration` | utils/video_utils.py:80-96 | A written video's clips last `k·D/N` together. That is at most `D`, and equals `D` (for `D > 0`) exactly when nothing was skipped. |
| `FolderAssembly.ThreeImagesThirtySeconds` | utils/video_utils.py:80-96 | Three images and 30 s of narration give 10 s clips. That makes 30 s of video when all three fit, and 20 s when one cannot be decoded. |
| `Batch.AsDict` | utils/video_utils.py:140-146 | The dictionary has a key exactly for each collected folder, and every entry is one of the collected pairs. |
| `Batch.Subfolders` | utils/video_utils.py:132-136 | No ensures; characterised by `Batch.SubfoldersAreJoinedEntries`. |
| `Batch.Collect` | utils/video_utils.py:140-145 | No ensures; characterised by `Batch.CollectKeepsOrder`, `Batch.CollectPairsOutputs` and `Batch.CollectKeysExactly`. |
| `Batch.ProcessBatch` | utils/video_utils.py:128-146 | No ensures; characterised by `Batch.NothingToProcess` and `Batch.BatchResults`. Models `procesar_ejecuciones`. |
| `Batch.TruthyExactlyWhenWritten` | utils/video_utils.py:143-145 | The output path is never empty, so the truth test `if salida:` succeeds exactly when a video was written. |
| `Batch.CollectKeepsOrder` | utils/video_utils.py:141-145 | Results are recorded in visiting order. |
| `Batch.CollectPairsOutputs` | utils/video_utils.py:141-145 | Each recorded pair is a folder and that folder's own output. |
| `Batch.CollectKeysExactly` | utils/video_utils.py:141-145 | A folder is recorded exactly when it was visited and its output is truthy. A failure skips only that folder. |
| `Batch.NothingToProcess` | utils/video_utils.py:129-139 | A nonexistent parent returns `None`, and so does a parent with no subdirectories; neither returns an empty mapping. |
| `Batch.BatchResults` | utils/video_utils.py:128-146 | Subfolders are visited in sorted order, each once. The mapping has key `f` exactly when a video was written for `f`, and its value is `f`'s `video_<name>.mp4`. |
| `Batch.SubfoldersAreJoinedEntries` | utils/video_utils.py:132-136 | Every visited folder is a directory: one of the parent's entries joined to the parent. |
| `Batch.VisitOrderFollowsNames` | utils/video_utils.py:141 | Folders are visited in ascending order of their own names. |
| `Batch.VisitsInSortedOrder` | utils/video_utils.py:141 | Subfolders listed as `b`, `a`, `c` are visited as `a`, `b`, `c`. |

## Left out

- `utils/audio_utils.py` is represented only by its outcome. The narration loader's result is the `narrations` map, which gives a duration for each path it opens. The background step is the `music` set. Its −14 dB gain, temporary export and reload are not modelled.
- The user interface in `main.py` is not modelled. It is a form, a subfolder lister and the mapping of `None` to an error string, with no policy of its own.
- Logging is left out, as is the dynamic `__import__`. The fitter is called directly.
- Library behaviour is left out: pixel decoding, LANCZOS resampling, the crop, the numpy conversion, clip concatenation, audio compositing, the slice `audio_bg[0:duracion_total]` and MP4 encoding at 24 fps. Each appears only as a success or failure recorded in the snapshot: `pictures` for decoding, `fitFailures` for the resize, crop and conversion, and the three failure sets for the rest.
- `ImageClip` construction (utils/video_utils.py:95) sits outside any `try`. The model assumes it never raises.
- Pillow's reaction to a non-positive resize or crop is not derived from the sizes. Such sizes arise only from a zero or negative custom resolution. If Pillow raises there, that enters the model only through `fitFailures`.
- Python float rounding is not modelled; scale and durations are exact reals. Under exact arithmetic `int(ow * (fw/ow)) == fw`. Floats could round that product just below `fw`, which would leave the scaled picture one pixel short of the target.
- `str.lower()` is modelled on ASCII letters only. Other characters are kept as they are.
- `int(custom_width)` on strings or floats is left out: custom dimensions enter as integers.
- The tests in `tests/test_main.py` serve only as evidence for `Resolution.FixedOptions`. The second test depends on a real directory.
