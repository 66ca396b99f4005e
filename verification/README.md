# ImageProcessor core, modelled in Dafny

`ImageProcessor` is a command-line tool. It walks a directory tree, shallowly or
recursively, and submits one task per image file to a thread pool. Each task
rescales the image, turns it into its colour negative, deletes it, or copies it
to a destination directory. The user can cancel the run by pressing ESC, which
sets a shared flag.

This project models the sequential logic of `src/ImageProcessor.java`:

- `names.dfy` (module `Names`): the case-insensitive image-extension filter
  (`IMAGE_EXTENSIONS`) and the choice of the writer format (`getFormatName`).
- `pixels.dfy` (module `Pixels`): the ARGB negation of one packed 32-bit pixel
  (`bv32`). It also holds the nested loop of `createNegative`, which rewrites an
  `array2<bv32>` image in place. The image's first index is the column x and its
  second index is the row y.
- `walk.dfy` (module `Walk`): `processDirectory` over a directory tree given as a
  value. `Entry` is `File(name)`, `Dir(name, children)` or `Unreadable(name)`, a
  directory whose listing fails. Listing order is sequence order.
  - The functions `WalkDir`/`WalkChildren`/`WalkEntry` define the walk.
  - The class `Walker` runs it as the source does. Its field `submitted` stands
    for the shared `futures` list. Its field `polls` counts how often the
    cancellation flag has been read.
- `dispatch.dfy` (module `Dispatch`): the `processImage` switch, which selects
  one action per task.
- `arguments.dfy` (module `Arguments`): the argument loop at the start of
  `main`.
  - `Scan`/`Parse` are the specification.
  - `ParseArguments` is the loop itself, with its early error exits.
- `wrappers.dfy` and `sequences.dfy` hold `Option`/`Result` and a
  duplicate-freedom predicate, both shared by the modules above.

The cancellation flag is set only by the ESC-listener thread and is never
cleared. `processDirectory` itself is modelled under any schedule of that
write, given as a `CancelSchedule`: either `Never`, or `FromPoll(k)`, meaning
the flag reads true from the walk's k-th poll onward. Each `isCancelled.get()`
in the walk is one poll. The flag is polled once when `processDirectory`
starts and once per listed entry. A `return` inside the `forEach` lambda only
skips that entry, so later entries are still polled, and skipped.

In `main`, however, the listener thread is created (line 83) and started
(line 101) only after `processDirectory` has returned (line 80). Nothing else
sets the flag, so every poll of the walk reads false. `Walk.MainSubmit` states
the walk as `main` runs it: the schedule is `Never` and every image file of the
tree is submitted. The cancellable walk is kept because that is what
`processDirectory` does; see "## Findings".

`processImage` reads the flag once, when the task starts. That reading is a
boolean parameter. `Double.parseDouble` is a parameter `parseDouble: string ->
Option<real>`, which gives `None` where the Java call throws
`NumberFormatException`.

## Model

| member | source | states |
|---|---|---|
| `Names.FormatName` | src/ImageProcessor.java:249-261 | the format is always one of jpg, png, bmp, gif |
| `Names.FormatNameBySuffix` | src/ImageProcessor.java:249-261 | in any letter case, .jpg or .jpeg gives jpg, .png gives png, .bmp gives bmp, .gif gives gif, and a name with none of the five extensions gives jpg |
| `Names.FormatMatchesExtension` | src/ImageProcessor.java:249-261 | a name ending in a listed extension passes the image filter, and its format is the one that extension stands for (jpeg read as jpg), so the jpg fallback is never used for a submitted file |
| `Names.IsImageName` | src/ImageProcessor.java:144-145 | the filter on the lowercased name against the five listed extensions; a name that passes has at least four characters |
| `Names.ImageNameExamples` | src/ImageProcessor.java:144-145 | a listed extension passes the filter in any letter case (`a.png`, `PHOTO.JPEG`, `sub.Gif`) |
| `Names.TextFileIsNotImage` | src/ImageProcessor.java:144-145 | `b.txt` does not pass the image filter |
| `Pixels.NegatePixel` | src/ImageProcessor.java:215-221 | unpacking, complementing and repacking a pixel equals XOR with 0x00FFFFFF |
| `Pixels.NegatePixelChannels` | src/ImageProcessor.java:216-221 | the alpha byte is unchanged and red, green and blue each become 255 minus their old value |
| `Pixels.NegatePixelInvolution` | src/ImageProcessor.java:215-221 | negating a pixel twice restores the original 32-bit word |
| `Pixels.RowMajorVisitsEachPixelOnce` | src/ImageProcessor.java:213-214 | the row-by-row visiting order of the two loops names exactly the pixels with x < width and y < height, none twice |
| `Pixels.NegatePixels` | src/ImageProcessor.java:213-225 | after the loops every pixel holds the negation of its old value, and the writes happened in row-major order, so each pixel was written exactly once |
| `Pixels.CreateNegative` | src/ImageProcessor.java:207-230 | an undecoded (null) image is left alone and nothing is written; otherwise every pixel is negated and the image is written in the format chosen from the file name |
| `Pixels.NegateTwice` | src/ImageProcessor.java:213-225 | running the negative transform twice on an image restores every pixel |
| `Walk.Walker.constructor` | src/ImageProcessor.java:76 | a new walk starts with an empty task list and no polls made |
| `Walk.Walker.IsCancelled` | src/ImageProcessor.java:129 | one read of the flag returns the schedule's value at the current poll and advances the poll count; the task list is unchanged |
| `Walk.Walker.ProcessDirectory` | src/ImageProcessor.java:125-162 | appends to the task list exactly what `WalkDir` submits, in order; if the flag is already set on entry, the task list is unchanged |
| `Walk.Walker.VisitListing` | src/ImageProcessor.java:134-158 | the forEach over one listing appends exactly what `WalkChildren` submits, entry by entry in listing order, and makes the polls it counts |
| `Walk.Walker.VisitEntry` | src/ImageProcessor.java:135-157 | for one listed entry, appends exactly what `WalkEntry` submits: nothing once the flag is set, the walk of a subdirectory only when recursive, and a file only when it is an image |
| `Walk.Submit` | src/ImageProcessor.java:76-80 | under a given cancellation schedule, the tasks submitted for the source directory from a fresh task list are those of `WalkDir` from poll 0, in order |
| `Walk.MainSubmit` | src/ImageProcessor.java:76-101 | as main runs it, with the flag's only writer started after the walk, the tasks submitted are exactly the tree's image files (`DirImages`), in listing order |
| `Walk.EarlyEscIsIgnored` | src/ImageProcessor.java:80-101 | for the example tree, a walk that saw a flag set before it started would submit nothing, yet main submits both image files |
| `Walk.WalkDir` | src/ImageProcessor.java:125-162 | one call of processDirectory polls the flag at least once, and submits fewer paths than it makes polls |
| `Walk.WalkChildren` | src/ImageProcessor.java:134-158 | the forEach over a listing polls at least once per listed entry, and submits at most one path per poll |
| `Walk.WalkEntry` | src/ImageProcessor.java:135-157 | the lambda body for one entry polls at least once, and submits at most one path per poll |
| `Walk.CancelledWalkSubmitsNothing` | src/ImageProcessor.java:129-131 | if the flag is set when `processDirectory` starts, nothing is submitted |
| `Walk.SkipAllOnceSet` | src/ImageProcessor.java:135-137 | once the flag reads true, every remaining entry of a listing is skipped, with one poll each |
| `Walk.UncancelledDir` | src/ImageProcessor.java:134-158 | with the flag never set, the walk submits exactly the tree's image files (the reference `DirImages`), in listing order |
| `Walk.CancelledDirIsPrefix` | src/ImageProcessor.java:129-158 | under any cancellation schedule, the submitted paths are an in-order prefix of the uncancelled walk's paths; if the walk stops short, its own last poll read the flag as set |
| `Walk.ShallowWalkSubmitsDirectImages` | src/ImageProcessor.java:139-156 | without recursion and with the flag never set (as in main), a path is submitted iff it names an image file listed directly in the root, so subdirectories are never entered |
| `Walk.RecursiveWalkSubmitsEachImageOnce` | src/ImageProcessor.java:139-156 | with recursion, distinct sibling names and the flag never set (as in main), a path is submitted iff it names an image file at some depth (never a directory); under any cancellation schedule no path is submitted twice |
| `Walk.ExampleRecursiveWalk` | src/ImageProcessor.java:139-156 | for the tree {a.png, b.txt, sub/c.jpg}, the recursive walk submits exactly a.png then sub/c.jpg |
| `Walk.ExampleShallowWalk` | src/ImageProcessor.java:139-156 | for the same tree, the shallow walk submits only a.png |
| `Arguments.EqualsIgnoreCase` | src/ImageProcessor.java:34-63 | two strings match when they have the same length and agree character by character after lowering |
| `Arguments.Scan` | src/ImageProcessor.java:34-65 | the token loop fails only with a bad or missing scale factor or a missing copy path, never turns recursion off, and never drops an operation once one is chosen |
| `Arguments.Finish` | src/ImageProcessor.java:67-70 | the command line is accepted iff an operation was chosen, otherwise it is the no-operation error; the accepted configuration carries the flags' values unchanged |
| `Arguments.Parse` | src/ImageProcessor.java:22-70 | the too-few-arguments error occurs exactly when there are fewer than two tokens, and an accepted configuration takes its source directory from the first token |
| `Arguments.ParseArguments` | src/ImageProcessor.java:22-70 | the token loop, with its in-loop error exits, returns exactly what `Parse` specifies |
| `Arguments.ParsedConfigIsComplete` | src/ImageProcessor.java:28-70 | an accepted command line has at least two tokens, its source directory is the first token, its operation is one of the four, scale carries a factor and copy carries a destination |
| `Arguments.ParseWithoutOperation` | src/ImageProcessor.java:22-70 | without any operation flag, fewer than two tokens is the too-few-arguments error and otherwise the no-operation error |
| `Arguments.ScanExtends` | src/ImageProcessor.java:34-65 | tokens that were read without error are read the same way whatever tokens follow them |
| `Arguments.AppendToken` | src/ImageProcessor.java:34-65 | after a clean prefix, a trailing /n or /r (any case) replaces the operation chosen so far, /sub turns recursion on, a trailing /s or /c is the missing-value error, and any other token is ignored |
| `Arguments.UnparsableFactorIsFinal` | src/ImageProcessor.java:37-45 | after a clean prefix, /s followed by an unparsable factor is the invalid-factor error whatever tokens follow |
| `Arguments.AppendValueFlag` | src/ImageProcessor.java:37-63 | /s and /c consume the next token whatever it is; an unparsable factor ends the parse with that error whatever tokens follow it; otherwise scale with that factor, or copy to that directory, replaces the operation chosen so far |
| `Dispatch.ProcessImage` | src/ImageProcessor.java:164-184 | a set flag selects no action; otherwise exactly one action is selected, the one named by the operation string, for the task's own path and values; an unknown string selects nothing |
| `Dispatch.ParsedConfigDispatches` | src/ImageProcessor.java:170-183 | for every accepted command line, a task that starts before cancellation performs its configured operation, never the empty default, and scale and copy have their values |

## Left out

- Image decoding and encoding (`ImageIO.read`/`ImageIO.write`) are calls into a library. The decoded image is an `array2<bv32>` or null. Encoding appears only as the format name `CreateNegative` returns.
- `scaleImage` is not modelled: its size computation multiplies by a floating-point factor and truncates, and its resampling is done by `Graphics2D.drawImage`, a library call. Dispatch models only the choice of this operation and its factor.
- `removeImage` and `copyImage` are file-system calls (`Files.delete`, `Files.exists`, `Files.createDirectories`, `Path.resolve`, `Files.copy`). Dispatch models only the choice of these operations, with their path and destination.
- `Files.list` and `Files.isDirectory` are replaced by the `Entry` tree. An `IOException` from listing a directory (an unreadable directory, or a root that is not a directory) means nothing is submitted from it; the error message is not modelled.
- The `Unreadable` entry covers only a failure when a listing is opened. `Files.list` reads its directory lazily: an I/O error while the `forEach` runs is an `UncheckedIOException`, which the `catch (IOException e)` at line 159 does not catch. It would end the whole walk and reach the `catch` at line 118 of `main`, skipping the waits and the executor shutdown at lines 104-117. The tree model has no mid-listing failure.
- The stream returned by `Files.list` at line 134 is never closed, so each listed directory keeps a directory handle open. In a deep enough recursive walk a later `Files.list` can fail with "Too many open files", and that subtree is skipped at line 159. The model treats unreadability as a fixed property of the tree, not as a result of the walk's own history.
- `Files.isDirectory` at line 139 follows symbolic links, so a link that points back up the tree makes the recursive walk descend until `StackOverflowError`. The `Entry` tree is finite and has no links, so this is not modelled.
- The thread pool, `Future.get`, and `shutdown`/`shutdownNow`/`awaitTermination` are left out because their whole purpose is concurrency. Submitting a task is modelled as appending its path to the task list. Tasks are not executed.
- The ESC-listener thread that reads standard input is concurrent console input and is left out. Its effect on the walk is the `CancelSchedule`. Its effect on a task is the `cancelled` parameter of `ProcessImage`.
- `Double.parseDouble` is float parsing and is a parameter of the parser, of type `string -> Option<real>`. Java also accepts "NaN", "Infinity" and out-of-range inputs such as "1e400" (which give NaN or an infinity); a `real` cannot carry those values. Whether a token is accepted is still the parameter's choice; only the value carried as the scale factor differs.
- All console output is left out.
- `getRGB`/`setRGB` colour-model conversion for images that are not ARGB is left out. The image is a raw buffer of ARGB words.
- `Names.Lower` and `Arguments.EqualsIgnoreCase` fold case for ASCII letters only, and independently of any locale. Java's `toLowerCase` and `equalsIgnoreCase` also fold other Unicode letters. One example: `equalsIgnoreCase` treats U+017F (long s) as equal to `s`. The `toLowerCase()` calls at lines 144 and 250 also use the default locale. Under a Turkish or Azerbaijani locale, `I` lowers to the dotless `ı` (U+0131), so `PHOTO.GIF` becomes `photo.gıf`. Such a file is not submitted (line 145), and `getFormatName` would fall back to jpg for it (line 260). The model accepts it as a gif.
- Java's `>>` is an arithmetic shift, while `bv32`'s `>>` is a logical shift. Every shift in the pixel code is masked with `0xff`, so the results agree.
- `Walk.RecursiveWalkSubmitsEachImageOnce` assumes distinct sibling names. A real file system guarantees this, and the tree datatype does not enforce it.

## Findings

| source | as written | input that shows it | evidently intended | confidence | as-written member | corrected member |
|---|---|---|---|---|---|---|
| src/ImageProcessor.java:80-101 | `main` calls `processDirectory` at line 80 and only then creates (line 83) and starts (line 101) the thread that sets the flag on ESC, so the walk's checks at lines 129 and 135 can never fire | ESC pressed while a large tree is being walked: it is read only after the listener starts, and by then every image file has been submitted | pressing ESC during the walk stops it, so it submits only an in-order prefix of the image files, and stops short only once it has seen the flag | not executed | `Walk.MainSubmit` (with `Walk.EarlyEscIsIgnored`) | `Walk.CancelledDirIsPrefix` |

