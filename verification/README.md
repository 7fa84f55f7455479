# Scratch files of the audio-separator API, in Dafny

The API accepts an uploaded audio file, runs a vocal-separation model on it and
sends back the vocals track. The request goes through three stages of the
handler class `AudioSeparatorLitAPI` in `main.py`. Each stage works on files in
the shared scratch directory `/tmp`:

- `decode_request` checks the uploaded filename and writes the upload to
  `str(Path("/tmp") / f"{first}_{timestamp}.{last}")`. Here `first` and `last`
  are the first and last dot-separated segments of the filename, and the
  timestamp is `datetime.now()` formatted as `%Y%m%d_%H%M%S`.
- `predict` calls the separator once, asking for the `Vocals` stem under the name
  `x + "_vocals.wav"`. Only if that call returns does it try to remove the input,
  and it returns the output name.
- `encode_response` answers 404 when the output file is missing. Otherwise it
  returns a file response whose background task removes the output.

`setup` configures the separator. It turns autocast on exactly when the device
is `"cuda"`.

The model has two parts.

**Name derivation**, as functions and lemmas:
- `PyStr` gives Python's `str.split`.
- `PosixPath` gives `posixpath.join` and the string form of a `PurePosixPath`.
- `Timestamp` gives `strftime("%Y%m%d_%H%M%S")`.
- `ScratchNaming` gives the input and output paths.

The lemmas show what these names are:
- the exact path;
- the middle segments that get dropped;
- accepted names with an empty base or an empty extension;
- the path is injective in (first segment, last segment, timestamp);
- the timestamp has second resolution.

**Lifecycle**: a model of the scratch directory as a set of paths.
- `Lifecycle` defines each stage as a function from the old directory to a
  result and the new directory.
- `Api` holds the classes `ScratchDir` and `AudioSeparatorApi`. Their methods
  perform the stages step by step and are proved equal to those functions.

Everything the process does not decide is a parameter:
- the clock reading;
- whether writing the upload worked;
- what the separator did (returned or raised, and which files it wrote);
- whether each `os.remove` succeeded.

Behaviour of the code that the lemmas make explicit:
- If the separator raises, the input file is never removed (`InputKeptWhenSeparationRaises`, `FailedSeparationLeavesInput`).
- Two slash-free uploads get equal path strings exactly when they share the first segment, the last segment and the second. For example, `a.b.c` and `a.x.c` uploaded in the same second get the same path, and the second upload overwrites the first (`SameSecondUploadsCollide`, `UploadPathsCollideIff`). On a case-insensitive file system more names share a file; see "Left out".
- A failed copy leaves the partial input file behind (`DecodeWriteFailure`).
- A request whose output path already exists, because an earlier colliding request left it, is served that stale file even when its own separator wrote nothing (`StaleOutputIsServed`).
- A filename whose first segment is an absolute path is stored under the directory it names instead of `/tmp`, because `Path("/tmp") / "/etc/x_<ts>.sh"` is `/etc/x_<ts>.sh` (`AbsoluteNameEscapes`).

Three things the code does not do, and the model therefore does not do either:
- It does not make scratch names unique: the timestamp has one-second resolution and the middle segments are dropped.
- It does not remove the input when separation fails.
- It does not delete a partially written upload.

## Model

| member | source | states |
|---|---|---|
| PyStr.Split | main.py:36 | `s.split(sep)` always gives at least one segment, and no segment contains the separator |
| PyStr.Join | main.py:36-47 | `sep.join(parts)` starts with the first part, followed by the separator when there are two or more parts |
| PyStr.Last | main.py:41 | `parts[-1]` is one of the parts; `SplitAtLast` says which text it is for a split filename |
| PyStr.JoinSplit | main.py:36 | joining the segments with the separator gives back the original filename |
| PyStr.SplitJoin | main.py:36 | splitting a join of separator-free parts gives back the parts |
| PyStr.SplitWithoutSep | main.py:36-38 | a name without a dot is a single segment |
| PyStr.SplitCount | main.py:36-38 | the split has at least two segments exactly when the name contains a dot, which is the `len(filename) < 2` test |
| PyStr.SplitAtFirst | main.py:36-41 | `filename[0]` is the text before the first dot |
| PyStr.SplitAtLast | main.py:36-41 | `filename[-1]` is the text after the last dot |
| PyStr.SplitEnds | main.py:36-41 | when a dot occurs, the first segment is a dot-free prefix followed by a dot, and the last segment is a dot-free suffix preceded by a dot |
| PyStr.JoinLast | main.py:41 | a join of two or more parts ends with the separator and the last part |
| PosixPath.JoinPath | main.py:40-41 | `posixpath.join(dir, name)` is exactly `name` when the name is absolute |
| PosixPath.JoinPathRelative | main.py:40-41 | for a relative name, the join starts with the directory, ends with the name, and puts exactly one slash between them when the directory lacks one, and nothing else |
| PosixPath.SplitRoot | main.py:40-41 | the root and the rest make up the path, and the root is one of empty, `/` or `//` |
| PosixPath.SplitRootCases | main.py:40-41 | the root is empty exactly for a relative path, and is `//` exactly when the path starts with two slashes but not three |
| PosixPath.Str | main.py:41 | `str(PurePosixPath(p))` is never empty: a path with no components prints as `.` or its root |
| PosixPath.Under | main.py:40-41 | `str(Path(dir) / name)` is the string form of the name alone when the name is absolute: an absolute name replaces the directory |
| PosixPath.UnderAbsoluteDir | main.py:40-41 | joining onto an absolute directory always gives an absolute path |
| PosixPath.Keep | main.py:40-41 | the string form of a path keeps only components that are not empty and not `.` |
| PosixPath.KeepAppend | main.py:40-41 | keeping components distributes over concatenation, so each component is kept or dropped on its own and order is preserved |
| PosixPath.KeepProper | main.py:40-41 | every component that is neither empty nor `.` is kept, so a list of such components is kept whole |
| PosixPath.TwoComponents | main.py:40-41 | `/d/name` with proper components is its own string form |
| PosixPath.UnderPlainName | main.py:40-41 | `str(Path("/d") / name)` is `/d/name` when the name is one proper component |
| Timestamp.Pad | main.py:35 | zero padding of `%Y`, `%m` and the like has exactly the field's width and only digits |
| Timestamp.PadRoundTrip | main.py:35 | reading a padded field back gives the number |
| Timestamp.Format | main.py:35 | the timestamp has 15 characters: digits, with `_` at position 8 |
| Timestamp.FormatFields | main.py:35 | the digit groups hold year, month, day, hour, minute and second, in the order `%Y%m%d_%H%M%S` |
| Timestamp.FormatHasNoSeparators | main.py:35 | the timestamp contains no dot and no slash |
| Timestamp.FormatAtSecondResolution | main.py:35 | two readings give the same timestamp exactly when they fall in the same second; microseconds are discarded |
| ScratchNaming.UnderScratchDir | main.py:40-41 | a slash-free name is stored as `/tmp/<first>_<ts>.<last>` |
| ScratchNaming.UnderScratch | main.py:40-41 | a single proper component lands directly inside `/tmp` |
| ScratchNaming.UploadName | main.py:41 | `f"{first}_{timestamp}.{last}"` starts with the first segment, ends with the last, and has the timestamp between the `_` and the `.` that separate the three parts |
| ScratchNaming.ScratchPath | main.py:36-41 | the input path is always absolute, even when the filename is itself absolute; `ScratchPathExact` gives its closed form |
| ScratchNaming.OutputPath | main.py:54-65 | the output path is the input path followed by `_vocals.wav`, so it never equals the input path |
| ScratchNaming.OutputNames | main.py:54-56 | the separator is asked for exactly one stem, `Vocals`, under the output path |
| ScratchNaming.ScratchPathExact | main.py:36-41 | a slash-free filename with a dot is stored at exactly `/tmp/` + first segment + `_` + timestamp + `.` + last segment |
| ScratchNaming.DropsMiddleSegments | main.py:36-41 | `a.m.b` is stored as `/tmp/a_<ts>.b`, so middle segments are discarded |
| ScratchNaming.MiddleDroppedExample | main.py:36-41 | `a.b.c` is stored as `/tmp/a_<ts>.c` |
| ScratchNaming.TwoSegments | main.py:36-41 | `a.b` is split into exactly `[a, b]` and stored as `/tmp/a_<ts>.b` |
| ScratchNaming.EmptyBase | main.py:36-41 | `.bashrc` and the like are accepted, with an empty base: `/tmp/_<ts>.bashrc` |
| ScratchNaming.EmptyExtension | main.py:36-41 | `song.` and the like are accepted, with an empty extension: `/tmp/song_<ts>.` |
| ScratchNaming.AbsoluteNameEscapes | main.py:36-41 | `/d/base.ext` is stored as `/d/base_<ts>.ext`, under the directory `/d` the filename names instead of `/tmp` |
| ScratchNaming.UploadNameInjective | main.py:41 | `<first>_<ts>.<last>` determines first, timestamp and last when timestamps have one width and the extension has no dot |
| ScratchNaming.ScratchPathDeterminedBy | main.py:35-41 | two slash-free uploads have equal path strings exactly when they agree on the first segment, the last segment and the timestamp |
| Lifecycle.Configure | main.py:21-22 | autocast is on exactly when the device is `"cuda"`; the output format is mp3 and the model file is fixed |
| Lifecycle.Decode | main.py:31-50 | `decode_request` never removes a file; on success it adds exactly the returned absolute path, a 400 changes nothing, and every error is a 400 or a 500 |
| Lifecycle.RejectsMissingFilename | main.py:32-33 | a missing or empty filename is a 400 "No filename provided", and the scratch directory is unchanged |
| Lifecycle.RejectsNameWithoutDot | main.py:36-38 | a filename without a dot is a 400 "Invalid file format", and the scratch directory is unchanged |
| Lifecycle.DecodeAcceptsIff | main.py:31-47 | with a successful write, an upload is accepted exactly when the filename is present, non-empty and has a dot |
| Lifecycle.DecodeStoresAtScratchPath | main.py:40-47 | an accepted slash-free upload returns `/tmp/<first>_<ts>.<last>`, and adding that path is the only change |
| Lifecycle.DecodeWriteFailure | main.py:43-50 | a failed write is a 500 "Failed to save uploaded file"; a failed open adds nothing, and a failed copy leaves the partial file |
| Lifecycle.SameSecondUploadsCollide | main.py:35-47 | two uploads agreeing on the first and last segments in the same second get the same path; the second overwrites the first, leaving one file |
| Lifecycle.UploadPathsCollideIff | main.py:35-41 | for slash-free names, two uploads have equal path strings exactly when they agree on the first segment, the last segment and the second |
| Lifecycle.Job | main.py:54-57 | the separator is called on the input path with one stem, `Vocals`, named differently from the input |
| Lifecycle.Predict | main.py:52-68 | `predict` succeeds exactly when the separator is set up and returns; the result is the output path; a failure is a 500 that removes nothing; apart from the input, the directory gains exactly what the separator wrote |
| Lifecycle.PredictSuccess | main.py:54-65 | when the separator returns, the result is `x + "_vocals.wav"`, and the input is gone unless its removal failed |
| Lifecycle.InputKeptWhenSeparationRaises | main.py:57-68 | when the separator raises, the result is a 500 "Audio separation failed" and nothing is removed |
| Lifecycle.InputRemovedOnlyAfterSuccess | main.py:52-68 | the input is absent after `predict` exactly when the separator was set up, returned, and the removal succeeded, or when the input never existed |
| Lifecycle.RemovalFailureIsSwallowed | main.py:60-65 | a failed removal of the input does not change `predict`'s result |
| Lifecycle.Encode | main.py:70-85 | `encode_response` fails exactly when the output is absent; otherwise it serves the output and its cleanup targets the output |
| Lifecycle.EncodeIff | main.py:70-85 | `encode_response` is a 404 "Output file not found" exactly when the output is absent; otherwise it serves that path and its cleanup removes that path |
| Lifecycle.AfterSend | main.py:77-84 | the cleanup never adds a file, changes nothing but its own path, removes that path when the removal succeeds, and keeps it when the removal fails |
| Lifecycle.CleanupTouchesOnlyItsPath | main.py:77-84 | the cleanup removes only its own path; the path is gone exactly when the removal succeeds, and kept when it fails |
| Lifecycle.Serve | main.py:31-85 | a successful request wrote the upload and ran a set-up separator that returned; it serves the `_vocals.wav` output path of exactly the input path `decode_request` returned, and its cleanup removes that file; every failure is a 400, 404 or 500 |
| Lifecycle.HappyPathLeavesNoScratchFiles | main.py:31-85 | when neither the input path nor the output path was present before, a request where the separator writes exactly the expected output and both removals succeed leaves the scratch directory unchanged |
| Lifecycle.FailedSeparationLeavesInput | main.py:31-68 | when the separator raises, the request ends in a 500 and its input file stays in the scratch directory |
| Lifecycle.MissingOutputIsNotFound | main.py:52-72 | when the separator returns without writing the expected output and the output was not already present, the request is a 404 and no cleanup runs; the input is removed unless its removal fails |
| Lifecycle.StaleOutputIsServed | main.py:52-85 | when the output path is already present, left by a colliding earlier request, the request serves that stale file even though the separator wrote nothing |
| Api.ScratchDir.Create | main.py:44 | opening a path with `"wb"` adds the path, or keeps it if present |
| Api.ScratchDir.Receive | main.py:57 | the files the separator writes are added to the scratch directory |
| Api.ScratchDir.Remove | main.py:60-63 | `os.remove` succeeds exactly when it is permitted and the path exists, and only then removes the path |
| Api.ScratchDir.Exists | main.py:71 | `os.path.exists` is membership in the scratch directory |
| Api.AudioSeparatorApi.Setup | main.py:16-25 | sets the separator field, with autocast exactly on `"cuda"`; the field is set before the model is loaded |
| Api.AudioSeparatorApi.DecodeRequest | main.py:31-50 | the new scratch directory and result are those of `Lifecycle.Decode`; on success exactly the returned path was added |
| Api.AudioSeparatorApi.Predict | main.py:52-68 | the result and new scratch directory are those of `Lifecycle.Predict`; the separator is called exactly once, with `{"Vocals": x + "_vocals.wav"}`, when set up |
| Api.AudioSeparatorApi.EncodeResponse | main.py:70-85 | 404 exactly when the output is absent; otherwise a response whose background task removes exactly the output |
| Api.AudioSeparatorApi.RunBackground | main.py:77-84 | running the cleanup removes its path, unless the removal fails, and changes nothing else |
| Api.AudioSeparatorApi.HandleRequest | main.py:31-85 | the three stages in order, and then the response's cleanup, give exactly `Lifecycle.Serve`; the separator is called once, with the decoded input, when the upload was accepted and the separator is set up, and otherwise not at all |

## Left out

- The separator library (`Separator`, `load_model`, `separate`) is a black box. Its outcome is a parameter: it returned or it raised, plus the set of paths it wrote. How the library names its own output files is not part of this model, so the model does not decide whether `x + "_vocals.wav"` is the file it actually writes.
- `setup`: only the autocast rule and the assignment of the `separator` field are modelled. Loading the model, and the re-raise when loading fails (main.py:23-29), are left out: a failed `setup` stops the server before any request, so no request stage sees it.
- File contents and the byte copy (`shutil.copyfileobj`) are left out, and so is the streaming of the `FileResponse`. The scratch directory is a set of paths.
- The clock is not read. `decode_request` takes the formatted timestamp as a parameter. `Timestamp.Format` covers years 1000 to 9999, where `%Y` is four digits on every platform.
- The serving framework's background-task timing is left out. The cleanup is a value in the response, and `RunBackground` runs it as a separate step.
- Accelerator probing, server construction, worker count and port (main.py:88-111) are process configuration. They are left out.
- Concurrent workers are left out. Collisions are stated as lemmas about two uploads, not as interleavings.
- Logging is left out everywhere.
- `PosixPath` models POSIX `pathlib` only. It does not model Windows paths, and it keeps `..` components, as pathlib does.
- Files are identified by their exact path string, as on a case-sensitive POSIX file system. On a case-insensitive file system (the default on macOS, where the MPS accelerator of main.py:99-100 runs), names that differ only in case share a file. So `Song.wav` and `song.wav` uploaded in the same second overwrite each other, although `UploadPathsCollideIff` gives them different path strings.
- PyStr.Last: its own contract says only that the result is one of the parts. Which text it is for a split filename is stated by `SplitAtLast` and `SplitEnds`.
- PosixPath.Str: its own contract says only that the string form is never empty. Its value for `/d/name` is stated by `TwoComponents`, and the filter it applies by `KeepAppend` and `KeepProper`.
- PosixPath.JoinPath: its own contract covers only the absolute-name case. The relative case, which every slash-free upload name takes, is stated by `JoinPathRelative`: the directory, one slash when the directory lacks a trailing one, then the name, with nothing else in between.
- PosixPath.Under: its own contract covers only the absolute-name case. The plain-name case is stated by `UnderPlainName`, and absoluteness by `UnderAbsoluteDir`.
- ScratchNaming.ScratchPath: its own contract says only that the path is absolute. Its closed form is stated by `ScratchPathExact`, because putting the closed form into the function's contract makes every proof that uses the function too expensive for the verifier.
