/** The three request stages as functions from the scratch directory (the set
    of paths present under it) to a result and the new scratch directory.
    Everything outside the process is an outcome passed in: whether writing the
    upload succeeded, what the separator did, whether a removal succeeded. */
module Lifecycle {
  import opened PyStr
  import opened ScratchNaming
  import opened Timestamp

  datatype Option<T> = None | Some(value: T)

  /** An `HTTPException` with its status code and detail. */
  datatype HttpError = HttpError(status: int, detail: string)

  datatype Result<T> = Ok(value: T) | Err(error: HttpError)

  const NoFilename := HttpError(400, "No filename provided")
  const InvalidFormat := HttpError(400, "Invalid file format")
  const SaveFailed := HttpError(500, "Failed to save uploaded file")
  const SeparationFailed := HttpError(500, "Audio separation failed")
  const OutputNotFound := HttpError(404, "Output file not found")

  /** How writing the upload went: the file was written, opening it failed (no
      file is created), or copying into it failed after it was opened (a
      partial file stays behind). */
  datatype WriteOutcome = Written | OpenFailed | CopyFailed

  /** What the separator did: it returned or it raised, and in either case the
      paths it wrote. */
  datatype SeparationOutcome = Returned(written: set<string>) | Raised(written: set<string>)

  /** The settings `setup` gives the separator. */
  datatype SeparatorConfig = SeparatorConfig(useAutocast: bool, outputFormat: string, modelFilename: string)

  /** One call of the separator: the input path and the stem-to-name map. */
  datatype SeparationJob = SeparationJob(input: string, outputNames: map<string, string>)

  /** The background task attached to a response. */
  datatype Cleanup = RemoveFile(path: string)

  datatype FileResponse = FileResponse(path: string, background: Cleanup)

  /** A stage's result together with the scratch directory after it. */
  datatype Step<T> = Step(result: Result<T>, files: set<string>)

  const ModelFilename: string := "model_bs_roformer_ep_368_sdr_12.9628.ckpt"
  const OutputFormat: string := "mp3"

  /** The separator settings chosen by `setup` for a device. */
  function Configure(device: Option<string>): (c: SeparatorConfig)
    ensures c.useAutocast <==> device == Some("cuda")
    ensures c.outputFormat == OutputFormat && c.modelFilename == ModelFilename
  {
    SeparatorConfig(device == Some("cuda"), OutputFormat, ModelFilename)
  }

  /** `decode_request`: validate the filename, then create (or truncate) the input file. */
  function Decode(files: set<string>, filename: Option<string>, timestamp: string,
                  write: WriteOutcome): (d: Step<string>)
    ensures files <= d.files
    ensures d.result.Ok? ==> write == Written && d.files == files + {d.result.value}
    ensures d.result.Ok? ==> |d.result.value| > 0 && d.result.value[0] == '/'
    ensures d.result.Err? ==> d.result.error.status in {400, 500}
    ensures d.result.Err? && d.result.error.status == 400 ==> d.files == files
  {
    if filename.None? || filename.value == "" then Step(Err(NoFilename), files)
    else
      var segments := Split(filename.value, '.');
      if |segments| < 2 then Step(Err(InvalidFormat), files)
      else
        var path := ScratchPath(segments, timestamp);
        match write
        case Written => Step(Ok(path), files + {path})
        case OpenFailed => Step(Err(SaveFailed), files)
        case CopyFailed => Step(Err(SaveFailed), files + {path})
  }

  /** The one call `predict` makes to the separator for input `x`. */
  function Job(x: string): (job: SeparationJob)
    ensures job.input == x && job.outputNames.Keys == {VocalsStem}
    ensures job.outputNames[VocalsStem] == OutputPath(x) != x
  {
    SeparationJob(x, OutputNames(x))
  }

  /** `predict`: run the separator once; only when it returns, try to remove the
      input and return the output path. Without a separator the attribute
      lookup raises and ends in the same 500. */
  function Predict(files: set<string>, separator: Option<SeparatorConfig>, x: string,
                   engine: SeparationOutcome, removeOk: bool): (p: Step<string>)
    ensures p.result.Ok? <==> separator.Some? && engine.Returned?
    ensures p.result.Ok? ==> p.result.value == OutputPath(x)
    ensures p.result.Err? ==> p.result.error == SeparationFailed && files <= p.files
    ensures p.files - {x} == (if separator.Some? then files + engine.written else files) - {x}
  {
    if separator.None? then Step(Err(SeparationFailed), files)
    else
      var after := files + engine.written;
      match engine
      case Raised(_) => Step(Err(SeparationFailed), after)
      case Returned(_) => Step(Ok(OutputPath(x)), if removeOk then after - {x} else after)
  }

  /** `encode_response`: a 404 when the output is missing, otherwise a response
      whose background task removes that output. */
  function Encode(files: set<string>, output: string): (r: Result<FileResponse>)
    ensures r.Err? <==> output !in files
    ensures r.Ok? ==> r.value.path == output && r.value.background.path == output
  {
    if output !in files then Err(OutputNotFound)
    else Ok(FileResponse(output, RemoveFile(output)))
  }

  /** The scratch directory once the response has been sent and its
      background task has run; a failed removal is swallowed. */
  function AfterSend(files: set<string>, cleanup: Cleanup, removeOk: bool): (after: set<string>)
    ensures after <= files
    ensures after - {cleanup.path} == files - {cleanup.path}
    ensures removeOk ==> cleanup.path !in after
    ensures !removeOk ==> after == files
  {
    if removeOk then files - {cleanup.path} else files
  }

  /** One request through the three stages, and the sending of the response. */
  function Serve(files: set<string>, separator: Option<SeparatorConfig>, filename: Option<string>,
                 timestamp: string, write: WriteOutcome, engine: SeparationOutcome,
                 removeInputOk: bool, removeOutputOk: bool): (s: Step<FileResponse>)
    ensures s.result.Ok? ==> write == Written && separator.Some? && engine.Returned?
    ensures var d := Decode(files, filename, timestamp, write);
      s.result.Ok? ==> d.result.Ok? && s.result.value.path == OutputPath(d.result.value)
    ensures s.result.Ok? ==> var served := s.result.value.path;
      s.result.value.background == RemoveFile(served) &&
      |served| >= |VocalsSuffix| && served[|served| - |VocalsSuffix|..] == VocalsSuffix
    ensures s.result.Err? ==> s.result.error.status in {400, 404, 500}
  {
    var d := Decode(files, filename, timestamp, write);
    if d.result.Err? then Step(Err(d.result.error), d.files)
    else
      var p := Predict(d.files, separator, d.result.value, engine, removeInputOk);
      if p.result.Err? then Step(Err(p.result.error), p.files)
      else
        match Encode(p.files, p.result.value)
        case Err(e) => Step(Err(e), p.files)
        case Ok(response) => Step(Ok(response), AfterSend(p.files, response.background, removeOutputOk))
  }

  // ---------------------------------------------------------------- decode

  /** A missing or empty filename is a 400 before anything is written. */
  lemma RejectsMissingFilename(files: set<string>, filename: Option<string>, timestamp: string,
                               write: WriteOutcome)
    requires filename == None || filename == Some("")
    ensures Decode(files, filename, timestamp, write) == Step(Err(NoFilename), files)
  {
  }

  /** A filename without a dot is a 400 "Invalid file format", and nothing is written. */
  lemma RejectsNameWithoutDot(files: set<string>, name: string, timestamp: string,
                              write: WriteOutcome)
    requires name != "" && '.' !in name
    ensures Decode(files, Some(name), timestamp, write) == Step(Err(InvalidFormat), files)
  {
    SplitCount(name, '.');
  }

  /** With a successful write, an upload is accepted exactly when its filename
      is present, non-empty and contains a dot. */
  lemma DecodeAcceptsIff(files: set<string>, filename: Option<string>, timestamp: string)
    ensures Decode(files, filename, timestamp, Written).result.Ok? <==>
      filename.Some? && filename.value != "" && '.' in filename.value
  {
    if filename.Some? && filename.value != "" {
      SplitCount(filename.value, '.');
    }
  }

  /** An accepted slash-free filename is stored at exactly
      `/tmp/<first>_<timestamp>.<last>`, and that path is the only change. */
  lemma DecodeStoresAtScratchPath(files: set<string>, name: string, timestamp: string)
    requires '.' in name && '/' !in name && '/' !in timestamp
    ensures var segments := Split(name, '.');
      var path := "/tmp/" + segments[0] + "_" + timestamp + "." + Last(segments);
      Decode(files, Some(name), timestamp, Written) == Step(Ok(path), files + {path})
  {
    ScratchPathExact(name, timestamp);
  }

  /** A failed write is a 500; a failed open leaves the directory as it was,
      a failed copy leaves the partial file behind. */
  lemma DecodeWriteFailure(files: set<string>, name: string, timestamp: string, write: WriteOutcome)
    requires '.' in name && write != Written
    ensures var segments := Split(name, '.');
      |segments| >= 2 &&
      Decode(files, Some(name), timestamp, write).result == Err(SaveFailed) &&
      Decode(files, Some(name), timestamp, write).files ==
        (if write == OpenFailed then files else files + {ScratchPath(segments, timestamp)})
  {
  }

  /** Two uploads whose filenames agree on the first and last segments, made in
      the same second, get the same path: the second returns what the first
      returned and overwrites its file, leaving one entry. */
  lemma SameSecondUploadsCollide(files: set<string>, n1: string, n2: string, t1: DateTime, t2: DateTime)
    requires t1.Valid() && t2.Valid() && SameSecond(t1, t2)
    requires '.' in n1 && '.' in n2
    requires Split(n1, '.')[0] == Split(n2, '.')[0] && Last(Split(n1, '.')) == Last(Split(n2, '.'))
    ensures var d1 := Decode(files, Some(n1), Format(t1), Written);
      var d2 := Decode(d1.files, Some(n2), Format(t2), Written);
      d1.result.Ok? && d2.result == d1.result && d2.files == d1.files == files + {d1.result.value}
  {
    SplitCount(n1, '.');
    SplitCount(n2, '.');
    FormatAtSecondResolution(t1, t2);
  }

  /** Conversely, for slash-free filenames two uploads share a path only when
      they agree on the first segment, the last segment and the second. */
  lemma UploadPathsCollideIff(n1: string, n2: string, t1: DateTime, t2: DateTime)
    requires t1.Valid() && t2.Valid()
    requires '.' in n1 && '.' in n2 && '/' !in n1 && '/' !in n2
    ensures var s1, s2 := Split(n1, '.'), Split(n2, '.');
      |s1| >= 2 && |s2| >= 2 &&
      (ScratchPath(s1, Format(t1)) == ScratchPath(s2, Format(t2)) <==>
        s1[0] == s2[0] && Last(s1) == Last(s2) && SameSecond(t1, t2))
  {
    FormatHasNoSeparators(t1);
    FormatHasNoSeparators(t2);
    ScratchPathDeterminedBy(n1, Format(t1), n2, Format(t2));
    FormatAtSecondResolution(t1, t2);
  }

  // ---------------------------------------------------------------- predict

  /** When the separator returns, the result is the input path with
      `_vocals.wav` appended, and the input is removed unless removal fails. */
  lemma PredictSuccess(files: set<string>, c: SeparatorConfig, x: string, written: set<string>,
                       removeOk: bool)
    ensures var p := Predict(files, Some(c), x, Returned(written), removeOk);
      p.result == Ok(x + "_vocals.wav") &&
      (x in p.files <==> !removeOk && x in files + written) &&
      p.files - {x} == (files + written) - {x}
  {
  }

  /** When the separator raises, the result is a 500 and nothing is removed:
      the input file stays in the scratch directory. */
  lemma InputKeptWhenSeparationRaises(files: set<string>, c: SeparatorConfig, x: string,
                                      written: set<string>, removeOk: bool)
    ensures var p := Predict(files, Some(c), x, Raised(written), removeOk);
      p.result == Err(SeparationFailed) && p.files == files + written &&
      (x in files ==> x in p.files)
  {
  }

  /** The input path is gone after `predict` exactly when the separator was
      present, returned, and the removal succeeded (or the path never existed). */
  lemma InputRemovedOnlyAfterSuccess(files: set<string>, separator: Option<SeparatorConfig>, x: string,
                                     engine: SeparationOutcome, removeOk: bool)
    ensures x !in Predict(files, separator, x, engine, removeOk).files <==>
      (separator.Some? && engine.Returned? && removeOk) || (x !in files && (separator.None? || x !in engine.written))
  {
  }

  /** A failed removal of the input does not change what `predict` returns. */
  lemma RemovalFailureIsSwallowed(files: set<string>, separator: Option<SeparatorConfig>, x: string,
                                  engine: SeparationOutcome)
    ensures Predict(files, separator, x, engine, true).result == Predict(files, separator, x, engine, false).result
  {
  }

  // ---------------------------------------------------------------- encode

  /** `encode_response` fails with 404 exactly when the output is absent; otherwise
      the response serves that path and its cleanup targets exactly that path. */
  lemma EncodeIff(files: set<string>, output: string)
    ensures Encode(files, output).Err? <==> output !in files
    ensures Encode(files, output).Err? ==> Encode(files, output).error == OutputNotFound
    ensures Encode(files, output).Ok? ==>
      Encode(files, output).value == FileResponse(output, RemoveFile(output))
  {
  }

  /** The cleanup removes at most its own path and leaves every other file
      alone; its own path goes exactly when the removal succeeds. */
  lemma CleanupTouchesOnlyItsPath(files: set<string>, p: string, removeOk: bool, q: string)
    requires q != p
    ensures q in AfterSend(files, RemoveFile(p), removeOk) <==> q in files
    ensures p in AfterSend(files, RemoveFile(p), removeOk) <==> !removeOk && p in files
  {
  }

  // ---------------------------------------------------------------- whole request

  /** A successful request, with neither of its paths present beforehand, the
      separator writing exactly the expected output and both removals
      succeeding, leaves the scratch directory as it found it (for instance `song.wav` passes through `/tmp/song_<ts>.wav`
      and `/tmp/song_<ts>.wav_vocals.wav`). */
  lemma HappyPathLeavesNoScratchFiles(files: set<string>, c: SeparatorConfig, name: string,
                                      timestamp: string)
    requires |Split(name, '.')| >= 2
    requires ScratchPath(Split(name, '.'), timestamp) !in files
    requires OutputPath(ScratchPath(Split(name, '.'), timestamp)) !in files
    ensures var output := OutputPath(ScratchPath(Split(name, '.'), timestamp));
      Serve(files, Some(c), Some(name), timestamp, Written, Returned({output}), true, true)
        == Step(Ok(FileResponse(output, RemoveFile(output))), files)
  {
    var input := ScratchPath(Split(name, '.'), timestamp);
    var output := OutputPath(input);
    DecodeAccepts(files, name, timestamp);
    PredictReturnsOutput(files, c, input);
    ServeServesOutput(files, Some(c), Some(name), timestamp, Written, Returned({output}), true, true,
                      input, files + {input}, output, files + {output});
    assert (files + {output}) - {output} == files;
  }

  /** A dotted filename written successfully is stored at its scratch path. */
  lemma DecodeAccepts(files: set<string>, name: string, timestamp: string)
    requires |Split(name, '.')| >= 2
    ensures var input := ScratchPath(Split(name, '.'), timestamp);
      Decode(files, Some(name), timestamp, Written) == Step(Ok(input), files + {input})
  {
  }

  /** A separator that writes exactly the expected output, followed by a
      successful removal, swaps the input for the output. */
  lemma PredictReturnsOutput(files: set<string>, c: SeparatorConfig, input: string)
    requires input !in files
    ensures var output := OutputPath(input);
      Predict(files + {input}, Some(c), input, Returned({output}), true) == Step(Ok(output), files + {output})
  {
    assert input != OutputPath(input);
  }

  /** Once decoding and prediction have succeeded and the output exists, the
      request serves the output and then runs its cleanup. */
  lemma ServeServesOutput(files: set<string>, separator: Option<SeparatorConfig>, filename: Option<string>,
                          timestamp: string, write: WriteOutcome, engine: SeparationOutcome,
                          removeInputOk: bool, removeOutputOk: bool,
                          input: string, decoded: set<string>, output: string, predicted: set<string>)
    requires Decode(files, filename, timestamp, write) == Step(Ok(input), decoded)
    requires Predict(decoded, separator, input, engine, removeInputOk) == Step(Ok(output), predicted)
    requires output in predicted
    ensures Serve(files, separator, filename, timestamp, write, engine, removeInputOk, removeOutputOk)
      == Step(Ok(FileResponse(output, RemoveFile(output))), AfterSend(predicted, RemoveFile(output), removeOutputOk))
  {
  }

  /** A request whose output path already exists, left by an earlier request
      that collided with this one, is served that stale file even when the
      separator returns without writing anything. */
  lemma StaleOutputIsServed(files: set<string>, c: SeparatorConfig, name: string, timestamp: string,
                            removeInputOk: bool, removeOutputOk: bool)
    requires |Split(name, '.')| >= 2
    requires OutputPath(ScratchPath(Split(name, '.'), timestamp)) in files
    ensures var output := OutputPath(ScratchPath(Split(name, '.'), timestamp));
      Serve(files, Some(c), Some(name), timestamp, Written, Returned({}), removeInputOk, removeOutputOk).result
        == Ok(FileResponse(output, RemoveFile(output)))
  {
    var input := ScratchPath(Split(name, '.'), timestamp);
    var output := OutputPath(input);
    DecodeAccepts(files, name, timestamp);
    var p := Predict(files + {input}, Some(c), input, Returned({}), removeInputOk);
    assert output in p.files by {
      assert output != input;
    }
    ServeServesOutput(files, Some(c), Some(name), timestamp, Written, Returned({}), removeInputOk, removeOutputOk,
                      input, files + {input}, output, p.files);
  }

  /** When the separator raises, the request ends in a 500 and the input file
      written by `decode_request` is never removed. */
  lemma FailedSeparationLeavesInput(files: set<string>, c: SeparatorConfig, name: string,
                                    timestamp: string, written: set<string>,
                                    removeInputOk: bool, removeOutputOk: bool)
    requires '.' in name
    ensures var segments := Split(name, '.');
      var s := Serve(files, Some(c), Some(name), timestamp, Written, Raised(written),
                     removeInputOk, removeOutputOk);
      |segments| >= 2 && s.result == Err(SeparationFailed) &&
      ScratchPath(segments, timestamp) in s.files
  {
    SplitCount(name, '.');
  }

  /** When the separator returns without writing the expected output, the
      request ends in a 404 and no cleanup is registered or run. */
  lemma MissingOutputIsNotFound(files: set<string>, c: SeparatorConfig, name: string,
                                timestamp: string, written: set<string>,
                                removeInputOk: bool, removeOutputOk: bool)
    requires |Split(name, '.')| >= 2
    requires OutputPath(ScratchPath(Split(name, '.'), timestamp)) !in files + written
    ensures var s := Serve(files, Some(c), Some(name), timestamp, Written, Returned(written),
                           removeInputOk, removeOutputOk);
      var input := ScratchPath(Split(name, '.'), timestamp);
      s.result == Err(OutputNotFound) &&
      s.files == if removeInputOk then (files + {input} + written) - {input}
                 else files + {input} + written
  {
    SplitCount(name, '.');
  }
}
