/** The request handler object and the scratch directory it works in. The
    handler's `separator` field is set by `setup`; its three request stages
    change the scratch directory step by step. Each method is proved against
    the function of the same stage in `Lifecycle`. */
module Api {
  import opened PyStr
  import opened ScratchNaming
  import opened Lifecycle

  /** The scratch directory `/tmp`: the set of paths present in it. File
      contents are not modelled. */
  class ScratchDir {
    var files: set<string>

    constructor (initial: set<string>)
      ensures files == initial
    {
      files := initial;
    }

    /** `path.open("wb")`: creates the file or truncates an existing one. */
    method Create(path: string)
      modifies this
      ensures files == old(files) + {path}
    {
      files := files + {path};
    }

    /** Files written by the separator. */
    method Receive(paths: set<string>)
      modifies this
      ensures files == old(files) + paths
    {
      files := files + paths;
    }

    /** `os.remove(path)`: succeeds when the path exists and the removal is
        permitted, and raises otherwise (the caller sees `removed == false`). */
    method Remove(path: string, permitted: bool) returns (removed: bool)
      modifies this
      ensures removed <==> permitted && path in old(files)
      ensures files == if removed then old(files) - {path} else old(files)
    {
      removed := permitted && path in files;
      if removed {
        files := files - {path};
      }
    }

    /** `os.path.exists(path)` */
    method Exists(path: string) returns (present: bool)
      ensures present <==> path in files
    {
      present := path in files;
    }
  }

  /** The handler: the configured separator and the calls made to it. */
  class AudioSeparatorApi {
    var separator: Option<SeparatorConfig>
    var separations: seq<SeparationJob>

    constructor ()
      ensures separator == None && separations == []
    {
      separator := None;
      separations := [];
    }

    /** `setup`: autocast is on exactly on a CUDA device. The field is assigned
        before the model is loaded, so it is set whatever loading then does. */
    method Setup(device: Option<string>)
      modifies this`separator
      ensures separator == Some(Configure(device))
      ensures separator.value.useAutocast <==> device == Some("cuda")
    {
      var useAutocast := device == Some("cuda");
      separator := Some(SeparatorConfig(useAutocast, OutputFormat, ModelFilename));
    }

    /** `decode_request` */
    method DecodeRequest(tmp: ScratchDir, filename: Option<string>, timestamp: string,
                         write: WriteOutcome) returns (r: Result<string>)
      modifies tmp
      ensures Step(r, tmp.files) == Decode(old(tmp.files), filename, timestamp, write)
      ensures r.Ok? ==> tmp.files == old(tmp.files) + {r.value}
    {
      if filename.None? || filename.value == "" {
        return Err(NoFilename);
      }
      var segments := Split(filename.value, '.');
      if |segments| < 2 {
        return Err(InvalidFormat);
      }
      var path := ScratchPath(segments, timestamp);
      match write
      case Written =>
        tmp.Create(path);
        r := Ok(path);
      case OpenFailed =>
        r := Err(SaveFailed);
      case CopyFailed =>
        tmp.Create(path);
        r := Err(SaveFailed);
    }

    /** `predict`: one call to the separator with `{"Vocals": x + "_vocals.wav"}`;
        the input is removed only after that call returns. */
    method Predict(tmp: ScratchDir, x: string, engine: SeparationOutcome, removeOk: bool)
      returns (r: Result<string>)
      modifies this`separations, tmp
      ensures Step(r, tmp.files) == Lifecycle.Predict(old(tmp.files), separator, x, engine, removeOk)
      ensures separations == old(separations) + (if separator.Some? then [Job(x)] else [])
      ensures r.Ok? ==> r.value == x + "_vocals.wav" && Job(x).outputNames == map["Vocals" := r.value]
    {
      if separator.None? {
        return Err(SeparationFailed);
      }
      var outputNames := map[VocalsStem := x + VocalsSuffix];
      separations := separations + [SeparationJob(x, outputNames)];
      tmp.Receive(engine.written);
      if engine.Raised? {
        return Err(SeparationFailed);
      }
      var _ := tmp.Remove(x, removeOk);
      r := Ok(x + VocalsSuffix);
    }

    /** `encode_response` */
    method EncodeResponse(tmp: ScratchDir, output: string) returns (r: Result<FileResponse>)
      ensures r == Encode(tmp.files, output)
      ensures r.Err? <==> output !in tmp.files
      ensures r.Ok? ==> r.value.background == RemoveFile(output)
    {
      var present := tmp.Exists(output);
      if !present {
        return Err(OutputNotFound);
      }
      r := Ok(FileResponse(output, RemoveFile(output)));
    }

    /** The response's background task, run once the response has been sent. */
    method RunBackground(tmp: ScratchDir, cleanup: Cleanup, removeOk: bool)
      modifies tmp
      ensures tmp.files == AfterSend(old(tmp.files), cleanup, removeOk)
      ensures tmp.files - {cleanup.path} == old(tmp.files) - {cleanup.path}
    {
      var _ := tmp.Remove(cleanup.path, removeOk);
    }

    /** One request as the serving framework drives it: the three stages in
        order, stopping at the first error, then sending the response. */
    method HandleRequest(tmp: ScratchDir, filename: Option<string>, timestamp: string,
                         write: WriteOutcome, engine: SeparationOutcome,
                         removeInputOk: bool, removeOutputOk: bool)
      returns (r: Result<FileResponse>)
      modifies this`separations, tmp
      ensures Step(r, tmp.files) == Serve(old(tmp.files), separator, filename, timestamp, write,
                                          engine, removeInputOk, removeOutputOk)
      ensures var d := Decode(old(tmp.files), filename, timestamp, write);
        separations == old(separations) + (if separator.Some? && d.result.Ok? then [Job(d.result.value)] else [])
    {
      var input := DecodeRequest(tmp, filename, timestamp, write);
      if input.Err? {
        return Err(input.error);
      }
      var output := Predict(tmp, input.value, engine, removeInputOk);
      if output.Err? {
        return Err(output.error);
      }
      r := EncodeResponse(tmp, output.value);
      if r.Ok? {
        RunBackground(tmp, r.value.background, removeOutputOk);
      }
    }
  }
}
