/** The resize command itself: the file store it changes and the trace of what it
    did, with `run`, `deleteInputFiles` and `writeImage` as loops and steps over
    that state. Each method is proved to do what the functions of module `Batch`
    say, so the lemmas there hold of it. */
module Command {
  import opened Wrappers
  import opened TargetSize
  import opened OutputFormat
  import opened Batch

  class ResizeCommand {
    /** The parsed arguments, flags and options. */
    const options: Options
    /** What decoding, encoding and the file system answer. */
    const env: Env
    /** The paths that exist. */
    var files: set<string>
    /** What the command has done so far. */
    var trace: seq<Event>

    constructor (options: Options, env: Env, files: set<string>)
      ensures this.options == options && this.env == env
      ensures this.files == files && trace == []
    {
      this.options := options;
      this.env := env;
      this.files := files;
      trace := [];
    }

    /** `writeImage`: dispatch on the format, encode, write. On success the output
        exists afterwards; on failure nothing changes. */
    method WriteImage(source: string, to: string) returns (error: Option<WriteError>)
      modifies this
      ensures error == WriteResult(options.format, env, source, to)
      ensures files == if error.None? then old(files) + {to} else old(files)
      ensures trace == old(trace)
    {
      var fileType: FileType;
      if options.format == "jpeg" {
        fileType := Jpeg;
      } else if options.format == "gif" {
        fileType := Gif;
      } else if options.format == "png" {
        fileType := Png;
      } else {
        return Some(UnsupportedFormat);
      }
      assert FileTypeOf(options.format) == Some(fileType);
      if source in env.unencodable {
        return Some(EncodeFailed);
      }
      if to in env.unwritable {
        return Some(WriteFailed);
      }
      files := files + {to};
      return None;
    }

    /** `deleteInputFiles`: tries to remove every listed input, in order, reporting
        each failure and going on. */
    method DeleteInputFiles()
      modifies this
      ensures var d := RemoveInputs(env, old(files), options.input);
        files == d.files && trace == old(trace) + d.events
    {
      var i := 0;
      while i < |options.input|
        invariant 0 <= i <= |options.input|
        invariant var d := RemoveInputs(env, old(files), options.input[..i]);
          files == d.files && trace == old(trace) + d.events
      {
        var path := options.input[i];
        assert options.input[..i + 1][..i] == options.input[..i];
        if path in files && path !in env.undeletable {
          files := files - {path};
          trace := trace + [Removed(path)];
        } else {
          trace := trace + [NotRemoved(path)];
        }
        i := i + 1;
      }
      assert options.input[..i] == options.input;
    }

    /** One pass of the `for path in input` loop of `run`: the existence check
        (`continue` when missing), the read (throws), the decode (`continue` when it
        fails), the target size, the output path, the write (`return` when it
        throws) and, with `delete` and `verbose` set, the deletion of every input.
        `stop` is set when the pass leaves `run`. */
    method ProcessPath(path: string) returns (stop: Option<Ending>, ghost events: seq<Event>)
      modifies this
      ensures ProcessItem(options, env, old(files), path) == Step(files, events, stop)
      ensures trace == old(trace) + events
    {
      if path !in files {
        trace := trace + [NotFound(path)];
        return None, [NotFound(path)];
      }
      if path in env.unreadable {
        trace := trace + [ReadFailed(path)];
        return Some(Threw), [ReadFailed(path)];
      }
      if path !in env.images {
        trace := trace + [NotAnImage(path)];
        return None, [NotAnImage(path)];
      }
      var targetSize := GetTargetSize(options.width, options.height, options.scale, env.images[path]);
      var outputPath := OutputPath(options.output, env.parentDir(path), env.baseName(path), options.format);
      var error := WriteImage(path, outputPath);
      ghost var filesWritten := files;
      if error.Some? {
        trace := trace + [NotWritten(path, outputPath, error.value)];
        return Some(Returned), [NotWritten(path, outputPath, error.value)];
      }
      trace := trace + [Written(path, outputPath, targetSize)];
      events := [Written(path, outputPath, targetSize)];
      if options.delete && options.verbose {
        DeleteInputFiles();
        events := events + RemoveInputs(env, filesWritten, options.input).events;
      }
      return None, events;
    }

    /** `run`: processes the inputs in order until one of them leaves `run`. */
    method Run() returns (ending: Ending)
      modifies this
      ensures var r := RunFrom(options, env, old(files), 0);
        files == r.files && trace == old(trace) + r.trace && ending == r.ending
    {
      var i := 0;
      ghost var done: seq<Event> := [];
      ghost var whole := RunFrom(options, env, files, 0);
      while i < |options.input|
        invariant 0 <= i <= |options.input|
        invariant trace == old(trace) + done
        invariant whole == Prepend(done, RunFrom(options, env, files, i))
      {
        ghost var current := files;
        var stop;
        ghost var events;
        stop, events := ProcessPath(options.input[i]);
        RunAdvances(options, env, whole, current, i, done, files, events, stop);
        done := done + events;
        if stop.Some? {
          return stop.value;
        }
        i := i + 1;
      }
      RunEnds(options, env, whole, files, done);
      return Finished;
    }
  }
}
