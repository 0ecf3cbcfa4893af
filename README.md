# resizeImage — a Dafny model of the batch resize command

`resizeImage` is a macOS command-line tool that resizes one or more image files.
For each input path, `run()` does the following in order:

1. checks that the file exists;
2. reads its bytes;
3. decodes them as an image;
4. computes a target size from `--width`, `--height` and `--scale`;
5. draws the image at that size;
6. encodes it as `--format` (`png`, `jpeg` or `gif`);
7. writes it to `--output`, or else to `<dir>/<name>-resized.<format>`;
8. optionally deletes the inputs.

This project models the logic of that command, from `Sources/resizeImage.swift`:

- **Target-size rule** (`getTargetSize`), module `TargetSize`. Sizes are exact
  `real`s standing in for `CGFloat`. The four cases are tried in priority order:
  both width and height given, width only, height only, neither.
- **Format dispatch and output path** (the `switch format` of `writeImage`, and
  `output ?? parentDir + "/" + fileName + "-resized.<format>"` in `run`),
  module `OutputFormat`.
- **The batch loop and deletion**, stated two ways:
  - as pure functions over an abstract file store, with the lemmas proved about
    them, in module `Batch`;
  - as the class `Command.ResizeCommand`. It holds the set of existing paths and a
    trace of events. Its methods `Run`, `ProcessPath`, `WriteImage` and
    `DeleteInputFiles` are `while` loops and steps over that state, each proved
    equal to its function in `Batch`.

The foreign calls are parameters of the model, collected in `Batch.Env`:

- the file system's "exists" answer is the set `files`;
- `Data(contentsOf:)` throwing is the set `unreadable`;
- `NSImage(data:)` is the map `images`, from each decodable path to its size;
- encoding failing (`tiffRepresentation`/`NSBitmapImageRep`) is the set `unencodable`;
- `Data.write(to:)` throwing is the set `unwritable`;
- `removeItem` failing on an existing path is the set `undeletable`;
- the URL decomposition (`deletingLastPathComponent().relativePath` and
  `deletingPathExtension().lastPathComponent`) is the pair of functions
  `parentDir` and `baseName`.

The model follows the code's control flow exactly:

- A missing or undecodable input is skipped (`continue`).
- A read failure throws out of `run` (`Ending.Threw`).
- Any failure of `writeImage` makes `run` return (`Ending.Returned`), so no later
  input is processed. Such failures are an unsupported format, failed encoding or
  a failed write.
- The format is checked only at write time, after decoding and size computation.
- Deletion happens only when both `delete` and `verbose` are set. It then tries
  to remove every listed input, not just the current one, and goes on past each
  failure. As a result, later inputs fail the existence check.

Some of this behaviour is easy to miss when reading the code:

- One failed write ends the whole batch; it does not just skip that input.
- The `--verbose` flag gates deletion: `--delete` alone deletes nothing.
- Each deletion removes every listed input, including ones that have not been
  processed yet, and it happens again after every later successful write.
- The format is checked only when writing, after the input has been read,
  decoded and its target size computed.
- Sizes are not rounded: the aspect-keeping dimension is an exact quotient.

## Model

| member | source | states |
|---|---|---|
| `TargetSize.GetTargetSize` | Sources/resizeImage.swift:145-156 | A given width or height is used exactly, whatever the source size and the scale. Both given: the result is exactly (width, height). Unless both are given, the result keeps the source's aspect ratio. Neither given: both source dimensions are multiplied by `scale`. The only requirement is that the branch taken does not divide by zero. |
| `TargetSize.DefaultScaleKeepsSize` | Sources/resizeImage.swift:155 | With no width or height and the default scale 1.0 (line 24), the target equals the source size. |
| `TargetSize.WidthOnlyIsUniqueAspectKeepingSize` | Sources/resizeImage.swift:148-150 | Width only: the target is the one size with that width and the source's aspect ratio. Its height is sourceHeight·width/sourceWidth. Both directions are proved. |
| `TargetSize.HeightOnlyIsUniqueAspectKeepingSize` | Sources/resizeImage.swift:151-153 | Height only: the target is the one size with that height and the source's aspect ratio. Its width is sourceWidth·height/sourceHeight. Both directions are proved. |
| `OutputFormat.FileTypeOf` | Sources/resizeImage.swift:114-124 | A format string is accepted if and only if it is exactly "jpeg", "gif" or "png". The accepted type is the one named by the string. |
| `OutputFormat.FileTypeNameRoundTrip` | Sources/resizeImage.swift:115-120 | Each file type is accepted under its own name and under no other string. |
| `OutputFormat.OutputPath` | Sources/resizeImage.swift:72-76 | A given `--output` is used verbatim, whatever the input. Otherwise the path is parentDir + "/" + baseName + "-resized." + format. |
| `OutputFormat.DefaultOutputPathParts` | Sources/resizeImage.swift:73 | The default path splits back into the directory, "/", the base name, "-resized." and the format, at known offsets. |
| `OutputFormat.DefaultOutputPathInjective` | Sources/resizeImage.swift:73 | Without `--output`, two inputs in the same directory with different base names never target the same path (for one format). |
| `Batch.WriteResult` | Sources/resizeImage.swift:112-135 | `writeImage` fails with UnsupportedFormat exactly when the format is not accepted. With an accepted format it fails with EncodeFailed exactly when encoding fails, since encoding is tried before the write. It succeeds exactly when the format is accepted, the image encodes and the write succeeds, so WriteFailed is left for a failed write alone. |
| `Batch.RemoveInputs` | Sources/resizeImage.swift:97-108 | `deleteInputFiles` makes one removal attempt per listed path, in order, and goes on past each failure. |
| `Batch.RemoveInputsRemovesListed` | Sources/resizeImage.swift:98-100 | Afterwards the file set is the old set minus every listed input that may be removed. |
| `Batch.RemoveInputsReportsEachPath` | Sources/resizeImage.swift:98-106 | The k-th attempt is for the k-th listed path. It is reported as removed exactly when the path existed, was removable and was not listed earlier; otherwise the error is reported and the loop goes on. |
| `Batch.ProcessItem` | Sources/resizeImage.swift:34-93 | Defines one pass of the loop body: the existence check, the read, the decode, the target size, the output path, the write and the optional deletion, each exit in source order. Its contract states that the pass reports its own input first, and that a pass leaving `run` reports nothing else. `ProcessItemShape`, `SkippedInputContinues` and `RemovalsFollowWrites` state the rest. |
| `Batch.RunFrom` | Sources/resizeImage.swift:31-95 | Defines `run` from the i-th input on: the loop test, then a pass. A run that finishes has at least as many events as there are remaining inputs; a run that stops has at least one event. `RunVisitsInputsInOrder`, `RunStopsAtFailure`, `WrittenAsComputed` and `FailedWritesAsComputed` state what its trace holds. |
| `Batch.RunPass` | Sources/resizeImage.swift:33-94 | One pass over the i-th input, then the rest of the loop unless the pass left `run` (`continue` goes on, `return` and a throw stop). Same bounds on the trace as `RunFrom`. |
| `Batch.ProcessItemShape` | Sources/resizeImage.swift:33-93 | One pass reports its own input first and exactly once. It throws exactly on a read failure and returns exactly on a write failure. Its removals, if any, follow its write and need both `delete` and `verbose`. |
| `Batch.RunVisitsInputsInOrder` | Sources/resizeImage.swift:33-94 | The per-input events name a prefix of the input list, in input order. A run that finishes names every input. |
| `Batch.RunStopsAtFailure` | Sources/resizeImage.swift:51-88 | A read failure (line 51) or a failed write (lines 82-88) is always the last event of a run: no later input is processed. A read failure means the run threw; a failed write means it returned. Conversely, a run that throws ends on a read failure, and one that returns ends on a failed write. |
| `Batch.SkippedInputContinues` | Sources/resizeImage.swift:38-58 | A missing input, or one whose data does not decode, yields one skip event. Nothing is written for it, and the rest of the run is the run of the remaining inputs. |
| `Batch.RemovalsFollowWrites` | Sources/resizeImage.swift:82-93 | Every removal in a run's trace needs both `delete` and `verbose` set and comes after at least one successful write. |
| `Batch.RunRemovesOnlyListedInputs` | Sources/resizeImage.swift:90-107 | A run removes no file except listed inputs. Unless both `delete` and `verbose` are set, it removes nothing at all: every file that existed before still exists afterwards. |
| `Batch.WrittenAsComputed` | Sources/resizeImage.swift:51-84 | Every output written comes from a listed input that was read and decoded. It has the size `getTargetSize` gives for that input and goes to the path `run` builds, so with `--output` set all inputs target the same path. `writeImage` succeeds for it: the format is accepted, the image encodes and the path is writable. |
| `Batch.FailedWritesAsComputed` | Sources/resizeImage.swift:63-88 | Every failed write in a run's trace is for a listed input that was read and decoded. It names the output path `run` builds for that input, and its error is exactly the one `writeImage` gives for that input and path. |
| `Batch.UnsupportedFormatWritesNothing` | Sources/resizeImage.swift:114-124 | With an unsupported format, the file set is unchanged and nothing is written. A run that returns ends on an UnsupportedFormat failure. |
| `Batch.MissingInputsAllSkipped` | Sources/resizeImage.swift:38-41 | When none of the remaining inputs exists, each is reported not found, in order. Nothing changes and the run finishes. |
| `Batch.DeletionSkipsLaterInputs` | Sources/resizeImage.swift:90-107 | With `delete` and `verbose` set and every input removable, the first successful write is followed by the removal of all inputs. Every later input is then reported not found and the run finishes. Afterwards none of the inputs exists, the output included when it is itself listed. |
| `Batch.AtMostOneWriteWhenDeleting` | Sources/resizeImage.swift:90-107 | With `delete` and `verbose` set and every input removable, a run writes at most one output. |
| `Command.ResizeCommand.constructor` | Sources/resizeImage.swift:13-26 | The command starts with the given options, oracles and file set, and an empty trace. |
| `Command.ResizeCommand.WriteImage` | Sources/resizeImage.swift:112-135 | Returns `WriteResult`'s answer. On success it adds the output path to the file set; on failure it changes nothing. |
| `Command.ResizeCommand.DeleteInputFiles` | Sources/resizeImage.swift:97-108 | The loop leaves the file set and trace that `RemoveInputs` gives for the whole input list. |
| `Command.ResizeCommand.ProcessPath` | Sources/resizeImage.swift:34-93 | One pass of the loop leaves the file set, events and stop signal that `ProcessItem` gives. |
| `Command.ResizeCommand.Run` | Sources/resizeImage.swift:31-95 | The loop leaves the file set, trace and ending that `RunFrom` gives from the first input. So every `Batch` lemma holds of it. |

## Left out

- `Sources/VerboseMessages.swift`: it only prints messages behind a global flag, and `run` never uses it.
- All console output and its wording (`print`). The `verbose` flag matters in the model only where it gates deletion.
- Argument parsing and the command configuration (lines 13-26). The options arrive as a `Batch.Options` value.
- The image work itself: decoding, the `resizeImage` draw closure (lines 137-143) and encoding. They are oracles in `Batch.Env`. A written event records the target size; the pixels are not modelled.
- Foundation URL semantics. The parent directory and base name of a path come from the functions `Env.parentDir` and `Env.baseName`. The `#available(macOS 13.0, *)` split builds the same string in both branches and is modelled once.
- `TargetSize.GetTargetSize`: does not model IEEE `CGFloat`/`Float` behaviour. Dimensions are exact reals, and `Float` scale and `Int` width/height are widened without rounding. Division by a zero source dimension (an infinite or NaN size in Swift) is excluded by its precondition. A decoded image is assumed to have positive dimensions.
- The oracles are fixed for the whole run. Writing an output does not change whether a later read or decode of that same path succeeds, nor the size it decodes to. A written output that is later listed as an input therefore behaves as the oracles say, not as its new contents would.
- `removeItem` failing on an existing path is one set, `undeletable`. On a path that does not exist it always fails.
- Path identity is string identity. Two spellings of one file are different paths in the model: "./a.png" and "a.png", names that differ only in case on a case-insensitive volume, or a symbolic link and its target. `fileExists` (line 38) and `removeItem` (line 100) would treat such aliases as the same file. So `Batch.DeletionSkipsLaterInputs` and `Batch.RemoveInputsReportsEachPath` hold only for inputs listed under one spelling each.
