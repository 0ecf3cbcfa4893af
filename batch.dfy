/** What one invocation of the resize command does to the file system, stated as
    pure functions over an abstract file store: `ProcessItem` is one pass of the
    `for path in input` loop of `run`, `RunFrom` the loop from a given index on,
    and `RemoveInputs` the loop of `deleteInputFiles`. */
module Batch {
  import opened Wrappers
  import opened TargetSize
  import opened OutputFormat

  /** The command's arguments, flags and options. */
  datatype Options = Options(
    input: seq<string>,
    verbose: bool,
    delete: bool,
    format: string,
    output: Option<string>,
    scale: real,
    width: Option<int>,
    height: Option<int>)

  /** The size of an image `NSImage(data:)` could decode. */
  type ImageSize = s: Size | s.width > 0.0 && s.height > 0.0 witness Size(1.0, 1.0)

  /** What the foreign calls answer, fixed for one run. */
  datatype Env = Env(
    unreadable: set<string>,          // existing paths where `Data(contentsOf:)` throws
    images: map<string, ImageSize>,   // paths whose bytes decode, with the decoded size
    unencodable: set<string>,         // inputs whose resized image yields no bitmap data
    unwritable: set<string>,          // output paths where `Data.write(to:)` throws
    undeletable: set<string>,         // existing paths `removeItem` refuses
    parentDir: string -> string,      // `deletingLastPathComponent().relativePath`
    baseName: string -> string)       // `deletingPathExtension().lastPathComponent`

  /** Why `writeImage` threw. */
  datatype WriteError = UnsupportedFormat | EncodeFailed | WriteFailed

  /** What happened, in order. */
  datatype Event =
    | NotFound(path: string)                             // skipped: no such file
    | ReadFailed(path: string)                           // reading threw out of `run`
    | NotAnImage(path: string)                           // skipped: data does not decode
    | Written(path: string, to: string, size: Size)      // output written
    | NotWritten(path: string, to: string, error: WriteError)  // `run` returned
    | Removed(path: string)                              // `deleteInputFiles` removed it
    | NotRemoved(path: string)                           // `removeItem` threw; loop went on

  /** How `run` ended: after the last input, by `return`, or by a thrown error. */
  datatype Ending = Finished | Returned | Threw

  /** The file store and trace after a whole run. */
  datatype Outcome = Outcome(files: set<string>, trace: seq<Event>, ending: Ending)

  /** The file store and trace after one pass of the loop; `stop` is set when the
      pass leaves `run`. */
  datatype Step = Step(files: set<string>, events: seq<Event>, stop: Option<Ending>)

  /** The file store and trace after `deleteInputFiles`. */
  datatype Removal = Removal(files: set<string>, events: seq<Event>)

  /** The events that leave `run`: a read that threw or a write that failed. */
  predicate EndsRun(e: Event) {
    e.ReadFailed? || e.NotWritten?
  }

  predicate IsRemoval(e: Event) {
    e.Removed? || e.NotRemoved?
  }

  /** `removeItem(atPath:)` succeeds on an existing path it is allowed to remove. */
  predicate CanRemove(env: Env, files: set<string>, p: string) {
    p in files && p !in env.undeletable
  }

  /** `writeImage`: the format switch first, then encoding, then the write. `None`
      means the write succeeded. */
  function WriteResult(format: string, env: Env, source: string, to: string): (r: Option<WriteError>)
    ensures FileTypeOf(format).None? <==> r == Some(UnsupportedFormat)
    ensures r.None? <==> FileTypeOf(format).Some? && source !in env.unencodable && to !in env.unwritable
    // encoding is tried before the write, so its failure is the one reported
    ensures r == Some(EncodeFailed) <==> FileTypeOf(format).Some? && source in env.unencodable
  {
    match FileTypeOf(format)
    case None => Some(UnsupportedFormat)
    case Some(_) =>
      if source in env.unencodable then Some(EncodeFailed)
      else if to in env.unwritable then Some(WriteFailed)
      else None
  }

  /** `deleteInputFiles`: tries to remove every path in `paths`, in order, going on
      past each failure, reporting one attempt per path. */
  function RemoveInputs(env: Env, files: set<string>, paths: seq<string>): (r: Removal)
    ensures |r.events| == |paths| && AllRemovals(r.events)
  {
    if paths == [] then Removal(files, [])
    else
      var last := paths[|paths| - 1];
      var r := RemoveInputs(env, files, paths[..|paths| - 1]);
      assert paths[..|paths| - 1] + [last] == paths;
      if CanRemove(env, r.files, last) then Removal(r.files - {last}, r.events + [Removed(last)])
      else Removal(r.files, r.events + [NotRemoved(last)])
  }

  /** After `deleteInputFiles` exactly the listed paths that may be removed are gone. */
  lemma {:induction false} RemoveInputsRemovesListed(env: Env, files: set<string>, paths: seq<string>)
    ensures RemoveInputs(env, files, paths).files == files - set p | p in paths && p !in env.undeletable
  {
    if paths != [] {
      var n := |paths| - 1;
      RemoveInputsRemovesListed(env, files, paths[..n]);
      assert paths == paths[..n] + [paths[n]];
      assert forall p :: p in paths <==> p in paths[..n] || p == paths[n];
    }
  }

  /** Every event of `t` is a removal attempt. */
  predicate AllRemovals(t: seq<Event>) {
    forall k :: 0 <= k < |t| ==> IsRemoval(t[k])
  }

  /** `deleteInputFiles` reports one attempt per listed path, in order; a path is
      reported removed exactly when it existed, may be removed and was not listed
      before (a path listed twice is removed at most once). */
  lemma {:induction false} RemoveInputsReportsEachPath(env: Env, files: set<string>, paths: seq<string>)
    ensures var r := RemoveInputs(env, files, paths);
      forall k :: 0 <= k < |paths| ==>
        r.events[k].path == paths[k] &&
        (r.events[k].Removed? <==> CanRemove(env, files, paths[k]) && paths[k] !in paths[..k])
  {
    if paths != [] {
      var n := |paths| - 1;
      var front := paths[..n];
      var r0 := RemoveInputs(env, files, front);
      var r := RemoveInputs(env, files, paths);
      RemoveInputsReportsEachPath(env, files, front);
      RemoveInputsRemovesListed(env, files, front);
      assert r.events[..n] == r0.events;
      forall k | 0 <= k < |paths|
        ensures r.events[k].path == paths[k] &&
          (r.events[k].Removed? <==> CanRemove(env, files, paths[k]) && paths[k] !in paths[..k])
      {
        if k < n {
          assert r.events[k] == r0.events[k] && front[k] == paths[k] && front[..k] == paths[..k];
        } else {
          assert front == paths[..k];
          assert CanRemove(env, r0.files, paths[k]) <==> CanRemove(env, files, paths[k]) && paths[k] !in front;
        }
      }
    }
  }

  /** One pass of the loop of `run` over `path`. */
  function ProcessItem(o: Options, env: Env, files: set<string>, path: string): (s: Step)
    // the pass reports its own input first; a pass that leaves `run` reports nothing else
    ensures |s.events| >= 1 && !IsRemoval(s.events[0]) && s.events[0].path == path
    ensures s.stop.Some? ==> |s.events| == 1
  {
    if path !in files then Step(files, [NotFound(path)], None)
    else if path in env.unreadable then Step(files, [ReadFailed(path)], Some(Threw))
    else if path !in env.images then Step(files, [NotAnImage(path)], None)
    else
      var target := GetTargetSize(o.width, o.height, o.scale, env.images[path]);
      var to := OutputPath(o.output, env.parentDir(path), env.baseName(path), o.format);
      match WriteResult(o.format, env, path, to)
      case Some(e) => Step(files, [NotWritten(path, to, e)], Some(Returned))
      case None =>
        if o.delete && o.verbose then
          var d := RemoveInputs(env, files + {to}, o.input);
          Step(d.files, [Written(path, to, target)] + d.events, None)
        else
          Step(files + {to}, [Written(path, to, target)], None)
  }

  /** `run` from the `i`-th input on, starting from the file store `files`: the loop
      test, then a pass. */
  function RunFrom(o: Options, env: Env, files: set<string>, i: nat): (r: Outcome)
    requires i <= |o.input|
    // a run that finishes reports every remaining input at least once
    ensures r.ending == Finished ==> |r.trace| >= |o.input| - i
    // a run that stops early has reported the input that stopped it
    ensures r.ending != Finished ==> |r.trace| >= 1
    decreases |o.input| - i, 1
  {
    if i == |o.input| then Outcome(files, [], Finished)
    else RunPass(o, env, files, i)
  }

  /** The pass over the `i`-th input, then the rest of `run` unless it left. */
  function RunPass(o: Options, env: Env, files: set<string>, i: nat): (r: Outcome)
    requires i < |o.input|
    ensures r.ending == Finished ==> |r.trace| >= |o.input| - i
    ensures r.ending != Finished ==> |r.trace| >= 1
    decreases |o.input| - i, 0
  {
    var s := ProcessItem(o, env, files, o.input[i]);
    if s.stop.Some? then Outcome(s.files, s.events, s.stop.value)
    else Prepend(s.events, RunFrom(o, env, s.files, i + 1))
  }

  /** One step of `RunFrom`, stated for callers that walk the loop. */
  lemma RunFromStep(o: Options, env: Env, files: set<string>, i: nat)
    requires i < |o.input|
    ensures var s := ProcessItem(o, env, files, o.input[i]);
      RunFrom(o, env, files, i) ==
        if s.stop.Some? then Outcome(s.files, s.events, s.stop.value)
        else Prepend(s.events, RunFrom(o, env, s.files, i + 1))
  {
    assert RunFrom(o, env, files, i) == RunPass(o, env, files, i);
  }

  function Prepend(events: seq<Event>, r: Outcome): Outcome {
    Outcome(r.files, events + r.trace, r.ending)
  }

  /** The loop invariant of `run` carried over one pass. */
  lemma RunAdvances(o: Options, env: Env, whole: Outcome, files: set<string>, i: nat,
                    done: seq<Event>, after: set<string>, events: seq<Event>, stop: Option<Ending>)
    requires i < |o.input|
    requires whole == Prepend(done, RunFrom(o, env, files, i))
    requires ProcessItem(o, env, files, o.input[i]) == Step(after, events, stop)
    ensures stop.None? ==> whole == Prepend(done + events, RunFrom(o, env, after, i + 1))
    ensures stop.Some? ==> whole == Outcome(after, done + events, stop.value)
  {
    RunFromStep(o, env, files, i);
    if stop.None? {
      PrependPrepend(done, events, RunFrom(o, env, after, i + 1));
    }
  }

  /** The loop invariant of `run` once every input has been processed. */
  lemma RunEnds(o: Options, env: Env, whole: Outcome, files: set<string>, done: seq<Event>)
    requires whole == Prepend(done, RunFrom(o, env, files, |o.input|))
    ensures whole == Outcome(files, done, Finished)
  {
    assert done + [] == done;
  }

  lemma PrependPrepend(a: seq<Event>, b: seq<Event>, r: Outcome)
    ensures Prepend(a, Prepend(b, r)) == Prepend(a + b, r)
  {
    assert a + (b + r.trace) == (a + b) + r.trace;
  }

  /** The paths of the per-input events of a trace, in order (removals left out). */
  function ItemPaths(t: seq<Event>): seq<string> {
    if t == [] then []
    else if IsRemoval(t[0]) then ItemPaths(t[1..])
    else [t[0].path] + ItemPaths(t[1..])
  }

  /** The number of outputs written. */
  function CountWritten(t: seq<Event>): nat {
    if t == [] then 0
    else (if t[0].Written? then 1 else 0) + CountWritten(t[1..])
  }

  lemma {:induction false} ItemPathsAppend(a: seq<Event>, b: seq<Event>)
    ensures ItemPaths(a + b) == ItemPaths(a) + ItemPaths(b)
  {
    if a != [] {
      assert (a + b)[1..] == a[1..] + b;
      ItemPathsAppend(a[1..], b);
    } else {
      assert a + b == b;
    }
  }

  lemma {:induction false} CountWrittenAppend(a: seq<Event>, b: seq<Event>)
    ensures CountWritten(a + b) == CountWritten(a) + CountWritten(b)
  {
    if a != [] {
      assert (a + b)[1..] == a[1..] + b;
      CountWrittenAppend(a[1..], b);
    } else {
      assert a + b == b;
    }
  }

  /** A trace of removals only has no per-input events and writes nothing. */
  lemma {:induction false} RemovalsOnly(t: seq<Event>)
    requires forall k :: 0 <= k < |t| ==> IsRemoval(t[k])
    ensures ItemPaths(t) == [] && CountWritten(t) == 0
  {
    if t != [] {
      RemovalsOnly(t[1..]);
    }
  }

  /** Each pass reports its own input exactly once, first, and stops `run` exactly on a
      read failure (a throw) or a write failure (a `return`). */
  lemma ProcessItemShape(o: Options, env: Env, files: set<string>, path: string)
    ensures var s := ProcessItem(o, env, files, path);
      |s.events| >= 1 && ItemPaths(s.events) == [path] &&
      (s.stop == Some(Threw) <==> s.events == [ReadFailed(path)]) &&
      (s.stop == Some(Returned) <==> |s.events| == 1 && s.events[0].NotWritten?) &&
      (s.stop.Some? ==> s.stop == Some(Threw) || s.stop == Some(Returned)) &&
      (s.stop.None? ==> forall k :: 0 <= k < |s.events| ==> !EndsRun(s.events[k])) &&
      RemovalsAfterWrites(o, s.events)
  {
    var s := ProcessItem(o, env, files, path);
    if path in files && path !in env.unreadable && path in env.images {
      var to := OutputPath(o.output, env.parentDir(path), env.baseName(path), o.format);
      if WriteResult(o.format, env, path, to).None? && o.delete && o.verbose {
        RemovalsOnly(s.events[1..]);
        forall k | 0 <= k < |s.events| && IsRemoval(s.events[k])
          ensures o.delete && o.verbose && CountWritten(s.events[..k]) > 0
        {
          assert s.events[..k][0] == s.events[0];
        }
      }
    }
  }

  /** The inputs are visited in order, one after the other, and a run that finishes
      has visited them all. */
  lemma {:induction false} RunVisitsInputsInOrder(o: Options, env: Env, files: set<string>, i: nat)
    requires i <= |o.input|
    ensures var r := RunFrom(o, env, files, i);
      ItemPaths(r.trace) <= o.input[i..] &&
      (r.ending == Finished ==> ItemPaths(r.trace) == o.input[i..])
    decreases |o.input| - i
  {
    if i < |o.input| {
      var s := ProcessItem(o, env, files, o.input[i]);
      ProcessItemShape(o, env, files, o.input[i]);
      RunFromStep(o, env, files, i);
      if s.stop.None? {
        var r := RunFrom(o, env, s.files, i + 1);
        RunVisitsInputsInOrder(o, env, s.files, i + 1);
        ItemPathsAppend(s.events, r.trace);
        assert o.input[i..] == [o.input[i]] + o.input[i + 1..];
      }
    }
  }

  /** A run ends exactly where a read throws or a write fails: such an event is always
      the last one of the trace, and it decides how `run` ended (a throw for the read,
      a `return` for the write); a run that ends early ends on one of them. */
  lemma {:induction false} RunStopsAtFailure(o: Options, env: Env, files: set<string>, i: nat)
    requires i <= |o.input|
    ensures var t := RunFrom(o, env, files, i).trace;
      var e := RunFrom(o, env, files, i).ending;
      (e == Threw ==> |t| > 0 && t[|t| - 1].ReadFailed?) &&
      (e == Returned ==> |t| > 0 && t[|t| - 1].NotWritten?) &&
      (forall k :: 0 <= k < |t| && EndsRun(t[k]) ==>
         k == |t| - 1 && e == if t[k].ReadFailed? then Threw else Returned)
    decreases |o.input| - i
  {
    if i < |o.input| {
      var s := ProcessItem(o, env, files, o.input[i]);
      ProcessItemShape(o, env, files, o.input[i]);
      RunFromStep(o, env, files, i);
      var t := RunFrom(o, env, files, i).trace;
      if s.stop.None? {
        var r := RunFrom(o, env, s.files, i + 1);
        RunStopsAtFailure(o, env, s.files, i + 1);
        assert t == s.events + r.trace;
        forall k | 0 <= k < |t| && EndsRun(t[k])
          ensures k == |t| - 1 && r.ending == if t[k].ReadFailed? then Threw else Returned
        {
          if k >= |s.events| {
            assert t[k] == r.trace[k - |s.events|];
          }
        }
      } else {
        assert |t| == 1;
      }
    }
  }

  /** A missing path, or one whose data does not decode, is skipped: nothing is written
      for it and the rest of the inputs are processed as if it had not been listed. */
  lemma SkippedInputContinues(o: Options, env: Env, files: set<string>, i: nat)
    requires i < |o.input|
    requires var p := o.input[i]; p !in files || (p !in env.unreadable && p !in env.images)
    ensures var p := o.input[i];
      RunFrom(o, env, files, i) ==
      Prepend([if p !in files then NotFound(p) else NotAnImage(p)], RunFrom(o, env, files, i + 1))
  {
  }

  /** Every removal in `t` comes after some write, and only with both flags set. */
  ghost predicate RemovalsAfterWrites(o: Options, t: seq<Event>) {
    forall k :: 0 <= k < |t| && IsRemoval(t[k]) ==> o.delete && o.verbose && CountWritten(t[..k]) > 0
  }

  lemma RemovalsAfterWritesAppend(o: Options, a: seq<Event>, b: seq<Event>)
    requires RemovalsAfterWrites(o, a) && RemovalsAfterWrites(o, b)
    ensures RemovalsAfterWrites(o, a + b)
  {
    var t := a + b;
    forall k | 0 <= k < |t| && IsRemoval(t[k])
      ensures o.delete && o.verbose && CountWritten(t[..k]) > 0
    {
      if k < |a| {
        assert t[k] == a[k] && t[..k] == a[..k];
      } else {
        assert t[k] == b[k - |a|];
        assert t[..k] == a + b[..k - |a|];
        CountWrittenAppend(a, b[..k - |a|]);
      }
    }
  }

  /** Removals happen only when both `delete` and `verbose` are set, and each one
      follows a successful write. */
  lemma {:induction false} RemovalsFollowWrites(o: Options, env: Env, files: set<string>, i: nat)
    requires i <= |o.input|
    ensures RemovalsAfterWrites(o, RunFrom(o, env, files, i).trace)
    decreases |o.input| - i
  {
    if i < |o.input| {
      var s := ProcessItem(o, env, files, o.input[i]);
      ProcessItemShape(o, env, files, o.input[i]);
      if s.stop.None? {
        RemovalsFollowWrites(o, env, s.files, i + 1);
        RemovalsAfterWritesAppend(o, s.events, RunFrom(o, env, s.files, i + 1).trace);
      }
    }
  }

  /** A run removes nothing but listed inputs, and without both `delete` and `verbose`
      it removes nothing at all. */
  lemma {:induction false} RunRemovesOnlyListedInputs(o: Options, env: Env, files: set<string>, i: nat)
    requires i <= |o.input|
    ensures files - (set p | p in o.input) <= RunFrom(o, env, files, i).files
    ensures !(o.delete && o.verbose) ==> files <= RunFrom(o, env, files, i).files
    decreases |o.input| - i
  {
    if i < |o.input| {
      var path := o.input[i];
      var s := ProcessItem(o, env, files, path);
      RunFromStep(o, env, files, i);
      if path in files && path !in env.unreadable && path in env.images {
        var to := OutputPath(o.output, env.parentDir(path), env.baseName(path), o.format);
        if WriteResult(o.format, env, path, to).None? && o.delete && o.verbose {
          RemoveInputsRemovesListed(env, files + {to}, o.input);
        }
      }
      if s.stop.None? {
        RunRemovesOnlyListedInputs(o, env, s.files, i + 1);
      }
    }
  }

  /** Every output written is for an input that was read and decoded, carries the size `getTargetSize` gives for its decoded
      input, goes to the path `run` builds for that input, and is one `writeImage`
      succeeds on. */
  ghost predicate WritesAsComputed(o: Options, env: Env, t: seq<Event>) {
    forall k :: 0 <= k < |t| && t[k].Written? ==>
      var p := t[k].path;
      p in o.input && p !in env.unreadable && p in env.images &&
      t[k].size == GetTargetSize(o.width, o.height, o.scale, env.images[p]) &&
      t[k].to == OutputPath(o.output, env.parentDir(p), env.baseName(p), o.format) &&
      WriteResult(o.format, env, p, t[k].to).None?
  }

  lemma WritesAsComputedAppend(o: Options, env: Env, a: seq<Event>, b: seq<Event>)
    requires WritesAsComputed(o, env, a) && WritesAsComputed(o, env, b)
    ensures WritesAsComputed(o, env, a + b)
  {
    var t := a + b;
    forall k | 0 <= k < |t| && t[k].Written?
      ensures t[k] == if k < |a| then a[k] else b[k - |a|]
    {
    }
  }

  /** Each output written is the resized image of a listed, decodable input, at the
      size `getTargetSize` computes and at the path `run` builds; with `--output` set,
      that path is the same for every input. */
  lemma {:induction false} WrittenAsComputed(o: Options, env: Env, files: set<string>, i: nat)
    requires i <= |o.input|
    ensures WritesAsComputed(o, env, RunFrom(o, env, files, i).trace)
    decreases |o.input| - i
  {
    if i < |o.input| {
      var s := ProcessItem(o, env, files, o.input[i]);
      ProcessItemShape(o, env, files, o.input[i]);
      assert forall k :: 0 < k < |s.events| ==> IsRemoval(s.events[k]);
      if s.stop.None? {
        WrittenAsComputed(o, env, s.files, i + 1);
        WritesAsComputedAppend(o, env, s.events, RunFrom(o, env, s.files, i + 1).trace);
      }
    }
  }

  /** Every failed write names a listed input that exists, was read and decoded, at the
      path `run` builds for it, with the error `writeImage` gives: the format is checked
      only after the existence check, the read, the decode and the size computation. */
  ghost predicate FailuresAsComputed(o: Options, env: Env, t: seq<Event>) {
    forall k :: 0 <= k < |t| && t[k].NotWritten? ==>
      var p := t[k].path;
      p in o.input && p !in env.unreadable && p in env.images &&
      t[k].to == OutputPath(o.output, env.parentDir(p), env.baseName(p), o.format) &&
      Some(t[k].error) == WriteResult(o.format, env, p, t[k].to)
  }

  /** A write is only attempted, and so a bad format only reported, for an input that
      exists and whose data was read and decoded. */
  lemma {:induction false} FailedWritesAsComputed(o: Options, env: Env, files: set<string>, i: nat)
    requires i <= |o.input|
    ensures FailuresAsComputed(o, env, RunFrom(o, env, files, i).trace)
    decreases |o.input| - i
  {
    if i < |o.input| {
      var s := ProcessItem(o, env, files, o.input[i]);
      ProcessItemShape(o, env, files, o.input[i]);
      RunFromStep(o, env, files, i);
      assert forall k :: 0 < k < |s.events| ==> IsRemoval(s.events[k]);
      assert FailuresAsComputed(o, env, s.events);
      if s.stop.None? {
        var r := RunFrom(o, env, s.files, i + 1);
        FailedWritesAsComputed(o, env, s.files, i + 1);
        var t := s.events + r.trace;
        forall k | 0 <= k < |t| && t[k].NotWritten?
          ensures t[k] == if k < |s.events| then s.events[k] else r.trace[k - |s.events|]
        {
        }
      }
    }
  }

  /** With an unsupported `--format`, nothing is ever written and nothing removed:
      the first input that decodes makes `writeImage` throw, and `run` returns. */
  lemma {:induction false} UnsupportedFormatWritesNothing(o: Options, env: Env, files: set<string>, i: nat)
    requires i <= |o.input|
    requires FileTypeOf(o.format).None?
    ensures var r := RunFrom(o, env, files, i);
      r.files == files && CountWritten(r.trace) == 0 &&
      (r.ending == Returned ==> r.trace[|r.trace| - 1].NotWritten? &&
                                r.trace[|r.trace| - 1].error == UnsupportedFormat)
    decreases |o.input| - i
  {
    if i < |o.input| {
      var s := ProcessItem(o, env, files, o.input[i]);
      RunFromStep(o, env, files, i);
      assert |s.events| == 1;
      assert s.events == [s.events[0]] && s.events[1..] == [];
      if s.stop.None? {
        var r := RunFrom(o, env, s.files, i + 1);
        UnsupportedFormatWritesNothing(o, env, s.files, i + 1);
        CountWrittenAppend(s.events, r.trace);
        RunStopsAtFailure(o, env, s.files, i + 1);
      }
    }
  }

  /** A `NotFound` event for each path, in order. */
  function AllNotFound(paths: seq<string>): (t: seq<Event>)
    ensures |t| == |paths| && CountWritten(t) == 0
    ensures forall k :: 0 <= k < |paths| ==> t[k] == NotFound(paths[k])
  {
    if paths == [] then [] else [NotFound(paths[0])] + AllNotFound(paths[1..])
  }

  /** When none of the remaining inputs exists, every one of them is skipped as not
      found, nothing is written and the run finishes. */
  lemma {:induction false} MissingInputsAllSkipped(o: Options, env: Env, files: set<string>, i: nat)
    requires i <= |o.input|
    requires forall k :: i <= k < |o.input| ==> o.input[k] !in files
    ensures RunFrom(o, env, files, i) == Outcome(files, AllNotFound(o.input[i..]), Finished)
    decreases |o.input| - i
  {
    if i < |o.input| {
      MissingInputsAllSkipped(o, env, files, i + 1);
      assert o.input[i..][1..] == o.input[i + 1..];
    }
  }

  /** With `delete` and `verbose` set, the first successful write removes every listed
      input that may be removed; so if all may be, every later input then fails the
      existence check and the run writes exactly that one output. */
  lemma DeletionSkipsLaterInputs(o: Options, env: Env, files: set<string>, i: nat)
    requires i < |o.input|
    requires o.delete && o.verbose
    requires forall p :: p in o.input ==> p !in env.undeletable
    requires ProcessItem(o, env, files, o.input[i]).events[0].Written?
    ensures var s := ProcessItem(o, env, files, o.input[i]);
      RunFrom(o, env, files, i) == Prepend(s.events, Outcome(s.files, AllNotFound(o.input[i + 1..]), Finished))
    ensures forall p :: p in o.input ==> p !in RunFrom(o, env, files, i).files
  {
    var s := ProcessItem(o, env, files, o.input[i]);
    ProcessItemShape(o, env, files, o.input[i]);
    var to := OutputPath(o.output, env.parentDir(o.input[i]), env.baseName(o.input[i]), o.format);
    RemoveInputsRemovesListed(env, files + {to}, o.input);
    forall k | i + 1 <= k < |o.input|
      ensures o.input[k] !in s.files
    {
      assert o.input[k] in o.input;
    }
    MissingInputsAllSkipped(o, env, s.files, i + 1);
  }

  /** With `delete` and `verbose` set and every input removable, a run writes at most
      one output. */
  lemma {:induction false} AtMostOneWriteWhenDeleting(o: Options, env: Env, files: set<string>, i: nat)
    requires i <= |o.input|
    requires o.delete && o.verbose
    requires forall p :: p in o.input ==> p !in env.undeletable
    ensures CountWritten(RunFrom(o, env, files, i).trace) <= 1
    decreases |o.input| - i
  {
    if i < |o.input| {
      var s := ProcessItem(o, env, files, o.input[i]);
      ProcessItemShape(o, env, files, o.input[i]);
      if s.events[0].Written? {
        DeletionSkipsLaterInputs(o, env, files, i);
        RemovalsOnly(s.events[1..]);
        assert s.events == [s.events[0]] + s.events[1..];
        CountWrittenAppend([s.events[0]], s.events[1..]);
        CountWrittenAppend(s.events, AllNotFound(o.input[i + 1..]));
      } else {
        assert |s.events| == 1;
        assert s.events == [s.events[0]] && s.events[1..] == [];
        if s.stop.None? {
          AtMostOneWriteWhenDeleting(o, env, s.files, i + 1);
          CountWrittenAppend(s.events, RunFrom(o, env, s.files, i + 1).trace);
        }
      }
    }
  }
}
