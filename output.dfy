/** The output format dispatch of `writeImage` and the output-path rule of `run`. */
module OutputFormat {
  import opened Wrappers

  /** The bitmap file types the command can write (`NSBitmapImageRep.FileType`). */
  datatype FileType = Jpeg | Gif | Png

  /** The `--format` spelling of each file type. */
  function Name(t: FileType): string {
    match t
    case Jpeg => "jpeg"
    case Gif => "gif"
    case Png => "png"
  }

  /** The `switch format` of `writeImage`: exactly "jpeg", "gif" and "png" are
      accepted (case-sensitive, no aliases such as "jpg"); `None` is the throwing
      `default` branch. */
  function FileTypeOf(format: string): (r: Option<FileType>)
    ensures r.Some? <==> format in {"jpeg", "gif", "png"}
    ensures r.Some? ==> Name(r.value) == format
  {
    if format == "jpeg" then Some(Jpeg)
    else if format == "gif" then Some(Gif)
    else if format == "png" then Some(Png)
    else None
  }

  /** Each file type is accepted under its own name and no other. */
  lemma FileTypeNameRoundTrip(t: FileType, format: string)
    ensures FileTypeOf(Name(t)) == Some(t)
    ensures FileTypeOf(format) == Some(t) ==> format == Name(t)
  {
  }

  /** The path written when `--output` is absent: `<parentDir>/<baseName>-resized.<format>`. */
  function DefaultOutputPath(parentDir: string, baseName: string, format: string): string {
    parentDir + "/" + baseName + "-resized." + format
  }

  /** `output ?? <default path>`: a given `--output` is used verbatim, for every input. */
  function OutputPath(output: Option<string>, parentDir: string, baseName: string, format: string): (r: string)
    ensures output.Some? ==> r == output.value
    ensures output.None? ==> r == DefaultOutputPath(parentDir, baseName, format)
  {
    output.GetOr(DefaultOutputPath(parentDir, baseName, format))
  }

  /** The default path splits back into its parts: the directory, a slash, the base
      name, and the suffix "-resized." followed by the format. */
  lemma DefaultOutputPathParts(parentDir: string, baseName: string, format: string)
    ensures var p := DefaultOutputPath(parentDir, baseName, format);
      var n := |parentDir| + 1 + |baseName|;
      |p| == n + 9 + |format| &&
      p[..|parentDir|] == parentDir && p[|parentDir|] == '/' &&
      p[|parentDir| + 1..n] == baseName &&
      p[n..n + 9] == "-resized." && p[n + 9..] == format
  {
  }

  /** Without `--output`, two inputs in the same directory with different base names
      never target the same path (for one format). */
  lemma DefaultOutputPathInjective(parentDir: string, b1: string, b2: string, format: string)
    requires DefaultOutputPath(parentDir, b1, format) == DefaultOutputPath(parentDir, b2, format)
    ensures b1 == b2
  {
    DefaultOutputPathParts(parentDir, b1, format);
    DefaultOutputPathParts(parentDir, b2, format);
  }
}
