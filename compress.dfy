/**
 * `compress`: the file name and the pandas `compression` argument it writes with.
 * The frame and the write itself are left out; `how` is a method name or None.
 */
module Compress {
  import opened Wrappers
  import opened Strings
  import opened Paths

  /** The `compress_options` dictionary, keyed by `how`. */
  function OptionSuffix(how: Option<string>): (r: Option<string>)
    ensures r.Some? <==> how in {Some("gzip"), Some("bz2"), Some("zip"), Some("xz"), None}
    ensures how == None ==> r == Some("")
    ensures r.Some? && how.Some? ==> |r.value| >= 3 && r.value[0] == '.' && '.' !in r.value[1..] && '/' !in r.value
  {
    match how
    case None => Some("")
    case Some(h) =>
      if h == "gzip" then Some(".gz")
      else if h == "bz2" then Some(".bz2")
      else if h == "zip" then Some(".zip")
      else if h == "xz" then Some(".xz")
      else None
  }

  /** The values of `compress_options`: the extensions taken for already compressed. */
  const KnownExtensions: set<string> := {".gz", ".bz2", ".zip", ".xz", ""}

  lemma SuffixesKnown(how: Option<string>)
    requires OptionSuffix(how).Some?
    ensures OptionSuffix(how).value in KnownExtensions
  {
  }

  /** `str(how)` in the assertion message. */
  function HowRepr(how: Option<string>): string
  {
    if how.Some? then how.value else "None"
  }

  const SupportedList := "['gzip', 'bz2', 'zip', 'xz', None]"

  /** What `to_csv` is called with, and the warning text when one is issued. */
  datatype CsvWrite = CsvWrite(path: string, compression: Option<string>, warning: Option<string>)

  function MismatchWarning(ext: string, suffix: string): string
  {
    "The input file has a compression file extension ('" + ext
    + "') that is different than what is specified in 'how' ('" + suffix
    + "'). Defaulting to input filename suffix."
  }

  /**
   * `compress(df, output_filename, how)`: an unsupported `how` fails the assertion; a
   * name whose extension is a known one is kept and pandas infers the method from it,
   * with a warning when that extension is not `how`'s; any other name gets `how`'s suffix.
   */
  function Compress(filename: string, how: Option<string>): (r: Result<CsvWrite>)
    ensures OptionSuffix(how).None? <==> r.Err?
    ensures r.Err? ==> r == Raise(AssertionError, HowRepr(how) + " is not supported, select one of " + SupportedList)
    ensures r.Ok? ==> var ext := Splitext(filename).1; var suffix := OptionSuffix(how).value;
      && (ext in KnownExtensions ==> r.value.path == filename && r.value.compression == Some("infer"))
      && (ext !in KnownExtensions ==> r.value.path == filename + suffix && r.value.compression == how)
      && (r.value.warning.Some? <==> ext in KnownExtensions && ext != suffix)
  {
    match OptionSuffix(how)
    case None => Raise(AssertionError, HowRepr(how) + " is not supported, select one of " + SupportedList)
    case Some(suffix) =>
      var ext := Splitext(filename).1;
      if ext in KnownExtensions then
        var warning := if ext != suffix then Some(MismatchWarning(ext, suffix)) else None;
        Ok(CsvWrite(filename, Some("infer"), warning))
      else Ok(CsvWrite(filename + suffix, how, None))
  }

  /** `output.csv` with gzip becomes `output.csv.gz`, written with gzip and no warning. */
  lemma CompressAppends(stem: string, ext: string, how: Option<string>)
    requires Named(stem) && '.' !in ext && '/' !in ext
    requires "." + ext !in KnownExtensions
    requires OptionSuffix(how).Some?
    ensures Compress(stem + "." + ext, how) == Ok(CsvWrite(stem + "." + ext + OptionSuffix(how).value, how, None))
  {
    SplitextAppend(stem, ext);
  }

  /** `output.csv.gz` keeps its name and is written by inference, warning only when `how` says otherwise. */
  lemma CompressKeepsCompressedName(stem: string, ext: string, how: Option<string>)
    requires Named(stem) && '.' !in ext && '/' !in ext
    requires "." + ext in KnownExtensions
    requires OptionSuffix(how).Some?
    ensures Compress(stem + "." + ext, how) ==
              Ok(CsvWrite(stem + "." + ext, Some("infer"),
                          if "." + ext != OptionSuffix(how).value then Some(MismatchWarning("." + ext, OptionSuffix(how).value)) else None))
  {
    SplitextAppend(stem, ext);
  }

  /** With `how` None a name keeps its extension, whatever it is: None's suffix is empty. */
  lemma NoneKeepsName(filename: string)
    ensures Compress(filename, None).Ok? && Compress(filename, None).value.path == filename
  {
  }

  /** A name without an extension counts as already compressed: it is kept and warns unless `how` is None. */
  lemma BareNameWarns(filename: string, how: Option<string>)
    requires Splitext(filename).1 == "" && OptionSuffix(how).Some?
    ensures Compress(filename, how).Ok? && Compress(filename, how).value.path == filename
    ensures Compress(filename, how).value.warning.Some? <==> how.Some?
  {
  }

  /** Compressing to the name `compress` chose again keeps that name, infers the method and does not warn. */
  lemma CompressStable(filename: string, how: Option<string>)
    requires Compress(filename, how).Ok? && how.Some?
    requires Splitext(filename).1 !in KnownExtensions
    ensures var path := Compress(filename, how).value.path;
      Compress(path, how) == Ok(CsvWrite(path, Some("infer"), None))
  {
    var suffix := OptionSuffix(how).value;
    ExtensionNamed(filename);
    assert suffix == "." + suffix[1..];
    SplitextAppend(filename, suffix[1..]);
    assert filename + suffix == filename + "." + suffix[1..];
  }
}
