/**
 * `output`: the compression options normalised for a CSV write, the check on the
 * method, and which writer is used. The write itself is left out.
 */
module Output {
  import opened Wrappers
  import opened Strings

  /** A value stored in a compression options dictionary. */
  datatype OptValue = NoneValue | StrValue(s: string) | IntValue(i: int)

  /** What `compression_options` may be: None, a method name, or a dictionary. */
  datatype CompressionArg = NoneArg | StrArg(s: string) | DictArg(d: map<string, OptValue>)

  /** `COMPRESS_OPTIONS`. */
  const CompressOptions: seq<OptValue> := [StrValue("gzip"), NoneValue]

  /** The f-string rendering of a method value. */
  function ValueRepr(v: OptValue): string
  {
    match v
    case NoneValue => "None"
    case StrValue(s) => s
    case IntValue(i) => IntToString(i)
  }

  /** `check_compression_method`: passes exactly for "gzip" and None. */
  function CheckCompressionMethod(m: OptValue): (r: Outcome)
    ensures r.Pass? <==> m in CompressOptions
    ensures r.Fail? ==> r.error == Error(AssertionError, ValueRepr(m) + " is not supported, select one of ['gzip', None]")
  {
    Check(m in CompressOptions, AssertionError, ValueRepr(m) + " is not supported, select one of ['gzip', None]")
  }

  /** `set_compression_method`: None and a string become a one-key dictionary, a dictionary stays; the method is then checked. */
  function SetCompressionMethod(c: CompressionArg): (r: Result<map<string, OptValue>>)
    ensures c.NoneArg? ==> r == Ok(map["method" := NoneValue])
    ensures c.StrArg? ==> r == (if c.s == "gzip" then Ok(map["method" := StrValue(c.s)])
                                else Raise(AssertionError, c.s + " is not supported, select one of ['gzip', None]"))
    ensures c.DictArg? && "method" !in c.d ==> r == Raise(KeyError, "'method'")
    ensures c.DictArg? && "method" in c.d ==> (r.Ok? <==> c.d["method"] in CompressOptions)
    ensures c.DictArg? && r.Ok? ==> r.value == c.d
    ensures r.Ok? ==> "method" in r.value && r.value["method"] in CompressOptions
  {
    var d := match c
      case NoneArg => map["method" := NoneValue]
      case StrArg(s) => map["method" := StrValue(s)]
      case DictArg(d) => d;
    if "method" !in d then Raise(KeyError, "'method'")
    else
      match CheckCompressionMethod(d["method"])
      case Fail(e) => Err(e)
      case Pass => Ok(d)
  }

  /** Normalising options that were already normalised gives them back. */
  lemma SetCompressionMethodIdempotent(c: CompressionArg)
    requires SetCompressionMethod(c).Ok?
    ensures SetCompressionMethod(DictArg(SetCompressionMethod(c).value)) == SetCompressionMethod(c)
  {
  }

  /** A dictionary with a valid method keeps its other keys, such as `mtime`. */
  lemma ExtraKeysKept(d: map<string, OptValue>, k: string)
    requires "method" in d && d["method"] in CompressOptions && k in d
    ensures SetCompressionMethod(DictArg(d)).Ok?
    ensures k in SetCompressionMethod(DictArg(d)).value && SetCompressionMethod(DictArg(d)).value[k] == d[k]
  {
  }

  /** The write `output` performs. */
  datatype Write =
    | CsvFile(path: string, sep: string, compression: map<string, OptValue>)
    | ParquetFile(path: string, codec: string)
    | NoWrite

  /**
   * `output(df, output_filename, output_type, sep, compression_options)`: CSV with the
   * normalised options, parquet always with snappy, nothing for any other type; the
   * file name is returned in every case that does not fail.
   */
  function OutputFile(filename: string, outputType: string, sep: string, options: CompressionArg): (r: Result<(Write, string)>)
    ensures r.Ok? ==> r.value.1 == filename
    ensures outputType == "csv" ==> (r.Ok? <==> SetCompressionMethod(options).Ok?)
    ensures outputType == "csv" && r.Ok? ==> r.value.0 == CsvFile(filename, sep, SetCompressionMethod(options).value)
    ensures outputType == "parquet" ==> r == Ok((ParquetFile(filename, "snappy"), filename))
    ensures outputType != "csv" && outputType != "parquet" ==> r == Ok((NoWrite, filename))
  {
    if outputType == "csv" then
      var compression :- SetCompressionMethod(options);
      Ok((CsvFile(filename, sep, compression), filename))
    else if outputType == "parquet" then Ok((ParquetFile(filename, "snappy"), filename))
    else Ok((NoWrite, filename))
  }

  /** The default options `{"method": "gzip", "mtime": 1}` pass to the CSV writer unchanged. */
  lemma DefaultOptions(filename: string, sep: string)
    ensures var d := map["method" := StrValue("gzip"), "mtime" := IntValue(1)];
      OutputFile(filename, "csv", sep, DictArg(d)) == Ok((CsvFile(filename, sep, d), filename))
  {
  }

  /** Options are only checked for CSV: a bad method fails there and nowhere else. */
  lemma OnlyCsvChecks(filename: string, outputType: string, sep: string, options: CompressionArg)
    requires SetCompressionMethod(options).Err?
    ensures OutputFile(filename, outputType, sep, options).Err? <==> outputType == "csv"
  {
  }
}
