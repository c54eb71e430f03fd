/**
 * The decision part of `net_opt` (neosr/archs/arch_util.py): the upscale
 * factor and the training flag, from options and command-line arguments that
 * have already been parsed.
 */
module RunConfig {
  import opened Wrappers

  /** The command-line arguments read: `--input` (absent is `None`) and `--scale`. */
  datatype CliArgs = CliArgs(input: Option<string>, scale: int)

  /** The option dictionary's `"scale"` entry and the keys of its `"datasets"`
      entry; either may be missing. */
  datatype ParsedOptions = ParsedOptions(scale: Option<int>, datasets: Option<set<string>>)

  /** A missing option key. */
  datatype KeyError = KeyError(key: string)

  /** `net_opt()` after `parse_options`: returns `(upscale, training)`. */
  function NetOpt(opt: ParsedOptions, args: CliArgs): (r: Result<(int, bool), KeyError>)
    ensures args.input.Some? ==> r == Ok((args.scale, false))
    ensures r.Ok? && r.value.1 ==> args.input.None? && opt.datasets.Some? && "train" in opt.datasets.value
    ensures args.input.None? ==>
      if opt.scale.None? then r == Err(KeyError("scale"))
      else if opt.datasets.None? then r == Err(KeyError("datasets"))
      else r.Ok? && r.value.0 == opt.scale.value && (r.value.1 <==> "train" in opt.datasets.value)
  {
    if args.input.None? then
      if opt.scale.None? then Err(KeyError("scale"))
      else if opt.datasets.None? then Err(KeyError("datasets"))
      else Ok((opt.scale.value, "train" in opt.datasets.value))
    else
      Ok((args.scale, false))
  }
}
