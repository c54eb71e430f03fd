# neosr network-building utilities, modelled in Dafny

This project models the helpers that neosr's super-resolution architectures
build on, from `neosr/archs/arch_util.py`:

- **`store_neosr_defaults`**: the class decorator that records every network
  instance's hyperparameters. It reads the constructor's declared defaults
  (`get_arg_defaults`). At each instantiation it checks the caller's keyword
  arguments against fixed "extra" parameters (the loop of `new_init`). It then
  stores `{**extra, **defaults, **kwargs}` on the instance. In
  `hyperparameters.dfy`, the loop is a method of the class `Network`.
- **`pixel_unshuffle`**: space-to-depth rearrangement of a `(b, c, h, w)`
  tensor, together with its inverse, torch's `PixelShuffle`
  (`pixel_rearrange.dfy`).
- **`Upsample`**: the plan of convolution and pixel-shuffle stages for a scale
  factor, including Python's `scale & (scale - 1)` test on unbounded integers.
  Also **`make_layer`**. Both are loops that append (`layers.dfy`).
- **`drop_path`** and the **`DropPath`** module: stochastic depth with the
  Bernoulli outcomes given as an input (`stochastic_depth.dfy`).
- The branch logic of **`net_opt`**, after option parsing
  (`run_config.dfy`).
- **`_ntuple`**, plus the warning test and final clamp of the truncated-normal
  fill (`init_helpers.dfy`).

`wrappers.dfy` holds `Option` and `Result`. A Python exception is an `Err`
carrying the exception kind. `arithmetic.dfy` holds lemmas about integer
division that the tensor-index proofs use.

### Where the code and its documentation differ (the model follows the code)

- The docstring of `store_neosr_defaults` (line 210) and the annotation of the
  `WithHyperparameters` Protocol (line 231) say the record goes into a
  `neosr_params` attribute. `new_init` actually assigns
  `self.hyperparameters` (line 252). The model's field is `hyperparameters`.
- The record is built as `{**extra_parameters, **defaults, **kwargs}` (line 252),
  so a declared constructor default *overrides* a fixed extra value of the same
  name. Only a caller's keyword argument must agree with the fixed value.
  `Hyperparameters.RecordPrecedence` states this order.

## Model

| member | source | states |
|---|---|---|
| Hyperparameters.LastN | neosr/archs/arch_util.py:224 | `args[-n:]`: a suffix of the sequence, exactly `n` long when `0 < n <= len`, and the whole sequence for `n == 0` or `n` too large |
| Hyperparameters.Zip | neosr/archs/arch_util.py:224 | non-strict `zip`: length is the shorter input's, and element `i` pairs the two `i`-th items |
| Hyperparameters.DictOf | neosr/archs/arch_util.py:223 | `dict(pairs)` has exactly the keys of the pairs |
| Hyperparameters.DictOfAt | neosr/archs/arch_util.py:223 | with distinct keys, `dict(pairs)` maps each pair's key to that pair's value |
| Hyperparameters.PositionalDefaultsAt | neosr/archs/arch_util.py:220-226 | the zipped positional defaults have one entry per default, distinct names, and entry `i` is (the `i`-th of the last `len(defaults)` argument names, default `i`) |
| Hyperparameters.PositionalDefaultAt | neosr/archs/arch_util.py:224 | entry `i` of the zipped positional defaults, for one index |
| Hyperparameters.GetArgDefaultsKeys | neosr/archs/arch_util.py:215-228 | `GetArgDefaults` (the model of `get_arg_defaults`): the defaults dictionary's keys are the keyword-only names plus the defaulted positional names; with neither kind of default it is empty |
| Hyperparameters.DefaultedNamesAreLastArgs | neosr/archs/arch_util.py:224 | the defaulted positional names are exactly the last `len(defaults)` argument names |
| Hyperparameters.DefaultedNamesWithinLastArgs | neosr/archs/arch_util.py:224 | every defaulted positional name is one of the last `len(defaults)` arguments |
| Hyperparameters.LastArgsWithinDefaultedNames | neosr/archs/arch_util.py:224 | every one of the last `len(defaults)` arguments is a defaulted name |
| Hyperparameters.GetArgDefaultsPositional | neosr/archs/arch_util.py:220-226 | a positional argument's declared default appears under its name, overriding a keyword-only default of the same name |
| Hyperparameters.GetArgDefaultsKeywordOnly | neosr/archs/arch_util.py:217-226 | a keyword-only default appears unchanged unless a positional default shares its name |
| Hyperparameters.StripExtra | neosr/archs/arch_util.py:244-250 | on success, the forwarded kwargs are the caller's minus every fixed key; on failure, the reported key is fixed and was passed with a different value, and it carries the value passed |
| Hyperparameters.StripExtraSucceedsIffAgrees | neosr/archs/arch_util.py:244-250 | instantiation passes the check if and only if no caller kwarg contradicts a fixed value; the forwarded kwargs then contain no fixed key |
| Hyperparameters.StripExtraReportsFirstConflict | neosr/archs/arch_util.py:244-249 | the `ValueError` names the first fixed parameter, in iteration order, that the caller contradicts, with the expected and the passed value |
| Hyperparameters.NoExtraParameters | neosr/archs/arch_util.py:208-252 | with the default `extra_parameters={}`, every instantiation succeeds, forwards the caller's kwargs unchanged and records the defaults overridden by the kwargs |
| Hyperparameters.RecordPrecedence | neosr/archs/arch_util.py:252 | `Record`, the stored `{**extra, **defaults, **kwargs}`: the record's keys are the union of the three sources; a caller kwarg beats a declared default, which beats a fixed value |
| Hyperparameters.Network.NewInit | neosr/archs/arch_util.py:242-253 | the loop raises exactly when the reference walk `StripExtra` does, with the same conflict, and leaves the instance untouched; otherwise it stores the record and calls the original `__init__` with the stripped kwargs |
| Hyperparameters.InstantiationContract | neosr/archs/arch_util.py:235-256 | for a class decorated by `Decorate` (which reads the declared defaults once, lines 236-239): the call fails if and only if a fixed value is contradicted; otherwise no fixed key is forwarded, and every non-fixed caller value and every declared default that the caller did not override shows in the record |
| Hyperparameters.WorkedExample | neosr/archs/arch_util.py:215-253 | defaults `{x: 1, y: 2}` and fixed `{z: 5}`: `y=9` records `{z: 5, x: 1, y: 9}`, `z=5` is accepted and dropped, `z=6` raises naming `z`, 5 and 6 |
| PixelRearrange.ShufflePosInShape | neosr/archs/arch_util.py:117-123 | the inverse index map sends every output position to a valid input position |
| PixelRearrange.UnshufflePosInShape | neosr/archs/arch_util.py:117-123 | every input position lands inside the `(b, c*s*s, h/s, w/s)` output |
| PixelRearrange.ShuffleAfterUnshufflePos | neosr/archs/arch_util.py:122-123 | the shuffle index map undoes the unshuffle index map |
| PixelRearrange.UnshuffleAfterShufflePos | neosr/archs/arch_util.py:122-123 | the unshuffle index map undoes the shuffle index map |
| PixelRearrange.ShapeRoundTrip | neosr/archs/arch_util.py:117-121 | the output shape `(b, c*s*s, h/s, w/s)` and the shuffle shape are inverse to each other under divisibility |
| PixelRearrange.Unshuffled | neosr/archs/arch_util.py:117-123 | the rearranged tensor is well formed with shape `(b, c*s*s, h/s, w/s)` |
| PixelRearrange.PixelUnshuffle | neosr/archs/arch_util.py:117-123 | succeeds if and only if `scale > 0` and both spatial sizes are divisible; `scale == 0` raises `ZeroDivisionError`, indivisible sizes fail the assertion, and a negative scale fails in `view` |
| PixelRearrange.PixelShuffle | neosr/archs/arch_util.py:117-123 | the inverse rearrangement (torch's `PixelShuffle`) yields shape `(b, c/(s*s), h*s, w*s)` |
| PixelRearrange.UnshuffleIndexFormula | neosr/archs/arch_util.py:122-123 | `out[n][c*s*s + i*s + j][y][x] == in[n][c][y*s + i][x*s + j]`, which is the view-permute-reshape |
| PixelRearrange.UnshuffleMovesEachElement | neosr/archs/arch_util.py:122-123 | every input element appears in the output at its mapped position |
| PixelRearrange.UnshufflePosBijective | neosr/archs/arch_util.py:122-123 | the position map is injective and onto the output shape: a pure rearrangement |
| PixelRearrange.UnshuffleKeepsCount | neosr/archs/arch_util.py:118-121 | the output has exactly as many elements as the input |
| PixelRearrange.ShuffleUnshuffleAt | neosr/archs/arch_util.py:117-123 | shuffling the unshuffled tensor restores each element |
| PixelRearrange.ShuffleUndoesUnshuffle | neosr/archs/arch_util.py:117-123 | `PixelShuffle(pixel_unshuffle(x, s), s) == x` whenever `pixel_unshuffle` succeeds |
| PixelRearrange.UnshuffleUndoesShuffle | neosr/archs/arch_util.py:117-123 | `pixel_unshuffle(PixelShuffle(x, s), s)` succeeds and equals `x` |
| Layers.Log2 | neosr/archs/arch_util.py:93 | for a power of two, `log2` is the exponent `k` with `2^k == scale` |
| Layers.BitAndSelf | neosr/archs/arch_util.py:92 | `a & a == a` for Python's unbounded two's-complement `&` |
| Layers.BitAndOfNegatives | neosr/archs/arch_util.py:92 | the `&` of two negative integers is negative |
| Layers.PowerOfTwoTest | neosr/archs/arch_util.py:92 | with `BitAnd` as Python's `&`, `scale & (scale - 1) == 0` holds exactly for 0 and the powers of two |
| Layers.StagesAppend | neosr/archs/arch_util.py:93-95 | one more loop iteration appends one conv + shuffle stage |
| Layers.Upsample | neosr/archs/arch_util.py:90-103 | succeeds if and only if scale is a power of two or 3, and then builds the stage plan; 0 fails in `log2`; every other scale raises the unsupported-scale error |
| Layers.StagesPreserveChannels | neosr/archs/arch_util.py:93-98 | each conv to `f*f*num_feat` channels followed by `PixelShuffle(f)` returns to `num_feat` channels; `k` stages magnify by `f^k` |
| Layers.UpsampleMagnifiesByScale | neosr/archs/arch_util.py:90-103 | the whole plan `UpsampleLayers` (`log2(scale)` stages of factor 2, or one stage of factor 3) ends with `num_feat` channels and magnifies height and width by exactly `scale` |
| Layers.MakeLayer | neosr/archs/arch_util.py:76-79 | `max(n, 0)` blocks, each built by the same block class with the same kwargs |
| RunConfig.NetOpt | neosr/archs/arch_util.py:27-37 | with `--input`, the command-line scale and no training; without it, the option scale and training exactly when `datasets` has a `train` entry; a missing `scale`, then a missing `datasets`, raises `KeyError` |
| StochasticDepth.ProductOfOnes | neosr/archs/arch_util.py:174 | a shape of ones holds one element, so the mask has one value per sample |
| StochasticDepth.RandomTensor | neosr/archs/arch_util.py:174-186 | the mask has shape `(batch, 1, ..., 1)` |
| StochasticDepth.BroadcastMul | neosr/archs/arch_util.py:188 | broadcasting the mask keeps the input's shape |
| StochasticDepth.DropPath | neosr/archs/arch_util.py:163-188 | with `drop_prob == 0` or outside training, the input itself is returned; otherwise a 0-dimensional input raises `IndexError` (and is the only case that does), and for any other input the call succeeds if and only if `0 <= drop_prob <= 1`, raising the `bernoulli_` error with `1 - drop_prob` otherwise; a result keeps the input's shape |
| StochasticDepth.DropPathWithDefaults | neosr/archs/arch_util.py:163-171 | `drop_path(x)` with its default arguments returns `x` |
| StochasticDepth.DropPathPerSample | neosr/archs/arch_util.py:170-188 | in training, for outcomes `bernoulli_(keep_prob)` can produce, each sample is dropped whole (all zeros) or kept whole; a kept sample is divided by `keep_prob` when `scale_by_keep` (`Multiplier`, lines 184-186), and with `drop_prob == 1` every sample is zero |
| StochasticDepth.DropPathKeepsExpectation | neosr/archs/arch_util.py:184-188 | with `scale_by_keep`, the kept and dropped outputs, weighted by their probabilities, average back to the input value |
| StochasticDepth.DropPathModule.constructor | neosr/archs/arch_util.py:197-202 | the training flag is taken from the run configuration once, at construction |
| StochasticDepth.DropPathModule.WithDefaults | neosr/archs/arch_util.py:197-202 | `DropPath()` with its defaults: `drop_prob` 0, `scale_by_keep` set, `training` from the run configuration |
| StochasticDepth.DropPathModule.Forward | neosr/archs/arch_util.py:204-205 | `drop_path` with the module's fixed settings; a module built outside training is the identity |
| InitHelpers.NTuple | neosr/archs/arch_util.py:262-268 | an iterable is returned unchanged; anything else becomes `n` copies of itself |
| InitHelpers.NTupleIdempotent | neosr/archs/arch_util.py:262-268 | applying the parser twice is the same as once |
| InitHelpers.Clamp | neosr/archs/arch_util.py:159 | the result is at most `b`, at least `a` when `a <= b`, and unchanged for values already in `[a, b]` |
| InitHelpers.TruncNormalFinish | neosr/archs/arch_util.py:132-159 | the warning is raised exactly when `mean` is more than two std outside `[a, b]`; every filled value lies in `[a, b]` when `a <= b`, and in-range values are left as scaled and shifted |

## Left out

- `default_init_weights`: Kaiming initialisation draws random weights and mutates torch modules in place. It is not part of this model.
- `parse_options`: `net_opt` reads its options from the command line and the option file. `RunConfig.NetOpt` takes the parsed dictionary and arguments as inputs instead.
- Randomness: `bernoulli_`, `uniform_` and `erfinv_` are not modelled. `drop_path` takes the per-sample Bernoulli outcomes as an input. The truncated-normal fill takes the standard draws after `erfinv`. `norm_cdf` and `erf` are not modelled.
- Floating point: values are mathematical reals. NaN, infinities and rounding are not modelled, for example in `drop_prob == 0.0` or in `x / keep_prob`.
- Python's cross-type equality (`1 == 1.0 == True`) in the hyperparameter comparison is not modelled. Values are compared with the equality of one value type.
- The text of the `ValueError` messages is not modelled. The errors carry the key, the expected value and the passed value.
- Hyperparameters.Network.NewInit: the effects of the original `__init__` are not modelled. The model records only the keyword arguments it receives. Reflection (`functools.wraps`, replacing `cls.__init__`) is not modelled. Positional arguments to the wrapped `__init__` are not accepted by `new_init` and are not modelled.
- Layers.Upsample: only integer scales are modelled. A non-integer scale fails Python's `&` with a `TypeError`, which is not modelled. Conv2d and PixelShuffle are described by their parameters, not as tensor operations.
- Layers.MakeLayer: only integer counts are modelled. Each block is a record of the class and the kwargs, so the model does not capture that each call builds a distinct module object. The `nn.Sequential` container is the sequence itself.
- PixelRearrange.PixelUnshuffle: torch's memory layout is not modelled. It is stated through the resulting index formula; strides, contiguity and the copy made by `reshape` are not modelled. Input tensors are 4-dimensional by type, so the unpacking error for other ranks is not modelled.
- StochasticDepth.DropPathModule: `training` is fixed at construction. Torch's inherited `train()` and `eval()`, which would overwrite the flag later, are not modelled. Neither is the `nn.Module` plumbing.
- `_ntuple` aliases and tensors as iterables: the iterable test is a tag on the argument. Python's `Iterable` protocol (strings, tensors, generators) is not modelled.
- The in-place nature of the truncated-normal fill is not modelled: the fill produces a new sequence of values.
- Default arguments of the functions: Dafny members take every argument explicitly. The defaults of `drop_path` (`drop_prob=0.0, training=False, scale_by_keep=True`) are modelled by `StochasticDepth.DropPathWithDefaults`. Those of `DropPath` are modelled by `StochasticDepth.DropPathModule.WithDefaults`, and `extra_parameters={}` by `Hyperparameters.NoExtraParameters`. No other call with some arguments omitted is modelled.
- Hyperparameters.Record: the record is an unordered map. The insertion order of the Python dict built at line 252 is not modelled: extra keys first, then defaults, then caller keys, with an overridden key keeping its first position. Key order affects iteration and printing, not lookups.
- StochasticDepth.DropPath: the Bernoulli outcomes `keep` are not constrained by `keep_prob` in `DropPath` itself. For `drop_prob == 1` it also accepts outcomes that keep a sample, which `bernoulli_(0.0)` never produces. `StochasticDepth.DropPathPerSample` assumes only outcomes `bernoulli_` can produce (`PossibleOutcomes`).
