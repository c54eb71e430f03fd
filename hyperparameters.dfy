/**
 * The `store_neosr_defaults` class decorator (neosr/archs/arch_util.py).
 *
 * Decorating a network class reads the declared defaults of its `__init__`
 * once; every later instantiation then checks the caller's keyword arguments
 * against a fixed set of "extra" hyperparameters, drops the ones that agree,
 * records `{**extra, **defaults, **kwargs}` on the instance as
 * `hyperparameters` and calls the original `__init__` with what is left.
 *
 * Hyperparameter values are of an arbitrary type `V` compared with its own
 * equality.  The fixed extra parameters are a Python mapping; they are given
 * here as a sequence of pairs in the mapping's iteration order.
 */
module Hyperparameters {
  import opened Wrappers

  /** The parts of `inspect.FullArgSpec` that the decorator reads. */
  datatype ArgSpec<V> = ArgSpec(
    args: seq<string>,                          // positional parameter names
    defaults: Option<seq<V>>,                   // defaults of the LAST positional parameters
    kwonlydefaults: Option<map<string, V>>)     // defaults of keyword-only parameters

  /** What Python guarantees of a function's argument spec: distinct names and
      no more positional defaults than positional parameters. */
  predicate WellFormedSpec<V>(spec: ArgSpec<V>) {
    && (forall i, j :: 0 <= i < j < |spec.args| ==> spec.args[i] != spec.args[j])
    && (spec.defaults.Some? ==> |spec.defaults.value| <= |spec.args|)
  }

  /** The `ValueError` raised when a caller contradicts a fixed hyperparameter. */
  datatype Conflict<V> = Conflict(key: string, expected: V, got: V)

  /** The keys of a sequence of pairs. */
  function KeysOf<V>(pairs: seq<(string, V)>): set<string> {
    set i | 0 <= i < |pairs| :: pairs[i].0
  }

  /** A sequence of pairs whose keys are pairwise different, as a Python dict's items are. */
  predicate DistinctKeys<V>(pairs: seq<(string, V)>) {
    forall i, j :: 0 <= i < j < |pairs| ==> pairs[i].0 != pairs[j].0
  }

  /** Python's `s[-n:]` for `n >= 0`; note that `s[-0:]` is the whole of `s`. */
  function LastN<T>(s: seq<T>, n: nat): (r: seq<T>)
    ensures |r| <= |s| && (n <= |s| && n != 0 ==> |r| == n)
    ensures r == s[|s| - |r|..]
    ensures n == 0 || n >= |s| ==> r == s
  {
    if n == 0 || n >= |s| then s else s[|s| - n..]
  }

  /** Python's `zip(xs, ys, strict=False)`: pairs up to the shorter length. */
  function Zip<A, B>(xs: seq<A>, ys: seq<B>): (r: seq<(A, B)>)
    ensures |r| == if |xs| <= |ys| then |xs| else |ys|
    ensures forall i :: 0 <= i < |r| ==> r[i] == (xs[i], ys[i])
  {
    if xs == [] || ys == [] then [] else [(xs[0], ys[0])] + Zip(xs[1..], ys[1..])
  }

  /** Python's `dict(pairs)`: a later pair overrides an earlier one with the same key. */
  function DictOf<V>(pairs: seq<(string, V)>): (m: map<string, V>)
    ensures m.Keys == KeysOf(pairs)
  {
    if pairs == [] then map[]
    else
      var last := pairs[|pairs| - 1];
      var m := DictOf(pairs[..|pairs| - 1])[last.0 := last.1];
      assert pairs == pairs[..|pairs| - 1] + [last];
      m
  }

  /** With distinct keys, `dict(pairs)` maps each key to the value it is paired with. */
  lemma {:induction false} DictOfAt<V>(pairs: seq<(string, V)>, i: nat)
    requires DistinctKeys(pairs) && i < |pairs|
    ensures pairs[i].0 in DictOf(pairs) && DictOf(pairs)[pairs[i].0] == pairs[i].1
  {
    var n := |pairs| - 1;
    if i < n {
      DictOfAt(pairs[..n], i);
    }
  }

  /** `zip(spec.args[-len(spec.defaults):], spec.defaults, strict=False)`. */
  function PositionalDefaults<V>(spec: ArgSpec<V>): seq<(string, V)>
    requires spec.defaults.Some?
  {
    Zip(LastN(spec.args, |spec.defaults.value|), spec.defaults.value)
  }

  /** `get_arg_defaults`: the keyword-only defaults, overridden by the last
      `len(defaults)` positional names paired with `defaults`. */
  function GetArgDefaults<V>(spec: ArgSpec<V>): map<string, V> {
    var kwonly := if spec.kwonlydefaults.Some? then spec.kwonlydefaults.value else map[];
    if spec.defaults.Some? then kwonly + DictOf(PositionalDefaults(spec)) else kwonly
  }

  /** The names of the positional parameters that have a default. */
  function DefaultedNames<V>(spec: ArgSpec<V>): set<string> {
    if spec.defaults.Some? then KeysOf(PositionalDefaults(spec)) else {}
  }

  /** In a well-formed spec the i-th positional default belongs to the i-th of
      the last `len(defaults)` parameter names. */
  lemma PositionalDefaultsAt<V>(spec: ArgSpec<V>)
    requires WellFormedSpec(spec) && spec.defaults.Some?
    ensures var z := PositionalDefaults(spec);
      var off := |spec.args| - |spec.defaults.value|;
      && |z| == |spec.defaults.value|
      && DistinctKeys(z)
      && (forall i :: 0 <= i < |z| ==> z[i] == (spec.args[off + i], spec.defaults.value[i]))
  {
    var defs := spec.defaults.value;
    var z := PositionalDefaults(spec);
    var off := |spec.args| - |defs|;
    var names := LastN(spec.args, |defs|);
    forall i | 0 <= i < |z| ensures z[i] == (spec.args[off + i], defs[i]) {
      assert |names| == |defs|;
      assert names[i] == spec.args[off + i];
    }
  }

  /** The declared defaults hold exactly the defaulted positional names and the
      keyword-only names; with no defaults of either kind they are empty. */
  lemma GetArgDefaultsKeys<V>(spec: ArgSpec<V>)
    ensures GetArgDefaults(spec).Keys ==
      DefaultedNames(spec) + (if spec.kwonlydefaults.Some? then spec.kwonlydefaults.value.Keys else {})
    ensures spec.defaults.None? && spec.kwonlydefaults.None? ==> GetArgDefaults(spec) == map[]
  {
  }

  /** The names of the last `len(defaults)` positional parameters. */
  function LastArgNames<V>(spec: ArgSpec<V>): set<string>
    requires spec.defaults.Some?
  {
    set i | 0 <= i < |spec.args| && |spec.args| - |spec.defaults.value| <= i :: spec.args[i]
  }

  /** The defaulted positional names are the last `len(defaults)` parameter names. */
  lemma DefaultedNamesAreLastArgs<V>(spec: ArgSpec<V>)
    requires WellFormedSpec(spec) && spec.defaults.Some?
    ensures DefaultedNames(spec) == LastArgNames(spec)
  {
    DefaultedNamesWithinLastArgs(spec);
    LastArgsWithinDefaultedNames(spec);
  }

  lemma DefaultedNamesWithinLastArgs<V>(spec: ArgSpec<V>)
    requires WellFormedSpec(spec) && spec.defaults.Some?
    ensures DefaultedNames(spec) <= LastArgNames(spec)
  {
    var z := PositionalDefaults(spec);
    var off := |spec.args| - |spec.defaults.value|;
    forall k | k in KeysOf(z) ensures k in LastArgNames(spec) {
      var j :| 0 <= j < |z| && z[j].0 == k;
      PositionalDefaultAt(spec, j);
      assert spec.args[off + j] == k;
    }
  }

  lemma LastArgsWithinDefaultedNames<V>(spec: ArgSpec<V>)
    requires WellFormedSpec(spec) && spec.defaults.Some?
    ensures LastArgNames(spec) <= DefaultedNames(spec)
  {
    var z := PositionalDefaults(spec);
    var off := |spec.args| - |spec.defaults.value|;
    forall k | k in LastArgNames(spec) ensures k in KeysOf(z) {
      var i :| 0 <= i < |spec.args| && off <= i && spec.args[i] == k;
      PositionalDefaultAt(spec, i - off);
      KeyOfPair(z, i - off);
    }
  }

  lemma KeyOfPair<V>(pairs: seq<(string, V)>, j: int)
    requires 0 <= j < |pairs|
    ensures pairs[j].0 in KeysOf(pairs)
  {
  }

  /** One pair of `zip(args[-len(defaults):], defaults)`. */
  lemma PositionalDefaultAt<V>(spec: ArgSpec<V>, i: nat)
    requires WellFormedSpec(spec) && spec.defaults.Some? && i < |spec.defaults.value|
    ensures |PositionalDefaults(spec)| == |spec.defaults.value|
    ensures PositionalDefaults(spec)[i] == (spec.args[|spec.args| - |spec.defaults.value| + i], spec.defaults.value[i])
  {
    var names := LastN(spec.args, |spec.defaults.value|);
    assert |names| == |spec.defaults.value|;
  }

  /** The i-th positional default is recorded under the i-th of the last
      `len(defaults)` parameter names. */
  lemma GetArgDefaultsPositional<V>(spec: ArgSpec<V>, i: nat)
    requires WellFormedSpec(spec) && spec.defaults.Some? && i < |spec.defaults.value|
    ensures var name := spec.args[|spec.args| - |spec.defaults.value| + i];
      name in GetArgDefaults(spec) && GetArgDefaults(spec)[name] == spec.defaults.value[i]
  {
    var z := PositionalDefaults(spec);
    PositionalDefaultsAt(spec);
    DictOfAt(z, i);
  }

  /** A keyword-only default survives unless a positional default has the same name. */
  lemma GetArgDefaultsKeywordOnly<V>(spec: ArgSpec<V>, k: string)
    requires spec.kwonlydefaults.Some? && k in spec.kwonlydefaults.value && k !in DefaultedNames(spec)
    ensures k in GetArgDefaults(spec) && GetArgDefaults(spec)[k] == spec.kwonlydefaults.value[k]
  {
  }

  /** The loop of `new_init`: walks the extra parameters in order, raises on
      the first one the caller contradicts and deletes the ones the caller
      repeated.  Returns the keyword arguments forwarded to the original
      `__init__`. */
  function StripExtra<V(==)>(extra: seq<(string, V)>, kwargs: map<string, V>): (r: Result<map<string, V>, Conflict<V>>)
    ensures r.Ok? ==> r.value == kwargs - KeysOf(extra)
    ensures r.Err? ==>
      && r.error.key in KeysOf(extra) && r.error.key in kwargs
      && r.error.got == kwargs[r.error.key] && r.error.got != r.error.expected
  {
    if extra == [] then Ok(kwargs)
    else
      var (k, v) := extra[0];
      if k in kwargs && kwargs[k] != v then Err(Conflict(k, v, kwargs[k]))
      else
        var rest := StripExtra(extra[1..], kwargs - {k});
        assert KeysOf(extra) == {k} + KeysOf(extra[1..]) by {
          assert extra == [extra[0]] + extra[1..];
        }
        rest
  }

  /** No fixed parameter is contradicted by the caller. */
  predicate Agrees<V(==)>(extra: seq<(string, V)>, kwargs: map<string, V>) {
    forall i :: 0 <= i < |extra| && extra[i].0 in kwargs ==> kwargs[extra[i].0] == extra[i].1
  }

  /** Position `i` of the fixed parameters is contradicted by the caller. */
  predicate ConflictsAt<V(==)>(extra: seq<(string, V)>, kwargs: map<string, V>, i: int)
    requires 0 <= i < |extra|
  {
    extra[i].0 in kwargs && kwargs[extra[i].0] != extra[i].1
  }

  /** Instantiation succeeds exactly when the caller contradicts no fixed
      parameter; it then forwards the caller's keyword arguments minus every
      fixed key. */
  lemma {:induction false} StripExtraSucceedsIffAgrees<V>(extra: seq<(string, V)>, kwargs: map<string, V>)
    requires DistinctKeys(extra)
    ensures StripExtra(extra, kwargs).Ok? <==> Agrees(extra, kwargs)
    ensures StripExtra(extra, kwargs).Ok? ==> StripExtra(extra, kwargs).value.Keys !! KeysOf(extra)
  {
    if extra != [] {
      var (k, v) := extra[0];
      var kw' := kwargs - {k};
      StripExtraSucceedsIffAgrees(extra[1..], kw');
      if !(k in kwargs && kwargs[k] != v) {
        if Agrees(extra[1..], kw') {
          forall i | 0 <= i < |extra| && extra[i].0 in kwargs
            ensures kwargs[extra[i].0] == extra[i].1
          {
            if i > 0 {
              assert extra[1..][i - 1] == extra[i];
            }
          }
        }
        if Agrees(extra, kwargs) {
          forall i | 0 <= i < |extra[1..]| && extra[1..][i].0 in kw'
            ensures kw'[extra[1..][i].0] == extra[1..][i].1
          {
            assert extra[1..][i] == extra[i + 1];
          }
        }
      } else {
        assert ConflictsAt(extra, kwargs, 0);
      }
    }
  }

  /** When position `i` holds the first fixed parameter the caller contradicts,
      the error names that parameter, its fixed value and the caller's value. */
  lemma {:induction false} StripExtraReportsFirstConflict<V>(extra: seq<(string, V)>, kwargs: map<string, V>, i: int)
    requires DistinctKeys(extra) && 0 <= i < |extra|
    requires ConflictsAt(extra, kwargs, i)
    requires forall j :: 0 <= j < i ==> !ConflictsAt(extra, kwargs, j)
    ensures StripExtra(extra, kwargs) == Err(Conflict(extra[i].0, extra[i].1, kwargs[extra[i].0]))
  {
    if i > 0 {
      var (k, v) := extra[0];
      assert !ConflictsAt(extra, kwargs, 0);
      var kw' := kwargs - {k};
      forall j | 0 <= j < i - 1 ensures !ConflictsAt(extra[1..], kw', j) {
        assert extra[1..][j] == extra[j + 1];
        assert !ConflictsAt(extra, kwargs, j + 1);
      }
      assert extra[1..][i - 1] == extra[i];
      assert extra[i].0 != k;
      StripExtraReportsFirstConflict(extra[1..], kw', i - 1);
    }
  }

  /** The record stored on the instance: `{**extra, **defaults, **kwargs}`. */
  function Record<V>(extra: seq<(string, V)>, defaults: map<string, V>, kwargs: map<string, V>): map<string, V> {
    DictOf(extra) + defaults + kwargs
  }

  /** The record holds exactly the keys of the three sources, and each value
      comes from the last source holding its key, in the order extra, declared
      defaults, caller kwargs.  So a declared default overrides a fixed value
      of the same name, and a caller kwarg overrides a declared default. */
  lemma RecordPrecedence<V>(extra: seq<(string, V)>, defaults: map<string, V>, kwargs: map<string, V>)
    requires DistinctKeys(extra)
    ensures var h := Record(extra, defaults, kwargs);
      && h.Keys == KeysOf(extra) + defaults.Keys + kwargs.Keys
      && (forall k :: k in kwargs ==> h[k] == kwargs[k])
      && (forall k :: k in defaults && k !in kwargs ==> h[k] == defaults[k])
      && (forall i :: 0 <= i < |extra| && extra[i].0 !in defaults && extra[i].0 !in kwargs ==>
            h[extra[i].0] == extra[i].1)
  {
    forall i | 0 <= i < |extra| ensures DictOf(extra)[extra[i].0] == extra[i].1 {
      DictOfAt(extra, i);
    }
  }

  /** `store_neosr_defaults()` with its default `extra_parameters={}`: every
      instantiation succeeds, forwards the caller's kwargs unchanged and records
      the declared defaults overridden by the caller's kwargs. */
  lemma NoExtraParameters<V>(defaults: map<string, V>, kwargs: map<string, V>)
    ensures StripExtra([], kwargs) == Ok(kwargs)
    ensures Record([], defaults, kwargs) == defaults + kwargs
  {
    assert DictOf<V>([]) == map[];
    assert map[] + defaults == defaults;
  }

  /** A class decorated with `store_neosr_defaults`: the fixed extra parameters
      and the constructor's declared defaults, both read once by `inner`. */
  datatype Decorated<V> = Decorated(extra: seq<(string, V)>, defaults: map<string, V>)

  /** `inner(cls)`: introspect the original `__init__` once, at decoration time. */
  function Decorate<V>(extra: seq<(string, V)>, spec: ArgSpec<V>): Decorated<V> {
    Decorated(extra, GetArgDefaults(spec))
  }

  /** An instance of a decorated network class.  The original `__init__` is not
      part of this model; `initKwargs` records the keyword arguments it was
      called with. */
  class Network<V(==)> {
    var hyperparameters: map<string, V>
    var initKwargs: Option<map<string, V>>

    constructor ()
      ensures hyperparameters == map[] && initKwargs == None
    {
      hyperparameters := map[];
      initKwargs := None;
    }

    /** `new_init(self, **kwargs)` of the decorated class `cls`. */
    method NewInit(cls: Decorated<V>, kwargs: map<string, V>) returns (r: Result<(), Conflict<V>>)
      modifies this
      ensures r.Ok? <==> StripExtra(cls.extra, kwargs).Ok?
      ensures r.Err? ==>
        && r.error == StripExtra(cls.extra, kwargs).error
        && hyperparameters == old(hyperparameters) && initKwargs == old(initKwargs)
      ensures r.Ok? ==>
        var forwarded := StripExtra(cls.extra, kwargs).value;
        && hyperparameters == Record(cls.extra, cls.defaults, forwarded)
        && initKwargs == Some(forwarded)
    {
      var kw := kwargs;
      var i := 0;
      while i < |cls.extra|
        invariant 0 <= i <= |cls.extra|
        invariant StripExtra(cls.extra[i..], kw) == StripExtra(cls.extra, kwargs)
      {
        var (k, v) := cls.extra[i];
        assert cls.extra[i..][0] == (k, v) && cls.extra[i..][1..] == cls.extra[i + 1..];
        if k !in kw {
          assert kw - {k} == kw;
        } else {
          if kw[k] != v {
            return Err(Conflict(k, v, kw[k]));
          }
          kw := kw - {k};
        }
        i := i + 1;
      }
      hyperparameters := Record(cls.extra, cls.defaults, kw);
      initKwargs := Some(kw);
      return Ok(());
    }
  }

  /** What an instantiation promises, from the caller's side: it fails exactly
      when the caller contradicts a fixed parameter; otherwise no fixed key
      reaches the original `__init__`, every declared default and every caller
      value shows in the record, and the record agrees with the arguments the
      original `__init__` actually sees. */
  lemma InstantiationContract<V>(extra: seq<(string, V)>, spec: ArgSpec<V>, kwargs: map<string, V>)
    requires DistinctKeys(extra)
    ensures var cls := Decorate(extra, spec);
      var r := StripExtra(extra, kwargs);
      && (r.Ok? <==> Agrees(extra, kwargs))
      && (r.Ok? ==>
            var h := Record(extra, cls.defaults, r.value);
            && r.value.Keys !! KeysOf(extra)
            && h.Keys == KeysOf(extra) + cls.defaults.Keys + r.value.Keys
            && (forall k :: k in kwargs && k !in KeysOf(extra) ==> h[k] == kwargs[k])
            && (forall k :: k in cls.defaults && k !in r.value ==> h[k] == cls.defaults[k]))
  {
    StripExtraSucceedsIffAgrees(extra, kwargs);
    var r := StripExtra(extra, kwargs);
    if r.Ok? {
      RecordPrecedence(extra, Decorate(extra, spec).defaults, r.value);
    }
  }

  /** The worked example: declared defaults `{x: 1, y: 2}` and fixed `{z: 5}`.
      Passing `y = 9` records `{z: 5, x: 1, y: 9}`; passing `z = 5` is accepted
      and dropped; passing `z = 6` raises. */
  lemma WorkedExample()
    ensures var extra := [("z", 5)];
      var defaults := GetArgDefaults(ArgSpec(["x", "y"], Some([1, 2]), None));
      && defaults == map["x" := 1, "y" := 2]
      && StripExtra(extra, map["y" := 9]) == Ok(map["y" := 9])
      && Record(extra, defaults, map["y" := 9]) == map["z" := 5, "x" := 1, "y" := 9]
      && StripExtra(extra, map["z" := 5]) == Ok(map[])
      && StripExtra(extra, map["z" := 6]) == Err(Conflict("z", 5, 6))
  {
    assert map["y" := 9] - {"z"} == map["y" := 9];
    assert map["z" := 5] - {"z"} == map[];
    var z: seq<(string, int)> := Zip(LastN(["x", "y"], 2), [1, 2]);
    assert z == [("x", 1), ("y", 2)];
    assert DictOf(z) == map["x" := 1, "y" := 2] by {
      assert z[..1] == [("x", 1)];
      assert z[..1][..0] == z[..0];
    }
    assert DictOf<int>([("z", 5)]) == map["z" := 5] by {
      var e: seq<(string, int)> := [("z", 5)];
      assert e[..0] == [];
    }
  }
}
