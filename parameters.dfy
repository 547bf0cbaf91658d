/** Run parameters: the default table, lower-casing of user keys, merging user values
    over the defaults with type checking, the final adjustments of `finalize_params`,
    and the run-mode adjustments made right after loading (gypsum/Start.py). */
module Parameters {
  import opened Wrappers
  import opened PyValues
  import opened Text

  /** The exceptions parameter handling raises. */
  datatype ConfigError =
    | UnknownParameter(key: string)       // KeyError: unrecognized parameter
    | TypeMismatch(key: string)           // TypeError: different type than the default
    | UnsupportedDefaultType              // make_type_dict: no allowed type fits a value
    | MissingSource                       // NotImplementedError: "source" is empty
    | PdbNeedsOutputFolder                // output_pdb without an output folder
    | SeparateFilesNeedOutputFolder       // separate_output_files without an output folder
    | MissingOutput                       // neither output_file nor output_folder
    | MpiUnavailable                      // ImportError: mpi4py missing in mpi mode

  /** The parameters `set_parameters` recognizes, one per key of its default table. */
  datatype Param =
    | Source | OutputFolder | OutputFile | SeparateOutputFiles | OutputPdb | NumProcessors
    | StartTime | EndTime | RunTime | MinPh | MaxPh | PhStdDev | Thoroughness
    | MaxVariantsPerCompound | SecondEmbed | TwoDOutputOnly | SkipOptimizeGeometry
    | SkipAlternateRingConformations | SkipAddingHydrogen | SkipMakingTautomers
    | SkipEnnumerateChiralMol | SkipEnnumerateDoubleBonds | MultithreadMode | CachePrerun | Test

  const AllParams: seq<Param> := [
    Source, OutputFolder, OutputFile, SeparateOutputFiles, OutputPdb, NumProcessors,
    StartTime, EndTime, RunTime, MinPh, MaxPh, PhStdDev, Thoroughness,
    MaxVariantsPerCompound, SecondEmbed, TwoDOutputOnly, SkipOptimizeGeometry,
    SkipAlternateRingConformations, SkipAddingHydrogen, SkipMakingTautomers,
    SkipEnnumerateChiralMol, SkipEnnumerateDoubleBonds, MultithreadMode, CachePrerun, Test]

  /** The dictionary key of a parameter. */
  function Name(p: Param): string
  {
    match p
    case Source => "source"
    case OutputFolder => "output_folder"
    case OutputFile => "output_file"
    case SeparateOutputFiles => "separate_output_files"
    case OutputPdb => "output_pdb"
    case NumProcessors => "num_processors"
    case StartTime => "start_time"
    case EndTime => "end_time"
    case RunTime => "run_time"
    case MinPh => "min_ph"
    case MaxPh => "max_ph"
    case PhStdDev => "ph_std_dev"
    case Thoroughness => "thoroughness"
    case MaxVariantsPerCompound => "max_variants_per_compound"
    case SecondEmbed => "second_embed"
    case TwoDOutputOnly => "2d_output_only"
    case SkipOptimizeGeometry => "skip_optimize_geometry"
    case SkipAlternateRingConformations => "skip_alternate_ring_conformations"
    case SkipAddingHydrogen => "skip_adding_hydrogen"
    case SkipMakingTautomers => "skip_making_tautomers"
    case SkipEnnumerateChiralMol => "skip_ennumerate_chiral_mol"
    case SkipEnnumerateDoubleBonds => "skip_ennumerate_double_bonds"
    case MultithreadMode => "multithread_mode"
    case CachePrerun => "cache_prerun"
    case Test => "test"
  }

  /** The default value of a parameter. */
  function Default(p: Param): Value
  {
    match p
    case Source => Str("")
    case OutputFolder => Str("")
    case OutputFile => Str("")
    case SeparateOutputFiles => Bool(false)
    case OutputPdb => Bool(false)
    case NumProcessors => Int(-1)
    case StartTime => Int(0)
    case EndTime => Int(0)
    case RunTime => Int(0)
    case MinPh => Float(6.4)
    case MaxPh => Float(8.4)
    case PhStdDev => Float(1.0)
    case Thoroughness => Int(3)
    case MaxVariantsPerCompound => Int(5)
    case SecondEmbed => Bool(false)
    case TwoDOutputOnly => Bool(false)
    case SkipOptimizeGeometry => Bool(false)
    case SkipAlternateRingConformations => Bool(false)
    case SkipAddingHydrogen => Bool(false)
    case SkipMakingTautomers => Bool(false)
    case SkipEnnumerateChiralMol => Bool(false)
    case SkipEnnumerateDoubleBonds => Bool(false)
    case MultithreadMode => Str("multithreading")
    case CachePrerun => Bool(false)
    case Test => Bool(false)
  }

  /** The default table as a dictionary. */
  const DefaultValues: map<Param, Value> := map p: Param | true :: Default(p)

  /** The type `make_type_dict` records for a parameter's default. */
  function DefaultType(p: Param): PyType
  {
    RecordedType(Default(p)).value
  }

  lemma Listed(p: Param)
    ensures p in AllParams
  {
  }

  lemma NameInjectiveAmong0(p: Param, q: Param)
    requires (p == Source || p == OutputFolder || p == OutputFile || p == SeparateOutputFiles || p == OutputPdb) && Name(p) == Name(q)
    ensures p == q
  {
  }

  lemma NameInjectiveAmong1(p: Param, q: Param)
    requires (p == NumProcessors || p == StartTime || p == EndTime || p == RunTime || p == MinPh) && Name(p) == Name(q)
    ensures p == q
  {
  }

  lemma NameInjectiveAmong2(p: Param, q: Param)
    requires (p == MaxPh || p == PhStdDev || p == Thoroughness || p == MaxVariantsPerCompound || p == SecondEmbed) && Name(p) == Name(q)
    ensures p == q
  {
  }

  lemma NameInjectiveAmong3(p: Param, q: Param)
    requires (p == TwoDOutputOnly || p == SkipOptimizeGeometry || p == SkipAlternateRingConformations || p == SkipAddingHydrogen || p == SkipMakingTautomers) && Name(p) == Name(q)
    ensures p == q
  {
  }

  lemma NameInjectiveAmong4(p: Param, q: Param)
    requires (p == SkipEnnumerateChiralMol || p == SkipEnnumerateDoubleBonds || p == MultithreadMode || p == CachePrerun || p == Test) && Name(p) == Name(q)
    ensures p == q
  {
  }

  /** No two parameters share a key. */
  lemma NameInjective(p: Param, q: Param)
    requires Name(p) == Name(q)
    ensures p == q
  {
    if p == Source || p == OutputFolder || p == OutputFile || p == SeparateOutputFiles || p == OutputPdb {
      NameInjectiveAmong0(p, q);
    } else if p == NumProcessors || p == StartTime || p == EndTime || p == RunTime || p == MinPh {
      NameInjectiveAmong1(p, q);
    } else if p == MaxPh || p == PhStdDev || p == Thoroughness || p == MaxVariantsPerCompound || p == SecondEmbed {
      NameInjectiveAmong2(p, q);
    } else if p == TwoDOutputOnly || p == SkipOptimizeGeometry || p == SkipAlternateRingConformations || p == SkipAddingHydrogen || p == SkipMakingTautomers {
      NameInjectiveAmong3(p, q);
    } else {
      NameInjectiveAmong4(p, q);
    }
  }

  /** The parameter a key names, if it names one. */
  ghost function ParamNamed(s: string): (r: Option<Param>)
    ensures r.Some? ==> Name(r.value) == s
    ensures r.None? ==> forall q :: Name(q) != s
  {
    if exists q :: Name(q) == s then Some(var q :| Name(q) == s; q) else None
  }

  /** `key in default`: look the key up among the parameters. */
  method LookupParam(key: string) returns (r: Option<Param>)
    ensures r == ParamNamed(key)
  {
    var i := 0;
    while i < |AllParams|
      invariant 0 <= i <= |AllParams|
      invariant forall j :: 0 <= j < i ==> Name(AllParams[j]) != key
    {
      if Name(AllParams[i]) == key {
        ParamNamedName(AllParams[i]);
        return Some(AllParams[i]);
      }
      i := i + 1;
    }
    forall q ensures Name(q) != key {
      Listed(q);
    }
    return None;
  }

  /** Looking up a parameter's own key finds that parameter. */
  lemma ParamNamedName(p: Param)
    ensures ParamNamed(Name(p)) == Some(p)
  {
    var r := ParamNamed(Name(p));
    NameInjective(r.value, p);
  }

  /** A parameter dictionary with every recognized key, each value of its default's type. */
  predicate WellTyped(p: map<Param, Value>)
  {
    forall k: Param :: k in p && IsInstance(p[k], DefaultType(k))
  }

  // ---------------------------------------------------------------------------
  // Lower-casing the user's keys

  /** The keys of a Python dictionary built by assigning the keys `ks` in turn: each
      key once, in order of first assignment. */
  function InsertionOrder(ks: seq<string>): (r: seq<string>)
  {
    if ks == [] then []
    else
      var u := InsertionOrder(ks[..|ks| - 1]);
      if ks[|ks| - 1] in u then u else u + [ks[|ks| - 1]]
  }

  /** The insertion order lists every assigned key exactly once. */
  lemma {:induction false} InsertionOrderDistinct(ks: seq<string>)
    ensures forall k :: k in InsertionOrder(ks) <==> k in ks
    ensures forall a, b :: 0 <= a < b < |InsertionOrder(ks)| ==> InsertionOrder(ks)[a] != InsertionOrder(ks)[b]
  {
    if ks != [] {
      var init := ks[..|ks| - 1];
      InsertionOrderDistinct(init);
      assert ks == init + [ks[|ks| - 1]];
    }
  }

  /** A key assigned before another key's first assignment comes before it. */
  lemma {:induction false} InsertionOrderFollowsFirstAssignment(ks: seq<string>, i: nat, j: nat)
    requires i < j < |ks| && ks[j] !in ks[..j]
    ensures ks[i] in InsertionOrder(ks[..j])
    ensures ks[j] !in InsertionOrder(ks[..j])
  {
    InsertionOrderDistinct(ks[..j]);
    assert ks[i] == ks[..j][i];
  }

  /** The dictionary built by assigning `user[i].1` to `user[i].0.lower()` in turn. */
  function Assigned(user: seq<(string, Value)>): (d: map<string, Value>)
  {
    if user == [] then map[]
    else Assigned(user[..|user| - 1])[Lower(user[|user| - 1].0) := user[|user| - 1].1]
  }

  /** Entry `i` of `user` is the last one whose key lower-cases to its key. */
  predicate LastOfKey(user: seq<(string, Value)>, i: int)
    requires 0 <= i < |user|
  {
    forall j :: i < j < |user| ==> Lower(user[j].0) != Lower(user[i].0)
  }

  /** Every lower-cased key is in the dictionary, and it holds the value of the last
      entry with that key: a later entry overrides an earlier one. */
  lemma {:induction false} AssignedHoldsLastValue(user: seq<(string, Value)>, i: nat)
    requires i < |user| && LastOfKey(user, i)
    ensures Lower(user[i].0) in Assigned(user)
    ensures Assigned(user)[Lower(user[i].0)] == user[i].1
  {
    var n := |user| - 1;
    if i < n {
      assert user[..n][i] == user[i];
      AssignedHoldsLastValue(user[..n], i);
    }
  }

  /** The user's keys, lower-cased. */
  function LoweredKeys(user: seq<(string, Value)>): (lk: seq<string>)
    ensures |lk| == |user|
    ensures forall i :: 0 <= i < |user| ==> lk[i] == Lower(user[i].0)
  {
    seq(|user|, i requires 0 <= i < |user| => Lower(user[i].0))
  }

  /** The dictionary's keys are exactly the lower-cased user keys. */
  lemma {:induction false} AssignedKeys(user: seq<(string, Value)>)
    ensures forall k :: k in Assigned(user) <==> k in LoweredKeys(user)
  {
    if user != [] {
      var n := |user| - 1;
      AssignedKeys(user[..n]);
      assert LoweredKeys(user) == LoweredKeys(user[..n]) + [Lower(user[n].0)];
    }
  }

  /** The loop of `set_parameters` that stores every user entry under its lower-cased
      key: the keys come in order of first occurrence, and a later entry whose key
      lower-cases to the same string overrides the earlier value. */
  method LowerKeys(user: seq<(string, Value)>) returns (keys: seq<string>, vals: map<string, Value>)
    ensures keys == InsertionOrder(LoweredKeys(user))
    ensures vals == Assigned(user)
  {
    ghost var lk := LoweredKeys(user);
    keys, vals := [], map[];
    var i := 0;
    while i < |user|
      invariant 0 <= i <= |user|
      invariant keys == InsertionOrder(lk[..i])
      invariant vals == Assigned(user[..i])
    {
      var key := Lower(user[i].0);
      InsertionOrderDistinct(lk[..i]);
      AssignedKeys(user[..i]);
      assert LoweredKeys(user[..i]) == lk[..i];
      if key !in vals {
        keys := keys + [key];
      }
      vals := vals[key := user[i].1];
      assert lk[..i + 1] == lk[..i] + [key];
      assert user[..i + 1][..i] == user[..i];
      i := i + 1;
    }
    assert lk[..|user|] == lk;
    assert user[..|user|] == user;
  }

  // ---------------------------------------------------------------------------
  // make_type_dict

  /** The type dictionary of `d`, when every value has an allowed type. */
  function TypeDict<K>(d: map<K, Value>): (r: Option<map<K, PyType>>)
    ensures r.Some? <==> forall k :: k in d ==> RecordedType(d[k]).Some?
    ensures r.Some? ==> r.value.Keys == d.Keys
  {
    if forall k :: k in d ==> RecordedType(d[k]).Some? then
      Some(map k | k in d :: RecordedType(d[k]).value)
    else
      None
  }

  /** `make_type_dict`: for every key, try the allowed types in order and keep the last
      one the value is an instance of; a value with none of them is an error. */
  method MakeTypeDict<K>(d: map<K, Value>) returns (r: Result<map<K, PyType>, ConfigError>)
    ensures r.Success? <==> forall k :: k in d ==> RecordedType(d[k]).Some?
    ensures r.Success? ==> Some(r.value) == TypeDict(d)
    ensures r.Failure? ==> r.error == UnsupportedDefaultType
  {
    var td: map<K, PyType> := map[];
    var todo := d.Keys;
    while todo != {}
      invariant todo <= d.Keys
      invariant td.Keys == d.Keys - todo
      invariant forall k :: k in td ==> Some(td[k]) == RecordedType(d[k])
      decreases todo
    {
      var key :| key in todo;
      var val := d[key];
      var found: Option<PyType> := None;
      ghost var at := 0;
      var j := 0;
      while j < |AllowedTypes|
        invariant 0 <= j <= |AllowedTypes|
        invariant found.None? <==> forall l :: 0 <= l < j ==> !IsInstance(val, AllowedTypes[l])
        invariant found.Some? ==> at < j && found.value == AllowedTypes[at] && IsInstance(val, found.value)
        invariant found.Some? ==> forall l :: at < l < j ==> !IsInstance(val, AllowedTypes[l])
      {
        if IsInstance(val, AllowedTypes[j]) {
          found := Some(AllowedTypes[j]);
          at := j;
        }
        j := j + 1;
      }
      if found.None? {
        return Failure(UnsupportedDefaultType);
      }
      RecordedTypeIsLastMatch(val, at);
      td := td[key := found.value];
      todo := todo - {key};
    }
    assert td == TypeDict(d).value;
    return Success(td);
  }

  // ---------------------------------------------------------------------------
  // merge_parameters

  /** A user value is accepted for a default of type `t`: an instance of `t`, or an
      `int` (not a `bool`) where `t` is `float`. */
  predicate Compatible(v: Value, t: PyType)
  {
    IsInstance(v, t) || (v.Int? && t == FloatType)
  }

  /** The value stored for an accepted user value: an `int` given for a `float`
      default is widened to a float. */
  function Widen(v: Value, t: PyType): (r: Value)
    requires Compatible(v, t)
    ensures IsInstance(r, t)
    ensures v.Int? && t == FloatType ==> r == Float(v.i as real)
    ensures !(v.Int? && t == FloatType) ==> r == v
  {
    if IsInstance(v, t) then v else Float(v.i as real)
  }

  /** User key `k` is accepted: it names a parameter and its value fits that
      parameter's recorded type. */
  ghost predicate Acceptable(types: map<Param, PyType>, uvals: map<string, Value>, k: string)
  {
    && ParamNamed(k).Some? && ParamNamed(k).value in types
    && k in uvals && Compatible(uvals[k], types[ParamNamed(k).value])
  }

  /** Position of the first user key that merging rejects, or `|ks|` if none is. */
  ghost function FirstBad(types: map<Param, PyType>, ks: seq<string>, uvals: map<string, Value>): (n: nat)
    ensures n <= |ks|
    ensures forall i :: 0 <= i < n ==> Acceptable(types, uvals, ks[i])
    ensures n < |ks| ==> !Acceptable(types, uvals, ks[n])
    ensures n == |ks| <==> forall i :: 0 <= i < |ks| ==> Acceptable(types, uvals, ks[i])
  {
    if ks == [] then 0
    else if !Acceptable(types, uvals, ks[0]) then 0
    else 1 + FirstBad(types, ks[1..], uvals)
  }

  /** The first rejected key is the first one after an accepted prefix. */
  lemma {:induction false} FirstBadAt(types: map<Param, PyType>, ks: seq<string>, uvals: map<string, Value>, n: nat)
    requires n <= |ks|
    requires forall i :: 0 <= i < n ==> Acceptable(types, uvals, ks[i])
    requires n < |ks| ==> !Acceptable(types, uvals, ks[n])
    ensures FirstBad(types, ks, uvals) == n
  {
    if n > 0 {
      FirstBadAt(types, ks[1..], uvals, n - 1);
    }
  }

  /** The exception raised for a rejected key: `KeyError` when it names no parameter,
      `TypeError` otherwise. */
  ghost function RejectReason(types: map<Param, PyType>, k: string): ConfigError
  {
    if ParamNamed(k).None? || ParamNamed(k).value !in types then UnknownParameter(k) else TypeMismatch(k)
  }

  /** `d` with the accepted user values of the keys `ks` written over it, one key after
      the other. */
  ghost function Overlay(d: map<Param, Value>, types: map<Param, PyType>, ks: seq<string>, uvals: map<string, Value>): (r: map<Param, Value>)
    requires types.Keys == d.Keys
    requires forall i :: 0 <= i < |ks| ==> Acceptable(types, uvals, ks[i])
    ensures r.Keys == d.Keys
  {
    if ks == [] then d
    else
      var k := ks[|ks| - 1];
      assert Acceptable(types, uvals, k);
      var p := ParamNamed(k).value;
      Overlay(d, types, ks[..|ks| - 1], uvals)[p := Widen(uvals[k], types[p])]
  }

  /** A parameter none of the keys names keeps its value. */
  lemma {:induction false} OverlayKeeps(d: map<Param, Value>, types: map<Param, PyType>, ks: seq<string>, uvals: map<string, Value>, p: Param)
    requires types.Keys == d.Keys
    requires forall i :: 0 <= i < |ks| ==> Acceptable(types, uvals, ks[i])
    requires p in d && Name(p) !in ks
    ensures Overlay(d, types, ks, uvals)[p] == d[p]
  {
    if ks != [] {
      var k := ks[|ks| - 1];
      assert Acceptable(types, uvals, k);
      assert ks[..|ks| - 1] + [k] == ks;
      OverlayKeeps(d, types, ks[..|ks| - 1], uvals, p);
    }
  }

  /** The parameter a key names holds that key's value, widened where needed. */
  lemma {:induction false} OverlayWrites(d: map<Param, Value>, types: map<Param, PyType>, ks: seq<string>, uvals: map<string, Value>, i: nat)
    requires types.Keys == d.Keys
    requires forall j :: 0 <= j < |ks| ==> Acceptable(types, uvals, ks[j])
    requires i < |ks|
    ensures Acceptable(types, uvals, ks[i])
    ensures Overlay(d, types, ks, uvals)[ParamNamed(ks[i]).value] == Widen(uvals[ks[i]], types[ParamNamed(ks[i]).value])
  {
    var n := |ks| - 1;
    var k := ks[n];
    assert Acceptable(types, uvals, k);
    if i < n && ParamNamed(ks[i]) != ParamNamed(k) {
      assert ks[..n][i] == ks[i];
      OverlayWrites(d, types, ks[..n], uvals, i);
    } else if i < n {
      assert ks[i] == k by {
        assert Name(ParamNamed(ks[i]).value) == ks[i];
      }
    }
  }

  /** Merging keeps values well typed: a default replaced by an accepted user value of
      the type recorded for the default still conforms. */
  lemma {:induction false} OverlayKeepsWellTyped(d: map<Param, Value>, ks: seq<string>, uvals: map<string, Value>)
    requires WellTyped(d) && TypeDict(d).Some?
    requires forall i :: 0 <= i < |ks| ==> Acceptable(TypeDict(d).value, uvals, ks[i])
    ensures WellTyped(Overlay(d, TypeDict(d).value, ks, uvals))
  {
    if ks != [] {
      var types := TypeDict(d).value;
      var n := |ks| - 1;
      var k := ks[n];
      assert Acceptable(types, uvals, k);
      OverlayKeepsWellTyped(d, ks[..n], uvals);
      var p := ParamNamed(k).value;
      InstanceOfRecordedType(Widen(uvals[k], types[p]), d[p], DefaultType(p));
    }
  }

  /** The dictionary `merge_parameters` leaves in place and the exception it raises,
      if any: the user keys up to the first rejected one are written over `d`. */
  ghost function Merged(d: map<Param, Value>, ukeys: seq<string>, uvals: map<string, Value>): (r: (map<Param, Value>, Option<ConfigError>))
    ensures r.0.Keys == d.Keys
    ensures TypeDict(d).None? ==> r == (d, Some(UnsupportedDefaultType))
    ensures r.1.None? ==> TypeDict(d).Some? && forall i :: 0 <= i < |ukeys| ==> Acceptable(TypeDict(d).value, uvals, ukeys[i])
    ensures (exists i :: 0 <= i < |ukeys| && ParamNamed(ukeys[i]).None?) ==> r.1.Some?
  {
    match TypeDict(d)
    case None => (d, Some(UnsupportedDefaultType))
    case Some(types) =>
      var n := FirstBad(types, ukeys, uvals);
      (Overlay(d, types, ukeys[..n], uvals), if n == |ukeys| then None else Some(RejectReason(types, ukeys[n])))
  }

  /** Merging stops at key `n` when every earlier key was accepted and key `n` is
      not, or runs to the end when `n` is the number of keys. */
  lemma MergedAt(d: map<Param, Value>, types: map<Param, PyType>, ukeys: seq<string>, uvals: map<string, Value>, n: nat)
    requires TypeDict(d) == Some(types) && n <= |ukeys|
    requires forall i :: 0 <= i < n ==> Acceptable(types, uvals, ukeys[i])
    requires n < |ukeys| ==> !Acceptable(types, uvals, ukeys[n])
    ensures Merged(d, ukeys, uvals) ==
              (Overlay(d, types, ukeys[..n], uvals), if n == |ukeys| then None else Some(RejectReason(types, ukeys[n])))
  {
    FirstBadAt(types, ukeys, uvals, n);
  }

  /** One more accepted key extends the overlay by the value written for it. */
  lemma OverlayStep(d: map<Param, Value>, types: map<Param, PyType>, ukeys: seq<string>, uvals: map<string, Value>, i: nat)
    requires types.Keys == d.Keys && i < |ukeys|
    requires forall j :: 0 <= j < i ==> Acceptable(types, uvals, ukeys[j])
    requires Acceptable(types, uvals, ukeys[i])
    ensures forall j :: 0 <= j < i + 1 ==> Acceptable(types, uvals, ukeys[j])
    ensures Overlay(d, types, ukeys[..i + 1], uvals) ==
              Overlay(d, types, ukeys[..i], uvals)[ParamNamed(ukeys[i]).value :=
                Widen(uvals[ukeys[i]], types[ParamNamed(ukeys[i]).value])]
  {
    assert ukeys[..i + 1][..i] == ukeys[..i] && ukeys[..i + 1][i] == ukeys[i];
  }

  /** After a merge that raised nothing, the parameter each user key names holds that
      key's value, widened where needed. */
  lemma MergedWrites(d: map<Param, Value>, ukeys: seq<string>, uvals: map<string, Value>, j: nat)
    requires Merged(d, ukeys, uvals).1.None? && j < |ukeys|
    ensures Acceptable(TypeDict(d).value, uvals, ukeys[j])
    ensures Merged(d, ukeys, uvals).0[ParamNamed(ukeys[j]).value] ==
              Widen(uvals[ukeys[j]], TypeDict(d).value[ParamNamed(ukeys[j]).value])
  {
    var types := TypeDict(d).value;
    MergedAt(d, types, ukeys, uvals, |ukeys|);
    assert ukeys[..|ukeys|] == ukeys;
    OverlayWrites(d, types, ukeys, uvals, j);
  }

  /** After a merge that raised nothing, a parameter no user key names keeps its value. */
  lemma MergedKeeps(d: map<Param, Value>, ukeys: seq<string>, uvals: map<string, Value>, p: Param)
    requires Merged(d, ukeys, uvals).1.None? && p in d && Name(p) !in ukeys
    ensures Merged(d, ukeys, uvals).0[p] == d[p]
  {
    var types := TypeDict(d).value;
    MergedAt(d, types, ukeys, uvals, |ukeys|);
    assert ukeys[..|ukeys|] == ukeys;
    OverlayKeeps(d, types, ukeys, uvals, p);
  }

  /** Merging keeps the dictionary well typed, whatever the user supplies. */
  lemma MergedKeepsWellTyped(d: map<Param, Value>, ukeys: seq<string>, uvals: map<string, Value>)
    requires WellTyped(d)
    ensures WellTyped(Merged(d, ukeys, uvals).0)
  {
    if TypeDict(d).Some? {
      var types := TypeDict(d).value;
      var n := FirstBad(types, ukeys, uvals);
      assert forall i :: 0 <= i < n ==> Acceptable(types, uvals, ukeys[..n][i]);
      OverlayKeepsWellTyped(d, ukeys[..n], uvals);
    }
  }

  // ---------------------------------------------------------------------------
  // finalize_params

  /** The path library calls of `finalize_params`: `os.path.abspath`, the directory
      `abspath.strip(os.path.basename(abspath))` derived from it, and `os.sep`. */
  datatype PathEnv = PathEnv(abspath: string -> string, sourceDir: string -> string, sep: string)

  /** The parameters `finalize_params` may rewrite. */
  predicate Finalizes(k: Param)
  {
    k == Source || k == OutputFolder || k == OutputFile || k == MultithreadMode
  }

  /** Storing a value of a parameter's default type keeps the dictionary well typed. */
  lemma WellTypedUpdate(p: map<Param, Value>, k: Param, v: Value)
    requires WellTyped(p) && IsInstance(v, DefaultType(k))
    ensures WellTyped(p[k := v])
  {
  }

  /** `params["source"] = os.path.abspath(params["source"])`. */
  function WithAbsoluteSource(p: map<Param, Value>, env: PathEnv): (r: map<Param, Value>)
    requires WellTyped(p)
    ensures WellTyped(r) && r == p[Source := r[Source]] && r[Source].Str?
  {
    assert IsInstance(p[Source], DefaultType(Source));
    WellTypedUpdate(p, Source, Str(env.abspath(p[Source].s)));
    p[Source := Str(env.abspath(p[Source].s))]
  }

  /** An empty output folder becomes the `output` directory beside a non-empty source. */
  function WithDefaultFolder(p: map<Param, Value>, env: PathEnv): (r: map<Param, Value>)
    requires WellTyped(p)
    ensures WellTyped(r) && r == p[OutputFolder := r[OutputFolder]] && r[OutputFolder].Str?
    ensures p[OutputFolder] != Str("") ==> r[OutputFolder] == p[OutputFolder]
    ensures p[Source] != Str("") ==> r[OutputFolder] != Str("")
  {
    assert IsInstance(p[Source], DefaultType(Source));
    assert IsInstance(p[OutputFolder], DefaultType(OutputFolder));
    if p[OutputFolder] == Str("") && p[Source] != Str("") then
      var folder := env.sourceDir(p[Source].s) + "output" + env.sep;
      assert folder[|folder| - |env.sep| - 1] == 't';
      WellTypedUpdate(p, OutputFolder, Str(folder));
      p[OutputFolder := Str(folder)]
    else
      p
  }

  /** An empty output file becomes `output.sdf` inside a non-empty output folder. */
  function WithDefaultFile(p: map<Param, Value>): (r: map<Param, Value>)
    requires WellTyped(p)
    ensures WellTyped(r) && r == p[OutputFile := r[OutputFile]] && r[OutputFile].Str?
    ensures p[OutputFile] != Str("") ==> r[OutputFile] == p[OutputFile]
    ensures p[OutputFile] == Str("") && p[OutputFolder] != Str("") ==>
              r[OutputFile] == Str(p[OutputFolder].s + "output.sdf")
    ensures r[OutputFile] == Str("") <==> p[OutputFile] == Str("") && p[OutputFolder] == Str("")
  {
    assert IsInstance(p[OutputFolder], DefaultType(OutputFolder));
    assert IsInstance(p[OutputFile], DefaultType(OutputFile));
    if p[OutputFile] == Str("") && p[OutputFolder] != Str("") then
      var file := p[OutputFolder].s + "output.sdf";
      assert file[|file| - 1] == 'f';
      WellTypedUpdate(p, OutputFile, Str(file));
      p[OutputFile := Str(file)]
    else
      p
  }

  /** `params["multithread_mode"] = params["multithread_mode"].lower()`. */
  function WithLowerMode(p: map<Param, Value>): (r: map<Param, Value>)
    requires WellTyped(p)
    ensures WellTyped(r) && r == p[MultithreadMode := r[MultithreadMode]]
    ensures r[MultithreadMode] == Str(Lower(p[MultithreadMode].s))
  {
    assert IsInstance(p[MultithreadMode], DefaultType(MultithreadMode));
    WellTypedUpdate(p, MultithreadMode, Str(Lower(p[MultithreadMode].s)));
    p[MultithreadMode := Str(Lower(p[MultithreadMode].s))]
  }

  /** The dictionary `finalize_params` leaves and the exception it raises, if any. */
  function Finalized(p: map<Param, Value>, env: PathEnv): (r: (map<Param, Value>, Option<ConfigError>))
    requires WellTyped(p)
    ensures r.1 == Some(MissingSource) <==> p[Source] == Str("")
    ensures p[Source] != Str("") && env.abspath(p[Source].s) != "" ==> r.1.None?
    ensures r.1.None? ==> WellTyped(r.0)
  {
    if p[Source] == Str("") then
      (p, Some(MissingSource))
    else
      var p1 := WithAbsoluteSource(p, env);
      var p2 := WithDefaultFolder(p1, env);
      if p2[OutputPdb] == Bool(true) && p2[OutputFolder] == Str("") then
        (p2, Some(PdbNeedsOutputFolder))
      else if p2[SeparateOutputFiles] == Bool(true) && p2[OutputFolder] == Str("") then
        (p2, Some(SeparateFilesNeedOutputFolder))
      else
        var p3 := WithDefaultFile(p2);
        if p3[OutputFile] == Str("") then
          (p3, Some(MissingOutput))
        else
          (WithLowerMode(p3), None)
  }

  /** What a successful `finalize_params` leaves: the source made absolute, an output
      file always named (inside the output folder when the user gave only a folder),
      the given output locations kept, the mode lower-cased, and every other
      parameter unchanged. */
  lemma FinalizedOutputs(p: map<Param, Value>, env: PathEnv)
    requires WellTyped(p) && Finalized(p, env).1.None?
    ensures Finalized(p, env).0[Source] == Str(env.abspath(p[Source].s))
    ensures Finalized(p, env).0[OutputFile] != Str("")
    ensures env.abspath(p[Source].s) != "" ==> Finalized(p, env).0[OutputFolder] != Str("")
    ensures p[OutputFolder] != Str("") ==> Finalized(p, env).0[OutputFolder] == p[OutputFolder]
    ensures p[OutputFile] != Str("") ==> Finalized(p, env).0[OutputFile] == p[OutputFile]
    ensures p[OutputFile] == Str("") && p[OutputFolder] != Str("") ==>
              Finalized(p, env).0[OutputFile] == Str(p[OutputFolder].s + "output.sdf")
    ensures Finalized(p, env).0[MultithreadMode] == Str(Lower(p[MultithreadMode].s))
    ensures forall k :: k in p && !Finalizes(k) ==> Finalized(p, env).0[k] == p[k]
  {
    var p1 := WithAbsoluteSource(p, env);
    var p2 := WithDefaultFolder(p1, env);
    var p3 := WithDefaultFile(p2);
    assert Finalized(p, env).0 == WithLowerMode(p3);
  }

  // ---------------------------------------------------------------------------
  // Run-mode adjustments of prepare_molecules

  /** The dictionary after the run-mode checks of `prepare_molecules`, and the
      exception raised, if any: serial mode forces one processor, mpi mode needs
      mpi4py, and on Windows everything runs serially on one processor. */
  function RunMode(p: map<Param, Value>, onWindows: bool, mpiInstalled: bool): (r: (map<Param, Value>, Option<ConfigError>))
    requires WellTyped(p)
    ensures r.1 == Some(MpiUnavailable) <==> p[MultithreadMode] == Str("mpi") && !mpiInstalled
    ensures r.1.None? ==> WellTyped(r.0)
    ensures r.1.None? && r.0[MultithreadMode] == Str("serial") ==> r.0[NumProcessors] == Int(1)
    ensures r.1.None? && onWindows ==> r.0[MultithreadMode] == Str("serial")
    ensures r.1.None? && !onWindows ==> r.0[MultithreadMode] == p[MultithreadMode]
    ensures r.1.None? && p[MultithreadMode] != Str("serial") && !onWindows ==>
              r.0[NumProcessors] == p[NumProcessors]
    ensures r.1.None? ==> forall k :: k in p && k != NumProcessors && k != MultithreadMode ==> r.0[k] == p[k]
  {
    WellTypedUpdate(p, NumProcessors, Int(1));
    var p1 := if p[MultithreadMode] == Str("serial") then p[NumProcessors := Int(1)] else p;
    if p1[MultithreadMode] == Str("mpi") && !mpiInstalled then
      (p1, Some(MpiUnavailable))
    else if onWindows then
      WellTypedUpdate(p1, NumProcessors, Int(1));
      WellTypedUpdate(p1[NumProcessors := Int(1)], MultithreadMode, Str("serial"));
      (p1[NumProcessors := Int(1)][MultithreadMode := Str("serial")], None)
    else
      (p1, None)
  }

  // ---------------------------------------------------------------------------
  // The parameter dictionary, updated in place

  class Parameters {
    var vals: map<Param, Value>

    /** The `default` table of `set_parameters`. */
    constructor Defaults()
      ensures vals == DefaultValues && WellTyped(vals)
    {
      vals := DefaultValues;
    }

    /** `merge_parameters(default, params)` with this dictionary as `default`: the user
        keys are visited in order; the first unknown key raises `KeyError`, the first
        value of the wrong type raises `TypeError`, and every value accepted before
        that has already been written in place (an `int` given for a `float` widened). */
    method Merge(ukeys: seq<string>, uvals: map<string, Value>) returns (err: Option<ConfigError>)
      requires forall i :: 0 <= i < |ukeys| ==> ukeys[i] in uvals
      modifies this
      ensures (vals, err) == Merged(old(vals), ukeys, uvals)
    {
      var tr := MakeTypeDict(vals);
      if tr.Failure? {
        return Some(tr.error);
      }
      var types := tr.value;
      ghost var d0 := vals;
      var i := 0;
      while i < |ukeys|
        invariant 0 <= i <= |ukeys|
        invariant forall j :: 0 <= j < i ==> Acceptable(types, uvals, ukeys[j])
        invariant vals == Overlay(d0, types, ukeys[..i], uvals)
      {
        var key := ukeys[i];
        var param := LookupParam(key);
        if param.None? || param.value !in vals {
          MergedAt(d0, types, ukeys, uvals, i);
          return Some(UnknownParameter(key));
        }
        var v := uvals[key];
        if !IsInstance(v, types[param.value]) {
          if v.Int? && types[param.value] == FloatType {
            v := Float(v.i as real);
          } else {
            MergedAt(d0, types, ukeys, uvals, i);
            return Some(TypeMismatch(key));
          }
        }
        OverlayStep(d0, types, ukeys, uvals, i);
        vals := vals[param.value := v];
        i := i + 1;
      }
      MergedAt(d0, types, ukeys, uvals, i);
      assert ukeys[..i] == ukeys;
      return None;
    }

    /** `finalize_params` on this dictionary. */
    method Finalize(env: PathEnv) returns (err: Option<ConfigError>)
      requires WellTyped(vals)
      modifies this
      ensures (vals, err) == Finalized(old(vals), env)
    {
      if vals[Source] == Str("") {
        return Some(MissingSource);
      }
      vals := WithAbsoluteSource(vals, env);
      vals := WithDefaultFolder(vals, env);
      if vals[OutputPdb] == Bool(true) && vals[OutputFolder] == Str("") {
        return Some(PdbNeedsOutputFolder);
      }
      if vals[SeparateOutputFiles] == Bool(true) && vals[OutputFolder] == Str("") {
        return Some(SeparateFilesNeedOutputFolder);
      }
      vals := WithDefaultFile(vals);
      if vals[OutputFile] == Str("") {
        return Some(MissingOutput);
      }
      vals := WithLowerMode(vals);
      return None;
    }

    /** The run-mode checks at the start of `prepare_molecules`. */
    method ConfigureRunMode(onWindows: bool, mpiInstalled: bool) returns (err: Option<ConfigError>)
      requires WellTyped(vals)
      modifies this
      ensures (vals, err) == RunMode(old(vals), onWindows, mpiInstalled)
    {
      if vals[MultithreadMode] == Str("serial") {
        vals := vals[NumProcessors := Int(1)];
      }
      if vals[MultithreadMode] == Str("mpi") && !mpiInstalled {
        return Some(MpiUnavailable);
      }
      if onWindows {
        vals := vals[NumProcessors := Int(1)];
        vals := vals[MultithreadMode := Str("serial")];
      }
      return None;
    }
  }

  /** The default table is well typed and its type dictionary is `DefaultType`. */
  lemma DefaultTypes()
    ensures WellTyped(DefaultValues)
    ensures TypeDict(DefaultValues).Some?
    ensures forall p :: TypeDict(DefaultValues).value[p] == DefaultType(p)
  {
  }

  /** The user's dictionary after lower-casing its keys: the keys in insertion order
      and the value stored under each. */
  ghost function UserKeys(user: seq<(string, Value)>): seq<string>
  {
    InsertionOrder(LoweredKeys(user))
  }

  /** The parameters `set_parameters` returns, or the exception it raises. */
  ghost function Configured(user: seq<(string, Value)>, env: PathEnv): (r: Result<map<Param, Value>, ConfigError>)
    ensures r.Success? ==> WellTyped(r.value)
  {
    var (merged, err) := Merged(DefaultValues, UserKeys(user), Assigned(user));
    if err.Some? then
      Failure(err.value)
    else
      DefaultTypes();
      MergedKeepsWellTyped(DefaultValues, UserKeys(user), Assigned(user));
      var (final, err2) := Finalized(merged, env);
      if err2.Some? then Failure(err2.value) else Success(final)
  }

  /** A successful `set_parameters` is a merge that raised nothing followed by a
      `finalize_params` that raised nothing. */
  lemma ConfiguredParts(user: seq<(string, Value)>, env: PathEnv)
    requires Configured(user, env).Success?
    ensures Merged(DefaultValues, UserKeys(user), Assigned(user)).1.None?
    ensures WellTyped(Merged(DefaultValues, UserKeys(user), Assigned(user)).0)
    ensures Finalized(Merged(DefaultValues, UserKeys(user), Assigned(user)).0, env).1.None?
    ensures Configured(user, env).value == Finalized(Merged(DefaultValues, UserKeys(user), Assigned(user)).0, env).0
  {
    DefaultTypes();
    MergedKeepsWellTyped(DefaultValues, UserKeys(user), Assigned(user));
  }

  /** A key that names no parameter is rejected. */
  lemma UnknownKeyRejected(user: seq<(string, Value)>, env: PathEnv, i: nat)
    requires i < |user| && ParamNamed(Lower(user[i].0)).None?
    ensures Configured(user, env).Failure?
  {
    var lk := LoweredKeys(user);
    InsertionOrderDistinct(lk);
    assert lk[i] in UserKeys(user);
  }

  /** On success, every user entry that is the last for its key was accepted, and the
      parameter it names holds its value (widened to a float where the default is a
      float), unless `finalize_params` rewrites that parameter. */
  lemma ConfiguredTakesUserValue(user: seq<(string, Value)>, env: PathEnv, i: nat, p: Param)
    requires Configured(user, env).Success?
    requires i < |user| && LastOfKey(user, i) && ParamNamed(Lower(user[i].0)) == Some(p)
    ensures Compatible(user[i].1, DefaultType(p))
    ensures !Finalizes(p) ==> Configured(user, env).value[p] == Widen(user[i].1, DefaultType(p))
  {
    var lk := LoweredKeys(user);
    var keys := UserKeys(user);
    var uvals := Assigned(user);
    ConfiguredParts(user, env);
    var m := Merged(DefaultValues, keys, uvals).0;
    InsertionOrderDistinct(lk);
    AssignedHoldsLastValue(user, i);
    DefaultTypes();
    assert lk[i] in keys;
    var j :| 0 <= j < |keys| && keys[j] == lk[i];
    MergedWrites(DefaultValues, keys, uvals, j);
    assert m[p] == Widen(user[i].1, DefaultType(p));
    FinalizedOutputs(m, env);
  }

  /** On success, a parameter no user key names keeps its default, unless
      `finalize_params` rewrites it. */
  lemma ConfiguredKeepsDefault(user: seq<(string, Value)>, env: PathEnv, p: Param)
    requires Configured(user, env).Success?
    requires Name(p) !in LoweredKeys(user) && !Finalizes(p)
    ensures Configured(user, env).value[p] == Default(p)
  {
    var keys := UserKeys(user);
    var uvals := Assigned(user);
    ConfiguredParts(user, env);
    var m := Merged(DefaultValues, keys, uvals).0;
    InsertionOrderDistinct(LoweredKeys(user));
    DefaultTypes();
    MergedKeeps(DefaultValues, keys, uvals, p);
    assert m[p] == Default(p);
    FinalizedOutputs(m, env);
  }

  /** `set_parameters`: lower-case the user's keys, merge them over the defaults and
      finalize. */
  method SetParameters(user: seq<(string, Value)>, env: PathEnv) returns (r: Result<map<Param, Value>, ConfigError>)
    ensures r == Configured(user, env)
  {
    var params := new Parameters.Defaults();
    var keys, uvals := LowerKeys(user);
    AssignedKeys(user);
    InsertionOrderDistinct(LoweredKeys(user));
    var err := params.Merge(keys, uvals);
    if err.Some? {
      return Failure(err.value);
    }
    DefaultTypes();
    MergedKeepsWellTyped(DefaultValues, keys, uvals);
    err := params.Finalize(env);
    if err.Some? {
      return Failure(err.value);
    }
    r := Success(params.vals);
  }
}
