/** The protonation step of gypsum/Steps/SMILES/AddHydrogens.py: how the work items
    handed to the dispatcher are formed, what one work item yields (the protonated
    variants of a container and their genealogy), and the fallback variant every
    container with no protonated variant receives. Dimorphite-DL and RDKit are the
    abstract calls of `Chemistry`. */
module AddHydrogens {
  import opened Wrappers
  import opened PyValues
  import opened Text
  import opened Molecules

  /** The `protonation_settings` dictionary. One object is shared by every work item,
      and `parallel_add_H` writes into it. */
  class ProtonationSettings {
    var entries: map<string, Value>

    /** Lines 55-57: `{"min_ph": min_pH, "max_ph": max_pH, "st_dev": st_dev}`. */
    constructor (minPh: Value, maxPh: Value, stDev: Value)
      ensures entries.Keys == {"min_ph", "max_ph", "st_dev"}
      ensures entries["min_ph"] == minPh && entries["max_ph"] == maxPh && entries["st_dev"] == stDev
    {
      entries := map["min_ph" := minPh, "max_ph" := maxPh, "st_dev" := stDev];
    }
  }

  // ---------------------------------------------------------------------------
  // add_hydrogens

  /** Line 60: one work item per container whose canonical SMILES is a string, in
      container order, each paired with the same settings object. */
  function WorkItems(cs: seq<Container>, settings: ProtonationSettings): (items: seq<(Container, ProtonationSettings)>)
    ensures |items| <= |cs|
    ensures forall k :: 0 <= k < |items| ==> items[k].1 == settings && items[k].0.origSmiCanonical.Some?
  {
    if cs == [] then []
    else
      var n := |cs| - 1;
      WorkItems(cs[..n], settings) + if cs[n].origSmiCanonical.Some? then [(cs[n], settings)] else []
  }

  /** Some work item holds container `c`. */
  ghost predicate Dispatched(items: seq<(Container, ProtonationSettings)>, c: Container)
  {
    exists k :: 0 <= k < |items| && items[k].0 == c
  }

  lemma {:induction false} DispatchedAppend(a: seq<(Container, ProtonationSettings)>, b: seq<(Container, ProtonationSettings)>, c: Container)
    ensures Dispatched(a + b, c) <==> Dispatched(a, c) || Dispatched(b, c)
  {
    if Dispatched(a + b, c) {
      var k :| 0 <= k < |a + b| && (a + b)[k].0 == c;
      if k < |a| {
        assert a[k].0 == c;
      } else {
        assert b[k - |a|].0 == c;
      }
    }
    if Dispatched(a, c) {
      var k :| 0 <= k < |a| && a[k].0 == c;
      assert (a + b)[k].0 == c;
    }
    if Dispatched(b, c) {
      var k :| 0 <= k < |b| && b[k].0 == c;
      assert (a + b)[|a| + k].0 == c;
    }
  }

  /** A container is dispatched exactly when it is one of the containers and its
      canonical SMILES is a string. */
  lemma {:induction false} WorkItemsExactly(cs: seq<Container>, settings: ProtonationSettings, c: Container)
    ensures Dispatched(WorkItems(cs, settings), c) <==> c in cs && c.origSmiCanonical.Some?
  {
    if cs != [] {
      var n := |cs| - 1;
      var init := cs[..n];
      WorkItemsExactly(init, settings, c);
      assert cs == init + [cs[n]];
      var tail := if cs[n].origSmiCanonical.Some? then [(cs[n], settings)] else [];
      DispatchedAppend(WorkItems(init, settings), tail, c);
      if tail != [] {
        assert Dispatched(tail, c) <==> tail[0].0 == c;
      }
    }
  }

  /** The work items of two runs of containers are those of the first run followed by
      those of the second: the filter keeps the container order. */
  lemma {:induction false} WorkItemsAppend(a: seq<Container>, b: seq<Container>, settings: ProtonationSettings)
    ensures WorkItems(a + b, settings) == WorkItems(a, settings) + WorkItems(b, settings)
    decreases |b|
  {
    if b == [] {
      assert a + b == a;
    } else {
      var n := |b| - 1;
      assert (a + b)[..|a| + n] == a + b[..n];
      WorkItemsAppend(a, b[..n], settings);
    }
  }

  /** Lines 84-88: the genealogy of a variant Gypsum could not protonate. */
  function FallbackGenealogy(origSmi: string, origSmiDeslt: string): seq<string>
  {
    [origSmi + " (source)", origSmiDeslt + " (desalted)",
     "(WARNING: Gypsum could not assign protonation states)"]
  }

  /** The original molecules of the containers at `idxs`, in that order. */
  function Originals(cs: seq<Container>, idxs: seq<nat>): (ms: seq<MyMol>)
    requires forall k :: 0 <= k < |idxs| ==> idxs[k] < |cs|
    ensures |ms| == |idxs|
    ensures forall k :: 0 <= k < |idxs| ==> ms[k] == cs[idxs[k]].molOrig
  {
    seq(|idxs|, k requires 0 <= k < |idxs| => cs[idxs[k]].molOrig)
  }

  /** Lines 72-92: each missing container's original molecule is stamped with the
      container's index and the fallback genealogy and appended to the results, after
      the results already there. Nothing else of any container's original molecule
      changes. */
  method AddFallbacks(cs: seq<Container>, results: seq<MyMol>, missing: seq<nat>) returns (results': seq<MyMol>)
    requires forall k :: 0 <= k < |missing| ==> missing[k] < |cs|
    requires forall c, d :: 0 <= c < d < |cs| ==> cs[c].molOrig != cs[d].molOrig
    modifies set k | 0 <= k < |missing| :: cs[missing[k]].molOrig
    ensures results' == results + Originals(cs, missing)
    ensures forall c :: 0 <= c < |cs| ==>
              var m := cs[c].molOrig;
              && m.name == old(m.name) && m.origSmi == old(m.origSmi)
              && m.origSmiDeslt == old(m.origSmiDeslt) && m.props == old(m.props)
              && (c in missing ==> m.contnrIdx == c && m.genealogy == FallbackGenealogy(old(m.origSmi), old(m.origSmiDeslt)))
              && (c !in missing ==> m.contnrIdx == old(m.contnrIdx) && m.genealogy == old(m.genealogy))
  {
    results' := results;
    for i := 0 to |missing|
      invariant results' == results + Originals(cs, missing[..i])
      invariant forall c :: 0 <= c < |cs| ==>
                  var m := cs[c].molOrig;
                  && m.name == old(m.name) && m.origSmi == old(m.origSmi)
                  && m.origSmiDeslt == old(m.origSmiDeslt) && m.props == old(m.props)
                  && (c in missing[..i] ==> m.contnrIdx == c && m.genealogy == FallbackGenealogy(m.origSmi, m.origSmiDeslt))
                  && (c !in missing[..i] ==> m.contnrIdx == old(m.contnrIdx) && m.genealogy == old(m.genealogy))
    {
      var missIndx := missing[i];
      assert missing[..i + 1] == missing[..i] + [missIndx];
      var amol := cs[missIndx].molOrig;
      amol.contnrIdx := missIndx;
      amol.genealogy := FallbackGenealogy(amol.origSmi, amol.origSmiDeslt);
      results' := results' + [amol];
    }
    assert missing[..|missing|] == missing;
  }

  /** `add_hydrogens` up to the variant pruning: the settings dictionary, the work items
      handed to the dispatcher, and the results, which are what the dispatcher
      returned (`dispatched`) followed by the fallbacks for the `missing` containers. */
  method AddHydrogens(cs: seq<Container>, minPh: Value, maxPh: Value, stDev: Value,
                      dispatched: seq<MyMol>, missing: seq<nat>)
    returns (settings: ProtonationSettings, inputs: seq<(Container, ProtonationSettings)>, results: seq<MyMol>)
    requires forall k :: 0 <= k < |missing| ==> missing[k] < |cs|
    requires forall c, d :: 0 <= c < d < |cs| ==> cs[c].molOrig != cs[d].molOrig
    modifies set k | 0 <= k < |missing| :: cs[missing[k]].molOrig
    ensures fresh(settings)
    ensures settings.entries == map["min_ph" := minPh, "max_ph" := maxPh, "st_dev" := stDev]
    ensures inputs == WorkItems(cs, settings)
    ensures results == dispatched + Originals(cs, missing)
    ensures forall c :: 0 <= c < |cs| ==>
              var m := cs[c].molOrig;
              && m.name == old(m.name) && m.origSmi == old(m.origSmi)
              && m.origSmiDeslt == old(m.origSmiDeslt) && m.props == old(m.props)
              && (c in missing ==> m.contnrIdx == c && m.genealogy == FallbackGenealogy(old(m.origSmi), old(m.origSmiDeslt)))
              && (c !in missing ==> m.contnrIdx == old(m.contnrIdx) && m.genealogy == old(m.genealogy))
  {
    settings := new ProtonationSettings(minPh, maxPh, stDev);
    inputs := WorkItems(cs, settings);
    results := AddFallbacks(cs, dispatched, missing);
  }

  // ---------------------------------------------------------------------------
  // parallel_add_H

  /** Line 117: `parallel_add_H` raises when the canonical SMILES is not a string. */
  datatype AddHError = CanonicalNotString

  /** Line 128: each protonated SMILES string, stripped, parsed and given its
      hydrogens; `None` where parsing fails. */
  function Parsed(chem: Chemistry, smis: seq<string>): (ps: seq<Option<RdMol>>)
    ensures |ps| == |smis|
    ensures forall i :: 0 <= i < |smis| ==> ps[i] == chem.parseAddHs(Strip(smis[i]))
  {
    seq(|smis|, i requires 0 <= i < |smis| => chem.parseAddHs(Strip(smis[i])))
  }

  /** Lines 131-134: the parsed molecules with no bizarre substructure, in order. */
  function Survivors(chem: Chemistry, ps: seq<Option<RdMol>>): (ms: seq<RdMol>)
    ensures |ms| <= |ps|
  {
    if ps == [] then []
    else
      var n := |ps| - 1;
      Survivors(chem, ps[..n]) + if ps[n].Some? && !chem.bizarre(ps[n].value) then [ps[n].value] else []
  }

  /** The molecules `parallel_add_H` makes variants of. */
  function Kept(chem: Chemistry, smis: seq<string>): (ms: seq<RdMol>)
  {
    Survivors(chem, Parsed(chem, smis))
  }

  /** A molecule survives exactly when it is one of the parsed molecules and has no
      bizarre substructure. */
  lemma {:induction false} SurvivorsExactly(chem: Chemistry, ps: seq<Option<RdMol>>, m: RdMol)
    ensures m in Survivors(chem, ps) <==> Some(m) in ps && !chem.bizarre(m)
  {
    if ps != [] {
      var n := |ps| - 1;
      SurvivorsExactly(chem, ps[..n], m);
      assert ps == ps[..n] + [ps[n]];
    }
  }

  /** The survivors of two runs of parsed molecules are those of the first run followed
      by those of the second: filtering keeps the protonation output order. */
  lemma {:induction false} SurvivorsAppend(chem: Chemistry, a: seq<Option<RdMol>>, b: seq<Option<RdMol>>)
    ensures Survivors(chem, a + b) == Survivors(chem, a) + Survivors(chem, b)
    decreases |b|
  {
    if b == [] {
      assert a + b == a;
    } else {
      var n := |b| - 1;
      assert (a + b)[..|a| + n] == a + b[..n];
      SurvivorsAppend(chem, a, b[..n]);
    }
  }

  /** A molecule is kept exactly when some protonated SMILES parses to it and it has no
      bizarre substructure. */
  lemma {:induction false} KeptExactly(chem: Chemistry, smis: seq<string>, m: RdMol)
    ensures m in Kept(chem, smis) <==>
            !chem.bizarre(m) && exists i :: 0 <= i < |smis| && chem.parseAddHs(Strip(smis[i])) == Some(m)
  {
    var ps := Parsed(chem, smis);
    SurvivorsExactly(chem, ps, m);
    if Some(m) in ps {
      var i :| 0 <= i < |ps| && ps[i] == Some(m);
      assert chem.parseAddHs(Strip(smis[i])) == Some(m);
    }
    if exists i :: 0 <= i < |smis| && chem.parseAddHs(Strip(smis[i])) == Some(m) {
      var i :| 0 <= i < |smis| && chem.parseAddHs(Strip(smis[i])) == Some(m);
      assert ps[i] == Some(m);
    }
  }

  /** The kept molecules of two runs of SMILES are those of the first run followed by
      those of the second. */
  lemma {:induction false} KeptAppend(chem: Chemistry, a: seq<string>, b: seq<string>)
    ensures Kept(chem, a + b) == Kept(chem, a) + Kept(chem, b)
  {
    assert Parsed(chem, a + b) == Parsed(chem, a) + Parsed(chem, b);
    SurvivorsAppend(chem, Parsed(chem, a), Parsed(chem, b));
  }

  /** Lines 145-149: the genealogy of a protonated variant `m` of the original molecule
      `origMol`: a copy of the original's, with a "(protonated)" entry appended when the
      variant's SMILES differs from the original's. */
  function Lineage(chem: Chemistry, orig: seq<string>, origMol: RdMol, m: RdMol): seq<string>
  {
    orig + if chem.smiles(m) != chem.smiles(origMol) then [chem.smilesNoH(m) + " (protonated)"] else []
  }

  /** The original genealogy is a prefix of a variant's, which has one entry more
      exactly when the variant's SMILES differs from the original's, and that entry is
      the variant's hydrogen-free SMILES marked "(protonated)". */
  lemma LineageExtends(chem: Chemistry, orig: seq<string>, origMol: RdMol, m: RdMol)
    ensures orig <= Lineage(chem, orig, origMol, m)
    ensures |Lineage(chem, orig, origMol, m)| == |orig| + 1 <==> chem.smiles(m) != chem.smiles(origMol)
    ensures |Lineage(chem, orig, origMol, m)| == |orig| <==> chem.smiles(m) == chem.smiles(origMol)
    ensures |Lineage(chem, orig, origMol, m)| == |orig| + 1 ==>
              Lineage(chem, orig, origMol, m)[|orig|] == chem.smilesNoH(m) + " (protonated)"
  {
  }

  /** What `parallel_add_H` returns for `contnr` when `ms` are the kept molecules:
      one variant per kept molecule, in order, pairwise different objects, each
      carrying the container's index and input SMILES, the original molecule's name
      and its genealogy as `Lineage` derives it. */
  predicate ProtonatedVariants(hs: seq<MyMol>, contnr: Container, chem: Chemistry, ms: seq<RdMol>)
    reads hs, contnr.molOrig
  {
    && |hs| == |ms|
    && (forall j, k :: 0 <= j < k < |hs| ==> hs[j] != hs[k])
    && forall k :: 0 <= k < |hs| ==>
         && hs[k].rdMol == ms[k]
         && hs[k].contnrIdx == contnr.contnrIdx
         && hs[k].origSmi == contnr.origSmi
         && hs[k].name == contnr.molOrig.name
         && hs[k].genealogy == Lineage(chem, contnr.molOrig.genealogy, contnr.molOrig.rdMol, ms[k])
  }

  /** Lines 143-149 for one molecule: a new variant of `m` that takes the container's
      identity and the original molecule's name, and the genealogy `Lineage` derives. */
  method NewVariant(contnr: Container, chem: Chemistry, m: RdMol) returns (hm: MyMol)
    ensures fresh(hm) && hm.rdMol == m
    ensures hm.contnrIdx == contnr.contnrIdx && hm.origSmi == contnr.origSmi
    ensures hm.name == contnr.molOrig.name
    ensures hm.genealogy == Lineage(chem, contnr.molOrig.genealogy, contnr.molOrig.rdMol, m)
  {
    var origMol := contnr.molOrig;
    hm := new MyMol(m);
    hm.contnrIdx := contnr.contnrIdx;
    hm.origSmi := contnr.origSmi;
    hm.genealogy := origMol.genealogy;
    hm.name := origMol.name;
    if chem.smiles(hm.rdMol) != chem.smiles(origMol.rdMol) {
      hm.genealogy := hm.genealogy + [chem.smilesNoH(hm.rdMol) + " (protonated)"];
    }
  }

  /** `parallel_add_H`: raises when the canonical SMILES is not a string; otherwise it
      writes the SMILES into the settings under "smiles", protonates, and returns a new
      variant for every kept molecule. The original molecule is left as it was. */
  method ParallelAddH(contnr: Container, settings: ProtonationSettings, chem: Chemistry)
    returns (r: Result<seq<MyMol>, AddHError>)
    modifies settings
    ensures contnr.origSmiCanonical.None? ==>
              r == Failure(CanonicalNotString) && settings.entries == old(settings.entries)
    ensures contnr.origSmiCanonical.Some? ==>
              && settings.entries == old(settings.entries)["smiles" := Str(contnr.origSmiCanonical.value)]
              && r.Success?
              && (forall k :: 0 <= k < |r.value| ==> fresh(r.value[k]))
              && ProtonatedVariants(r.value, contnr, chem, Kept(chem, chem.protonate(settings.entries)))
    ensures contnr.molOrig.genealogy == old(contnr.molOrig.genealogy) && contnr.molOrig.name == old(contnr.molOrig.name)
  {
    if contnr.origSmiCanonical.None? {
      return Failure(CanonicalNotString);
    }
    settings.entries := settings.entries["smiles" := Str(contnr.origSmiCanonical.value)];
    var smis := chem.protonate(settings.entries);
    var addHMols := Kept(chem, smis);
    var returnValues := MakeVariants(contnr, chem, addHMols);
    return Success(returnValues);
  }

  /** One more variant, of one more kept molecule. */
  lemma ProtonatedVariantsAppend(hs: seq<MyMol>, hm: MyMol, contnr: Container, chem: Chemistry, ms: seq<RdMol>, m: RdMol)
    requires ProtonatedVariants(hs, contnr, chem, ms) && hm !in hs
    requires hm.rdMol == m && hm.contnrIdx == contnr.contnrIdx && hm.origSmi == contnr.origSmi
    requires hm.name == contnr.molOrig.name
    requires hm.genealogy == Lineage(chem, contnr.molOrig.genealogy, contnr.molOrig.rdMol, m)
    ensures ProtonatedVariants(hs + [hm], contnr, chem, ms + [m])
  {
  }

  /** One pass of the loop of lines 143-151: a new variant of `m` joins those made so far. */
  method AppendVariant(hs: seq<MyMol>, contnr: Container, chem: Chemistry, ghost done: seq<RdMol>, m: RdMol)
    returns (hs': seq<MyMol>)
    requires ProtonatedVariants(hs, contnr, chem, done)
    ensures |hs'| == |hs| + 1 && hs'[..|hs|] == hs && fresh(hs'[|hs|])
    ensures ProtonatedVariants(hs', contnr, chem, done + [m])
  {
    var hm := NewVariant(contnr, chem, m);
    ProtonatedVariantsAppend(hs, hm, contnr, chem, done, m);
    hs' := hs + [hm];
  }

  /** Lines 140-153: the loop that turns every kept molecule into a new variant. */
  method MakeVariants(contnr: Container, chem: Chemistry, ms: seq<RdMol>) returns (hs: seq<MyMol>)
    ensures forall k :: 0 <= k < |hs| ==> fresh(hs[k])
    ensures ProtonatedVariants(hs, contnr, chem, ms)
  {
    hs := [];
    for k := 0 to |ms|
      invariant forall j :: 0 <= j < |hs| ==> fresh(hs[j])
      invariant ProtonatedVariants(hs, contnr, chem, ms[..k])
    {
      assert ms[..k + 1] == ms[..k] + [ms[k]];
      hs := AppendVariant(hs, contnr, chem, ms[..k], ms[k]);
    }
    assert ms[..|ms|] == ms;
  }
}
