/** The bookkeeping of `prepare_molecules` (gypsum/Start.py) around the chemistry:
    turning the loaded records into numbered containers, numbering every variant
    with a `UniqueID`, and reporting the containers that ended with no variant. */
module Start {
  import opened Wrappers
  import opened PyValues
  import opened Text
  import opened Molecules

  /** `Exception("There is a corrupted container")`. */
  datatype StartError = CorruptedContainer

  // ---------------------------------------------------------------------------
  // The container loop

  /** A record the container loop keeps: RDKit finds no unassigned bonds in its
      SMILES and the container built from it has a canonical SMILES string. */
  predicate Accepts(chem: Chemistry, r: Record)
  {
    !chem.unassignedBonds(r.smiles) && chem.canonical(r.smiles).Some?
  }

  /** The records the container loop keeps, in input order. */
  function Accepted(chem: Chemistry, records: seq<Record>): (acc: seq<Record>)
    ensures |acc| <= |records|
  {
    if records == [] then []
    else
      var last := records[|records| - 1];
      Accepted(chem, records[..|records| - 1]) + if Accepts(chem, last) then [last] else []
  }

  /** A record is kept exactly when it is one of the input records and is accepted. */
  lemma {:induction false} AcceptedMembers(chem: Chemistry, records: seq<Record>, r: Record)
    ensures r in Accepted(chem, records) <==> r in records && Accepts(chem, r)
  {
    if records != [] {
      var init := records[..|records| - 1];
      AcceptedMembers(chem, init, r);
      assert records == init + [records[|records| - 1]];
    }
  }

  /** The identity of an accepted record is the number of records accepted before it:
      a rejected record consumes no identity. */
  lemma {:induction false} AcceptedIdentity(chem: Chemistry, records: seq<Record>, p: nat)
    requires p < |records| && Accepts(chem, records[p])
    ensures |Accepted(chem, records[..p])| < |Accepted(chem, records)|
    ensures Accepted(chem, records)[|Accepted(chem, records[..p])|] == records[p]
  {
    var n := |records|;
    var init := records[..n - 1];
    if p == n - 1 {
      assert records[..p] == init;
    } else {
      assert init[..p] == records[..p];
      AcceptedIdentity(chem, init, p);
    }
  }

  /** `[x for x in contnrs if x.orig_smi_canonical != None]`. */
  function KeepConverted(cs: seq<Container>): (r: seq<Container>)
    ensures |r| <= |cs|
    ensures forall i :: 0 <= i < |r| ==> r[i].origSmiCanonical.Some?
    ensures (forall i :: 0 <= i < |cs| ==> cs[i].origSmiCanonical.Some?) ==> r == cs
  {
    if cs == [] then []
    else
      var last := cs[|cs| - 1];
      KeepConverted(cs[..|cs| - 1]) + if last.origSmiCanonical.Some? then [last] else []
  }

  /** The container loop of `prepare_molecules`: a container per accepted record,
      numbered 0, 1, 2, ... in input order. The final consistency check never fails. */
  method CreateContainers(records: seq<Record>, chem: Chemistry) returns (r: Result<seq<Container>, StartError>)
    ensures r.Success? && |r.value| == |Accepted(chem, records)|
    ensures forall i :: 0 <= i < |r.value| ==>
              && fresh(r.value[i])
              && r.value[i].contnrIdx == i
              && r.value[i].origSmi == Accepted(chem, records)[i].smiles
              && r.value[i].name == Accepted(chem, records)[i].name
              && r.value[i].props == Accepted(chem, records)[i].props
              && r.value[i].origSmiCanonical.Some?
              && r.value[i].mols == []
  {
    var contnrs: seq<Container> := [];
    var idxCounter := 0;
    for i := 0 to |records|
      invariant idxCounter == |contnrs| == |Accepted(chem, records[..i])|
      invariant forall j :: 0 <= j < |contnrs| ==>
                  && fresh(contnrs[j])
                  && contnrs[j].contnrIdx == j
                  && contnrs[j].origSmi == Accepted(chem, records[..i])[j].smiles
                  && contnrs[j].name == Accepted(chem, records[..i])[j].name
                  && contnrs[j].props == Accepted(chem, records[..i])[j].props
                  && contnrs[j].origSmiCanonical.Some?
                  && contnrs[j].mols == []
    {
      assert records[..i + 1][..i] == records[..i];
      var rec := records[i];
      if chem.unassignedBonds(rec.smiles) {
        continue;
      }
      var c := new Container(rec.smiles, rec.name, idxCounter, rec.props, chem);
      if c.origSmiCanonical.None? {
        continue;
      }
      contnrs := contnrs + [c];
      idxCounter := idxCounter + 1;
    }
    assert records[..|records|] == records;
    contnrs := KeepConverted(contnrs);
    if |contnrs| != idxCounter {
      return Failure(CorruptedContainer);
    }
    return Success(contnrs);
  }

  // ---------------------------------------------------------------------------
  // add_mol_id_props

  /** The variant lists of the containers. */
  ghost function MolLists(cs: seq<Container>): (lists: seq<seq<MyMol>>)
    reads cs
    ensures |lists| == |cs| && forall i :: 0 <= i < |cs| ==> lists[i] == cs[i].mols
  {
    seq(|cs|, i requires 0 <= i < |cs| reads cs => cs[i].mols)
  }

  /** The lists one after the other. */
  function Flatten<T>(xss: seq<seq<T>>): seq<T>
  {
    if xss == [] then [] else Flatten(xss[..|xss| - 1]) + xss[|xss| - 1]
  }

  /** The first `n` lists flatten to a prefix of the whole. */
  lemma {:induction false} FlattenPrefix<T>(xss: seq<seq<T>>, n: nat)
    requires n <= |xss|
    ensures Flatten(xss[..n]) <= Flatten(xss)
  {
    if n < |xss| {
      var init := xss[..|xss| - 1];
      assert init[..n] == xss[..n];
      FlattenPrefix(init, n);
    } else {
      assert xss[..n] == xss;
    }
  }

  /** List `c` comes right after the lists before it. */
  lemma FlattenAt<T>(xss: seq<seq<T>>, c: nat)
    requires c < |xss|
    ensures Flatten(xss[..c + 1]) == Flatten(xss[..c]) + xss[c]
    ensures |Flatten(xss[..c])| + |xss[c]| <= |Flatten(xss)|
    ensures Flatten(xss)[|Flatten(xss[..c])|..|Flatten(xss[..c])| + |xss[c]|] == xss[c]
  {
    assert xss[..c + 1][..c] == xss[..c];
    FlattenPrefix(xss, c + 1);
  }

  /** Every variant of the containers, container by container, in list order. */
  ghost function Variants(cs: seq<Container>): seq<MyMol>
    reads cs
  {
    Flatten(MolLists(cs))
  }

  /** Variant `j` of container `c` comes after every variant of the earlier containers. */
  lemma VariantPosition(cs: seq<Container>, c: nat, j: nat)
    requires c < |cs| && j < |cs[c].mols|
    ensures |Variants(cs[..c])| + j < |Variants(cs)|
    ensures Variants(cs)[|Variants(cs[..c])| + j] == cs[c].mols[j]
  {
    var lists := MolLists(cs);
    assert MolLists(cs[..c]) == lists[..c];
    FlattenAt(lists, c);
  }

  /** The `UniqueID` the numbering gives the variant at position `k` of `Variants`. */
  function UniqueId(k: nat): (id: string)
    ensures id != [] && AllDigits(id)
  {
    NatStr(k + 1)
  }

  /** The identities handed out are pairwise different. */
  lemma UniqueIdsDistinct(k: nat, l: nat)
    requires k != l
    ensures UniqueId(k) != UniqueId(l)
  {
    if UniqueId(k) == UniqueId(l) {
      NatStrInjective(k + 1, l + 1);
    }
  }

  /** The property maps of some variants. */
  ghost function PropsOf(ms: seq<MyMol>): (ps: seq<map<string, string>>)
    reads ms
    ensures |ps| == |ms| && forall k :: 0 <= k < |ms| ==> ps[k] == ms[k].props
  {
    seq(|ms|, k requires 0 <= k < |ms| reads ms => ms[k].props)
  }

  /** The property maps after numbering: entry `k` gains `UniqueID` `UniqueId(k)`. */
  function WithUniqueIds(ps: seq<map<string, string>>): (r: seq<map<string, string>>)
    ensures |r| == |ps|
    ensures forall k :: 0 <= k < |ps| ==> r[k] == ps[k]["UniqueID" := UniqueId(k)]
  {
    seq(|ps|, k requires 0 <= k < |ps| => ps[k]["UniqueID" := UniqueId(k)])
  }

  /** The inner loop of `add_mol_id_props`: the variants of one container, which sit at
      positions `first`, `first + 1`, ... of the list `all` of every variant, get the
      numbers of those positions; every other variant is left alone. */
  method NumberVariants(mols: seq<MyMol>, first: nat, ghost all: seq<MyMol>)
    requires first + |mols| <= |all| && all[first..first + |mols|] == mols
    requires forall k, l :: 0 <= k < l < |all| ==> all[k] != all[l]
    modifies set m | m in mols
    ensures forall k :: 0 <= k < |all| ==>
              all[k].props == if first <= k < first + |mols|
                              then old(all[k].props)["UniqueID" := UniqueId(k)]
                              else old(all[k].props)
    ensures forall m | m in mols ::
              && m.name == old(m.name) && m.genealogy == old(m.genealogy) && m.contnrIdx == old(m.contnrIdx)
              && m.origSmi == old(m.origSmi) && m.origSmiDeslt == old(m.origSmiDeslt)
  {
    var contId := first;
    for j := 0 to |mols|
      invariant contId == first + j
      invariant forall m | m in mols ::
                  && m.name == old(m.name) && m.genealogy == old(m.genealogy) && m.contnrIdx == old(m.contnrIdx)
                  && m.origSmi == old(m.origSmi) && m.origSmiDeslt == old(m.origSmiDeslt)
      invariant forall k :: 0 <= k < |all| ==>
                  all[k].props == if first <= k < first + j
                                  then old(all[k].props)["UniqueID" := UniqueId(k)]
                                  else old(all[k].props)
    {
      assert mols[j] == all[first + j];
      contId := contId + 1;
      mols[j].props := mols[j].props["UniqueID" := NatStr(contId)];
    }
  }

  /** `add_mol_id_props`: the variants are numbered "1", "2", ... in container order
      and then in variant order, each number stored as its `UniqueID` property. */
  method AddMolIdProps(cs: seq<Container>)
    requires forall k, l :: 0 <= k < l < |Variants(cs)| ==> Variants(cs)[k] != Variants(cs)[l]
    modifies set m | m in Variants(cs)
    ensures Variants(cs) == old(Variants(cs))
    ensures PropsOf(Variants(cs)) == WithUniqueIds(old(PropsOf(Variants(cs))))
    ensures forall m | m in Variants(cs) ::
              && m.name == old(m.name) && m.genealogy == old(m.genealogy) && m.contnrIdx == old(m.contnrIdx)
              && m.origSmi == old(m.origSmi) && m.origSmiDeslt == old(m.origSmiDeslt)
  {
    ghost var lists := MolLists(cs);
    ghost var vs := Flatten(lists);
    ghost var before := PropsOf(vs);
    var contId := 0;
    for i := 0 to |cs|
      invariant forall c :: 0 <= c < |cs| ==> cs[c].mols == lists[c]
      invariant contId == |Flatten(lists[..i])| <= |vs|
      invariant forall k :: 0 <= k < |vs| ==>
                  vs[k].props == if k < contId then before[k]["UniqueID" := UniqueId(k)] else before[k]
      invariant forall m | m in vs ::
                  && m.name == old(m.name) && m.genealogy == old(m.genealogy) && m.contnrIdx == old(m.contnrIdx)
                  && m.origSmi == old(m.origSmi) && m.origSmiDeslt == old(m.origSmiDeslt)
    {
      var mols := cs[i].mols;
      FlattenAt(lists, i);
      NumberVariants(mols, contId, vs);
      contId := contId + |mols|;
    }
    assert lists[..|cs|] == lists;
    assert MolLists(cs) == lists;
    assert PropsOf(vs) == WithUniqueIds(before);
  }

  // ---------------------------------------------------------------------------
  // deal_with_failed_molecules

  /** The report line of a container: `orig_smi + "\t" + name`. */
  function FailedLine(c: Container): string
  {
    c.origSmi + "\t" + c.name
  }

  /** The report lines of the containers that ended with no variant, in container order. */
  ghost function FailedLines(cs: seq<Container>): seq<string>
    reads cs
  {
    if cs == [] then []
    else
      var last := cs[|cs| - 1];
      FailedLines(cs[..|cs| - 1]) + if |last.mols| == 0 then [FailedLine(last)] else []
  }

  /** A line is reported exactly when it is the line of a container with no variant. */
  lemma {:induction false} FailedLinesExactly(cs: seq<Container>, line: string)
    ensures line in FailedLines(cs) <==>
              exists c :: 0 <= c < |cs| && |cs[c].mols| == 0 && line == FailedLine(cs[c])
  {
    if cs != [] {
      var n := |cs|;
      FailedLinesExactly(cs[..n - 1], line);
      if line in FailedLines(cs) && line !in FailedLines(cs[..n - 1]) {
        assert |cs[n - 1].mols| == 0 && line == FailedLine(cs[n - 1]);
      }
      if exists c :: 0 <= c < n && |cs[c].mols| == 0 && line == FailedLine(cs[c]) {
        var c :| 0 <= c < n && |cs[c].mols| == 0 && line == FailedLine(cs[c]);
        if c < n - 1 {
          assert cs[..n - 1][c] == cs[c];
        }
      }
    }
  }

  /** A container with no variant is reported after the ones before it. */
  lemma {:induction false} FailedLinePosition(cs: seq<Container>, c: nat)
    requires c < |cs| && |cs[c].mols| == 0
    ensures |FailedLines(cs[..c])| < |FailedLines(cs)|
    ensures FailedLines(cs)[|FailedLines(cs[..c])|] == FailedLine(cs[c])
  {
    var n := |cs|;
    var init := cs[..n - 1];
    if c == n - 1 {
      assert cs[..c] == init;
    } else {
      assert init[..c] == cs[..c];
      FailedLinePosition(init, c);
    }
  }

  /** `deal_with_failed_molecules`: the name and contents of the `.failed.smi` file, or
      nothing when every container has a variant. The containers are only read. */
  method DealWithFailedMolecules(cs: seq<Container>, outputFile: string) returns (report: Option<(string, string)>)
    ensures report.None? <==> FailedLines(cs) == []
    ensures report.Some? ==> report.value == (outputFile + ".failed.smi", Join("\n", FailedLines(cs)))
  {
    var failedOnes: seq<string> := [];
    for i := 0 to |cs|
      invariant failedOnes == FailedLines(cs[..i])
    {
      assert cs[..i + 1][..i] == cs[..i];
      if |cs[i].mols| == 0 {
        var astr := cs[i].origSmi + "\t" + cs[i].name;
        failedOnes := failedOnes + [astr];
      }
    }
    assert cs[..|cs|] == cs;
    if |failedOnes| > 0 {
      return Some((outputFile + ".failed.smi", Join("\n", failedOnes)));
    }
    return None;
  }

  /** Splitting the report at its newlines gives back one line per failed container
      (no trailing newline), provided no SMILES or name holds a newline. */
  lemma FailedReportSplits(cs: seq<Container>)
    requires FailedLines(cs) != []
    requires forall c :: 0 <= c < |cs| ==> Lacks(cs[c].origSmi, '\n') && Lacks(cs[c].name, '\n')
    ensures SplitOn(Join("\n", FailedLines(cs)), '\n') == FailedLines(cs)
  {
    var ls := FailedLines(cs);
    forall k | 0 <= k < |ls| ensures Lacks(ls[k], '\n') {
      FailedLinesExactly(cs, ls[k]);
      var c :| 0 <= c < |cs| && |cs[c].mols| == 0 && ls[k] == FailedLine(cs[c]);
      var s := cs[c].origSmi + "\t" + cs[c].name;
      assert Lacks(cs[c].origSmi, '\n') && Lacks(cs[c].name, '\n');
      forall i | 0 <= i < |s| ensures s[i] != '\n' {
        if i < |cs[c].origSmi| {
          assert s[i] == cs[c].origSmi[i];
        } else if i > |cs[c].origSmi| {
          assert s[i] == cs[c].name[i - |cs[c].origSmi| - 1];
        }
      }
    }
    SplitJoin(ls, '\n');
  }
}
