/** The molecule objects the pipeline passes between its steps: a variant
    (`MyMol`), the container that holds the variants of one input compound
    (`MolContainer`), an input record, and the chemistry library calls, which are
    left abstract. */
module Molecules {
  import opened Wrappers
  import opened PyValues

  /** An RDKit molecule. Nothing about its structure is modelled. */
  type RdMol(==)

  /** The chemistry calls the modelled code makes, as uninterpreted functions.
      - `unassignedBonds(s)`: `detect_unassigned_bonds(s) is None`, i.e. the SMILES
        is thrown out;
      - `canonical(s)`: the container's canonical SMILES, `None` when it is not a string;
      - `fromSmiles(s)`: the molecule a container builds from its input SMILES;
      - `protonate(settings)`: the SMILES strings Dimorphite-DL returns;
      - `parseAddHs(s)`: `Chem.AddHs(Chem.MolFromSmiles(s))`; `None` stands for a SMILES
        RDKit cannot parse, where the code itself raises, since `AddHs(None)` raises;
      - `bizarre(m)`: `remove_bizarre_substruc()` did not return `False`;
      - `smiles(m)`, `smilesNoH(m)`: `MyMol.smiles()` and `MyMol.smiles(True)`. */
  datatype Chemistry = Chemistry(
    unassignedBonds: string -> bool,
    canonical: string -> Option<string>,
    fromSmiles: string -> RdMol,
    protonate: map<string, Value> -> seq<string>,
    parseAddHs: string -> Option<RdMol>,
    bizarre: RdMol -> bool,
    smiles: RdMol -> string,
    smilesNoH: RdMol -> string)

  /** One input compound as a loader returns it: `(smiles, name, props)`. */
  datatype Record = Record(smiles: string, name: string, props: map<string, Value>)

  /** A molecule variant (`MyMol.MyMol`): an RDKit molecule and the bookkeeping the
      pipeline attaches to it. */
  class MyMol {
    const rdMol: RdMol
    var name: string
    var origSmi: string
    var origSmiDeslt: string
    var contnrIdx: int
    var genealogy: seq<string>
    var props: map<string, string>

    constructor (m: RdMol)
      ensures rdMol == m && genealogy == [] && props == map[]
    {
      rdMol := m;
      name := "";
      origSmi := "";
      origSmiDeslt := "";
      contnrIdx := -1;
      genealogy := [];
      props := map[];
    }
  }

  /** A `MolContainer.MolContainer`: the input compound, its identity, the molecule
      built from its input SMILES and the variants produced so far. */
  class Container {
    const origSmi: string
    const name: string
    const contnrIdx: int
    const props: map<string, Value>
    const origSmiCanonical: Option<string>
    const molOrig: MyMol
    var mols: seq<MyMol>

    /** `MolContainer(smiles, name, idx, props)`. */
    constructor (smiles: string, nm: string, idx: int, ps: map<string, Value>, chem: Chemistry)
      ensures origSmi == smiles && name == nm && contnrIdx == idx && props == ps
      ensures origSmiCanonical == chem.canonical(smiles)
      ensures fresh(molOrig) && molOrig.rdMol == chem.fromSmiles(smiles)
      ensures molOrig.origSmi == smiles && molOrig.name == nm && molOrig.genealogy == []
      ensures mols == []
    {
      origSmi := smiles;
      name := nm;
      contnrIdx := idx;
      props := ps;
      origSmiCanonical := chem.canonical(smiles);
      var m := new MyMol(chem.fromSmiles(smiles));
      m.origSmi := smiles;
      m.name := nm;
      molOrig := m;
      mols := [];
    }
  }
}
