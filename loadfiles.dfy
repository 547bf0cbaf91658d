/** The input loaders of gypsum/Steps/IO/LoadFiles.py: a SMILES file read line by
    line, and the naming and filtering half of the SDF loader, run over molecules
    RDKit has already read. Both give each input a name and rename repeated names
    `{name}_copy_{k}`. */
module LoadFiles {
  import opened Wrappers
  import opened PyValues
  import opened Text
  import opened Molecules

  // ---------------------------------------------------------------------------
  // Renaming repeated names

  /** `"{}_copy_{}".format(name, k)`. */
  function CopyName(name: string, k: nat): string
  {
    name + "_copy_" + NatStr(k)
  }

  /** A separator followed by digits: every character after it is a digit. */
  lemma {:induction false} SeparatorBeforeDigits(s: string, pre: string, c: char, d: string)
    requires s == pre + [c] + d && AllDigits(d)
    ensures s[|pre|] == c
    ensures forall i :: |pre| < i < |s| ==> '0' <= s[i] <= '9'
  {
    forall i | |pre| < i < |s| ensures '0' <= s[i] <= '9' {
      assert s[i] == d[i - |pre| - 1];
    }
  }

  /** Digits followed by a separator: every character before it is a digit. */
  lemma {:induction false} DigitsBeforeSeparator(s: string, d: string, c: char, x: string)
    requires s == d + [c] + x && AllDigits(d)
    ensures s[|d|] == c
    ensures forall i :: 0 <= i < |d| ==> '0' <= s[i] <= '9'
  {
  }

  /** A copy name determines the name and the number it was made from. */
  lemma {:induction false} CopyNameInjective(a: string, k: nat, b: string, l: nat)
    requires CopyName(a, k) == CopyName(b, l)
    ensures a == b && k == l
  {
    var s := CopyName(a, k);
    var d1, d2 := NatStr(k), NatStr(l);
    var pre1, pre2 := a + "_copy", b + "_copy";
    assert s == pre1 + ['_'] + d1 && s == pre2 + ['_'] + d2;
    SeparatorBeforeDigits(s, pre1, '_', d1);
    SeparatorBeforeDigits(s, pre2, '_', d2);
    assert |pre1| == |pre2|;
    assert d1 == s[|pre1| + 1..] == d2;
    NatStrInjective(k, l);
    assert pre1 == s[..|pre1|] == pre2;
    assert a == pre1[..|a|] && b == pre2[..|b|];
  }

  /** Lines 45-61 (and 107-123): a name already used becomes its next copy name;
      `dup` counts, per name, the copies made so far plus the original. */
  function Rename(names: seq<string>, dup: map<string, nat>, name: string): (string, map<string, nat>)
  {
    if name in names then
      var k := if name in dup then dup[name] + 1 else 2;
      (CopyName(name, k), dup[name := k])
    else
      (name, dup)
  }

  /** The names after renaming, one after the other, and the final counters. */
  function Dedup(raw: seq<string>): (r: (seq<string>, map<string, nat>))
    ensures |r.0| == |raw|
  {
    if raw == [] then ([], map[])
    else
      var prev := Dedup(raw[..|raw| - 1]);
      var (name, dup) := Rename(prev.0, prev.1, raw[|raw| - 1]);
      (prev.0 + [name], dup)
  }

  /** No name is a copy name of a name in the list. */
  ghost predicate NoCopyCollision(raw: seq<string>)
  {
    forall i, j, k :: 0 <= i < |raw| && 0 <= j < |raw| ==> raw[i] != CopyName(raw[j], k)
  }

  /** The name entry `i` ends with: the name itself at its first occurrence, and
      `{name}_copy_{k}` at its k-th occurrence. */
  function ExpectedName(raw: seq<string>, i: nat): string
    requires i < |raw|
  {
    var before := multiset(raw[..i])[raw[i]];
    if before == 0 then raw[i] else CopyName(raw[i], before + 1)
  }

  /** What renaming a list of names leaves, when no name collides with a copy name:
      every name renamed as expected, every name of the list among the results, and a
      counter exactly for each name that repeats, holding its number of occurrences. */
  ghost predicate RenamedAsExpected(raw: seq<string>)
  {
    && (forall i :: 0 <= i < |raw| ==> Dedup(raw).0[i] == ExpectedName(raw, i))
    && (forall x :: x in raw ==> x in Dedup(raw).0)
    && (forall x :: x in Dedup(raw).1 <==> multiset(raw)[x] >= 2)
    && (forall x :: x in Dedup(raw).1 ==> Dedup(raw).1[x] == multiset(raw)[x])
  }

  /** The collision-free lists are closed under taking a prefix. */
  lemma {:induction false} NoCopyCollisionPrefix(raw: seq<string>, n: nat)
    requires n <= |raw| && NoCopyCollision(raw)
    ensures NoCopyCollision(raw[..n])
  {
    var init := raw[..n];
    forall i, j, k | 0 <= i < |init| && 0 <= j < |init| ensures init[i] != CopyName(init[j], k) {
      assert init[i] == raw[i] && init[j] == raw[j];
    }
  }

  /** Without collisions, a name is among the renamed names exactly when it is among
      the names before renaming. */
  lemma {:induction false} RenamedNameIn(init: seq<string>, x: string)
    requires NoCopyCollision(init + [x]) && RenamedAsExpected(init)
    ensures x in Dedup(init).0 <==> x in init
  {
    var raw := init + [x];
    var names := Dedup(init).0;
    if x in names {
      var j :| 0 <= j < |names| && names[j] == x;
      assert names[j] == ExpectedName(init, j);
      assert raw[|init|] == x && raw[j] == init[j];
    }
  }

  /** Renaming one more name keeps `RenamedAsExpected`. */
  lemma {:induction false} RenamedStep(init: seq<string>, x: string)
    requires NoCopyCollision(init + [x]) && RenamedAsExpected(init)
    ensures RenamedAsExpected(init + [x])
  {
    RenamedNames(init, x);
    RenamedCounters(init, x);
  }

  /** The names after renaming one more name. */
  lemma {:induction false} RenamedNames(init: seq<string>, x: string)
    requires NoCopyCollision(init + [x]) && RenamedAsExpected(init)
    ensures forall i :: 0 <= i < |init| + 1 ==> Dedup(init + [x]).0[i] == ExpectedName(init + [x], i)
    ensures forall z :: z in init + [x] ==> z in Dedup(init + [x]).0
  {
    var raw := init + [x];
    var n := |init|;
    assert raw[..n] == init && raw[n] == x;
    var (names, dup) := Dedup(init);
    var (y, dup') := Rename(names, dup, x);
    assert Dedup(raw) == (names + [y], dup') by {
      DedupStep(init, x);
    }
    assert y == ExpectedName(raw, n) by {
      RenamedLast(init, x);
    }
    forall i | 0 <= i < |raw| ensures Dedup(raw).0[i] == ExpectedName(raw, i) {
      if i < n {
        assert raw[..i] == init[..i] && raw[i] == init[i];
        assert Dedup(raw).0[i] == names[i];
      }
    }
    forall z | z in raw ensures z in Dedup(raw).0 {
      if z != x {
        assert z in init;
        assert z in names;
      }
    }
  }

  /** The name one more name is renamed to. */
  lemma {:induction false} RenamedLast(init: seq<string>, x: string)
    requires NoCopyCollision(init + [x]) && RenamedAsExpected(init)
    ensures Rename(Dedup(init).0, Dedup(init).1, x).0 == ExpectedName(init + [x], |init|)
  {
    assert (init + [x])[..|init|] == init;
    RenamedNameIn(init, x);
    if x in init {
      assert multiset(init)[x] >= 1;
    }
  }

  /** The counters after renaming one more name. */
  lemma {:induction false} RenamedCounters(init: seq<string>, x: string)
    requires NoCopyCollision(init + [x]) && RenamedAsExpected(init)
    ensures forall z :: z in Dedup(init + [x]).1 <==> multiset(init + [x])[z] >= 2
    ensures forall z :: z in Dedup(init + [x]).1 ==> Dedup(init + [x]).1[z] == multiset(init + [x])[z]
  {
    var (names, dup) := Dedup(init);
    var dup' := Rename(names, dup, x).1;
    assert Dedup(init + [x]).1 == dup' by {
      DedupStep(init, x);
    }
    var m := multiset(init + [x]);
    assert m == multiset(init) + multiset{x};
    RenamedNameIn(init, x);
    forall z ensures z in dup' <==> m[z] >= 2 {
      if z != x {
        assert m[z] == multiset(init)[z];
      }
    }
    forall z | z in dup' ensures dup'[z] == m[z] {
      if z != x {
        assert m[z] == multiset(init)[z];
      }
    }
  }

  /** When no name collides with a copy name, the first occurrence of a name keeps it
      and its k-th occurrence (k >= 2) becomes `{name}_copy_{k}`. */
  lemma {:induction false} DedupRenamesRepeats(raw: seq<string>)
    requires NoCopyCollision(raw)
    ensures forall i :: 0 <= i < |raw| ==> Dedup(raw).0[i] == ExpectedName(raw, i)
    ensures RenamedAsExpected(raw)
  {
    if raw != [] {
      var n := |raw| - 1;
      NoCopyCollisionPrefix(raw, n);
      DedupRenamesRepeats(raw[..n]);
      assert raw == raw[..n] + [raw[n]];
      RenamedStep(raw[..n], raw[n]);
    }
  }

  /** An occurrence of a name is counted among the occurrences before any later entry. */
  lemma {:induction false} OccurrencesGrow(raw: seq<string>, i: nat, j: nat)
    requires i < j <= |raw|
    ensures multiset(raw[..j])[raw[i]] > multiset(raw[..i])[raw[i]]
  {
    assert raw[..j] == raw[..i] + [raw[i]] + raw[i + 1..j];
  }

  /** When no name collides with a copy name, the renamed names are pairwise different. */
  lemma {:induction false} DedupDistinct(raw: seq<string>)
    requires NoCopyCollision(raw)
    ensures forall i, j :: 0 <= i < j < |raw| ==> Dedup(raw).0[i] != Dedup(raw).0[j]
  {
    DedupRenamesRepeats(raw);
    var names := Dedup(raw).0;
    forall i, j | 0 <= i < j < |raw| ensures names[i] != names[j] {
      var ci, cj := multiset(raw[..i])[raw[i]], multiset(raw[..j])[raw[j]];
      if names[i] == names[j] {
        if ci == 0 && cj == 0 {
          OccurrencesGrow(raw, i, j);
        } else if ci != 0 && cj != 0 {
          CopyNameInjective(raw[i], ci + 1, raw[j], cj + 1);
          OccurrencesGrow(raw, i, j);
        }
      }
    }
  }

  /** A copy name is not checked against the names already used: a name that looks like
      a copy name can be handed out twice. */
  lemma {:induction false} DedupCanRepeat()
    ensures Dedup(["a", "a_copy_2", "a"]).0 == ["a", "a_copy_2", "a_copy_2"]
  {
    var a, c := "a", "a_copy_2";
    assert NatStr(2) == "2";
    assert CopyName(a, 2) == c;
    assert [] + [a] == [a] && [a] + [c] == [a, c] && [a, c] + [a] == [a, c, a];
    DedupStep([], a);
    assert Dedup([a]) == ([a], map[]);
    assert c !in [a] by {
      assert |c| != |a|;
    }
    DedupStep([a], c);
    assert Dedup([a, c]) == ([a, c], map[]);
    DedupStep([a, c], a);
  }

  // ---------------------------------------------------------------------------
  // load_smiles_file

  /** The SMILES and the name on a line that is not white space only: its first
      white-space separated token and the other tokens joined by single spaces. */
  function ParseLine(line: string): (r: (string, string))
    requires !AllSpace(line)
    ensures IsWord(r.0)
  {
    var chunks := Words(line);
    (chunks[0], Join(" ", chunks[1..]))
  }

  /** The (SMILES, name) pairs of the non-blank lines, in line order. */
  function Entries(lines: seq<string>): (es: seq<(string, string)>)
    ensures |es| <= |lines|
  {
    if lines == [] then [] else Entries(lines[..|lines| - 1]) + LineEntry(lines[|lines| - 1])
  }

  /** The entry a line gives, reading past leading white space: none when there is
      nothing else; otherwise the first token and the tokens after it. */
  function LineEntry(line: string): (e: seq<(string, string)>)
    ensures |e| <= 1
    decreases |line|
  {
    if line == [] then []
    else if IsSpace(line[0]) then LineEntry(line[1..])
    else
      var n := WordEnd(line);
      [(line[..n], Join(" ", Words(line[n..])))]
  }

  /** A line of white space only gives no entry; any other line gives its SMILES and name. */
  lemma {:induction false} LineEntryParses(line: string)
    ensures LineEntry(line) == if AllSpace(line) then [] else [ParseLine(line)]
    decreases |line|
  {
    if line != [] && IsSpace(line[0]) {
      LineEntryParses(line[1..]);
      assert AllSpace(line) <==> AllSpace(line[1..]) by {
        assert forall i :: 0 < i < |line| ==> line[i] == line[1..][i - 1];
      }
    }
  }

  /** The entries of a prefix of the lines are a prefix of the entries. */
  lemma {:induction false} EntriesPrefix(lines: seq<string>, n: nat)
    requires n <= |lines|
    ensures Entries(lines[..n]) <= Entries(lines)
  {
    if n < |lines| {
      var init := lines[..|lines| - 1];
      assert init[..n] == lines[..n];
      EntriesPrefix(init, n);
    } else {
      assert lines[..n] == lines;
    }
  }

  /** Every non-blank line gives one entry, numbered by the non-blank lines before it. */
  lemma {:induction false} EntryOfLine(lines: seq<string>, p: nat)
    requires p < |lines| && !AllSpace(lines[p])
    ensures NonBlankCount(lines[..p]) < |Entries(lines)|
    ensures Entries(lines)[NonBlankCount(lines[..p])] == ParseLine(lines[p])
  {
    assert lines[..p + 1][..p] == lines[..p];
    EntriesPrefix(lines, p + 1);
    EntriesCount(lines[..p]);
    LineEntryParses(lines[p]);
  }

  /** The number of non-blank lines. */
  function NonBlankCount(lines: seq<string>): nat
  {
    if lines == [] then 0 else NonBlankCount(lines[..|lines| - 1]) + if AllSpace(lines[|lines| - 1]) then 0 else 1
  }

  /** There are as many entries as non-blank lines. */
  lemma {:induction false} EntriesCount(lines: seq<string>)
    ensures |Entries(lines)| == NonBlankCount(lines)
  {
    if lines != [] {
      EntriesCount(lines[..|lines| - 1]);
      LineEntryParses(lines[|lines| - 1]);
    }
  }

  /** Joining words with single spaces adds only white space. */
  lemma {:induction false} JoinSpacesKeepsText(ws: seq<string>)
    requires forall k :: 0 <= k < |ws| ==> IsWord(ws[k])
    ensures NonSpace(Join(" ", ws)) == Concat(ws)
    decreases |ws|
  {
    if |ws| == 1 {
      NonSpaceOfWord(ws[0]);
      assert Concat(ws[1..]) == [];
    } else if |ws| > 1 {
      var rest := Join(" ", ws[1..]);
      NonSpaceAppend(ws[0] + " ", rest);
      NonSpaceAppend(ws[0], " ");
      NonSpaceOfWord(ws[0]);
      JoinSpacesKeepsText(ws[1..]);
    }
  }

  /** Tokenizing loses only white space: the SMILES followed by the name holds every
      other character of the line, in order. */
  lemma {:induction false} ParseLineKeepsText(line: string)
    requires !AllSpace(line)
    ensures NonSpace(line) == ParseLine(line).0 + NonSpace(ParseLine(line).1)
  {
    var chunks := Words(line);
    WordsKeepEveryNonSpaceChar(line);
    JoinSpacesKeepsText(chunks[1..]);
    assert Concat(chunks) == chunks[0] + Concat(chunks[1..]);
  }

  /** `"untitled_lig_{}_line_{}".format(missing_name_counter, line_counter)`. */
  function UntitledLine(m: nat, l: nat): string
  {
    "untitled_lig_" + NatStr(m) + "_line_" + NatStr(l)
  }

  /** The number of entries without a name. */
  function Unnamed(es: seq<(string, string)>): (n: nat)
    ensures n <= |es|
  {
    if es == [] then 0 else Unnamed(es[..|es| - 1]) + if es[|es| - 1].1 == "" then 1 else 0
  }

  /** The names of the entries before renaming: an unnamed entry is named after the
      number of unnamed entries and of entries before it. */
  function RawLineNames(es: seq<(string, string)>): (names: seq<string>)
    ensures |names| == |es|
  {
    if es == [] then []
    else
      var n := |es| - 1;
      RawLineNames(es[..n]) + [if es[n].1 == "" then UntitledLine(Unnamed(es[..n]), n) else es[n].1]
  }

  /** Entry `k` keeps its name, or is named `untitled_lig_{m}_line_{k}` with `m` the
      number of unnamed entries before it. */
  lemma {:induction false} RawLineName(es: seq<(string, string)>, k: nat)
    requires k < |es|
    ensures RawLineNames(es)[k] == if es[k].1 == "" then UntitledLine(Unnamed(es[..k]), k) else es[k].1
  {
    var n := |es| - 1;
    if k < n {
      assert es[..n][..k] == es[..k] && es[..n][k] == es[k];
      RawLineName(es[..n], k);
    }
  }

  /** The records of the entries, named by `names`, with no properties. */
  function LineRecords(es: seq<(string, string)>, names: seq<string>): (data: seq<Record>)
    requires |names| == |es|
    ensures |data| == |es|
  {
    if es == [] then []
    else
      var n := |es| - 1;
      LineRecords(es[..n], names[..n]) + [Record(es[n].0, names[n], map[])]
  }

  /** Record `k` holds the SMILES of entry `k`, name `k` and no properties. */
  lemma {:induction false} LineRecordAt(es: seq<(string, string)>, names: seq<string>, k: nat)
    requires |names| == |es| && k < |es|
    ensures LineRecords(es, names)[k] == Record(es[k].0, names[k], map[])
  {
    var n := |es| - 1;
    if k < n {
      LineRecordAt(es[..n], names[..n], k);
    }
  }

  /** The records `load_smiles_file` returns. */
  function SmilesRecords(lines: seq<string>): (data: seq<Record>)
    ensures |data| == |Entries(lines)|
  {
    var es := Entries(lines);
    LineRecords(es, Dedup(RawLineNames(es)).0)
  }

  /** The record of a non-blank line: numbered by the non-blank lines before it, it
      holds the line's SMILES, its renamed name and no properties. */
  lemma {:induction false} SmilesRecordOfLine(lines: seq<string>, p: nat)
    requires p < |lines| && !AllSpace(lines[p])
    ensures NonBlankCount(lines[..p]) < |SmilesRecords(lines)|
    ensures SmilesRecords(lines)[NonBlankCount(lines[..p])] ==
              Record(ParseLine(lines[p]).0, Dedup(RawLineNames(Entries(lines))).0[NonBlankCount(lines[..p])], map[])
  {
    EntryOfLine(lines, p);
    var es := Entries(lines);
    LineRecordAt(es, Dedup(RawLineNames(es)).0, NonBlankCount(lines[..p]));
  }

  /** When no name collides with a copy name, the records of a SMILES file have
      pairwise different names. */
  lemma {:induction false} SmilesNamesDistinct(lines: seq<string>)
    requires NoCopyCollision(RawLineNames(Entries(lines)))
    ensures forall i, j :: 0 <= i < j < |SmilesRecords(lines)| ==> SmilesRecords(lines)[i].name != SmilesRecords(lines)[j].name
  {
    var es := Entries(lines);
    var names := Dedup(RawLineNames(es)).0;
    DedupDistinct(RawLineNames(es));
    forall i, j | 0 <= i < j < |SmilesRecords(lines)| ensures SmilesRecords(lines)[i].name != SmilesRecords(lines)[j].name {
      LineRecordAt(es, names, i);
      LineRecordAt(es, names, j);
    }
  }

  /** The entries of one more line. */
  lemma {:induction false} EntriesStep(lines: seq<string>, i: nat)
    requires i < |lines|
    ensures Entries(lines[..i + 1]) == Entries(lines[..i]) + LineEntry(lines[i])
  {
    assert lines[..i + 1][..i] == lines[..i];
  }

  /** The counters and names before renaming, one entry more. */
  lemma {:induction false} RawLineNamesStep(es: seq<(string, string)>, e: (string, string))
    ensures Unnamed(es + [e]) == Unnamed(es) + if e.1 == "" then 1 else 0
    ensures RawLineNames(es + [e]) ==
              RawLineNames(es) + [if e.1 == "" then UntitledLine(Unnamed(es), |es|) else e.1]
  {
    assert (es + [e])[..|es|] == es;
  }

  /** Lines 45-61 (and 107-123): `if name in name_list:` bump or start the counter of
      `name` and take the copy name it gives. */
  method RenameRepeat(nameList: seq<string>, duplicateNames: map<string, nat>, given: string)
    returns (name: string, duplicateNames': map<string, nat>)
    ensures (name, duplicateNames') == Rename(nameList, duplicateNames, given)
  {
    name := given;
    duplicateNames' := duplicateNames;
    if name in nameList {
      if name in duplicateNames' {
        duplicateNames' := duplicateNames'[name := duplicateNames'[name] + 1];
      } else {
        duplicateNames' := duplicateNames'[name := 2];
      }
      name := CopyName(name, duplicateNames'[name]);
    }
  }

  /** Renaming one more name. */
  lemma {:induction false} DedupStep(raw: seq<string>, x: string)
    ensures Dedup(raw + [x]).0 == Dedup(raw).0 + [Rename(Dedup(raw).0, Dedup(raw).1, x).0]
    ensures Dedup(raw + [x]).1 == Rename(Dedup(raw).0, Dedup(raw).1, x).1
  {
    assert (raw + [x])[..|raw|] == raw;
  }

  /** One more record. */
  lemma {:induction false} LineRecordsStep(es: seq<(string, string)>, names: seq<string>, e: (string, string), name: string)
    requires |names| == |es|
    ensures LineRecords(es + [e], names + [name]) == LineRecords(es, names) + [Record(e.0, name, map[])]
  {
    assert (es + [e])[..|es|] == es;
    assert (names + [name])[..|es|] == names;
  }

  /** `line = line.strip()`, then, for a line that is not empty, `chunks = line.split()`,
      `smiles = chunks[0]` and `name = " ".join(chunks[1:])`. */
  method SplitLine(raw: string) returns (entry: Option<(string, string)>)
    ensures entry.None? ==> LineEntry(raw) == []
    ensures entry.Some? ==> LineEntry(raw) == [entry.value]
  {
    LineEntryParses(raw);
    var line := Strip(raw);
    if line == "" {
      return None;
    }
    WordsOfStrip(raw);
    var chunks := Words(line);
    var smiles := chunks[0];
    var name := Join(" ", chunks[1..]);
    entry := Some((smiles, name));
  }

  /** The naming half of the loop body of `load_smiles_file`: an unnamed line gets an
      untitled name, then a name already in `nameList` becomes its next copy name. */
  method NameLine(nameList: seq<string>, duplicateNames: map<string, nat>, missingNameCounter: nat,
                  lineCounter: nat, given: string)
    returns (name: string, duplicateNames': map<string, nat>, missingNameCounter': nat)
    ensures missingNameCounter' == if given == "" then missingNameCounter + 1 else missingNameCounter
    ensures (name, duplicateNames') ==
              Rename(nameList, duplicateNames, if given == "" then UntitledLine(missingNameCounter, lineCounter) else given)
  {
    name := given;
    duplicateNames' := duplicateNames;
    missingNameCounter' := missingNameCounter;
    if name == "" {
      name := UntitledLine(missingNameCounter', lineCounter);
      missingNameCounter' := missingNameCounter' + 1;
    }
    name, duplicateNames' := RenameRepeat(nameList, duplicateNames', name);
  }

  /** The loop body of `load_smiles_file` for a line with entry `e`, when `es` are the
      entries of the lines before it. */
  method LoadSmilesEntry(ghost es: seq<(string, string)>, e: (string, string), data: seq<Record>,
                         duplicateNames: map<string, nat>, missingNameCounter: nat, lineCounter: nat,
                         nameList: seq<string>)
    returns (data': seq<Record>, duplicateNames': map<string, nat>, missingNameCounter': nat,
             nameList': seq<string>)
    requires lineCounter == |es| && missingNameCounter == Unnamed(es)
    requires (nameList, duplicateNames) == Dedup(RawLineNames(es))
    requires data == LineRecords(es, nameList)
    ensures missingNameCounter' == Unnamed(es + [e])
    ensures (nameList', duplicateNames') == Dedup(RawLineNames(es + [e]))
    ensures data' == LineRecords(es + [e], nameList')
  {
    RawLineNamesStep(es, e);
    ghost var raw := if e.1 == "" then UntitledLine(Unnamed(es), |es|) else e.1;
    DedupStep(RawLineNames(es), raw);
    var name;
    name, duplicateNames', missingNameCounter' := NameLine(nameList, duplicateNames, missingNameCounter, lineCounter, e.1);
    LineRecordsStep(es, nameList, e, name);
    nameList' := nameList + [name];
    data' := data + [Record(e.0, name, map[])];
  }

  /** The loop body of `load_smiles_file` for line `i`. */
  method LoadSmilesLine(lines: seq<string>, i: nat, ghost es: seq<(string, string)>, data: seq<Record>,
                        duplicateNames: map<string, nat>, missingNameCounter: nat, lineCounter: nat,
                        nameList: seq<string>)
    returns (ghost es': seq<(string, string)>, data': seq<Record>, duplicateNames': map<string, nat>,
             missingNameCounter': nat, lineCounter': nat, nameList': seq<string>)
    requires i < |lines| && es == Entries(lines[..i])
    requires lineCounter == |es| && missingNameCounter == Unnamed(es)
    requires (nameList, duplicateNames) == Dedup(RawLineNames(es))
    requires data == LineRecords(es, nameList)
    ensures es' == Entries(lines[..i + 1])
    ensures lineCounter' == |es'| && missingNameCounter' == Unnamed(es')
    ensures (nameList', duplicateNames') == Dedup(RawLineNames(es'))
    ensures data' == LineRecords(es', nameList')
  {
    EntriesStep(lines, i);
    var entry := SplitLine(lines[i]);
    if entry.Some? {
      data', duplicateNames', missingNameCounter', nameList' :=
        LoadSmilesEntry(es, entry.value, data, duplicateNames, missingNameCounter, lineCounter, nameList);
      lineCounter' := lineCounter + 1;
      es' := es + [entry.value];
    } else {
      es', data', duplicateNames', missingNameCounter', lineCounter', nameList' :=
        es, data, duplicateNames, missingNameCounter, lineCounter, nameList;
      assert es + [] == es;
    }
  }

  /** `load_smiles_file` over the lines of the file. */
  method LoadSmilesFile(lines: seq<string>) returns (data: seq<Record>)
    ensures data == SmilesRecords(lines)
  {
    data := [];
    var duplicateNames: map<string, nat> := map[];
    var missingNameCounter: nat := 0;
    var lineCounter: nat := 0;
    var nameList: seq<string> := [];
    ghost var es: seq<(string, string)> := [];
    for i := 0 to |lines|
      invariant es == Entries(lines[..i])
      invariant lineCounter == |es| && missingNameCounter == Unnamed(es)
      invariant (nameList, duplicateNames) == Dedup(RawLineNames(es))
      invariant data == LineRecords(es, nameList)
    {
      es, data, duplicateNames, missingNameCounter, lineCounter, nameList :=
        LoadSmilesLine(lines, i, es, data, duplicateNames, missingNameCounter, lineCounter, nameList);
    }
    assert lines[..|lines|] == lines;
  }

  // ---------------------------------------------------------------------------
  // load_sdf_file

  /** A molecule RDKit read from the SDF file: its canonical SMILES, its `_Name`
      property (`None` when reading it raises) and its properties (`None` when
      `GetPropsAsDict` raises). */
  datatype SdfMol = SdfMol(smiles: string, name: Option<string>, props: Option<map<string, Value>>)

  function GivenName(m: SdfMol): string
  {
    if m.name.Some? then m.name.value else ""
  }

  function PropsOf(m: SdfMol): map<string, Value>
  {
    if m.props.Some? then m.props.value else map[]
  }

  /** `"untitled_lig_{}_molnum_{}".format(missing_name_counter, mol_obj_counter)`. */
  function UntitledMol(m: nat, c: nat): string
  {
    "untitled_lig_" + NatStr(m) + "_molnum_" + NatStr(c)
  }

  /** Digits, then a separator: the digits are determined by the string. */
  lemma {:induction false} DigitsBeforeSeparatorUnique(t: string, d1: string, x1: string, d2: string, x2: string)
    requires t == d1 + ['_'] + x1 && t == d2 + ['_'] + x2
    requires AllDigits(d1) && AllDigits(d2)
    ensures d1 == d2
  {
    DigitsBeforeSeparator(t, d1, '_', x1);
    DigitsBeforeSeparator(t, d2, '_', x2);
    assert |d1| == |d2|;
    assert d1 == t[..|d1|] && d2 == t[..|d2|];
  }

  /** A made-up SDF name after its fixed prefix. */
  lemma {:induction false} UntitledMolSuffix(a: nat)
    ensures UntitledMol(a, a)[13..] == NatStr(a) + ['_'] + ("molnum_" + NatStr(a))
  {
    var p, t := "untitled_lig_", NatStr(a) + ['_'] + ("molnum_" + NatStr(a));
    assert UntitledMol(a, a) == p + t;
    assert |p| == 13;
    assert (p + t)[|p|..] == t;
  }

  /** The names the SDF loader makes up for unnamed molecules, as written, are all
      different: both numbers in them are the same counter. */
  lemma {:induction false} UntitledMolInjective(a: nat, b: nat)
    requires UntitledMol(a, a) == UntitledMol(b, b)
    ensures a == b
  {
    UntitledMolSuffix(a);
    UntitledMolSuffix(b);
    DigitsBeforeSeparatorUnique(UntitledMol(a, a)[13..], NatStr(a), "molnum_" + NatStr(a), NatStr(b), "molnum_" + NatStr(b));
    NatStrInjective(a, b);
  }

  /** The number of molecules without a name. */
  function UnnamedMols(ms: seq<SdfMol>): (n: nat)
    ensures n <= |ms|
  {
    if ms == [] then 0 else UnnamedMols(ms[..|ms| - 1]) + if GivenName(ms[|ms| - 1]) == "" then 1 else 0
  }

  /** The number of molecules with a SMILES, i.e. those a loader keeps. */
  function KeptCount(ms: seq<SdfMol>): (n: nat)
    ensures n <= |ms|
  {
    if ms == [] then 0 else KeptCount(ms[..|ms| - 1]) + if ms[|ms| - 1].smiles != "" then 1 else 0
  }

  /** The records `load_sdf_file` returns as written: a molecule with an empty SMILES
      is dropped; a named molecule keeps its name even when another molecule has the
      same one; an unnamed molecule is numbered by the unnamed molecules before it,
      in both places of its made-up name. */
  function SdfRecordsAsWritten(ms: seq<SdfMol>): (data: seq<Record>)
    ensures |data| <= |ms|
  {
    if ms == [] then []
    else
      var n := |ms| - 1;
      var m := ms[n];
      var u := UnnamedMols(ms[..n]);
      var name := if GivenName(m) == "" then UntitledMol(u, u) else GivenName(m);
      SdfRecordsAsWritten(ms[..n]) + if m.smiles != "" then [Record(m.smiles, name, PropsOf(m))] else []
  }

  /** The records as written, one molecule more. */
  lemma {:induction false} SdfRecordsAsWrittenStep(ms: seq<SdfMol>, m: SdfMol)
    ensures UnnamedMols(ms + [m]) == UnnamedMols(ms) + if GivenName(m) == "" then 1 else 0
    ensures SdfRecordsAsWritten(ms + [m]) ==
              SdfRecordsAsWritten(ms) +
              if m.smiles == "" then []
              else [Record(m.smiles, if GivenName(m) == "" then UntitledMol(UnnamedMols(ms), UnnamedMols(ms)) else GivenName(m), PropsOf(m))]
  {
    assert (ms + [m])[..|ms|] == ms;
  }

  /** As written, there is one record per molecule with a SMILES. */
  lemma {:induction false} SdfRecordsAsWrittenCount(ms: seq<SdfMol>)
    ensures |SdfRecordsAsWritten(ms)| == KeptCount(ms)
  {
    if ms != [] {
      SdfRecordsAsWrittenCount(ms[..|ms| - 1]);
    }
  }

  /** As written, molecule `p` with a SMILES gives the record numbered by the kept
      molecules before it. The record holds its SMILES and properties, and its given
      name or, for the `u`-th unnamed molecule, `untitled_lig_{u}_molnum_{u}`. */
  lemma {:induction false} SdfRecordAsWrittenOfMol(ms: seq<SdfMol>, p: nat)
    requires p < |ms| && ms[p].smiles != ""
    ensures KeptCount(ms[..p]) < |SdfRecordsAsWritten(ms)|
    ensures SdfRecordsAsWritten(ms)[KeptCount(ms[..p])] ==
              Record(ms[p].smiles,
                     if GivenName(ms[p]) == "" then UntitledMol(UnnamedMols(ms[..p]), UnnamedMols(ms[..p]))
                     else GivenName(ms[p]),
                     PropsOf(ms[p]))
  {
    var n := |ms| - 1;
    SdfRecordsAsWrittenCount(ms[..n]);
    if p < n {
      assert ms[..n][..p] == ms[..p] && ms[..n][p] == ms[p];
      SdfRecordAsWrittenOfMol(ms[..n], p);
    } else {
      assert ms[..p] == ms[..n];
    }
  }

  /** As written, every record comes from a molecule with a SMILES: record `j` is that
      of the molecule with `j` kept molecules before it. */
  lemma {:induction false} SdfRecordAsWrittenFrom(ms: seq<SdfMol>, j: nat) returns (p: nat)
    requires j < |SdfRecordsAsWritten(ms)|
    ensures p < |ms| && ms[p].smiles != "" && KeptCount(ms[..p]) == j
  {
    var n := |ms| - 1;
    SdfRecordsAsWrittenCount(ms[..n]);
    if j < |SdfRecordsAsWritten(ms[..n])| {
      p := SdfRecordAsWrittenFrom(ms[..n], j);
      assert ms[..n][..p] == ms[..p];
    } else {
      p := n;
      assert ms[..p] == ms[..n];
    }
  }

  /** The names made up so far, as written: the j-th is `UntitledMol(j, j)`. */
  predicate MadeUpNames(names: seq<string>)
    decreases |names|
  {
    names == [] ||
    (MadeUpNames(names[..|names| - 1]) && names[|names| - 1] == UntitledMol(|names| - 1, |names| - 1))
  }

  lemma {:induction false} MadeUpNamesAt(names: seq<string>, j: nat)
    requires MadeUpNames(names) && j < |names|
    ensures names[j] == UntitledMol(j, j)
    decreases |names|
  {
    if j < |names| - 1 {
      MadeUpNamesAt(names[..|names| - 1], j);
    }
  }

  /** The next made-up name is not among those made up before it. */
  lemma {:induction false} UntitledMolFresh(names: seq<string>)
    requires MadeUpNames(names)
    ensures UntitledMol(|names|, |names|) !in names
  {
    forall j | 0 <= j < |names| ensures names[j] != UntitledMol(|names|, |names|) {
      MadeUpNamesAt(names, j);
      if names[j] == UntitledMol(|names|, |names|) {
        UntitledMolInjective(j, |names|);
      }
    }
  }

  /** Lines 98-121 as written: the made-up name, then the duplicate handling, which
      leaves it as it is. */
  method NameUnnamedMol(nameList: seq<string>, duplicateNames: map<string, nat>,
                        missingNameCounter: nat, molObjCounter: nat)
    returns (name: string, duplicateNames': map<string, nat>)
    requires missingNameCounter == molObjCounter == |nameList| && MadeUpNames(nameList)
    ensures name == UntitledMol(|nameList|, |nameList|) && duplicateNames' == duplicateNames
    ensures MadeUpNames(nameList + [name])
  {
    name := UntitledMol(missingNameCounter, molObjCounter);
    UntitledMolFresh(nameList);
    name, duplicateNames' := RenameRepeat(nameList, duplicateNames, name);
    assert (nameList + [name])[..|nameList|] == nameList;
  }

  /** The loop body of `load_sdf_file` as written, for molecule `i`. */
  method LoadSdfMolAsWritten(ms: seq<SdfMol>, i: nat, data: seq<Record>, duplicateNames: map<string, nat>,
                             counter: nat, nameList: seq<string>)
    returns (data': seq<Record>, duplicateNames': map<string, nat>, counter': nat, nameList': seq<string>)
    requires i < |ms| && counter == UnnamedMols(ms[..i]) == |nameList| && MadeUpNames(nameList)
    requires data == SdfRecordsAsWritten(ms[..i])
    ensures counter' == UnnamedMols(ms[..i + 1]) == |nameList'| && MadeUpNames(nameList')
    ensures data' == SdfRecordsAsWritten(ms[..i + 1])
  {
    var mol := ms[i];
    assert ms[..i + 1] == ms[..i] + [mol];
    SdfRecordsAsWrittenStep(ms[..i], mol);
    var name := if mol.name.Some? then mol.name.value else "";
    counter', duplicateNames', nameList' := counter, duplicateNames, nameList;
    if name == "" {
      name, duplicateNames' := NameUnnamedMol(nameList, duplicateNames, counter, counter);
      counter' := counter + 1;
      nameList' := nameList + [name];
    }
    var properties := if mol.props.Some? then mol.props.value else map[];
    data' := data;
    if mol.smiles != "" {
      data' := data + [Record(mol.smiles, name, properties)];
    }
  }

  /** `load_sdf_file` as written: the duplicate handling and the molecule counter sit
      inside the branch for unnamed molecules. The duplicate handling never fires
      there, since every made-up name is new. The two counters of the source always
      agree, so the step method keeps one. */
  method LoadSdfFileAsWritten(ms: seq<SdfMol>) returns (data: seq<Record>)
    ensures data == SdfRecordsAsWritten(ms)
  {
    data := [];
    var duplicateNames: map<string, nat> := map[];
    var missingNameCounter: nat := 0;
    var molObjCounter: nat := 0;
    var nameList: seq<string> := [];
    for i := 0 to |ms|
      invariant missingNameCounter == molObjCounter == UnnamedMols(ms[..i]) == |nameList|
      invariant MadeUpNames(nameList)
      invariant data == SdfRecordsAsWritten(ms[..i])
    {
      data, duplicateNames, missingNameCounter, nameList :=
        LoadSdfMolAsWritten(ms, i, data, duplicateNames, missingNameCounter, nameList);
      molObjCounter := missingNameCounter;
    }
    assert ms[..|ms|] == ms;
  }

  /** As written, two molecules the file names alike keep the same name. */
  lemma {:induction false} SdfNamesPassThrough(s1: string, s2: string, name: string)
    requires s1 != "" && s2 != "" && name != ""
    ensures SdfRecordsAsWritten([SdfMol(s1, Some(name), None), SdfMol(s2, Some(name), None)]) ==
              [Record(s1, name, map[]), Record(s2, name, map[])]
  {
    var ms := [SdfMol(s1, Some(name), None), SdfMol(s2, Some(name), None)];
    assert ms[..1] == [ms[0]] && ms[..1][..0] == [];
  }

  /** The names of the molecules before renaming, with the molecule counter counting
      every molecule. */
  function RawMolNames(ms: seq<SdfMol>): (names: seq<string>)
    ensures |names| == |ms|
  {
    if ms == [] then []
    else
      var n := |ms| - 1;
      var u := UnnamedMols(ms[..n]);
      RawMolNames(ms[..n]) + [if GivenName(ms[n]) == "" then UntitledMol(u, n) else GivenName(ms[n])]
  }

  /** The records of the molecules with a SMILES, named by `names`. */
  function KeptMols(ms: seq<SdfMol>, names: seq<string>): (data: seq<Record>)
    requires |names| == |ms|
    ensures |data| <= |ms|
  {
    if ms == [] then []
    else
      var n := |ms| - 1;
      KeptMols(ms[..n], names[..n]) + if ms[n].smiles != "" then [Record(ms[n].smiles, names[n], PropsOf(ms[n]))] else []
  }

  /** The records the corrected SDF loader returns: names renamed like those of
      `load_smiles_file`, whether the file gave them or they were made up. */
  function SdfRecords(ms: seq<SdfMol>): (data: seq<Record>)
  {
    KeptMols(ms, Dedup(RawMolNames(ms)).0)
  }

  /** The names before renaming, one molecule more. */
  lemma {:induction false} RawMolNamesStep(ms: seq<SdfMol>, m: SdfMol)
    ensures UnnamedMols(ms + [m]) == UnnamedMols(ms) + if GivenName(m) == "" then 1 else 0
    ensures RawMolNames(ms + [m]) ==
              RawMolNames(ms) + [if GivenName(m) == "" then UntitledMol(UnnamedMols(ms), |ms|) else GivenName(m)]
  {
    assert (ms + [m])[..|ms|] == ms;
  }

  /** The records, one molecule more. */
  lemma {:induction false} KeptMolsStep(ms: seq<SdfMol>, names: seq<string>, m: SdfMol, name: string)
    requires |names| == |ms|
    ensures KeptMols(ms + [m], names + [name]) ==
              KeptMols(ms, names) + if m.smiles != "" then [Record(m.smiles, name, PropsOf(m))] else []
  {
    assert (ms + [m])[..|ms|] == ms;
    assert (names + [name])[..|ms|] == names;
  }

  /** There is one kept record per molecule with a SMILES. */
  lemma {:induction false} KeptMolsCount(ms: seq<SdfMol>, names: seq<string>)
    requires |names| == |ms|
    ensures |KeptMols(ms, names)| == KeptCount(ms)
  {
    if ms != [] {
      KeptMolsCount(ms[..|ms| - 1], names[..|ms| - 1]);
    }
  }

  /** Molecule `p` with a SMILES gives the record numbered by the kept molecules
      before it, holding its SMILES, name `p` and its properties. */
  lemma {:induction false} KeptMolAt(ms: seq<SdfMol>, names: seq<string>, p: nat)
    requires |names| == |ms| && p < |ms| && ms[p].smiles != ""
    ensures KeptCount(ms[..p]) < |KeptMols(ms, names)|
    ensures KeptMols(ms, names)[KeptCount(ms[..p])] == Record(ms[p].smiles, names[p], PropsOf(ms[p]))
  {
    var n := |ms| - 1;
    KeptMolsCount(ms[..n], names[..n]);
    if p < n {
      assert ms[..n][..p] == ms[..p] && ms[..n][p] == ms[p];
      KeptMolAt(ms[..n], names[..n], p);
    } else {
      assert ms[..p] == ms[..n];
    }
  }

  /** Every kept record comes from a molecule with a SMILES: record `j` is that of the
      molecule with `j` kept molecules before it. */
  lemma {:induction false} KeptMolFrom(ms: seq<SdfMol>, names: seq<string>, j: nat) returns (p: nat)
    requires |names| == |ms| && j < |KeptMols(ms, names)|
    ensures p < |ms| && ms[p].smiles != "" && KeptCount(ms[..p]) == j
  {
    var n := |ms| - 1;
    KeptMolsCount(ms[..n], names[..n]);
    if j < |KeptMols(ms[..n], names[..n])| {
      p := KeptMolFrom(ms[..n], names[..n], j);
      assert ms[..n][..p] == ms[..p];
    } else {
      p := n;
      assert ms[..p] == ms[..n];
    }
  }

  /** Name `k` before renaming: the given name, or `untitled_lig_{u}_molnum_{k}` for the
      `u`-th unnamed molecule. */
  lemma {:induction false} RawMolNameAt(ms: seq<SdfMol>, k: nat)
    requires k < |ms|
    ensures RawMolNames(ms)[k] ==
              if GivenName(ms[k]) == "" then UntitledMol(UnnamedMols(ms[..k]), k) else GivenName(ms[k])
  {
    var n := |ms| - 1;
    if k < n {
      assert ms[..n][..k] == ms[..k] && ms[..n][k] == ms[k];
      RawMolNameAt(ms[..n], k);
    } else {
      assert ms[..k] == ms[..n];
    }
  }

  /** The corrected loader: one record per molecule with a SMILES, in order; molecule
      `p` gives the record numbered by the kept molecules before it, holding its SMILES,
      its properties and its renamed name. */
  lemma {:induction false} SdfRecordOfMol(ms: seq<SdfMol>, p: nat)
    requires p < |ms| && ms[p].smiles != ""
    ensures |SdfRecords(ms)| == KeptCount(ms)
    ensures KeptCount(ms[..p]) < |SdfRecords(ms)|
    ensures SdfRecords(ms)[KeptCount(ms[..p])] ==
              Record(ms[p].smiles, Dedup(RawMolNames(ms)).0[p], PropsOf(ms[p]))
  {
    var names := Dedup(RawMolNames(ms)).0;
    KeptMolsCount(ms, names);
    KeptMolAt(ms, names, p);
  }

  /** The naming part of the corrected loop body: an unnamed molecule gets a made-up
      name, then a name already in `nameList` becomes its next copy name. */
  method NameSdfMol(nameList: seq<string>, duplicateNames: map<string, nat>, missingNameCounter: nat,
                    molObjCounter: nat, mol: SdfMol)
    returns (name: string, duplicateNames': map<string, nat>, missingNameCounter': nat)
    ensures missingNameCounter' == if GivenName(mol) == "" then missingNameCounter + 1 else missingNameCounter
    ensures (name, duplicateNames') ==
              Rename(nameList, duplicateNames,
                     if GivenName(mol) == "" then UntitledMol(missingNameCounter, molObjCounter) else GivenName(mol))
  {
    name := if mol.name.Some? then mol.name.value else "";
    missingNameCounter' := missingNameCounter;
    if name == "" {
      name := UntitledMol(missingNameCounter, molObjCounter);
      missingNameCounter' := missingNameCounter + 1;
    }
    name, duplicateNames' := RenameRepeat(nameList, duplicateNames, name);
  }

  /** The corrected loop body for molecule `mol`, when `prev` are the molecules before
      it: the molecule is named, counted and, when it has a SMILES, recorded. */
  method LoadSdfMol(ghost prev: seq<SdfMol>, mol: SdfMol, molObjCounter: nat, data: seq<Record>,
                    duplicateNames: map<string, nat>, missingNameCounter: nat, nameList: seq<string>)
    returns (data': seq<Record>, duplicateNames': map<string, nat>, missingNameCounter': nat, nameList': seq<string>)
    requires molObjCounter == |prev| && missingNameCounter == UnnamedMols(prev)
    requires (nameList, duplicateNames) == Dedup(RawMolNames(prev))
    requires data == KeptMols(prev, nameList)
    ensures missingNameCounter' == UnnamedMols(prev + [mol])
    ensures (nameList', duplicateNames') == Dedup(RawMolNames(prev + [mol]))
    ensures data' == KeptMols(prev + [mol], nameList')
  {
    RawMolNamesStep(prev, mol);
    ghost var raw := if GivenName(mol) == "" then UntitledMol(missingNameCounter, molObjCounter) else GivenName(mol);
    DedupStep(RawMolNames(prev), raw);
    var name;
    name, duplicateNames', missingNameCounter' := NameSdfMol(nameList, duplicateNames, missingNameCounter, molObjCounter, mol);
    KeptMolsStep(prev, nameList, mol, name);
    nameList' := nameList + [name];
    var properties := if mol.props.Some? then mol.props.value else map[];
    data' := data;
    if mol.smiles != "" {
      data' := data + [Record(mol.smiles, name, properties)];
    }
  }

  /** `load_sdf_file` with the duplicate handling and the molecule counter moved out
      of the branch for unnamed molecules, as in `load_smiles_file`. */
  method LoadSdfFile(ms: seq<SdfMol>) returns (data: seq<Record>)
    ensures data == SdfRecords(ms)
  {
    data := [];
    var duplicateNames: map<string, nat> := map[];
    var missingNameCounter: nat := 0;
    var molObjCounter: nat := 0;
    var nameList: seq<string> := [];
    for i := 0 to |ms|
      invariant molObjCounter == i && missingNameCounter == UnnamedMols(ms[..i])
      invariant (nameList, duplicateNames) == Dedup(RawMolNames(ms[..i]))
      invariant data == KeptMols(ms[..i], nameList)
    {
      assert ms[..i + 1] == ms[..i] + [ms[i]];
      data, duplicateNames, missingNameCounter, nameList :=
        LoadSdfMol(ms[..i], ms[i], molObjCounter, data, duplicateNames, missingNameCounter, nameList);
      molObjCounter := molObjCounter + 1;
    }
    assert ms[..|ms|] == ms;
  }

  /** Every record of `KeptMols` carries one of the given names. */
  lemma {:induction false} KeptMolsNamesFrom(ms: seq<SdfMol>, names: seq<string>)
    requires |names| == |ms|
    ensures forall i :: 0 <= i < |KeptMols(ms, names)| ==> KeptMols(ms, names)[i].name in names
  {
    if ms != [] {
      var n := |ms| - 1;
      KeptMolsNamesFrom(ms[..n], names[..n]);
      var prev := KeptMols(ms[..n], names[..n]);
      forall i | 0 <= i < |KeptMols(ms, names)| ensures KeptMols(ms, names)[i].name in names {
        if i < |prev| {
          assert KeptMols(ms, names)[i] == prev[i];
          assert prev[i].name in names[..n];
        }
      }
    }
  }

  /** Dropping the molecules without a SMILES keeps different names different. */
  lemma {:induction false} KeptMolsDistinct(ms: seq<SdfMol>, names: seq<string>)
    requires |names| == |ms|
    requires forall i, j :: 0 <= i < j < |names| ==> names[i] != names[j]
    ensures forall i, j :: 0 <= i < j < |KeptMols(ms, names)| ==> KeptMols(ms, names)[i].name != KeptMols(ms, names)[j].name
  {
    if ms != [] {
      var n := |ms| - 1;
      var prev := KeptMols(ms[..n], names[..n]);
      KeptMolsDistinct(ms[..n], names[..n]);
      KeptMolsNamesFrom(ms[..n], names[..n]);
      assert names[n] !in names[..n];
      var data := KeptMols(ms, names);
      forall i, j | 0 <= i < j < |data| ensures data[i].name != data[j].name {
        assert data[i] == prev[i];
        if j < |prev| {
          assert data[j] == prev[j];
        } else {
          assert prev[i].name in names[..n];
        }
      }
    }
  }

  /** With the correction, and when no name collides with a copy name, the records
      of an SDF file have pairwise different names. */
  lemma {:induction false} SdfNamesDistinct(ms: seq<SdfMol>)
    requires NoCopyCollision(RawMolNames(ms))
    ensures forall i, j :: 0 <= i < j < |SdfRecords(ms)| ==> SdfRecords(ms)[i].name != SdfRecords(ms)[j].name
  {
    DedupDistinct(RawMolNames(ms));
    KeptMolsDistinct(ms, Dedup(RawMolNames(ms)).0);
  }

  /** Two molecules with the same given name have that name twice before renaming. */
  lemma {:induction false} RawMolNamesTwice(m1: SdfMol, m2: SdfMol, name: string)
    requires GivenName(m1) == name && GivenName(m2) == name && name != ""
    ensures RawMolNames([m1, m2]) == [name, name]
  {
    assert [] + [m1] == [m1] && [m1] + [m2] == [m1, m2];
    RawMolNamesStep([], m1);
    RawMolNamesStep([m1], m2);
  }

  /** A name given twice is renamed `name_copy_2` the second time. */
  lemma {:induction false} DedupTwice(name: string)
    ensures Dedup([name, name]).0 == [name, CopyName(name, 2)]
  {
    assert [] + [name] == [name] && [name] + [name] == [name, name];
    DedupStep([], name);
    assert Dedup([name]) == ([name], map[]);
    assert Rename([name], map[], name).0 == CopyName(name, 2);
    DedupStep([name], name);
  }

  /** Two molecules with a SMILES give two records. */
  lemma {:induction false} KeptMolsTwo(m1: SdfMol, m2: SdfMol, n1: string, n2: string)
    requires m1.smiles != "" && m2.smiles != ""
    ensures KeptMols([m1, m2], [n1, n2]) == [Record(m1.smiles, n1, PropsOf(m1)), Record(m2.smiles, n2, PropsOf(m2))]
  {
    assert [] + [m1] == [m1] && [m1] + [m2] == [m1, m2];
    assert [] + [n1] == [n1] && [n1] + [n2] == [n1, n2];
    KeptMolsStep([], [], m1, n1);
    KeptMolsStep([m1], [n1], m2, n2);
  }

  /** With the correction, two molecules the file names alike get different names. */
  lemma {:induction false} SdfRenamesRepeats(s1: string, s2: string, name: string)
    requires s1 != "" && s2 != "" && name != ""
    ensures SdfRecords([SdfMol(s1, Some(name), None), SdfMol(s2, Some(name), None)]) ==
              [Record(s1, name, map[]), Record(s2, CopyName(name, 2), map[])]
  {
    var m1, m2 := SdfMol(s1, Some(name), None), SdfMol(s2, Some(name), None);
    RawMolNamesTwice(m1, m2, name);
    DedupTwice(name);
    KeptMolsTwo(m1, m2, name, CopyName(name, 2));
  }
}
