/**
 * The `_atom_site` reader for PDBx/mmCIF files (`parse_mmcif`).
 *
 * The file is the sequence of strings `readline` returns, newline included;
 * reading past the end, or an element equal to "", is end of file. Pass 1 scans
 * header lines up to the first `ATOM` record, numbering the `_atom_site.` labels
 * to find the columns it needs and reading an optional declared atom count.
 * Pass 2 reads records up to the first `#` line, into pre-sized buffers when a
 * positive count was declared and into growing lists otherwise.
 * Coordinates stay the tokens of the file: their float32 conversion is not modelled.
 */
module MmcifParser {
  import opened Wrappers
  import opened Text

  /** The Python exceptions `parse_mmcif` can raise. */
  datatype ParseError =
    | UnboundLocal    // a column variable that no header label assigned
    | IndexError      // a column past the end of a split record, or a write past the pre-sized buffers
    | ValueError      // a declared atom count that is not an integer, or is negative
    | TypeError       // `positions.append(x, y, z)`: list.append takes one argument
    | AttributeError  // `append` on the numpy buffers allocated for a declared count of 0

  /** The three coordinate tokens of one atom. */
  datatype Position = Position(x: string, y: string, z: string)

  /** One retained record: residue code, residue-group label and coordinates. */
  datatype Atom = Atom(residue: string, group: string, position: Position)

  /** The three index-aligned outputs of `parse_mmcif`. */
  datatype Parsed = Parsed(sequence: seq<string>, positions: seq<Position>, groups: seq<string>)

  /** The column index bound to each field variable by pass 1; `None` if never bound. */
  datatype Columns = Columns(
    symbol: Option<nat>, assembly: Option<nat>, seqId: Option<nat>, residue: Option<nat>,
    x: Option<nat>, y: Option<nat>, z: Option<nat>)

  /** What pass 2 keeps and where it stores it. */
  datatype Retention = Retention(hydrogen: bool, capacity: Option<nat>, width: Option<nat>)

  const AtomRecord := "ATOM"
  const LoopEnd := "#"
  const AtomCountTag := "_refine_hist.pdbx_number_atoms_protein"
  const AtomSite := "_atom_site."
  const TypeSymbol := "_atom_site.type_symbol"
  const LabelAsymId := "_atom_site.label_asym_id"
  const LabelSeqId := "_atom_site.label_seq_id"
  const LabelCompId := "_atom_site.label_comp_id"
  const CartnX := "_atom_site.Cartn_x"
  const CartnY := "_atom_site.Cartn_y"
  const CartnZ := "_atom_site.Cartn_z"
  const Hydrogen := "H"
  /** Residue codes are kept only when they have this length. */
  const ResidueLength := 3
  /** Width of the `<U10` group buffer. */
  const GroupWidth: nat := 10

  /** `file.readline()` at position `i`: "" past the end. */
  function LineAt(lines: seq<string>, i: nat): string {
    if i < |lines| then lines[i] else ""
  }

  /** A line that ends pass 1: end of file or an `ATOM` record. */
  predicate EndsHeader(line: string) {
    line == "" || StartsWith(line, AtomRecord)
  }

  /** A line that ends pass 2: end of file or a `#` line. */
  predicate EndsRecords(line: string) {
    line == "" || StartsWith(line, LoopEnd)
  }

  /** The first position from `i` on whose line ends pass 1. */
  function HeaderEndFrom(lines: seq<string>, i: nat): (h: nat)
    requires i <= |lines|
    ensures i <= h <= |lines|
    ensures h == |lines| || EndsHeader(lines[h])
    decreases |lines| - i
  {
    if i == |lines| || EndsHeader(lines[i]) then i else HeaderEndFrom(lines, i + 1)
  }

  /** No line before the stop of pass 1 ends it: the header holds no `ATOM` record and no end of file. */
  lemma {:induction false} HeaderEndIsFirst(lines: seq<string>, i: nat)
    requires i <= |lines|
    ensures forall j :: i <= j < HeaderEndFrom(lines, i) ==> !EndsHeader(lines[j])
    decreases |lines| - i
  {
    if i < |lines| && !EndsHeader(lines[i]) {
      HeaderEndIsFirst(lines, i + 1);
    }
  }

  /** Where pass 1 stops: the header is `lines[..HeaderEnd(lines)]`. */
  function HeaderEnd(lines: seq<string>): nat {
    HeaderEndFrom(lines, 0)
  }

  /** The first position from `i` on whose line ends pass 2: the records are `lines[i..RecordsEndFrom(lines, i)]`. */
  function RecordsEndFrom(lines: seq<string>, i: nat): (e: nat)
    requires i <= |lines|
    ensures i <= e <= |lines|
    ensures e == |lines| || EndsRecords(lines[e])
    decreases |lines| - i
  {
    if i == |lines| || EndsRecords(lines[i]) then i else RecordsEndFrom(lines, i + 1)
  }

  /** No line before the stop of pass 2 ends it: the records hold no `#` line and no end of file. */
  lemma {:induction false} RecordsEndIsFirst(lines: seq<string>, i: nat)
    requires i <= |lines|
    ensures forall j :: i <= j < RecordsEndFrom(lines, i) ==> !EndsRecords(lines[j])
    decreases |lines| - i
  {
    if i < |lines| && !EndsRecords(lines[i]) {
      RecordsEndIsFirst(lines, i + 1);
    }
  }

  /** A `_atom_site.` label line for the field whose label starts with `tag`. */
  predicate IsLabel(line: string, tag: string) {
    StartsWith(line, AtomSite) && StartsWith(line, tag)
  }

  /** Number of `_atom_site.` label lines among the first `k` lines. */
  function LabelCount(lines: seq<string>, k: nat): nat
    requires k <= |lines|
  {
    if k == 0 then 0
    else LabelCount(lines, k - 1) + (if StartsWith(lines[k - 1], AtomSite) then 1 else 0)
  }

  /** The column variable for `tag` after pass 1 has read the first `k` lines. */
  function ColumnOf(lines: seq<string>, k: nat, tag: string): Option<nat>
    requires k <= |lines|
  {
    if k == 0 then None
    else if IsLabel(lines[k - 1], tag) then Some(LabelCount(lines, k - 1))
    else ColumnOf(lines, k - 1, tag)
  }

  /** All column variables after pass 1 has read the first `k` lines. */
  function ColumnsOf(lines: seq<string>, k: nat): Columns
    requires k <= |lines|
  {
    Columns(ColumnOf(lines, k, TypeSymbol), ColumnOf(lines, k, LabelAsymId), ColumnOf(lines, k, LabelSeqId),
            ColumnOf(lines, k, LabelCompId), ColumnOf(lines, k, CartnX), ColumnOf(lines, k, CartnY),
            ColumnOf(lines, k, CartnZ))
  }

  /** A line declaring the number of protein atoms. */
  predicate IsCountLine(line: string) {
    StartsWith(line, AtomCountTag)
  }

  /** `int(line.split()[-1])`, then the numpy allocation, which rejects a negative size. */
  function CountFromLine(line: string): (r: Result<int, ParseError>)
    requires IsCountLine(line)
    ensures r.Ok? <==> (var t := Split(line); ParseInt(t[|t| - 1]).Some? && ParseInt(t[|t| - 1]).value >= 0)
    ensures r.Ok? ==> r.value >= 0
    ensures r.Err? ==> r.error == ValueError
  {
    assert line != [] && line[0] == AtomCountTag[0] == '_';
    var tokens := Split(line);
    match ParseInt(tokens[|tokens| - 1])
    case None => Err(ValueError)
    case Some(n) => if n < 0 then Err(ValueError) else Ok(n)
  }

  /** `n_atoms` after pass 1 has read the first `k` lines: -1 until a count line, then the count of the last one. */
  function DeclaredCount(lines: seq<string>, k: nat): (r: Result<int, ParseError>)
    requires k <= |lines|
    ensures r.Ok? ==> r.value >= -1
    ensures r.Err? ==> r.error == ValueError
  {
    if k == 0 then Ok(-1)
    else
      var n :- DeclaredCount(lines, k - 1);
      if IsCountLine(lines[k - 1]) then CountFromLine(lines[k - 1]) else Ok(n)
  }

  /** `atom[col]` for a column variable that may be unbound. */
  function Field(tokens: seq<string>, col: Option<nat>): Result<string, ParseError> {
    match col
    case None => Err(UnboundLocal)
    case Some(c) => if c < |tokens| then Ok(tokens[c]) else Err(IndexError)
  }

  /**
   * `len(atom[residue]) == 3 and atom[atom_symbol] <op> "H"`, evaluated left to
   * right with short-circuit; `<op>` is `==` when hydrogens are wanted, else `!=`.
   */
  function Qualifies(tokens: seq<string>, cols: Columns, hydrogen: bool): Result<bool, ParseError> {
    var res :- Field(tokens, cols.residue);
    if |res| != ResidueLength then Ok(false)
    else
      var sym :- Field(tokens, cols.symbol);
      Ok((sym == Hydrogen) == hydrogen)
  }

  /** The stored group label: cut to the buffer width when there is one. */
  function Group(name: string, width: Option<nat>): string {
    if width.Some? then Truncate(name, width.value) else name
  }

  /** Reads the residue, group and coordinate fields of a record, in the order the source does. */
  function ExtractAtom(tokens: seq<string>, cols: Columns, width: Option<nat>): Result<Atom, ParseError> {
    var res :- Field(tokens, cols.residue);
    var asm :- Field(tokens, cols.assembly);
    var sid :- Field(tokens, cols.seqId);
    var x :- Field(tokens, cols.x);
    var y :- Field(tokens, cols.y);
    var z :- Field(tokens, cols.z);
    Ok(Atom(res, Group(asm + sid, width), Position(x, y, z)))
  }

  /** The declared-count branch: non-hydrogens, at most `n` of them, groups cut to 10 characters. */
  function Declared(n: nat): Retention {
    Retention(false, Some(n), Some(GroupWidth))
  }

  /** One record line of pass 2, given the atoms kept so far. */
  function Step(acc: seq<Atom>, line: string, cols: Columns, ret: Retention): Result<seq<Atom>, ParseError> {
    if !StartsWith(line, AtomRecord) then Ok(acc)
    else
      var tokens := Split(line);
      var keep :- Qualifies(tokens, cols, ret.hydrogen);
      if !keep then Ok(acc)
      else if ret.capacity.Some? && |acc| >= ret.capacity.value then Err(IndexError)
      else
        var a :- ExtractAtom(tokens, cols, ret.width);
        Ok(acc + [a])
  }

  /** Pass 2 over the record lines `lines[start..i]`, one `Step` per line, stopping at the first error. */
  function Pass(lines: seq<string>, start: nat, i: nat, cols: Columns, ret: Retention): Result<seq<Atom>, ParseError>
    requires start <= i <= |lines|
    decreases i, 0
  {
    if i == start then Ok([]) else PassThrough(lines, start, i - 1, cols, ret)
  }

  /** Pass 2 up to and including the line at `j`. */
  function PassThrough(lines: seq<string>, start: nat, j: nat, cols: Columns, ret: Retention): Result<seq<Atom>, ParseError>
    requires start <= j < |lines|
    decreases j, 1
  {
    var acc :- Pass(lines, start, j, cols, ret);
    Step(acc, lines[j], cols, ret)
  }

  /**
   * One record line of the no-count branch as written: a qualifying hydrogen
   * reaches an `append` that raises (AttributeError on the numpy buffers of a
   * declared count of 0, otherwise TypeError once the three coordinate
   * arguments have been read), so nothing is ever kept.
   */
  function NoCountStep(line: string, cols: Columns, buffers: bool): Result<seq<Atom>, ParseError> {
    if !StartsWith(line, AtomRecord) then Ok([])
    else
      var tokens := Split(line);
      var keep :- Qualifies(tokens, cols, true);
      if !keep then Ok([])
      else if buffers then Err(AttributeError)
      else
        var a :- ExtractAtom(tokens, cols, None);
        Err(TypeError)
  }

  /** The no-count branch as written, over the record lines `lines[start..i]`. */
  function NoCountPass(lines: seq<string>, start: nat, i: nat, cols: Columns, buffers: bool): Result<seq<Atom>, ParseError>
    requires start <= i <= |lines|
    decreases i, 0
  {
    if i == start then Ok([]) else NoCountPassThrough(lines, start, i - 1, cols, buffers)
  }

  /** The no-count branch up to and including the line at `j`. */
  function NoCountPassThrough(lines: seq<string>, start: nat, j: nat, cols: Columns, buffers: bool): Result<seq<Atom>, ParseError>
    requires start <= j < |lines|
    decreases j, 1
  {
    var acc :- NoCountPass(lines, start, j, cols, buffers);
    NoCountStep(lines[j], cols, buffers)
  }

  /** The three parallel outputs of a list of atoms. */
  function Unzip(atoms: seq<Atom>): (p: Parsed)
    ensures |p.sequence| == |atoms| && |p.positions| == |atoms| && |p.groups| == |atoms|
  {
    if atoms == [] then Parsed([], [], [])
    else
      var init := Unzip(atoms[..|atoms| - 1]);
      var a := atoms[|atoms| - 1];
      Parsed(init.sequence + [a.residue], init.positions + [a.position], init.groups + [a.group])
  }

  /** The three outputs are index-aligned: entry `t` of each is the matching field of atom `t`. */
  lemma {:induction false} UnzipAligned(atoms: seq<Atom>)
    ensures forall t :: 0 <= t < |atoms| ==>
      Unzip(atoms).sequence[t] == atoms[t].residue && Unzip(atoms).positions[t] == atoms[t].position &&
      Unzip(atoms).groups[t] == atoms[t].group
  {
    if atoms != [] {
      UnzipAligned(atoms[..|atoms| - 1]);
    }
  }

  /** Unzipping one more atom appends its fields to the three outputs. */
  lemma UnzipSnoc(atoms: seq<Atom>, a: Atom)
    ensures Unzip(atoms + [a]) ==
      Parsed(Unzip(atoms).sequence + [a.residue], Unzip(atoms).positions + [a.position], Unzip(atoms).groups + [a.group])
  {
    assert (atoms + [a])[..|atoms|] == atoms;
  }

  /** What `parse_mmcif` returns or raises, as written. */
  function Parse(lines: seq<string>): Result<Parsed, ParseError> {
    var h := HeaderEnd(lines);
    var n :- DeclaredCount(lines, h);
    var cols := ColumnsOf(lines, h);
    var e := RecordsEndFrom(lines, h);
    if n > 0 then
      var atoms :- Pass(lines, h, e, cols, Declared(n));
      Ok(Unzip(atoms))
    else
      var atoms :- NoCountPass(lines, h, e, cols, n == 0);
      Ok(Unzip(atoms))
  }

  // ---------------------------------------------------------------------------
  // Errors stop the folds for good

  lemma {:induction false} DeclaredCountErrSticky(lines: seq<string>, k: nat, i: nat)
    requires k <= i <= |lines| && DeclaredCount(lines, k).Err?
    ensures DeclaredCount(lines, i) == DeclaredCount(lines, k)
    decreases i
  {
    if k < i {
      DeclaredCountErrSticky(lines, k, i - 1);
    }
  }

  lemma {:induction false} PassErrSticky(lines: seq<string>, start: nat, k: nat, i: nat, cols: Columns, ret: Retention)
    requires start <= k <= i <= |lines| && Pass(lines, start, k, cols, ret).Err?
    ensures Pass(lines, start, i, cols, ret) == Pass(lines, start, k, cols, ret)
    decreases i
  {
    if k < i {
      PassErrSticky(lines, start, k, i - 1, cols, ret);
    }
  }

  lemma {:induction false} NoCountPassErrSticky(lines: seq<string>, start: nat, k: nat, i: nat, cols: Columns, buffers: bool)
    requires start <= k <= i <= |lines| && NoCountPass(lines, start, k, cols, buffers).Err?
    ensures NoCountPass(lines, start, i, cols, buffers) == NoCountPass(lines, start, k, cols, buffers)
    decreases i
  {
    if k < i {
      NoCountPassErrSticky(lines, start, k, i - 1, cols, buffers);
    }
  }

  // ---------------------------------------------------------------------------
  // The parser itself

  /** What pass 1 leaves behind: where it stopped, `n_atoms`, and the column variables. */
  datatype HeaderInfo = HeaderInfo(end: nat, count: int, cols: Columns)

  /** The outcome of pass 1. */
  function ScanResult(lines: seq<string>): Result<HeaderInfo, ParseError> {
    var h := HeaderEnd(lines);
    var n :- DeclaredCount(lines, h);
    Ok(HeaderInfo(h, n, ColumnsOf(lines, h)))
  }

  /**
   * The body of the pass-1 loop for a header line at `i`: a count line sets
   * `n_atoms` (ValueError on a malformed or negative count), and a label line
   * bumps the counter and binds every column variable whose label it starts with.
   */
  method ScanLine(ghost lines: seq<string>, ghost i: nat, line: string, nAtoms: int, labelCounter: int, cols: Columns)
    returns (failed: bool, nAtoms': int, labelCounter': int, cols': Columns)
    requires i < |lines| && lines[i] == line && !EndsHeader(line)
    requires DeclaredCount(lines, i) == Ok(nAtoms)
    requires labelCounter == LabelCount(lines, i) - 1 && cols == ColumnsOf(lines, i)
    ensures failed <==> DeclaredCount(lines, i + 1).Err?
    ensures failed ==> DeclaredCount(lines, i + 1) == Err(ValueError)
    ensures !failed ==> DeclaredCount(lines, i + 1) == Ok(nAtoms')
    ensures labelCounter' == LabelCount(lines, i + 1) - 1 && cols' == ColumnsOf(lines, i + 1)
  {
    failed, nAtoms', labelCounter', cols' := false, nAtoms, labelCounter, cols;
    if IsCountLine(line) {
      assert line != [] && line[0] == AtomCountTag[0] == '_';
      var tokens := Split(line);
      var count := ParseInt(tokens[|tokens| - 1]);
      if count.None? || count.value < 0 {
        // np.empty rejects a negative size, int() a non-literal
        failed := true;
      } else {
        nAtoms' := count.value;
      }
    }
    if StartsWith(line, AtomSite) {
      labelCounter' := labelCounter + 1;
      var column: nat := labelCounter';
      if StartsWith(line, TypeSymbol) { cols' := cols'.(symbol := Some(column)); }
      if StartsWith(line, LabelAsymId) { cols' := cols'.(assembly := Some(column)); }
      if StartsWith(line, LabelSeqId) { cols' := cols'.(seqId := Some(column)); }
      if StartsWith(line, LabelCompId) { cols' := cols'.(residue := Some(column)); }
      if StartsWith(line, CartnX) { cols' := cols'.(x := Some(column)); }
      if StartsWith(line, CartnY) { cols' := cols'.(y := Some(column)); }
      if StartsWith(line, CartnZ) { cols' := cols'.(z := Some(column)); }
    }
  }

  /** Pass 1: reads header lines up to the first `ATOM` record, counting `_atom_site.` labels. */
  method ScanHeader(lines: seq<string>) returns (r: Result<HeaderInfo, ParseError>)
    ensures r == ScanResult(lines)
  {
    var nAtoms := -1;
    var labelCounter := -1;
    var cols := Columns(None, None, None, None, None, None, None);
    var i := 0;
    var line := LineAt(lines, i);
    while line != ""
      invariant i <= |lines| && line == LineAt(lines, i)
      invariant HeaderEndFrom(lines, i) == HeaderEnd(lines)
      invariant DeclaredCount(lines, i) == Ok(nAtoms)
      invariant labelCounter == LabelCount(lines, i) - 1 && cols == ColumnsOf(lines, i)
      decreases |lines| - i
    {
      if StartsWith(line, AtomRecord) {
        break;
      }
      var failed;
      failed, nAtoms, labelCounter, cols := ScanLine(lines, i, line, nAtoms, labelCounter, cols);
      if failed {
        DeclaredCountErrSticky(lines, i + 1, HeaderEnd(lines));
        r := Err(ValueError);
        return;
      }
      i := i + 1;
      line := LineAt(lines, i);
    }
    r := Ok(HeaderInfo(i, nAtoms, cols));
  }

  /** The outcome of the declared-count branch of pass 2, started at line `start`. */
  function DeclaredResult(lines: seq<string>, start: nat, cols: Columns, n: nat): Result<Parsed, ParseError>
    requires start <= |lines|
  {
    var atoms :- Pass(lines, start, RecordsEndFrom(lines, start), cols, Declared(n));
    Ok(Unzip(atoms))
  }

  /**
   * The body of the declared-count loop for one record line: for an `ATOM` record,
   * the filter on the residue and symbol fields, then the writes at `index` (an
   * IndexError when the buffers are full), reading fields in the order the source does.
   */
  method ReadRecord(line: string, cols: Columns, n: nat, sequence: array<string>, positions: array<Position>,
                    groups: array<string>, index: nat, ghost acc: seq<Atom>) returns (err: Option<ParseError>, kept: bool)
    requires |acc| == index
    requires sequence.Length == positions.Length == groups.Length == n && sequence != groups
    modifies sequence, positions, groups
    ensures var st := Step(acc, line, cols, Declared(n));
      && (err.Some? <==> st.Err?)
      && (err.Some? ==> st.error == err.value)
      && (err.None? && !kept ==> st == Ok(acc))
      && (kept ==> err.None? && index < n && st == Ok(acc + [Atom(sequence[index], groups[index], positions[index])]))
    ensures index <= n ==>
      sequence[..index] == old(sequence[..index]) && positions[..index] == old(positions[..index]) &&
      groups[..index] == old(groups[..index])
  {
    if !StartsWith(line, AtomRecord) {
      return None, false;
    }
    var atom := Split(line);
    var res := Field(atom, cols.residue);
    if res.Err? {
      return Some(res.error), false;
    }
    if |res.value| != ResidueLength {
      return None, false;
    }
    var sym := Field(atom, cols.symbol);
    if sym.Err? {
      return Some(sym.error), false;
    }
    if sym.value == Hydrogen {
      return None, false;
    }
    if index >= sequence.Length {
      return Some(IndexError), false;
    }
    sequence[index] := res.value;
    var asm := Field(atom, cols.assembly);
    if asm.Err? { return Some(asm.error), false; }
    var sid := Field(atom, cols.seqId);
    if sid.Err? { return Some(sid.error), false; }
    groups[index] := Truncate(asm.value + sid.value, GroupWidth);
    var cx := Field(atom, cols.x);
    if cx.Err? { return Some(cx.error), false; }
    positions[index] := Position(cx.value, "", "");
    var cy := Field(atom, cols.y);
    if cy.Err? { return Some(cy.error), false; }
    positions[index] := positions[index].(y := cy.value);
    var cz := Field(atom, cols.z);
    if cz.Err? { return Some(cz.error), false; }
    positions[index] := positions[index].(z := cz.value);
    return None, true;
  }

  /** The first `|acc|` slots of the three buffers hold the fields of `acc`. */
  ghost predicate Holds(sequence: array<string>, positions: array<Position>, groups: array<string>, acc: seq<Atom>)
    reads sequence, positions, groups
  {
    |acc| <= sequence.Length && |acc| <= positions.Length && |acc| <= groups.Length &&
    Parsed(sequence[..|acc|], positions[..|acc|], groups[..|acc|]) == Unzip(acc)
  }

  /** One turn of the declared-count loop, on the record line at `i`: pass 2 advances by that line. */
  method DeclaredLine(ghost lines: seq<string>, ghost start: nat, ghost i: nat, line: string, cols: Columns, n: nat,
                      sequence: array<string>, positions: array<Position>, groups: array<string>,
                      index: nat, ghost acc: seq<Atom>)
    returns (err: Option<ParseError>, index': nat, ghost acc': seq<Atom>)
    requires start <= i < |lines| && lines[i] == line && Pass(lines, start, i, cols, Declared(n)) == Ok(acc)
    requires sequence.Length == positions.Length == groups.Length == n && sequence != groups
    requires index == |acc| && Holds(sequence, positions, groups, acc)
    modifies sequence, positions, groups
    ensures Pass(lines, start, i + 1, cols, Declared(n)) == if err.Some? then Err(err.value) else Ok(acc')
    ensures err.None? ==> index' == |acc'| && Holds(sequence, positions, groups, acc')
  {
    assert Pass(lines, start, i + 1, cols, Declared(n)) == Step(acc, line, cols, Declared(n));
    var kept;
    err, kept := ReadRecord(line, cols, n, sequence, positions, groups, index, acc);
    index', acc' := index, acc;
    if err.None? && kept {
      var a := Atom(sequence[index], groups[index], positions[index]);
      UnzipSnoc(acc, a);
      assert sequence[..index + 1] == sequence[..index] + [a.residue];
      assert positions[..index + 1] == positions[..index] + [a.position];
      assert groups[..index + 1] == groups[..index] + [a.group];
      index', acc' := index + 1, acc + [a];
    }
  }

  /**
   * The declared-count branch: records are written at `index` into buffers of
   * size `n`, which are cut to `index` at the end.
   */
  method ReadDeclared(lines: seq<string>, start: nat, cols: Columns, n: nat) returns (r: Result<Parsed, ParseError>)
    requires start <= |lines|
    ensures r == DeclaredResult(lines, start, cols, n)
  {
    var sequence := new string[n];
    var positions := new Position[n];
    var groups := new string[n];
    ghost var e := RecordsEndFrom(lines, start);
    ghost var acc: seq<Atom> := [];
    var index := 0;
    var i := start;
    var line := LineAt(lines, i);
    while line != ""
      invariant start <= i <= |lines| && line == LineAt(lines, i)
      invariant RecordsEndFrom(lines, i) == e
      invariant Pass(lines, start, i, cols, Declared(n)) == Ok(acc)
      invariant index == |acc| && Holds(sequence, positions, groups, acc)
      decreases |lines| - i
    {
      if StartsWith(line, LoopEnd) {
        break;
      }
      var err;
      err, index, acc := DeclaredLine(lines, start, i, line, cols, n, sequence, positions, groups, index, acc);
      if err.Some? {
        PassErrSticky(lines, start, i + 1, e, cols, Declared(n));
        r := Err(err.value);
        return;
      }
      i := i + 1;
      line := LineAt(lines, i);
    }
    r := Ok(Parsed(sequence[..index], positions[..index], groups[..index]));
  }

  /** The outcome of the no-count branch of pass 2, as written, started at line `start`. */
  function NoCountResult(lines: seq<string>, start: nat, cols: Columns, buffers: bool): Result<Parsed, ParseError>
    requires start <= |lines|
  {
    var atoms :- NoCountPass(lines, start, RecordsEndFrom(lines, start), cols, buffers);
    Ok(Unzip(atoms))
  }

  /**
   * The body of the no-count loop for one record line. A qualifying hydrogen
   * reaches `sequence.append`, which is not there when `buffers` holds (the
   * numpy buffers of a declared count of 0); otherwise `sequence.append` and
   * `groups.append` succeed, and `positions.append(x, y, z)` evaluates its
   * three arguments and then raises.
   */
  method ReadNoCountRecord(line: string, cols: Columns, buffers: bool) returns (err: Option<ParseError>)
    ensures err.Some? <==> NoCountStep(line, cols, buffers).Err?
    ensures err.Some? ==> NoCountStep(line, cols, buffers).error == err.value
  {
    if !StartsWith(line, AtomRecord) {
      return None;
    }
    var atom := Split(line);
    var res := Field(atom, cols.residue);
    if res.Err? {
      return Some(res.error);
    }
    if |res.value| != ResidueLength {
      return None;
    }
    var sym := Field(atom, cols.symbol);
    if sym.Err? {
      return Some(sym.error);
    }
    if sym.value != Hydrogen {
      return None;
    }
    if buffers {
      return Some(AttributeError);
    }
    var asm := Field(atom, cols.assembly);
    if asm.Err? { return Some(asm.error); }
    var sid := Field(atom, cols.seqId);
    if sid.Err? { return Some(sid.error); }
    var cx := Field(atom, cols.x);
    if cx.Err? { return Some(cx.error); }
    var cy := Field(atom, cols.y);
    if cy.Err? { return Some(cy.error); }
    var cz := Field(atom, cols.z);
    if cz.Err? { return Some(cz.error); }
    return Some(TypeError);
  }

  /** The no-count branch. `buffers` says that `sequence` is still the numpy buffer of a declared count of 0. */
  method ReadNoCount(lines: seq<string>, start: nat, cols: Columns, buffers: bool) returns (r: Result<Parsed, ParseError>)
    requires start <= |lines|
    ensures r == NoCountResult(lines, start, cols, buffers)
  {
    ghost var e := RecordsEndFrom(lines, start);
    var i := start;
    var line := LineAt(lines, i);
    while line != ""
      invariant start <= i <= |lines| && line == LineAt(lines, i)
      invariant RecordsEndFrom(lines, i) == e
      invariant NoCountPass(lines, start, i, cols, buffers) == Ok([])
      decreases |lines| - i
    {
      if StartsWith(line, LoopEnd) {
        break;
      }
      assert lines[i] == line;
      var err := ReadNoCountRecord(line, cols, buffers);
      if err.Some? {
        NoCountPassErrSticky(lines, start, i + 1, e, cols, buffers);
        r := Err(err.value);
        return;
      }
      i := i + 1;
      line := LineAt(lines, i);
    }
    r := Ok(Parsed([], [], []));
  }

  /** `parse_mmcif` as written. */
  method ParseMmcif(lines: seq<string>) returns (r: Result<Parsed, ParseError>)
    ensures r == Parse(lines)
  {
    var header := ScanHeader(lines);
    if header.Err? {
      r := Err(header.error);
      return;
    }
    var info := header.value;
    if info.count > 0 {
      r := ReadDeclared(lines, info.end, info.cols, info.count);
    } else {
      r := ReadNoCount(lines, info.end, info.cols, info.count == 0);
    }
  }
}
