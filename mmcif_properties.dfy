/**
 * What `parse_mmcif` computes, stated against plain definitions: which column
 * each field variable ends up bound to, which declared count is in force, and
 * which record lines become atoms, in which order, and when the passes raise.
 */
module MmcifProperties {
  import opened Wrappers
  import opened Text
  import opened MmcifParser

  // ---------------------------------------------------------------------------
  // Pass 1: columns and the declared count

  /**
   * A column variable is bound exactly when some header line carries its label,
   * and then it holds the number of `_atom_site.` labels before the last such line.
   */
  lemma {:induction false} ColumnIsLastLabel(lines: seq<string>, k: nat, tag: string)
    requires k <= |lines|
    ensures ColumnOf(lines, k, tag).None? <==> forall j :: 0 <= j < k ==> !IsLabel(lines[j], tag)
    ensures ColumnOf(lines, k, tag).Some? ==>
      exists j :: 0 <= j < k && IsLabel(lines[j], tag) && ColumnOf(lines, k, tag).value == LabelCount(lines, j) &&
        forall j' :: j < j' < k ==> !IsLabel(lines[j'], tag)
    decreases k
  {
    if k > 0 && !IsLabel(lines[k - 1], tag) {
      ColumnIsLastLabel(lines, k - 1, tag);
      if ColumnOf(lines, k, tag).Some? {
        var j :| 0 <= j < k - 1 && IsLabel(lines[j], tag) && ColumnOf(lines, k - 1, tag).value == LabelCount(lines, j) &&
          forall j' :: j < j' < k - 1 ==> !IsLabel(lines[j'], tag);
        assert forall j' :: j < j' < k ==> !IsLabel(lines[j'], tag);
      }
    }
  }

  /** Label lines are numbered in file order, so distinct label lines give distinct columns. */
  lemma {:induction false} LabelsNumberedInOrder(lines: seq<string>, j1: nat, j2: nat)
    requires j1 < j2 <= |lines| && StartsWith(lines[j1], AtomSite)
    ensures LabelCount(lines, j1) < LabelCount(lines, j2)
    decreases j2
  {
    if j2 > j1 + 1 {
      LabelsNumberedInOrder(lines, j1, j2 - 1);
    }
  }

  /** Pass 1 raises exactly when some count line does not hold a non-negative integer. */
  lemma {:induction false} DeclaredCountFails(lines: seq<string>, k: nat)
    requires k <= |lines|
    ensures DeclaredCount(lines, k).Ok? <==>
      forall j :: 0 <= j < k && IsCountLine(lines[j]) ==> CountFromLine(lines[j]).Ok?
    decreases k
  {
    if k > 0 {
      DeclaredCountFails(lines, k - 1);
    }
  }

  /** `n_atoms` stays -1 exactly when pass 1 reads no count line. */
  lemma {:induction false} DeclaredCountAbsent(lines: seq<string>, k: nat)
    requires k <= |lines|
    ensures DeclaredCount(lines, k) == Ok(-1) <==> forall j :: 0 <= j < k ==> !IsCountLine(lines[j])
    decreases k
  {
    if k > 0 {
      DeclaredCountAbsent(lines, k - 1);
    }
  }

  /** A declared count, once read, is the one on the last count line. */
  lemma {:induction false} DeclaredCountIsLast(lines: seq<string>, k: nat)
    requires k <= |lines| && DeclaredCount(lines, k).Ok? && DeclaredCount(lines, k).value != -1
    ensures exists j :: 0 <= j < k && IsCountLine(lines[j]) && CountFromLine(lines[j]) == DeclaredCount(lines, k) &&
                        forall j' :: j < j' < k ==> !IsCountLine(lines[j'])
    decreases k
  {
    if !IsCountLine(lines[k - 1]) {
      DeclaredCountIsLast(lines, k - 1);
      var j :| 0 <= j < k - 1 && IsCountLine(lines[j]) && CountFromLine(lines[j]) == DeclaredCount(lines, k - 1) &&
        forall j' :: j < j' < k - 1 ==> !IsCountLine(lines[j']);
      assert forall j' :: j < j' < k ==> !IsCountLine(lines[j']);
    }
  }

  // ---------------------------------------------------------------------------
  // Pass 2: a filter over the record lines

  /** An `ATOM` record that passes the residue-length and symbol test. */
  predicate Selected(line: string, cols: Columns, hydrogen: bool) {
    StartsWith(line, AtomRecord) && Qualifies(Split(line), cols, hydrogen) == Ok(true)
  }

  /** A record line whose fields can all be read: the test evaluates, and a selected line has every field. */
  predicate Readable(line: string, cols: Columns, ret: Retention) {
    StartsWith(line, AtomRecord) ==>
      Qualifies(Split(line), cols, ret.hydrogen).Ok? &&
      (Qualifies(Split(line), cols, ret.hydrogen).value ==> ExtractAtom(Split(line), cols, ret.width).Ok?)
  }

  /** The selected lines of `lines[start..i]`, in file order. */
  function SelectedLines(lines: seq<string>, start: nat, i: nat, cols: Columns, hydrogen: bool): (r: seq<string>)
    requires start <= i <= |lines|
    ensures |r| <= i - start
    decreases i
  {
    if i == start then []
    else SelectedLines(lines, start, i - 1, cols, hydrogen) + (if Selected(lines[i - 1], cols, hydrogen) then [lines[i - 1]] else [])
  }

  /** The atoms read from the selected lines, index by index. */
  predicate ReadFrom(atoms: seq<Atom>, selected: seq<string>, cols: Columns, width: Option<nat>) {
    |atoms| == |selected| &&
    forall t :: 0 <= t < |selected| ==> ExtractAtom(Split(selected[t]), cols, width) == Ok(atoms[t])
  }

  /** One more line of pass 2, in terms of the filter. */
  lemma PassThroughLine(lines: seq<string>, start: nat, i: nat, cols: Columns, ret: Retention)
    requires start <= i < |lines| && Pass(lines, start, i, cols, ret).Ok?
    ensures var acc, line := Pass(lines, start, i, cols, ret).value, lines[i];
      Pass(lines, start, i + 1, cols, ret) ==
        if !Readable(line, cols, ret) then Step(acc, line, cols, ret)
        else if !Selected(line, cols, ret.hydrogen) then Ok(acc)
        else if ret.capacity.Some? && |acc| >= ret.capacity.value then Err(IndexError)
        else Ok(acc + [ExtractAtom(Split(line), cols, ret.width).value])
    ensures !Readable(lines[i], cols, ret) ==> Pass(lines, start, i + 1, cols, ret).Err?
  {
  }

  /**
   * Pass 2 succeeds exactly when every record line is readable and the selected
   * lines fit the capacity; it then returns the atoms of the selected lines in
   * file order. With readable lines the only possible error is the overflow.
   */
  lemma {:induction false} PassIsFilter(lines: seq<string>, start: nat, i: nat, cols: Columns, ret: Retention)
    requires start <= i <= |lines|
    ensures Pass(lines, start, i, cols, ret).Ok? <==>
      (forall j :: start <= j < i ==> Readable(lines[j], cols, ret)) &&
      (ret.capacity.Some? ==> |SelectedLines(lines, start, i, cols, ret.hydrogen)| <= ret.capacity.value)
    ensures Pass(lines, start, i, cols, ret).Ok? ==>
      ReadFrom(Pass(lines, start, i, cols, ret).value, SelectedLines(lines, start, i, cols, ret.hydrogen), cols, ret.width)
    ensures (forall j :: start <= j < i ==> Readable(lines[j], cols, ret)) ==>
      Pass(lines, start, i, cols, ret).Ok? || Pass(lines, start, i, cols, ret) == Err(IndexError)
    decreases i
  {
    if i > start {
      var k := i - 1;
      PassIsFilter(lines, start, k, cols, ret);
      var before := Pass(lines, start, k, cols, ret);
      var sel := SelectedLines(lines, start, k, cols, ret.hydrogen);
      if before.Ok? {
        PassThroughLine(lines, start, k, cols, ret);
        var line := lines[k];
        if Readable(line, cols, ret) && Selected(line, cols, ret.hydrogen) {
          var sel' := SelectedLines(lines, start, i, cols, ret.hydrogen);
          assert sel' == sel + [line];
          if Pass(lines, start, i, cols, ret).Ok? {
            var atoms' := Pass(lines, start, i, cols, ret).value;
            assert atoms' == before.value + [ExtractAtom(Split(line), cols, ret.width).value];
            forall t | 0 <= t < |sel'| ensures ExtractAtom(Split(sel'[t]), cols, ret.width) == Ok(atoms'[t]) {
              if t < |sel| {
                assert sel'[t] == sel[t] && atoms'[t] == before.value[t];
              }
            }
          }
        }
      } else {
        PassErrSticky(lines, start, k, i, cols, ret);
        assert SelectedLines(lines, start, k, cols, ret.hydrogen) <= SelectedLines(lines, start, i, cols, ret.hydrogen);
      }
    }
  }

  /** A selected line's atom has a three-letter residue and a group cut to the buffer width. */
  lemma SelectedAtomShape(line: string, cols: Columns, hydrogen: bool, width: Option<nat>, a: Atom)
    requires Selected(line, cols, hydrogen) && ExtractAtom(Split(line), cols, width) == Ok(a)
    ensures |a.residue| == ResidueLength
    ensures width.Some? ==> |a.group| <= width.value
  {
  }

  /** `a` is the atom read from an `ATOM` line whose type symbol is not `H`, with groups cut to the declared width. */
  predicate NonHydrogenAtomOf(line: string, cols: Columns, a: Atom) {
    StartsWith(line, AtomRecord) &&
    Field(Split(line), cols.symbol).Ok? && Field(Split(line), cols.symbol).value != Hydrogen &&
    ExtractAtom(Split(line), cols, Some(GroupWidth)) == Ok(a)
  }

  /**
   * The declared-count branch keeps at most `n` atoms, each read from an `ATOM`
   * line of the records whose type symbol is not `H`, with a three-letter
   * residue and a group label of at most 10 characters.
   */
  lemma DeclaredOutputShape(lines: seq<string>, start: nat, i: nat, cols: Columns, n: nat)
    requires start <= i <= |lines| && Pass(lines, start, i, cols, Declared(n)).Ok?
    ensures var atoms := Pass(lines, start, i, cols, Declared(n)).value;
      |atoms| <= n && forall a :: a in atoms ==> |a.residue| == ResidueLength && |a.group| <= GroupWidth
    ensures var atoms := Pass(lines, start, i, cols, Declared(n)).value;
      forall t :: 0 <= t < |atoms| ==> exists j :: start <= j < i && NonHydrogenAtomOf(lines[j], cols, atoms[t])
  {
    PassIsFilter(lines, start, i, cols, Declared(n));
    var atoms := Pass(lines, start, i, cols, Declared(n)).value;
    var sel := SelectedLines(lines, start, i, cols, false);
    SelectedLinesAreSelected(lines, start, i, cols, false);
    SelectedLinesAreLines(lines, start, i, cols, false);
    forall a | a in atoms ensures |a.residue| == ResidueLength && |a.group| <= GroupWidth {
      var t :| 0 <= t < |atoms| && atoms[t] == a;
      SelectedAtomShape(sel[t], cols, false, Some(GroupWidth), a);
    }
    forall t | 0 <= t < |atoms|
      ensures exists j :: start <= j < i && NonHydrogenAtomOf(lines[j], cols, atoms[t])
    {
      var j :| start <= j < i && sel[t] == lines[j];
      assert Selected(lines[j], cols, false);
    }
  }

  /** Every selected line is one of the record lines. */
  lemma {:induction false} SelectedLinesAreLines(lines: seq<string>, start: nat, i: nat, cols: Columns, hydrogen: bool)
    requires start <= i <= |lines|
    ensures forall t :: 0 <= t < |SelectedLines(lines, start, i, cols, hydrogen)| ==>
      exists j :: start <= j < i && SelectedLines(lines, start, i, cols, hydrogen)[t] == lines[j]
    decreases i
  {
    if i > start {
      SelectedLinesAreLines(lines, start, i - 1, cols, hydrogen);
      var before := SelectedLines(lines, start, i - 1, cols, hydrogen);
      var sel := SelectedLines(lines, start, i, cols, hydrogen);
      assert sel == before + (if Selected(lines[i - 1], cols, hydrogen) then [lines[i - 1]] else []);
      forall t | 0 <= t < |sel| ensures exists j :: start <= j < i && sel[t] == lines[j] {
        if t < |before| {
          var j :| start <= j < i - 1 && before[t] == lines[j];
          assert sel[t] == lines[j];
        } else {
          assert sel[t] == lines[i - 1];
        }
      }
      assert forall t :: 0 <= t < |sel| ==> exists j :: start <= j < i && sel[t] == lines[j];
    } else {
      assert SelectedLines(lines, start, i, cols, hydrogen) == [];
    }
  }

  /** Every selected line passes the test. */
  lemma {:induction false} SelectedLinesAreSelected(lines: seq<string>, start: nat, i: nat, cols: Columns, hydrogen: bool)
    requires start <= i <= |lines|
    ensures forall t :: 0 <= t < |SelectedLines(lines, start, i, cols, hydrogen)| ==>
      Selected(SelectedLines(lines, start, i, cols, hydrogen)[t], cols, hydrogen)
    decreases i
  {
    if i > start {
      SelectedLinesAreSelected(lines, start, i - 1, cols, hydrogen);
    }
  }

  // ---------------------------------------------------------------------------
  // The no-count branch as written

  /**
   * The no-count branch succeeds only when no `ATOM` record qualifies and none
   * of them makes the test raise, and then all three outputs are empty.
   */
  lemma {:induction false} NoCountPassIsEmpty(lines: seq<string>, start: nat, i: nat, cols: Columns, buffers: bool)
    requires start <= i <= |lines|
    ensures NoCountPass(lines, start, i, cols, buffers).Ok? <==>
      forall j :: start <= j < i && StartsWith(lines[j], AtomRecord) ==> Qualifies(Split(lines[j]), cols, true) == Ok(false)
    ensures NoCountPass(lines, start, i, cols, buffers).Ok? ==> NoCountPass(lines, start, i, cols, buffers).value == []
    decreases i
  {
    if i > start {
      NoCountPassIsEmpty(lines, start, i - 1, cols, buffers);
      if NoCountPass(lines, start, i - 1, cols, buffers).Err? {
        NoCountPassErrSticky(lines, start, i - 1, i, cols, buffers);
      }
    }
  }

  /**
   * The first qualifying hydrogen ends the no-count branch with AttributeError
   * (numpy buffers of a declared count of 0) or TypeError (`positions.append`
   * called with three arguments) once its fields can be read.
   */
  lemma NoCountFailsOnFirstHydrogen(lines: seq<string>, start: nat, j: nat, i: nat, cols: Columns, buffers: bool)
    requires start <= j < i <= |lines|
    requires forall k :: start <= k < j && StartsWith(lines[k], AtomRecord) ==> Qualifies(Split(lines[k]), cols, true) == Ok(false)
    requires Selected(lines[j], cols, true) && ExtractAtom(Split(lines[j]), cols, None).Ok?
    ensures NoCountPass(lines, start, i, cols, buffers) == Err(if buffers then AttributeError else TypeError)
  {
    NoCountPassIsEmpty(lines, start, j, cols, buffers);
    assert NoCountPass(lines, start, j + 1, cols, buffers) == NoCountStep(lines[j], cols, buffers);
    NoCountPassErrSticky(lines, start, j + 1, i, cols, buffers);
  }

  // ---------------------------------------------------------------------------
  // The no-count branch with `positions.append((x, y, z))`

  /** The retention of the no-count branch once the coordinates are appended as one tuple: hydrogens, unbounded. */
  function Listed(): Retention {
    Retention(true, None, None)
  }

  /** `parse_mmcif` with the no-count branch appending one position per kept atom. */
  function ParseIntended(lines: seq<string>): Result<Parsed, ParseError> {
    var h := HeaderEnd(lines);
    var n :- DeclaredCount(lines, h);
    var cols := ColumnsOf(lines, h);
    var e := RecordsEndFrom(lines, h);
    if n > 0 then
      var atoms :- Pass(lines, h, e, cols, Declared(n));
      Ok(Unzip(atoms))
    else if n == 0 then
      var atoms :- NoCountPass(lines, h, e, cols, true);
      Ok(Unzip(atoms))
    else
      var atoms :- Pass(lines, h, e, cols, Listed());
      Ok(Unzip(atoms))
  }

  /**
   * Without a count line the corrected parser returns the qualifying hydrogen
   * atoms in file order, and fails only on an unreadable record line.
   */
  lemma ParseIntendedKeepsHydrogens(lines: seq<string>)
    requires DeclaredCount(lines, HeaderEnd(lines)) == Ok(-1)
    ensures var h := HeaderEnd(lines);
      var cols := ColumnsOf(lines, h);
      var e := RecordsEndFrom(lines, h);
      && (ParseIntended(lines).Ok? <==> forall j :: h <= j < e ==> Readable(lines[j], cols, Listed()))
      && (ParseIntended(lines).Ok? ==>
            exists atoms :: ParseIntended(lines) == Ok(Unzip(atoms)) &&
              ReadFrom(atoms, SelectedLines(lines, h, e, cols, true), cols, None))
  {
    var h := HeaderEnd(lines);
    PassIsFilter(lines, h, RecordsEndFrom(lines, h), ColumnsOf(lines, h), Listed());
  }

  /** Where no line qualifies as a hydrogen, the as-written and the corrected no-count branches agree. */
  lemma {:induction false} NoCountAgreesWithoutHydrogens(lines: seq<string>, start: nat, i: nat, cols: Columns)
    requires start <= i <= |lines|
    requires forall j :: start <= j < i ==> !Selected(lines[j], cols, true)
    ensures NoCountPass(lines, start, i, cols, false) == Pass(lines, start, i, cols, Listed())
    decreases i
  {
    if i > start {
      NoCountAgreesWithoutHydrogens(lines, start, i - 1, cols);
      NoCountPassIsEmpty(lines, start, i - 1, cols, false);
    }
  }

  /** `parse_mmcif` and the corrected parser differ only when no count line is given. */
  lemma ParseIntendedAgrees(lines: seq<string>)
    requires DeclaredCount(lines, HeaderEnd(lines)) != Ok(-1)
    ensures ParseIntended(lines) == Parse(lines)
  {
  }

  // ---------------------------------------------------------------------------
  // The whole parser

  /**
   * With a positive declared count, `parse_mmcif` returns the atoms of the
   * `ATOM` records between the header and the first `#` line whose residue has
   * three letters and whose symbol is not `H`, in file order, as three aligned
   * outputs; with no positive count it returns nothing or raises.
   */
  lemma ParseOutput(lines: seq<string>)
    requires Parse(lines).Ok?
    ensures var h := HeaderEnd(lines);
      var n := DeclaredCount(lines, h).value;
      var cols := ColumnsOf(lines, h);
      var e := RecordsEndFrom(lines, h);
      && (n > 0 ==>
            (forall j :: h <= j < e ==> Readable(lines[j], cols, Declared(n))) &&
            exists atoms :: Parse(lines) == Ok(Unzip(atoms)) && |atoms| <= n &&
              ReadFrom(atoms, SelectedLines(lines, h, e, cols, false), cols, Some(GroupWidth)))
      && (n <= 0 ==> Parse(lines) == Ok(Parsed([], [], [])))
  {
    var h := HeaderEnd(lines);
    var n := DeclaredCount(lines, h).value;
    var cols := ColumnsOf(lines, h);
    var e := RecordsEndFrom(lines, h);
    if n > 0 {
      PassIsFilter(lines, h, e, cols, Declared(n));
    } else {
      NoCountPassIsEmpty(lines, h, e, cols, n == 0);
    }
  }
}
