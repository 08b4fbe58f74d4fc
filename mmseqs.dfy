/**
 * `filter_mmseqs_results`: threshold masks over MMseqs2 tabular hits, an
 * in-place sort of the surviving rows, and the last `k` rows of every query
 * (`select_top_k`), concatenated in ascending query order.
 *
 * Rows are the records `np.recfromcsv` would produce; floating-point columns
 * are real numbers (no NaN, no rounding).
 */
module Mmseqs {
  import opened Wrappers
  import opened Text
  import opened Ordering

  /**
   * One alignment row, with its fields in the file's column order: query,
   * target, identity, alignment_length, mismatches, gap_openings, query_start,
   * query_end, target_start, target_end, e_value, bit_score.
   */
  datatype Hit = Hit(
    query: string, target: string, identity: real, alignmentLength: int, mismatches: int,
    gapOpenings: int, queryStart: int, queryEnd: int, targetStart: int, targetEnd: int,
    eValue: real, bitScore: real)

  // ---------------------------------------------------------------------------
  // The sort order of `filtered.sort(order=["query", "identity", "e_value"])`

  /** One field of a row, as the sort compares it. */
  datatype Value = Str(s: string) | Num(r: real)

  predicate ValueBelow(a: Value, b: Value) {
    match (a, b)
    case (Str(x), Str(y)) => Below(x, y)
    case (Num(x), Num(y)) => x < y
    case (Str(_), Num(_)) => true
    case (Num(_), Str(_)) => false
  }

  /** The number of fields the sort compares: all of them. */
  const FieldCount: nat := 12

  /**
   * Field `i` in the order the sort compares fields: the named sort fields
   * first, then the remaining fields in dtype order, which is how numpy breaks
   * ties between records.
   */
  function SortField(h: Hit, i: nat): Value {
    if i == 0 then Str(h.query)
    else if i == 1 then Num(h.identity)
    else if i == 2 then Num(h.eValue)
    else if i == 3 then Str(h.target)
    else if i == 4 then Num(h.alignmentLength as real)
    else if i == 5 then Num(h.mismatches as real)
    else if i == 6 then Num(h.gapOpenings as real)
    else if i == 7 then Num(h.queryStart as real)
    else if i == 8 then Num(h.queryEnd as real)
    else if i == 9 then Num(h.targetStart as real)
    else if i == 10 then Num(h.targetEnd as real)
    else Num(h.bitScore)
  }

  /** Lexicographic comparison of the sort fields from field `i` on. */
  predicate BelowFrom(a: Hit, b: Hit, i: nat)
    decreases FieldCount - i
  {
    i < FieldCount &&
    (ValueBelow(SortField(a, i), SortField(b, i)) ||
     (SortField(a, i) == SortField(b, i) && BelowFrom(a, b, i + 1)))
  }

  /** `a` sorts strictly before `b`. */
  predicate HitBelow(a: Hit, b: Hit) {
    BelowFrom(a, b, 0)
  }

  lemma ValueBelowIrreflexive(a: Value)
    ensures !ValueBelow(a, a)
  {
    if a.Str? { BelowIrreflexive(a.s); }
  }

  lemma ValueBelowTransitive(a: Value, b: Value, c: Value)
    requires ValueBelow(a, b) && ValueBelow(b, c)
    ensures ValueBelow(a, c)
  {
    if a.Str? && b.Str? && c.Str? { BelowTransitive(a.s, b.s, c.s); }
  }

  lemma ValueBelowTotal(a: Value, b: Value)
    ensures a == b || ValueBelow(a, b) || ValueBelow(b, a)
  {
    if a.Str? && b.Str? { BelowTotal(a.s, b.s); }
  }

  lemma ValueBelowAsymmetric(a: Value, b: Value)
    requires ValueBelow(a, b)
    ensures !ValueBelow(b, a)
  {
    if a.Str? && b.Str? { BelowAsymmetric(a.s, b.s); }
  }

  lemma {:induction false} BelowFromIrreflexive(a: Hit, i: nat)
    ensures !BelowFrom(a, a, i)
    decreases FieldCount - i
  {
    if i < FieldCount {
      ValueBelowIrreflexive(SortField(a, i));
      BelowFromIrreflexive(a, i + 1);
    }
  }

  lemma {:induction false} BelowFromTransitive(a: Hit, b: Hit, c: Hit, i: nat)
    requires BelowFrom(a, b, i) && BelowFrom(b, c, i)
    ensures BelowFrom(a, c, i)
    decreases FieldCount - i
  {
    var x, y, z := SortField(a, i), SortField(b, i), SortField(c, i);
    if ValueBelow(x, y) && ValueBelow(y, z) {
      ValueBelowTransitive(x, y, z);
    } else if x == y && y == z {
      BelowFromTransitive(a, b, c, i + 1);
    }
  }

  /** Rows that agree on every field from `i` on neither sort before the other. */
  predicate AgreeFrom(a: Hit, b: Hit, i: nat) {
    forall j :: i <= j < FieldCount ==> SortField(a, j) == SortField(b, j)
  }

  lemma {:induction false} BelowFromTotal(a: Hit, b: Hit, i: nat)
    ensures AgreeFrom(a, b, i) || BelowFrom(a, b, i) || BelowFrom(b, a, i)
    decreases FieldCount - i
  {
    if i < FieldCount {
      ValueBelowTotal(SortField(a, i), SortField(b, i));
      BelowFromTotal(a, b, i + 1);
    }
  }

  lemma {:induction false} BelowFromAsymmetric(a: Hit, b: Hit, i: nat)
    requires BelowFrom(a, b, i)
    ensures !BelowFrom(b, a, i)
    decreases FieldCount - i
  {
    ValueBelowIrreflexive(SortField(a, i));
    if ValueBelow(SortField(a, i), SortField(b, i)) {
      ValueBelowAsymmetric(SortField(a, i), SortField(b, i));
    } else {
      BelowFromAsymmetric(a, b, i + 1);
    }
  }

  /** Rows that agree on every sort field are the same row. */
  lemma SortFieldsInjective(a: Hit, b: Hit)
    requires AgreeFrom(a, b, 0)
    ensures a == b
  {
    assert SortField(a, 0) == SortField(b, 0) && SortField(a, 1) == SortField(b, 1) && SortField(a, 2) == SortField(b, 2);
    assert SortField(a, 3) == SortField(b, 3) && SortField(a, 4) == SortField(b, 4) && SortField(a, 5) == SortField(b, 5);
    assert SortField(a, 6) == SortField(b, 6) && SortField(a, 7) == SortField(b, 7) && SortField(a, 8) == SortField(b, 8);
    assert SortField(a, 9) == SortField(b, 9) && SortField(a, 10) == SortField(b, 10) && SortField(a, 11) == SortField(b, 11);
  }

  lemma HitBelowIrreflexive(a: Hit)
    ensures !HitBelow(a, a)
  {
    BelowFromIrreflexive(a, 0);
  }

  lemma HitBelowTransitive(a: Hit, b: Hit, c: Hit)
    requires HitBelow(a, b) && HitBelow(b, c)
    ensures HitBelow(a, c)
  {
    BelowFromTransitive(a, b, c, 0);
  }

  /** The sort order is total on rows: only identical rows tie. */
  lemma HitBelowTotal(a: Hit, b: Hit)
    ensures a == b || HitBelow(a, b) || HitBelow(b, a)
  {
    BelowFromTotal(a, b, 0);
    if AgreeFrom(a, b, 0) { SortFieldsInjective(a, b); }
  }

  lemma HitBelowAsymmetric(a: Hit, b: Hit)
    requires HitBelow(a, b)
    ensures !HitBelow(b, a)
  {
    BelowFromAsymmetric(a, b, 0);
  }

  /** Rows sort by query first. */
  lemma HitBelowByQuery(a: Hit, b: Hit)
    ensures Below(a.query, b.query) ==> HitBelow(a, b)
    ensures HitBelow(a, b) ==> a.query == b.query || Below(a.query, b.query)
  {
    assert SortField(a, 0) == Str(a.query) && SortField(b, 0) == Str(b.query);
  }

  /** Within one query, rows sort by identity and then by e-value. */
  lemma HitBelowWithinQuery(a: Hit, b: Hit)
    requires a.query == b.query
    ensures a.identity < b.identity ==> HitBelow(a, b)
    ensures a.identity == b.identity && a.eValue < b.eValue ==> HitBelow(a, b)
    ensures HitBelow(a, b) ==> a.identity < b.identity || (a.identity == b.identity && a.eValue <= b.eValue)
  {
    ValueBelowIrreflexive(Str(a.query));
    assert SortField(a, 0) == SortField(b, 0);
    assert SortField(a, 1) == Num(a.identity) && SortField(b, 1) == Num(b.identity);
    assert SortField(a, 2) == Num(a.eValue) && SortField(b, 2) == Num(b.eValue);
    assert HitBelow(a, b) == BelowFrom(a, b, 1);
    assert BelowFrom(a, b, 1) == (a.identity < b.identity || (a.identity == b.identity && BelowFrom(a, b, 2)));
    assert BelowFrom(a, b, 2) ==> a.eValue <= b.eValue;
  }

  // ---------------------------------------------------------------------------
  // Sorting

  /** Ascending in the sort order: no row sorts before an earlier one. */
  predicate Sorted(s: seq<Hit>) {
    forall i, j :: 0 <= i < j < |s| ==> !HitBelow(s[j], s[i])
  }

  /** Inserts `h` before the first row it does not follow. */
  function InsertHit(h: Hit, s: seq<Hit>): (r: seq<Hit>)
    ensures multiset(r) == multiset(s) + multiset{h}
  {
    if s == [] then [h]
    else
      assert s == [s[0]] + s[1..];
      if HitBelow(s[0], h) then [s[0]] + InsertHit(h, s[1..]) else [h] + s
  }

  /** The rows in ascending sort order. */
  function SortHits(s: seq<Hit>): (r: seq<Hit>)
    ensures multiset(r) == multiset(s)
  {
    if s == [] then []
    else
      assert s == [s[0]] + s[1..];
      InsertHit(s[0], SortHits(s[1..]))
  }

  lemma {:induction false} InsertHitSorted(h: Hit, s: seq<Hit>)
    requires Sorted(s)
    ensures Sorted(InsertHit(h, s))
  {
    if s != [] {
      var r := InsertHit(h, s);
      if HitBelow(s[0], h) {
        InsertHitSorted(h, s[1..]);
        var t := InsertHit(h, s[1..]);
        forall j | 0 < j < |r| ensures !HitBelow(r[j], r[0]) {
          assert r[j] in multiset(t);
          if r[j] != h {
            assert r[j] in multiset(s[1..]);
            var m :| 0 <= m < |s[1..]| && s[1..][m] == r[j];
            assert s[m + 1] == r[j];
          } else {
            HitBelowAsymmetric(s[0], h);
          }
        }
      } else {
        forall j | 0 < j < |r| ensures !HitBelow(r[j], r[0]) {
          assert r[j] == s[j - 1];
          if HitBelow(s[j - 1], h) {
            HitBelowTotal(s[0], s[j - 1]);
            if s[0] != s[j - 1] { HitBelowTransitive(s[0], s[j - 1], h); }
          }
        }
      }
    }
  }

  lemma {:induction false} SortHitsSorted(s: seq<Hit>)
    ensures Sorted(SortHits(s))
  {
    if s != [] {
      SortHitsSorted(s[1..]);
      InsertHitSorted(s[0], SortHits(s[1..]));
    }
  }

  lemma SortedTail(s: seq<Hit>)
    requires s != [] && Sorted(s)
    ensures Sorted(s[1..])
  {
    forall i, j | 0 <= i < j < |s[1..]| ensures !HitBelow(s[1..][j], s[1..][i]) {
      assert s[1..][j] == s[j + 1] && s[1..][i] == s[i + 1];
    }
  }

  /** Two ascending arrangements of the same rows start with the same row. */
  lemma SortedHeads(a: seq<Hit>, b: seq<Hit>)
    requires a != [] && Sorted(a) && Sorted(b) && multiset(a) == multiset(b)
    ensures b != [] && a[0] == b[0]
  {
    assert a[0] in multiset(b) && b[0] in multiset(a);
    var i :| 0 <= i < |b| && b[i] == a[0];
    var j :| 0 <= j < |a| && a[j] == b[0];
    HitBelowTotal(a[0], b[0]);
    HitBelowIrreflexive(a[0]);
    assert i == 0 || !HitBelow(b[i], b[0]);
    assert j == 0 || !HitBelow(a[j], a[0]);
  }

  /** The order is total, so the ascending arrangement of a multiset of rows is unique. */
  lemma {:induction false} SortedUnique(a: seq<Hit>, b: seq<Hit>)
    requires Sorted(a) && Sorted(b) && multiset(a) == multiset(b)
    ensures a == b
  {
    if a != [] {
      SortedHeads(a, b);
      assert a == [a[0]] + a[1..] && b == [b[0]] + b[1..];
      assert multiset(a[1..]) == multiset(a) - multiset{a[0]};
      assert multiset(b[1..]) == multiset(b) - multiset{b[0]};
      SortedTail(a);
      SortedTail(b);
      SortedUnique(a[1..], b[1..]);
    }
  }

  /** `SortHits` is the only sorted permutation. */
  lemma SortHitsUnique(s: seq<Hit>, r: seq<Hit>)
    requires Sorted(r) && multiset(r) == multiset(s)
    ensures r == SortHits(s)
  {
    SortHitsSorted(s);
    SortedUnique(r, SortHits(s));
  }

  /**
   * While `s[j]` is being moved down into `s[..i + 1]`, every other pair of
   * that prefix is in order and `s[j]` sorts before everything after it.
   */
  predicate Sifting(s: seq<Hit>, j: nat, i: nat) {
    j <= i < |s| &&
    (forall p, q :: 0 <= p < q <= i && p != j && q != j ==> !HitBelow(s[q], s[p])) &&
    (forall q :: j < q <= i ==> HitBelow(s[j], s[q]))
  }

  lemma SiftingStarts(s: seq<Hit>, i: nat)
    requires i < |s| && Sorted(s[..i])
    ensures Sifting(s, i, i)
  {
    forall p, q | 0 <= p < q <= i && p != i && q != i ensures !HitBelow(s[q], s[p]) {
      assert s[q] == s[..i][q] && s[p] == s[..i][p];
    }
  }

  lemma SiftingSwap(s: seq<Hit>, j: nat, i: nat)
    requires Sifting(s, j, i) && 0 < j && HitBelow(s[j], s[j - 1])
    ensures Sifting(s[j := s[j - 1]][j - 1 := s[j]], j - 1, i)
  {
    HitBelowAsymmetric(s[j], s[j - 1]);
  }

  lemma SiftingEnds(s: seq<Hit>, j: nat, i: nat)
    requires Sifting(s, j, i) && (j == 0 || !HitBelow(s[j], s[j - 1]))
    ensures Sorted(s[..i + 1])
  {
    forall p, q | 0 <= p < q <= i ensures !HitBelow(s[q], s[p]) {
      if q == j {
        if p < j - 1 && HitBelow(s[j], s[p]) {
          HitBelowTotal(s[p], s[j - 1]);
          if s[p] != s[j - 1] { HitBelowTransitive(s[j], s[p], s[j - 1]); }
        }
      } else if p == j {
        HitBelowAsymmetric(s[j], s[q]);
      }
    }
  }

  /** One swap of `SiftDown`. */
  method SwapDown(a: array<Hit>, j: nat, i: nat)
    requires Sifting(a[..], j, i) && 0 < j && HitBelow(a[j], a[j - 1])
    modifies a
    ensures Sifting(a[..], j - 1, i)
    ensures multiset(a[..]) == multiset(old(a[..]))
    ensures a[i + 1..] == old(a[i + 1..])
  {
    ghost var s := a[..];
    SiftingSwap(s, j, i);
    a[j], a[j - 1] := a[j - 1], a[j];
    assert a[..] == s[j := s[j - 1]][j - 1 := s[j]];
  }

  /** Moves `a[i]` down into the ascending prefix `a[..i]` by swaps. */
  method SiftDown(a: array<Hit>, i: nat)
    requires i < a.Length && Sorted(a[..i])
    modifies a
    ensures Sorted(a[..i + 1])
    ensures multiset(a[..]) == multiset(old(a[..]))
    ensures a[i + 1..] == old(a[i + 1..])
  {
    SiftingStarts(a[..], i);
    var j: nat := i;
    while j > 0 && HitBelow(a[j], a[j - 1])
      invariant Sifting(a[..], j, i)
      invariant multiset(a[..]) == multiset(old(a[..]))
      invariant a[i + 1..] == old(a[i + 1..])
    {
      SwapDown(a, j, i);
      j := j - 1;
    }
    SiftingEnds(a[..], j, i);
  }

  /** `filtered.sort(...)`: sorts the rows in place. */
  method SortInPlace(a: array<Hit>)
    modifies a
    ensures a[..] == SortHits(old(a[..]))
  {
    var i := 0;
    while i < a.Length
      invariant i <= a.Length
      invariant Sorted(a[..i])
      invariant multiset(a[..]) == multiset(old(a[..]))
    {
      SiftDown(a, i);
      i := i + 1;
    }
    assert a[..i] == a[..];
    SortHitsUnique(old(a[..]), a[..]);
  }

  // ---------------------------------------------------------------------------
  // Boolean masks

  /** `rows[mask]` for the mask `p`: the rows it admits, in order. */
  function Where(rows: seq<Hit>, p: Hit -> bool): (r: seq<Hit>)
    ensures |r| <= |rows|
  {
    if rows == [] then []
    else (if p(rows[0]) then [rows[0]] else []) + Where(rows[1..], p)
  }

  /** A mask keeps every admitted row as often as it occurs, and nothing else. */
  lemma {:induction false} WhereCount(rows: seq<Hit>, p: Hit -> bool)
    ensures forall h :: multiset(Where(rows, p))[h] == if p(h) then multiset(rows)[h] else 0
  {
    if rows != [] {
      WhereCount(rows[1..], p);
      assert rows == [rows[0]] + rows[1..];
    }
  }

  lemma WhereCountAt(rows: seq<Hit>, p: Hit -> bool, h: Hit)
    ensures multiset(Where(rows, p))[h] == if p(h) then multiset(rows)[h] else 0
  {
    WhereCount(rows, p);
  }

  lemma WhereMember(rows: seq<Hit>, p: Hit -> bool, h: Hit)
    ensures h in Where(rows, p) <==> h in rows && p(h)
  {
    WhereCountAt(rows, p, h);
    assert h in Where(rows, p) <==> h in multiset(Where(rows, p));
    assert h in rows <==> h in multiset(rows);
  }

  lemma {:induction false} WhereAdmits(rows: seq<Hit>, p: Hit -> bool)
    ensures forall i :: 0 <= i < |Where(rows, p)| ==> p(Where(rows, p)[i])
  {
    if rows != [] {
      WhereAdmits(rows[1..], p);
    }
  }

  lemma WhereMembers(rows: seq<Hit>, p: Hit -> bool)
    ensures forall h :: h in Where(rows, p) <==> h in rows && p(h)
  {
    WhereCount(rows, p);
    forall h ensures h in Where(rows, p) <==> h in rows && p(h) {
      assert h in Where(rows, p) <==> h in multiset(Where(rows, p));
      assert h in rows <==> h in multiset(rows);
    }
  }

  /** Masks see only the multiset of rows. */
  lemma WherePermutation(a: seq<Hit>, b: seq<Hit>, p: Hit -> bool)
    requires multiset(a) == multiset(b)
    ensures multiset(Where(a, p)) == multiset(Where(b, p))
    ensures |Where(a, p)| == |Where(b, p)|
  {
    WhereCount(a, p);
    WhereCount(b, p);
    assert multiset(Where(a, p)) == multiset(Where(b, p));
    assert |multiset(Where(a, p))| == |multiset(Where(b, p))|;
  }

  /** Re-applying a mask changes nothing. */
  lemma {:induction false} WhereIdempotent(rows: seq<Hit>, p: Hit -> bool)
    ensures Where(Where(rows, p), p) == Where(rows, p)
  {
    if rows != [] {
      WhereIdempotent(rows[1..], p);
      var w := Where(rows, p);
      if p(rows[0]) {
        assert w == [rows[0]] + Where(rows[1..], p);
        assert w != [] && w[0] == rows[0] && w[1..] == Where(rows[1..], p);
        assert Where(w, p) == [w[0]] + Where(w[1..], p);
      } else {
        assert w == Where(rows[1..], p);
      }
    }
  }

  lemma {:induction false} WhereConcat(a: seq<Hit>, b: seq<Hit>, p: Hit -> bool)
    ensures Where(a + b, p) == Where(a, p) + Where(b, p)
  {
    if a != [] {
      assert a + b != [] && (a + b)[0] == a[0] && (a + b)[1..] == a[1..] + b;
      WhereConcat(a[1..], b, p);
      var pre := if p(a[0]) then [a[0]] else [];
      assert Where(a + b, p) == pre + Where(a[1..] + b, p);
      assert Where(a, p) == pre + Where(a[1..], p);
    } else {
      assert a + b == b;
    }
  }

  lemma {:induction false} WhereAll(rows: seq<Hit>, p: Hit -> bool)
    requires forall i :: 0 <= i < |rows| ==> p(rows[i])
    ensures Where(rows, p) == rows
  {
    if rows != [] {
      WhereAll(rows[1..], p);
      assert rows == [rows[0]] + rows[1..];
    }
  }

  lemma {:induction false} WhereNone(rows: seq<Hit>, p: Hit -> bool)
    requires forall i :: 0 <= i < |rows| ==> !p(rows[i])
    ensures Where(rows, p) == []
  {
    if rows != [] {
      WhereNone(rows[1..], p);
    }
  }

  lemma {:induction false} WhereExtensional(rows: seq<Hit>, p: Hit -> bool, q: Hit -> bool)
    requires forall i :: 0 <= i < |rows| ==> p(rows[i]) == q(rows[i])
    ensures Where(rows, p) == Where(rows, q)
  {
    if rows != [] {
      WhereExtensional(rows[1..], p, q);
    }
  }

  /** A mask keeps an ascending order. */
  lemma {:induction false} WhereSorted(rows: seq<Hit>, p: Hit -> bool)
    requires Sorted(rows)
    ensures Sorted(Where(rows, p))
  {
    if rows != [] {
      SortedTail(rows);
      WhereSorted(rows[1..], p);
      var rest := Where(rows[1..], p);
      if p(rows[0]) {
        var r := Where(rows, p);
        assert r == [rows[0]] + rest;
        WhereMembers(rows[1..], p);
        forall j | 0 < j < |r| ensures !HitBelow(r[j], r[0]) {
          assert r[j] in rest;
          var m :| 0 <= m < |rows[1..]| && rows[1..][m] == r[j];
          assert rows[m + 1] == r[j];
        }
      }
    }
  }

  // ---------------------------------------------------------------------------
  // Thresholds

  /** One alignment filter of `filter_mmseqs_results`. */
  datatype Threshold = MinIdentity(bound: real) | MinBitScore(bound: real) | MaxEvalue(bound: real)

  predicate Passes(h: Hit, t: Threshold) {
    match t
    case MinIdentity(b) => h.identity >= b
    case MinBitScore(b) => h.bitScore >= b
    case MaxEvalue(b) => h.eValue <= b
  }

  /** The mask `output[<field>] <op> <bound>`. */
  function Meets(t: Threshold): Hit -> bool {
    (h: Hit) => Passes(h, t)
  }

  /** A threshold argument is used when it is truthy: given and non-zero. */
  predicate Active(bound: Option<real>) {
    bound.Some? && bound.value != 0.0
  }

  /**
   * The one threshold that decides `filtered`: later assignments win, so the
   * e-value bound overrides the bit-score bound, which overrides the identity bound.
   */
  function Effective(minBitScore: Option<real>, maxEvalue: Option<real>, minIdentity: Option<real>): (r: Option<Threshold>)
    ensures r.None? <==> !Active(minBitScore) && !Active(maxEvalue) && !Active(minIdentity)
    ensures r.Some? && r.value.MinIdentity? ==> !Active(maxEvalue) && !Active(minBitScore)
    ensures r.Some? && r.value.MinBitScore? ==> !Active(maxEvalue) && Active(minBitScore)
    ensures r.Some? && r.value.MaxEvalue? ==> Active(maxEvalue)
  {
    if Active(maxEvalue) then Some(MaxEvalue(maxEvalue.value))
    else if Active(minBitScore) then Some(MinBitScore(minBitScore.value))
    else if Active(minIdentity) then Some(MinIdentity(minIdentity.value))
    else None
  }

  /**
   * The three `if <bound>: filtered = output[...]` statements; `None` stands
   * for `filtered` never having been assigned.
   */
  method ApplyThresholds(output: seq<Hit>, minBitScore: Option<real>, maxEvalue: Option<real>, minIdentity: Option<real>)
    returns (filtered: Option<seq<Hit>>)
    ensures filtered.None? <==> Effective(minBitScore, maxEvalue, minIdentity).None?
    ensures filtered.Some? ==> filtered.value == Where(output, Meets(Effective(minBitScore, maxEvalue, minIdentity).value))
  {
    filtered := None;
    if Active(minIdentity) {
      filtered := Some(Where(output, Meets(MinIdentity(minIdentity.value))));
    }
    if Active(minBitScore) {
      filtered := Some(Where(output, Meets(MinBitScore(minBitScore.value))));
    }
    if Active(maxEvalue) {
      filtered := Some(Where(output, Meets(MaxEvalue(maxEvalue.value))));
    }
  }

  /** Filtering twice by the same threshold is filtering once. */
  lemma ThresholdIdempotent(output: seq<Hit>, t: Threshold)
    ensures Where(Where(output, Meets(t)), Meets(t)) == Where(output, Meets(t))
    ensures forall h :: h in Where(output, Meets(t)) <==> h in output && Passes(h, t)
  {
    WhereIdempotent(output, Meets(t));
    WhereMembers(output, Meets(t));
  }

  // ---------------------------------------------------------------------------
  // Top-k selection

  /** Python's `s[start:]`: a negative start counts from the end, and a start past either end clamps. */
  function SliceFrom(s: seq<Hit>, start: int): (r: seq<Hit>)
    ensures |r| == if start >= 0 then (if start < |s| then |s| - start else 0) else (if -start < |s| then -start else |s|)
    ensures r == s[|s| - |r|..]
  {
    if start >= 0 then (if start < |s| then s[start..] else [])
    else if -start < |s| then s[|s| + start..]
    else s
  }

  /** The mask `db["query"] == query`. */
  function HasQuery(query: string): Hit -> bool {
    (h: Hit) => h.query == query
  }

  /**
   * `select_top_k`: the last `k` rows of `query`; all of them when `k` is 0
   * (`[-0:]` is the whole array), and all but the first `-k` when `k` is negative.
   */
  function SelectTopK(query: string, db: seq<Hit>, k: int): (r: seq<Hit>)
    ensures var w := Where(db, HasQuery(query));
      && |r| <= |w| && r == w[|w| - |r|..]
      && (k == 0 ==> r == w)
      && (k > 0 ==> |r| == if k < |w| then k else |w|)
      && (k < 0 ==> |r| == if |w| + k > 0 then |w| + k else 0)
  {
    SliceFrom(Where(db, HasQuery(query)), -k)
  }

  /** The `query` column. */
  function Queries(rows: seq<Hit>): (r: seq<string>)
    ensures |r| == |rows|
  {
    if rows == [] then [] else [rows[0].query] + Queries(rows[1..])
  }

  /** `pool.map(top_k_db, queries)`, in the order of `queries`. */
  function Chunks(queries: seq<string>, db: seq<Hit>, k: int): (r: seq<seq<Hit>>)
    ensures |r| == |queries|
  {
    if queries == [] then [] else [SelectTopK(queries[0], db, k)] + Chunks(queries[1..], db, k)
  }

  /** `np.concatenate` of a non-empty list of chunks. */
  function Concat(chunks: seq<seq<Hit>>): seq<Hit> {
    if chunks == [] then [] else chunks[0] + Concat(chunks[1..])
  }

  /** The two exceptions `filter_mmseqs_results` can raise. */
  datatype FilterError =
    | UnboundFiltered       // no threshold was active, so `filtered` was never assigned
    | EmptyConcatenation    // no row survived, and `np.concatenate([])` raises

  /** Sorting, per-query selection and concatenation of the rows that passed the thresholds. */
  function TopKPerQuery(filtered: seq<Hit>, k: int): Result<seq<Hit>, FilterError> {
    var sorted := SortHits(filtered);
    var queries := Unique(Queries(sorted));
    if queries == [] then Err(EmptyConcatenation) else Ok(Concat(Chunks(queries, sorted, k)))
  }

  /** What `filter_mmseqs_results` returns or raises, as written. */
  function FilterSpec(output: seq<Hit>, minBitScore: Option<real>, maxEvalue: Option<real>, minIdentity: Option<real>, k: int)
    : Result<seq<Hit>, FilterError>
  {
    match Effective(minBitScore, maxEvalue, minIdentity)
    case None => Err(UnboundFiltered)
    case Some(t) => TopKPerQuery(Where(output, Meets(t)), k)
  }

  /** `filter_mmseqs_results` over the rows `np.recfromcsv` loaded; the thread pool maps in order. */
  method FilterMmseqsResults(output: seq<Hit>, minBitScore: Option<real>, maxEvalue: Option<real>,
                             minIdentity: Option<real>, k: int)
    returns (r: Result<seq<Hit>, FilterError>)
    ensures r == FilterSpec(output, minBitScore, maxEvalue, minIdentity, k)
  {
    var filtered := ApplyThresholds(output, minBitScore, maxEvalue, minIdentity);
    if filtered.None? {
      return Err(UnboundFiltered);
    }
    var rows := filtered.value;
    var a := new Hit[|rows|](i requires 0 <= i < |rows| => rows[i]);
    assert a[..] == rows;
    SortInPlace(a);
    var queries := Unique(Queries(a[..]));
    var chunks := Chunks(queries, a[..], k);
    if |chunks| == 0 {
      return Err(EmptyConcatenation);
    }
    r := Ok(Concat(chunks));
  }

  // ---------------------------------------------------------------------------
  // What the selection keeps

  lemma {:induction false} QueriesAt(rows: seq<Hit>)
    ensures forall i :: 0 <= i < |rows| ==> Queries(rows)[i] == rows[i].query
  {
    if rows != [] {
      QueriesAt(rows[1..]);
    }
  }

  lemma QueriesMembers(rows: seq<Hit>, q: string)
    ensures q in Queries(rows) <==> exists h :: h in rows && h.query == q
  {
    QueriesAt(rows);
    if q in Queries(rows) {
      var i :| 0 <= i < |rows| && Queries(rows)[i] == q;
      assert rows[i] in rows;
    }
  }

  /** The rows of a suffix, by position and by membership. */
  lemma SuffixIndex(w: seq<Hit>, r: seq<Hit>)
    requires |r| <= |w| && r == w[|w| - |r|..]
    ensures forall i :: 0 <= i < |r| ==> r[i] == w[|w| - |r| + i]
    ensures forall h :: h in r ==> h in w
  {
    forall h | h in r ensures h in w {
      var i :| 0 <= i < |r| && r[i] == h;
      assert h == w[|w| - |r| + i];
    }
  }

  lemma SelectTopKMembers(q: string, db: seq<Hit>, k: int)
    ensures forall h :: h in SelectTopK(q, db, k) ==> h in db && h.query == q
  {
    WhereMembers(db, HasQuery(q));
    SuffixIndex(Where(db, HasQuery(q)), SelectTopK(q, db, k));
  }

  lemma {:induction false} ConcatChunksQueries(qs: seq<string>, db: seq<Hit>, k: int)
    ensures forall h :: h in Concat(Chunks(qs, db, k)) ==> h.query in qs
  {
    if qs != [] {
      ConcatChunksQueries(qs[1..], db, k);
      SelectTopKMembers(qs[0], db, k);
      assert Chunks(qs, db, k)[1..] == Chunks(qs[1..], db, k);
    }
  }

  lemma StrictlyAscendingTail(qs: seq<string>)
    requires qs != [] && StrictlyAscending(qs)
    ensures StrictlyAscending(qs[1..]) && qs[0] !in qs[1..]
  {
    forall i, j | 0 <= i < j < |qs[1..]| ensures Below(qs[1..][i], qs[1..][j]) {
      assert qs[1..][i] == qs[i + 1] && qs[1..][j] == qs[j + 1];
    }
    if qs[0] in qs[1..] {
      var j :| 0 <= j < |qs[1..]| && qs[1..][j] == qs[0];
      assert Below(qs[0], qs[j + 1]);
      BelowIrreflexive(qs[0]);
    }
  }

  /** Selecting one query out of the concatenated chunks gives back that query's chunk. */
  lemma {:induction false} ConcatChunksWhere(qs: seq<string>, db: seq<Hit>, k: int, q: string)
    requires StrictlyAscending(qs)
    ensures Where(Concat(Chunks(qs, db, k)), HasQuery(q)) == if q in qs then SelectTopK(q, db, k) else []
  {
    if qs != [] {
      var c := SelectTopK(qs[0], db, k);
      var rest := Concat(Chunks(qs[1..], db, k));
      StrictlyAscendingTail(qs);
      ConcatChunksWhere(qs[1..], db, k, q);
      assert Chunks(qs, db, k) == [c] + Chunks(qs[1..], db, k);
      assert Concat(Chunks(qs, db, k)) == c + rest;
      WhereConcat(c, rest, HasQuery(q));
      SelectTopKAdmits(qs[0], db, k);
      ChunkWhere(c, qs[0], q);
    }
  }

  /** Every row `select_top_k` returns is of the query it was asked for. */
  lemma SelectTopKAdmits(q: string, db: seq<Hit>, k: int)
    ensures forall i :: 0 <= i < |SelectTopK(q, db, k)| ==> SelectTopK(q, db, k)[i].query == q
  {
    var w, r := Where(db, HasQuery(q)), SelectTopK(q, db, k);
    WhereAdmits(db, HasQuery(q));
    SuffixIndex(w, r);
    forall i | 0 <= i < |r| ensures r[i].query == q {
      assert HasQuery(q)(w[|w| - |r| + i]);
    }
  }

  lemma ChunkWhere(c: seq<Hit>, q0: string, q: string)
    requires forall i :: 0 <= i < |c| ==> c[i].query == q0
    ensures Where(c, HasQuery(q)) == if q == q0 then c else []
  {
    if q == q0 {
      WhereAll(c, HasQuery(q));
    } else {
      WhereNone(c, HasQuery(q));
    }
  }

  lemma SuffixSorted(s: seq<Hit>, n: nat)
    requires n <= |s| && Sorted(s)
    ensures Sorted(s[n..])
  {
    forall i, j | 0 <= i < j < |s[n..]| ensures !HitBelow(s[n..][j], s[n..][i]) {
      assert s[n..][j] == s[n + j] && s[n..][i] == s[n + i];
    }
  }

  lemma SortedConcat(a: seq<Hit>, b: seq<Hit>)
    requires Sorted(a) && Sorted(b)
    requires forall x, y :: x in a && y in b ==> !HitBelow(y, x)
    ensures Sorted(a + b)
  {
    var r := a + b;
    forall i, j | 0 <= i < j < |r| ensures !HitBelow(r[j], r[i]) {
      if j < |a| {
        assert r[j] == a[j] && r[i] == a[i];
      } else if i >= |a| {
        assert r[j] == b[j - |a|] && r[i] == b[i - |a|];
      } else {
        assert r[i] == a[i] && r[j] == b[j - |a|];
      }
    }
  }

  /** Chunks of an ascending table, in ascending query order, concatenate to an ascending table. */
  lemma {:induction false} ConcatChunksSorted(qs: seq<string>, db: seq<Hit>, k: int)
    requires StrictlyAscending(qs) && Sorted(db)
    ensures Sorted(Concat(Chunks(qs, db, k)))
  {
    if qs != [] {
      var c := SelectTopK(qs[0], db, k);
      var w := Where(db, HasQuery(qs[0]));
      var rest := Concat(Chunks(qs[1..], db, k));
      StrictlyAscendingTail(qs);
      ConcatChunksSorted(qs[1..], db, k);
      assert Chunks(qs, db, k)[1..] == Chunks(qs[1..], db, k);
      WhereSorted(db, HasQuery(qs[0]));
      SuffixSorted(w, |w| - |c|);
      SelectTopKMembers(qs[0], db, k);
      ConcatChunksQueries(qs[1..], db, k);
      forall x, y | x in c && y in rest ensures !HitBelow(y, x) {
        var j :| 0 <= j < |qs[1..]| && qs[1..][j] == y.query;
        assert Below(qs[0], qs[j + 1]);
        HitBelowByQuery(x, y);
        HitBelowAsymmetric(x, y);
      }
      SortedConcat(c, rest);
    }
  }

  lemma SortHitsEmpty(s: seq<Hit>)
    ensures SortHits(s) == [] <==> s == []
  {
    if s != [] {
      assert s[0] in multiset(SortHits(s));
    }
  }

  /** The selection raises exactly when no row passed the thresholds. */
  lemma TopKPerQueryFails(filtered: seq<Hit>, k: int)
    ensures TopKPerQuery(filtered, k).Err? <==> filtered == []
    ensures TopKPerQuery(filtered, k).Err? ==> TopKPerQuery(filtered, k).error == EmptyConcatenation
  {
    var sorted := SortHits(filtered);
    SortHitsEmpty(filtered);
    if sorted != [] {
      QueriesMembers(sorted, sorted[0].query);
      assert sorted[0].query in Unique(Queries(sorted));
    }
  }

  /** The result restricted to one query is exactly `select_top_k` of that query over the sorted rows. */
  lemma TopKPerQueryGroups(filtered: seq<Hit>, k: int, q: string)
    requires TopKPerQuery(filtered, k).Ok?
    ensures Where(TopKPerQuery(filtered, k).value, HasQuery(q)) == SelectTopK(q, SortHits(filtered), k)
  {
    var sorted := SortHits(filtered);
    var queries := Unique(Queries(sorted));
    ConcatChunksWhere(queries, sorted, k, q);
    if q !in queries {
      QueriesMembers(sorted, q);
      forall i | 0 <= i < |sorted| ensures !HasQuery(q)(sorted[i]) {
        assert sorted[i] in sorted;
      }
      WhereNone(sorted, HasQuery(q));
    }
  }

  /** The result is grouped by ascending query, each group ascending in (identity, e-value). */
  lemma TopKPerQuerySorted(filtered: seq<Hit>, k: int)
    requires TopKPerQuery(filtered, k).Ok?
    ensures Sorted(TopKPerQuery(filtered, k).value)
  {
    SortHitsSorted(filtered);
    ConcatChunksSorted(Unique(Queries(SortHits(filtered))), SortHits(filtered), k);
  }

  lemma SuffixCount(w: seq<Hit>, n: nat, h: Hit)
    requires n <= |w|
    ensures multiset(w[n..])[h] <= multiset(w)[h]
  {
    assert w == w[..n] + w[n..];
    assert multiset(w) == multiset(w[..n]) + multiset(w[n..]);
  }

  lemma GroupCountAt(out: seq<Hit>, sorted: seq<Hit>, k: int, h: Hit)
    requires Where(out, HasQuery(h.query)) == SelectTopK(h.query, sorted, k)
    ensures multiset(out)[h] <= multiset(sorted)[h]
  {
    var p := HasQuery(h.query);
    var w := Where(sorted, p);
    var r := SelectTopK(h.query, sorted, k);
    assert p(h);
    var n := |w| - |r|;
    assert r == w[n..];
    WhereCountAt(out, p, h);
    assert multiset(out)[h] == multiset(r)[h];
    SuffixCount(w, n, h);
    assert multiset(r)[h] <= multiset(w)[h];
    WhereCountAt(sorted, p, h);
  }

  lemma TopKPerQueryCountAt(filtered: seq<Hit>, k: int, h: Hit)
    requires TopKPerQuery(filtered, k).Ok?
    ensures multiset(TopKPerQuery(filtered, k).value)[h] <= multiset(filtered)[h]
  {
    TopKPerQueryGroups(filtered, k, h.query);
    GroupCountAt(TopKPerQuery(filtered, k).value, SortHits(filtered), k, h);
  }

  /** Every returned row is one of the filtered rows, no more often than it occurs there. */
  lemma TopKPerQueryFromInput(filtered: seq<Hit>, k: int)
    requires TopKPerQuery(filtered, k).Ok?
    ensures multiset(TopKPerQuery(filtered, k).value) <= multiset(filtered)
  {
    forall h ensures multiset(TopKPerQuery(filtered, k).value)[h] <= multiset(filtered)[h] {
      TopKPerQueryCountAt(filtered, k, h);
    }
  }

  /**
   * With `k >= 1` each query keeps `min(k, its hit count)` rows; with `k == 0`
   * it keeps all of them.
   */
  lemma TopKPerQueryCount(filtered: seq<Hit>, k: int, q: string)
    requires TopKPerQuery(filtered, k).Ok? && k >= 0
    ensures var n := |Where(filtered, HasQuery(q))|;
      |Where(TopKPerQuery(filtered, k).value, HasQuery(q))| == if k == 0 || n < k then n else k
  {
    TopKPerQueryGroups(filtered, k, q);
    WherePermutation(SortHits(filtered), filtered, HasQuery(q));
  }

  /** With `k >= 0` every query that has a filtered row appears in the result. */
  lemma TopKPerQueryKeepsQueries(filtered: seq<Hit>, k: int, h: Hit)
    requires TopKPerQuery(filtered, k).Ok? && k >= 0 && h in filtered
    ensures exists o :: o in TopKPerQuery(filtered, k).value && o.query == h.query
  {
    var out := TopKPerQuery(filtered, k).value;
    TopKPerQueryCount(filtered, k, h.query);
    WhereMembers(filtered, HasQuery(h.query));
    WhereMembers(out, HasQuery(h.query));
    var kept := Where(out, HasQuery(h.query));
    assert |Where(filtered, HasQuery(h.query))| > 0 by {
      assert h in Where(filtered, HasQuery(h.query));
    }
    assert kept[0] in kept;
  }

  /** `d` does not outrank `h`: lower identity, or equal identity and no smaller e-value. */
  predicate RanksAtMost(d: Hit, h: Hit) {
    d.identity < h.identity || (d.identity == h.identity && d.eValue <= h.eValue)
  }

  /** In an ascending table, an earlier row of the same query does not outrank a later one. */
  lemma SortedRanks(w: seq<Hit>, i: nat, j: nat)
    requires Sorted(w) && i < j < |w| && w[i].query == w[j].query
    ensures RanksAtMost(w[i], w[j])
  {
    HitBelowTotal(w[i], w[j]);
    if w[i] != w[j] {
      HitBelowWithinQuery(w[i], w[j]);
    }
  }

  /**
   * Over ascending rows, `select_top_k` keeps the best rows of the query: none
   * of the rows it drops (the first `|w| - |r|`) outranks one it keeps.
   */
  lemma SelectTopKKeepsBest(q: string, db: seq<Hit>, k: int)
    requires Sorted(db)
    ensures var w, r := Where(db, HasQuery(q)), SelectTopK(q, db, k);
      forall i, j :: 0 <= i < |w| - |r| <= j < |w| ==> RanksAtMost(w[i], w[j])
  {
    var p := HasQuery(q);
    var w, r := Where(db, p), SelectTopK(q, db, k);
    WhereSorted(db, p);
    WhereAdmits(db, p);
    forall i, j | 0 <= i < |w| - |r| <= j < |w| ensures RanksAtMost(w[i], w[j]) {
      assert p(w[i]) && p(w[j]);
      SortedRanks(w, i, j);
    }
  }

  /**
   * When every row before the suffix `r` of `w` ranks at most every row of
   * `r`, a row of `w` missing from `r` ranks at most each row of `r`.
   */
  lemma DroppedRanksAtMost(w: seq<Hit>, r: seq<Hit>, d: Hit, h: Hit)
    requires |r| <= |w| && r == w[|w| - |r|..]
    requires forall i, j :: 0 <= i < |w| - |r| <= j < |w| ==> RanksAtMost(w[i], w[j])
    requires d in w && d !in r && h in r
    ensures RanksAtMost(d, h)
  {
    var n := |w| - |r|;
    assert w == w[..n] + r;
    assert d in w[..n];
    var i :| 0 <= i < n && w[..n][i] == d;
    var j :| 0 <= j < |r| && r[j] == h;
    assert w[i] == d && w[n + j] == h;
    assert RanksAtMost(w[i], w[n + j]);
  }

  lemma GroupKeepsBest(out: seq<Hit>, sorted: seq<Hit>, k: int, q: string, d: Hit, h: Hit)
    requires Sorted(sorted) && Where(out, HasQuery(q)) == SelectTopK(q, sorted, k)
    requires d in sorted && d.query == q && d !in Where(out, HasQuery(q)) && h in Where(out, HasQuery(q))
    ensures RanksAtMost(d, h)
  {
    SelectTopKKeepsBest(q, sorted, k);
    WhereMember(sorted, HasQuery(q), d);
    DroppedRanksAtMost(Where(sorted, HasQuery(q)), SelectTopK(q, sorted, k), d, h);
  }

  /** No filtered row of a query that the result drops outranks a row of that query it keeps. */
  lemma TopKPerQueryKeepsBest(filtered: seq<Hit>, k: int, q: string, d: Hit, h: Hit)
    requires TopKPerQuery(filtered, k).Ok?
    requires var kept := Where(TopKPerQuery(filtered, k).value, HasQuery(q));
      d in filtered && d.query == q && d !in kept && h in kept
    ensures RanksAtMost(d, h)
  {
    TopKPerQueryGroups(filtered, k, q);
    SortHitsSorted(filtered);
    assert d in multiset(SortHits(filtered));
    GroupKeepsBest(TopKPerQuery(filtered, k).value, SortHits(filtered), k, q, d, h);
  }

  // ---------------------------------------------------------------------------
  // The whole filter, as written

  /** Every row `filter_mmseqs_results` returns is an input row that passes the threshold in force. */
  lemma FilterKeepsPassing(output: seq<Hit>, minBitScore: Option<real>, maxEvalue: Option<real>, minIdentity: Option<real>, k: int)
    requires FilterSpec(output, minBitScore, maxEvalue, minIdentity, k).Ok?
    ensures Effective(minBitScore, maxEvalue, minIdentity).Some?
    ensures multiset(FilterSpec(output, minBitScore, maxEvalue, minIdentity, k).value) <= multiset(output)
    ensures forall h :: h in FilterSpec(output, minBitScore, maxEvalue, minIdentity, k).value ==>
      Passes(h, Effective(minBitScore, maxEvalue, minIdentity).value)
  {
    var t := Effective(minBitScore, maxEvalue, minIdentity).value;
    var f := Where(output, Meets(t));
    assert FilterSpec(output, minBitScore, maxEvalue, minIdentity, k) == TopKPerQuery(f, k);
    var out := TopKPerQuery(f, k).value;
    TopKPerQueryFromInput(f, k);
    assert multiset(f) <= multiset(output) by {
      forall h ensures multiset(f)[h] <= multiset(output)[h] {
        WhereCountAt(output, Meets(t), h);
      }
    }
    forall h | h in out ensures Passes(h, t) {
      assert h in multiset(out);
      assert h in multiset(f);
      WhereMember(output, Meets(t), h);
    }
  }

  /** With several thresholds given, the result is that of the last assigned one alone. */
  lemma ThresholdsOverride(output: seq<Hit>, minBitScore: Option<real>, maxEvalue: Option<real>, minIdentity: Option<real>, k: int)
    ensures Active(maxEvalue) ==>
      FilterSpec(output, minBitScore, maxEvalue, minIdentity, k) == FilterSpec(output, None, maxEvalue, None, k)
    ensures !Active(maxEvalue) && Active(minBitScore) ==>
      FilterSpec(output, minBitScore, maxEvalue, minIdentity, k) == FilterSpec(output, minBitScore, None, None, k)
    ensures !Active(maxEvalue) && !Active(minBitScore) ==>
      FilterSpec(output, minBitScore, maxEvalue, minIdentity, k) == FilterSpec(output, None, None, minIdentity, k)
  {
  }

  /** A hit of identity 0.2 with e-value 0.001, against `min_identity=0.5` and `max_evalue=1.0`. */
  function LowIdentityHit(): Hit {
    Hit("q1", "t1", 0.2, 100, 0, 0, 1, 100, 1, 100, 0.001, 50.0)
  }

  lemma SingleRowSelection(h: Hit, k: int)
    requires k > 0
    ensures TopKPerQuery([h], k) == Ok([h])
  {
    assert SortHits([h]) == InsertHit(h, SortHits([])) == [h];
    assert Queries([h]) == [h.query];
    var u := Unique([h.query]);
    assert u == [h.query] by {
      assert h.query in u;
      BelowIrreflexive(h.query);
      assert forall i :: 0 <= i < |u| ==> u[i] == h.query;
    }
    assert Where([h], HasQuery(h.query)) == [h];
    assert Chunks(u, [h], k) == [[h]];
    assert Concat([[h]]) == [h] + Concat([]);
  }

  /** As written, `max_evalue` overrides `min_identity`: a hit below the identity bound is returned. */
  lemma OverrideKeepsLowIdentity()
    ensures !Passes(LowIdentityHit(), MinIdentity(0.5))
    ensures FilterSpec([LowIdentityHit()], None, Some(1.0), Some(0.5), 30) == Ok([LowIdentityHit()])
  {
    var h := LowIdentityHit();
    assert Effective(None, Some(1.0), Some(0.5)) == Some(MaxEvalue(1.0));
    assert Meets(MaxEvalue(1.0))(h);
    assert Where([h], Meets(MaxEvalue(1.0))) == [h] + Where([], Meets(MaxEvalue(1.0)));
    SingleRowSelection(h, 30);
  }

  /** As written, a call with no active threshold (the defaults) fails: `filtered` is never bound. */
  lemma NoThresholdFails(output: seq<Hit>, k: int)
    ensures FilterSpec(output, None, None, None, k) == Err(UnboundFiltered)
    ensures FilterSpec(output, Some(0.0), Some(0.0), Some(0.0), k) == Err(UnboundFiltered)
  {
  }

  // ---------------------------------------------------------------------------
  // The filter with conjunctive thresholds

  /** The rows that pass every active threshold; with none active, every row. */
  function MeetsAll(minBitScore: Option<real>, maxEvalue: Option<real>, minIdentity: Option<real>): Hit -> bool {
    (h: Hit) =>
      (Active(minIdentity) ==> Passes(h, MinIdentity(minIdentity.value))) &&
      (Active(minBitScore) ==> Passes(h, MinBitScore(minBitScore.value))) &&
      (Active(maxEvalue) ==> Passes(h, MaxEvalue(maxEvalue.value)))
  }

  /** `filter_mmseqs_results` with the thresholds combined by AND and no threshold meaning no filter. */
  function FilterIntended(output: seq<Hit>, minBitScore: Option<real>, maxEvalue: Option<real>, minIdentity: Option<real>, k: int)
    : Result<seq<Hit>, FilterError>
  {
    TopKPerQuery(Where(output, MeetsAll(minBitScore, maxEvalue, minIdentity)), k)
  }

  /**
   * The corrected filter returns input rows that pass every active threshold,
   * and with `k >= 0` keeps every query for which some row passes them all.
   */
  lemma IntendedMeetsEveryThreshold(output: seq<Hit>, minBitScore: Option<real>, maxEvalue: Option<real>, minIdentity: Option<real>, k: int)
    requires FilterIntended(output, minBitScore, maxEvalue, minIdentity, k).Ok?
    ensures var out := FilterIntended(output, minBitScore, maxEvalue, minIdentity, k).value;
      && multiset(out) <= multiset(output)
      && (forall h :: h in out ==> MeetsAll(minBitScore, maxEvalue, minIdentity)(h))
      && (k >= 0 ==> forall h :: h in output && MeetsAll(minBitScore, maxEvalue, minIdentity)(h) ==>
            exists o :: o in out && o.query == h.query)
  {
    var p := MeetsAll(minBitScore, maxEvalue, minIdentity);
    var f := Where(output, p);
    var out := FilterIntended(output, minBitScore, maxEvalue, minIdentity, k).value;
    TopKPerQueryFromInput(f, k);
    WhereCount(output, p);
    forall h | h in out ensures p(h) {
      assert h in multiset(out);
      WhereMember(output, p, h);
    }
    if k >= 0 {
      forall h | h in output && p(h) ensures exists o :: o in out && o.query == h.query {
        WhereMember(output, p, h);
        TopKPerQueryKeepsQueries(f, k, h);
      }
    }
  }

  /** Without thresholds the corrected filter selects over all rows. */
  lemma IntendedWithoutThresholds(output: seq<Hit>, k: int)
    ensures FilterIntended(output, None, None, None, k) == TopKPerQuery(output, k)
  {
    WhereAll(output, MeetsAll(None, None, None));
  }

  /** With a single active threshold the corrected filter agrees with the code as written. */
  lemma IntendedAgreesOnOneThreshold(output: seq<Hit>, minBitScore: Option<real>, maxEvalue: Option<real>, minIdentity: Option<real>, k: int)
    requires (if Active(minBitScore) then 1 else 0) + (if Active(maxEvalue) then 1 else 0) + (if Active(minIdentity) then 1 else 0) == 1
    ensures FilterIntended(output, minBitScore, maxEvalue, minIdentity, k) == FilterSpec(output, minBitScore, maxEvalue, minIdentity, k)
  {
    var t := Effective(minBitScore, maxEvalue, minIdentity).value;
    WhereExtensional(output, MeetsAll(minBitScore, maxEvalue, minIdentity), Meets(t));
  }

  /** The corrected filter drops the low-identity hit that the code as written returns. */
  lemma IntendedDropsLowIdentity()
    ensures FilterIntended([LowIdentityHit()], None, Some(1.0), Some(0.5), 30) == Err(EmptyConcatenation)
  {
    assert Where([LowIdentityHit()], MeetsAll(None, Some(1.0), Some(0.5))) == [];
  }
}
