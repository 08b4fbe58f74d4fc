/**
 * Orderings over strings as Python and numpy compute them: `sorted` on a list
 * of strings, and `np.unique` with and without `return_counts`.
 */
module Ordering {
  import opened Text

  /** Non-decreasing in Python's `str` order. */
  predicate Ascending(s: seq<string>) {
    forall i, j :: 0 <= i < j < |s| ==> !Below(s[j], s[i])
  }

  /** Strictly increasing in Python's `str` order, hence without repeats. */
  predicate StrictlyAscending(s: seq<string>) {
    forall i, j :: 0 <= i < j < |s| ==> Below(s[i], s[j])
  }

  /** Inserts `x` into an ascending sequence before the first element not below it. */
  function Insert(x: string, s: seq<string>): (r: seq<string>)
    requires Ascending(s)
    ensures Ascending(r)
    ensures multiset(r) == multiset(s) + multiset{x}
  {
    if s == [] then [x]
    else if !Below(s[0], x) then
      InsertFront(x, s);
      [x] + s
    else
      var t := Insert(x, s[1..]);
      assert s == [s[0]] + s[1..];
      InsertBehind(x, s, t);
      [s[0]] + t
  }

  lemma InsertFront(x: string, s: seq<string>)
    requires s != [] && Ascending(s) && !Below(s[0], x)
    ensures Ascending([x] + s)
  {
    var r := [x] + s;
    forall i, j | 0 <= i < j < |r| ensures !Below(r[j], r[i]) {
      if i == 0 {
        if Below(r[j], x) {
          if j > 1 {
            assert !Below(s[j - 1], s[0]);
            BelowTotal(s[j - 1], s[0]);
            if s[j - 1] != s[0] { BelowTransitive(s[0], s[j - 1], x); }
          }
        }
      }
    }
  }

  lemma InsertBehind(x: string, s: seq<string>, t: seq<string>)
    requires s != [] && Ascending(s) && Below(s[0], x)
    requires Ascending(t) && multiset(t) == multiset(s[1..]) + multiset{x}
    ensures Ascending([s[0]] + t)
  {
    var r := [s[0]] + t;
    forall i, j | 0 <= i < j < |r| ensures !Below(r[j], r[i]) {
      if i == 0 {
        var y := t[j - 1];
        assert y in multiset(t);
        if y == x {
          BelowAsymmetric(s[0], x);
        } else {
          assert y in multiset(s[1..]);
          var k :| 0 <= k < |s[1..]| && s[1..][k] == y;
          assert !Below(s[k + 1], s[0]);
        }
      }
    }
  }

  /** `sorted(s)`: an ascending rearrangement of `s`. */
  function SortStrings(s: seq<string>): (r: seq<string>)
    ensures Ascending(r)
    ensures multiset(r) == multiset(s)
  {
    if s == [] then []
    else
      assert s == [s[0]] + s[1..];
      Insert(s[0], SortStrings(s[1..]))
  }

  /** In an ascending sequence every later element is at least the first one. */
  lemma AscendingFromFirst(s: seq<string>, j: int)
    requires Ascending(s) && 0 < j < |s| && s[j] != s[0]
    ensures Below(s[0], s[j])
  {
    BelowTotal(s[0], s[j]);
  }

  /** Drops repeats from an ascending sequence. */
  function Dedupe(s: seq<string>): (r: seq<string>)
    requires Ascending(s)
    ensures StrictlyAscending(r)
    ensures forall x :: x in r <==> x in s
  {
    if |s| <= 1 then s
    else if s[0] == s[1] then
      var r := Dedupe(s[1..]);
      assert forall x :: x in s <==> x in s[1..] by {
        assert s == [s[0]] + s[1..];
      }
      r
    else
      var t := Dedupe(s[1..]);
      assert s == [s[0]] + s[1..];
      DedupeHead(s, t);
      [s[0]] + t
  }

  lemma DedupeHead(s: seq<string>, t: seq<string>)
    requires |s| > 1 && Ascending(s) && s[0] != s[1]
    requires StrictlyAscending(t) && forall x :: x in t <==> x in s[1..]
    ensures StrictlyAscending([s[0]] + t)
  {
    AscendingFromFirst(s, 1);
    var r := [s[0]] + t;
    forall i, j | 0 <= i < j < |r| ensures Below(r[i], r[j]) {
      if i == 0 {
        var y := t[j - 1];
        assert y in s[1..];
        var k :| 1 <= k < |s| && s[k] == y;
        if k > 1 {
          assert !Below(s[k], s[1]);
          BelowTotal(s[1], s[k]);
          if s[k] != s[1] { BelowTransitive(s[0], s[1], s[k]); }
        }
      }
    }
  }

  /** `np.unique(s)`: the distinct values of `s`, ascending. */
  function Unique(s: seq<string>): (r: seq<string>)
    ensures StrictlyAscending(r)
    ensures forall x :: x in r <==> x in s
  {
    var t := SortStrings(s);
    assert forall x :: x in t <==> x in s by {
      forall x ensures x in t <==> x in s {
        assert x in t <==> x in multiset(t);
        assert x in s <==> x in multiset(s);
      }
    }
    Dedupe(t)
  }

  /** Number of leading copies of `s[0]`. */
  function RunLength(s: seq<string>): (n: nat)
    requires s != []
    ensures 1 <= n <= |s|
    ensures n == |s| || s[n] != s[0]
  {
    if |s| == 1 || s[1] != s[0] then 1 else 1 + RunLength(s[1..])
  }

  /** The run at the front of `s` repeats `s[0]`. */
  lemma {:induction false} RunIsConstant(s: seq<string>)
    requires s != []
    ensures forall i :: 0 <= i < RunLength(s) ==> s[i] == s[0]
    decreases |s|
  {
    if |s| > 1 && s[1] == s[0] {
      RunIsConstant(s[1..]);
    }
  }

  /** The runs of equal values of an ascending sequence, as (value, length) pairs. */
  function Runs(s: seq<string>): seq<(string, nat)>
    requires Ascending(s)
    decreases |s|
  {
    if s == [] then []
    else
      var n := RunLength(s);
      [(s[0], n)] + Runs(s[n..])
  }

  /** `np.unique(s, return_counts=True)`, zipped: each distinct value with its count. */
  function Tally(s: seq<string>): seq<(string, nat)> {
    Runs(SortStrings(s))
  }

  /** The keys of a tally. */
  function Keys(t: seq<(string, nat)>): (r: seq<string>)
    ensures |r| == |t| && forall i :: 0 <= i < |t| ==> r[i] == t[i].0
  {
    seq(|t|, i requires 0 <= i < |t| => t[i].0)
  }

  /** Sum of the counts of a tally. */
  function Total(t: seq<(string, nat)>): nat {
    if t == [] then 0 else t[0].1 + Total(t[1..])
  }

  lemma {:induction false} MultiplicityOfRun(t: seq<string>, x: string)
    requires forall i :: 0 <= i < |t| ==> t[i] == x
    ensures multiset(t)[x] == |t|
    decreases |t|
  {
    if t != [] {
      assert t == t[..|t| - 1] + [t[|t| - 1]];
      MultiplicityOfRun(t[..|t| - 1], x);
    }
  }

  /** The run lengths add up to the length of the sequence. */
  lemma {:induction false} RunsTotal(s: seq<string>)
    requires Ascending(s)
    ensures Total(Runs(s)) == |s|
    decreases |s|
  {
    if s != [] {
      var n := RunLength(s);
      RunsTotal(s[n..]);
      assert Runs(s)[1..] == Runs(s[n..]);
    }
  }

  /** After the first run, every value of an ascending sequence is strictly above `s[0]`. */
  lemma RestAbove(s: seq<string>)
    requires s != [] && Ascending(s)
    ensures forall j :: RunLength(s) <= j < |s| ==> Below(s[0], s[j])
  {
    var n := RunLength(s);
    forall j | n <= j < |s| ensures Below(s[0], s[j]) {
      AscendingFromFirst(s, n);
      if j > n {
        assert !Below(s[j], s[n]);
        BelowTotal(s[n], s[j]);
        if s[j] != s[n] { BelowTransitive(s[0], s[n], s[j]); }
      }
    }
  }

  /** The run values are the distinct values, strictly ascending. */
  lemma {:induction false} RunsKeys(s: seq<string>)
    requires Ascending(s)
    ensures StrictlyAscending(Keys(Runs(s)))
    ensures forall x :: x in Keys(Runs(s)) <==> x in s
    decreases |s|
  {
    if s != [] {
      var n := RunLength(s);
      var rest := s[n..];
      RunsKeys(rest);
      RestAbove(s);
      RunIsConstant(s);
      var ks := Keys(Runs(s));
      assert ks == [s[0]] + Keys(Runs(rest));
      forall i, j | 0 <= i < j < |ks| ensures Below(ks[i], ks[j]) {
        if i == 0 {
          assert ks[j] in rest;
        }
      }
      assert s == s[..n] + rest;
      forall x ensures x in ks <==> x in s {
        assert x in s <==> x in s[..n] || x in rest;
      }
    }
  }

  /** Each run length is the whole multiplicity of its value. */
  lemma {:induction false} RunsCount(s: seq<string>)
    requires Ascending(s)
    ensures forall i :: 0 <= i < |Runs(s)| ==> Runs(s)[i].1 == multiset(s)[Runs(s)[i].0] > 0
    decreases |s|
  {
    if s != [] {
      var n := RunLength(s);
      var rest := s[n..];
      assert s == s[..n] + rest;
      RunsCount(rest);
      RunsKeys(rest);
      RestAbove(s);
      RunIsConstant(s);
      MultiplicityOfRun(s[..n], s[0]);
      BelowIrreflexive(s[0]);
      assert s[0] !in rest;
      var r := Runs(s);
      assert r == [(s[0], n)] + Runs(rest);
      forall i | 0 <= i < |r| ensures r[i].1 == multiset(s)[r[i].0] > 0 {
        if i > 0 {
          var k := r[i].0;
          assert k == Keys(Runs(rest))[i - 1];
          assert k in rest;
          assert k != s[0];
          assert multiset(s[..n])[k] == 0;
        }
      }
    }
  }

  /** The counts reported by `np.unique(s, return_counts=True)`. */
  lemma TallyProperties(s: seq<string>)
    ensures StrictlyAscending(Keys(Tally(s)))
    ensures forall x :: x in Keys(Tally(s)) <==> x in s
    ensures forall i :: 0 <= i < |Tally(s)| ==> Tally(s)[i].1 == multiset(s)[Tally(s)[i].0] > 0
    ensures Total(Tally(s)) == |s|
  {
    var t := SortStrings(s);
    RunsKeys(t);
    RunsCount(t);
    RunsTotal(t);
    forall x ensures x in t <==> x in s {
      assert x in t <==> x in multiset(t);
      assert x in s <==> x in multiset(s);
    }
  }
}
