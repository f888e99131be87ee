/**
 * The tag tally of `tags` and `/tags`: a dictionary from tag to number of occurrences, kept in
 * the order tags were first seen, then listed by descending count.
 */
module Counting {
  import opened Sorting

  /** An insertion-ordered dictionary from tag to count */
  type Counts = seq<(string, nat)>

  function Keys(t: Counts): (ks: seq<string>)
    ensures |ks| == |t| && forall i :: 0 <= i < |t| ==> ks[i] == t[i].0
  {
    seq(|t|, i requires 0 <= i < |t| => t[i].0)
  }

  /** `counts.get(k, 0)` */
  function Get(t: Counts, k: string): nat {
    if t == [] then 0 else if t[0].0 == k then t[0].1 else Get(t[1..], k)
  }

  ghost predicate Distinct(ks: seq<string>) {
    forall i, j :: 0 <= i < j < |ks| ==> ks[i] != ks[j]
  }

  /** `counts[k] = counts.get(k, 0) + 1`: an existing entry keeps its place, a new one goes last */
  function Bump(t: Counts, k: string): Counts {
    if t == [] then [(k, 1)]
    else if t[0].0 == k then [(k, t[0].1 + 1)] + t[1..]
    else [t[0]] + Bump(t[1..], k)
  }

  /** The dictionary after counting `occ` from the start */
  function TallyOf(occ: seq<string>): Counts
    decreases |occ|
  {
    if occ == [] then [] else Bump(TallyOf(occ[..|occ| - 1]), occ[|occ| - 1])
  }

  function Count(row: (string, nat)): int { row.1 }

  /** `sorted(counts.items(), key=lambda x: x[1], reverse=True)` */
  function Rows(occ: seq<string>): seq<(string, nat)> {
    SortBy(TallyOf(occ), Count, Greater)
  }

  lemma {:induction false} BumpGet(t: Counts, k: string, j: string)
    ensures Get(Bump(t, k), j) == Get(t, j) + (if j == k then 1 else 0)
    decreases |t|
  {
    if t != [] && t[0].0 != k {
      BumpGet(t[1..], k, j);
    }
  }

  lemma {:induction false} BumpKeys(t: Counts, k: string)
    requires Distinct(Keys(t))
    ensures Distinct(Keys(Bump(t, k)))
    ensures forall j :: j in Keys(Bump(t, k)) <==> j in Keys(t) || j == k
    decreases |t|
  {
    if t == [] {
      assert Keys(Bump(t, k)) == [k];
    } else {
      KeysCons(t);
      DistinctCons(t[0].0, Keys(t[1..]));
      if t[0].0 != k {
        BumpKeys(t[1..], k);
        KeysCons(Bump(t, k));
        DistinctCons(t[0].0, Keys(Bump(t[1..], k)));
      } else {
        KeysCons(Bump(t, k));
      }
    }
  }

  lemma KeysCons(t: Counts)
    requires t != []
    ensures Keys(t) == [t[0].0] + Keys(t[1..])
  {
  }

  lemma DistinctCons(x: string, ks: seq<string>)
    ensures Distinct([x] + ks) <==> x !in ks && Distinct(ks)
  {
    var s := [x] + ks;
    if Distinct(s) {
      forall i, j | 0 <= i < j < |ks| ensures ks[i] != ks[j] {
        assert s[i + 1] != s[j + 1];
      }
      forall i | 0 <= i < |ks| ensures ks[i] != x {
        assert s[0] != s[i + 1];
      }
    }
    if x !in ks && Distinct(ks) {
      forall i, j | 0 <= i < j < |s| ensures s[i] != s[j] {
        assert s[j] == ks[j - 1];
        if i > 0 {
          assert s[i] == ks[i - 1];
        }
      }
    }
  }

  lemma {:induction false} GetOfEntry(t: Counts, i: nat)
    requires Distinct(Keys(t)) && i < |t|
    ensures Get(t, t[i].0) == t[i].1
    decreases i
  {
    if i > 0 {
      assert Keys(t)[0] != Keys(t)[i];
      assert Keys(t)[1..] == Keys(t[1..]);
      GetOfEntry(t[1..], i - 1);
    }
  }

  lemma {:induction false} PositiveCounts(t: Counts, k: string)
    requires forall i :: 0 <= i < |t| ==> t[i].1 > 0
    ensures forall i :: 0 <= i < |Bump(t, k)| ==> Bump(t, k)[i].1 > 0
    decreases |t|
  {
    if t != [] && t[0].0 != k {
      PositiveCounts(t[1..], k);
    }
  }

  /**
   * The dictionary counts every tag exactly as often as it occurs, holds each tag once, holds
   * exactly the tags that occur, and no entry is zero
   */
  lemma {:induction false} TallyCounts(occ: seq<string>)
    ensures forall k :: Get(TallyOf(occ), k) == multiset(occ)[k]
    ensures Distinct(Keys(TallyOf(occ)))
    ensures forall k :: k in Keys(TallyOf(occ)) <==> k in occ
    ensures forall i :: 0 <= i < |TallyOf(occ)| ==> TallyOf(occ)[i].1 > 0
    decreases |occ|
  {
    if occ != [] {
      var init := occ[..|occ| - 1];
      var x := occ[|occ| - 1];
      TallyCounts(init);
      assert occ == init + [x];
      forall k ensures Get(TallyOf(occ), k) == multiset(occ)[k] {
        BumpGet(TallyOf(init), x, k);
      }
      BumpKeys(TallyOf(init), x);
      PositiveCounts(TallyOf(init), x);
    }
  }

  /**
   * The listed rows: each tag that occurs appears in exactly one row, with its number of
   * occurrences, and the rows run from the most to the least frequent
   */
  lemma RowsCount(occ: seq<string>)
    ensures forall i :: 0 <= i < |Rows(occ)| ==> Rows(occ)[i].0 in occ && Rows(occ)[i].1 == multiset(occ)[Rows(occ)[i].0]
    ensures forall k :: k in occ ==> exists i :: 0 <= i < |Rows(occ)| && Rows(occ)[i].0 == k
    ensures forall i, j :: 0 <= i < j < |Rows(occ)| ==> Rows(occ)[i].1 >= Rows(occ)[j].1
    ensures |Rows(occ)| == |TallyOf(occ)|
  {
    var t := TallyOf(occ);
    var r := Rows(occ);
    GreaterOrder();
    SortBySorted(t, Count, Greater);
    RowsEntries(occ, r);
    RowsCover(occ, r);
    assert |r| == |multiset(r)| == |multiset(t)| == |t|;
  }

  /** Every row of a reordered dictionary is a tag that occurs, with its number of occurrences */
  lemma RowsEntries(occ: seq<string>, r: Counts)
    requires multiset(r) == multiset(TallyOf(occ))
    ensures forall i :: 0 <= i < |r| ==> r[i].0 in occ && r[i].1 == multiset(occ)[r[i].0]
  {
    var t := TallyOf(occ);
    TallyCounts(occ);
    forall i | 0 <= i < |r| ensures r[i].0 in occ && r[i].1 == multiset(occ)[r[i].0] {
      assert r[i] in multiset(t);
      var j :| 0 <= j < |t| && t[j] == r[i];
      assert Keys(t)[j] == r[i].0;
      GetOfEntry(t, j);
    }
  }

  /** Every tag that occurs has a row in a reordered dictionary */
  lemma RowsCover(occ: seq<string>, r: Counts)
    requires multiset(r) == multiset(TallyOf(occ))
    ensures forall k :: k in occ ==> exists i :: 0 <= i < |r| && r[i].0 == k
  {
    var t := TallyOf(occ);
    TallyCounts(occ);
    forall k | k in occ ensures exists i :: 0 <= i < |r| && r[i].0 == k {
      assert k in Keys(t);
      var j :| 0 <= j < |t| && Keys(t)[j] == k;
      assert t[j] in multiset(r);
      var i :| 0 <= i < |r| && r[i] == t[j];
    }
  }
}
