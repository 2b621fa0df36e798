/** `find_duplicate` in image_deduplio/deduplio.py, lines 153-155 of that
    file: the candidate paths and the list of all
    pairs of candidates. */
module Listing {
  import opened Seqs

  type Path = string

  /** The marker `'.jpg'` whose presence anywhere in a path makes it a candidate. */
  const JpgMarker: string := ".jpg"

  /** `sub` occurs in `s` starting at offset `k`. */
  ghost predicate OccursAt(s: string, sub: string, k: nat) {
    k + |sub| <= |s| && s[k..k + |sub|] == sub
  }

  /** Python's `sub in s` on strings, as a left-to-right search. */
  predicate HasSubstring(s: string, sub: string)
    decreases |s|
  {
    |sub| <= |s| && (s[..|sub|] == sub || (|s| > 0 && HasSubstring(s[1..], sub)))
  }

  /** The search finds `sub` exactly when `sub` occurs at some offset of `s`. */
  lemma {:induction false} HasSubstringIff(s: string, sub: string)
    ensures HasSubstring(s, sub) <==> exists k: nat :: OccursAt(s, sub, k)
    decreases |s|
  {
    if HasSubstring(s, sub) {
      if s[..|sub|] == sub {
        assert OccursAt(s, sub, 0);
      } else {
        HasSubstringIff(s[1..], sub);
        var k: nat :| OccursAt(s[1..], sub, k);
        assert s[1..][k..k + |sub|] == s[k + 1..k + 1 + |sub|];
        assert OccursAt(s, sub, k + 1);
      }
    }
    if exists k: nat :: OccursAt(s, sub, k) {
      var k: nat :| OccursAt(s, sub, k);
      if k > 0 {
        assert s[1..][k - 1..k - 1 + |sub|] == s[k..k + |sub|];
        assert OccursAt(s[1..], sub, k - 1);
        HasSubstringIff(s[1..], sub);
      }
    }
  }

  /** The filter of line 154. */
  predicate IsJpg(p: Path) {
    HasSubstring(p, JpgMarker)
  }

  /** deduplio.py line 153: the directory string concatenated with each listed name, in listing order. */
  function Joined(dir: string, names: seq<string>): (r: seq<Path>)
    ensures |r| == |names|
    ensures forall k :: 0 <= k < |r| ==>
      |r[k]| == |dir| + |names[k]| && r[k][..|dir|] == dir && r[k][|dir|..] == names[k]
  {
    seq(|names|, k requires 0 <= k < |names| => dir + names[k])
  }

  /** deduplio.py lines 153-154: the candidate image paths. */
  function Candidates(dir: string, names: seq<string>): (r: seq<Path>)
    ensures forall p :: p in r <==>
      (exists k :: 0 <= k < |names| && p == dir + names[k]) && HasSubstring(p, JpgMarker)
  {
    var files := Joined(dir, names);
    assert forall p :: p in files <==> exists k :: 0 <= k < |names| && p == dir + names[k] by {
      forall p | p in files ensures exists k :: 0 <= k < |names| && p == dir + names[k] {
        var k :| 0 <= k < |files| && files[k] == p;
      }
      forall p, k | 0 <= k < |names| && p == dir + names[k] ensures p in files {
        assert files[k] == p;
      }
    }
    Filter(IsJpg, files)
  }

  /** Candidates keep the order in which the directory listing gave the names. */
  lemma CandidatesInListingOrder(dir: string, names: seq<string>)
    ensures IsSubsequence(Candidates(dir, names), Joined(dir, names))
  {
    FilterIsSubsequence(IsJpg, Joined(dir, names));
  }

  /** Distinct names give distinct candidate paths. */
  lemma CandidatesDistinct(dir: string, names: seq<string>)
    requires Distinct(names)
    ensures Distinct(Candidates(dir, names))
  {
    var files := Joined(dir, names);
    forall a, b | 0 <= a < b < |files| ensures files[a] != files[b] {
      assert files[a][|dir|..] == names[a];
      assert files[b][|dir|..] == names[b];
    }
    FilterDistinct(IsJpg, files);
  }

  /** The tuple `(img_1, img_2)` produced by `itertools.combinations`. */
  datatype Pair = Pair(img1: Path, img2: Path)

  /** Positions (i, j) of the two candidates that make up a pair. */
  datatype IndexPair = IndexPair(i: nat, j: nat)

  predicate LexLess(a: IndexPair, b: IndexPair) {
    a.i < b.i || (a.i == b.i && a.j < b.j)
  }

  /** (i, i+1), (i, i+2), ..., (i, n-1). */
  function Row(i: nat, n: nat): seq<IndexPair> {
    if i + 1 >= n then [] else seq(n - i - 1, k requires 0 <= k < n - i - 1 => IndexPair(i, i + 1 + k))
  }

  /** The index pairs that `itertools.combinations(range(n), 2)` yields from row `i` on. */
  function IndexPairsFrom(i: nat, n: nat): (r: seq<IndexPair>)
    ensures forall k :: 0 <= k < |r| ==> i <= r[k].i < r[k].j < n
    decreases n - i
  {
    if i >= n then [] else Row(i, n) + IndexPairsFrom(i + 1, n)
  }

  /** Every (a, b) with i <= a < b < n is enumerated. */
  lemma {:induction false} IndexPairsFromComplete(i: nat, n: nat)
    ensures forall a, b :: i <= a < b < n ==> IndexPair(a, b) in IndexPairsFrom(i, n)
    decreases n - i
  {
    if i < n {
      IndexPairsFromComplete(i + 1, n);
      forall a, b | i <= a < b < n ensures IndexPair(a, b) in IndexPairsFrom(i, n) {
        if a == i {
          assert Row(i, n)[b - i - 1] == IndexPair(a, b);
        }
      }
    }
  }

  /** The enumeration is strictly increasing in lexicographic order. */
  lemma {:induction false} IndexPairsFromSorted(i: nat, n: nat)
    ensures forall x, y :: 0 <= x < y < |IndexPairsFrom(i, n)| ==>
      LexLess(IndexPairsFrom(i, n)[x], IndexPairsFrom(i, n)[y])
    decreases n - i
  {
    if i < n {
      IndexPairsFromSorted(i + 1, n);
      var row, rest := Row(i, n), IndexPairsFrom(i + 1, n);
      assert IndexPairsFrom(i, n) == row + rest;
      forall x, y | 0 <= x < y < |row + rest| ensures LexLess((row + rest)[x], (row + rest)[y]) {
        if y >= |row| && x < |row| {
          assert (row + rest)[y] == rest[y - |row|];
        } else if y >= |row| {
          assert (row + rest)[y] == rest[y - |row|];
          assert (row + rest)[x] == rest[x - |row|];
        }
      }
    }
  }

  /** There are (n - i)(n - i - 1)/2 index pairs from row i on. */
  lemma {:induction false} IndexPairsFromCount(i: nat, n: nat)
    requires i <= n
    ensures 2 * |IndexPairsFrom(i, n)| == (n - i) * (n - i - 1)
    decreases n - i
  {
    if i < n {
      IndexPairsFromCount(i + 1, n);
      var m := n - i;
      assert |Row(i, n)| == m - 1;
      assert m * (m - 1) == (m - 1) * (m - 2) + 2 * (m - 1);
    }
  }

  /** deduplio.py line 155: `list(itertools.combinations(img_files, 2))`. The pairs are the
      images of `IndexPairsFrom(0, |f|)`, so they come in lexicographic order of
      their index pairs. */
  function Combinations(f: seq<Path>): (r: seq<Pair>)
    ensures |f| < 2 ==> r == []
    ensures forall p :: p in r <==> exists a, b :: 0 <= a < b < |f| && p == Pair(f[a], f[b])
    ensures |r| == |IndexPairsFrom(0, |f|)|
    ensures forall k :: 0 <= k < |r| ==>
      r[k] == Pair(f[IndexPairsFrom(0, |f|)[k].i], f[IndexPairsFrom(0, |f|)[k].j])
  {
    var ips := IndexPairsFrom(0, |f|);
    IndexPairsFromCount(0, |f|);
    PairsAtMembers(f);
    PairsAt(f, ips)
  }

  /** The pairs of paths that the index pairs `ips` select from `f`, in order. */
  function PairsAt(f: seq<Path>, ips: seq<IndexPair>): (r: seq<Pair>)
    requires forall k :: 0 <= k < |ips| ==> ips[k].i < |f| && ips[k].j < |f|
    ensures |r| == |ips|
    ensures forall k :: 0 <= k < |r| ==> r[k] == Pair(f[ips[k].i], f[ips[k].j])
  {
    seq(|ips|, k requires 0 <= k < |ips| => Pair(f[ips[k].i], f[ips[k].j]))
  }

  /** Every pair of positions `a < b` of `f` is selected, and nothing else. */
  lemma PairsAtMembers(f: seq<Path>)
    ensures var r := PairsAt(f, IndexPairsFrom(0, |f|));
      forall p :: p in r <==> exists a, b :: 0 <= a < b < |f| && p == Pair(f[a], f[b])
  {
    var ips := IndexPairsFrom(0, |f|);
    var r := PairsAt(f, ips);
    forall p | p in r ensures exists a, b :: 0 <= a < b < |f| && p == Pair(f[a], f[b]) {
      var k :| 0 <= k < |r| && r[k] == p;
      assert 0 <= ips[k].i < ips[k].j < |f| && p == Pair(f[ips[k].i], f[ips[k].j]);
    }
    IndexPairsFromComplete(0, |f|);
    forall a, b | 0 <= a < b < |f| ensures Pair(f[a], f[b]) in r {
      var k :| 0 <= k < |ips| && ips[k] == IndexPair(a, b);
      assert r[k] == Pair(f[a], f[b]);
    }
  }

  /** Exactly n(n-1)/2 pairs are formed from n candidates. */
  lemma CombinationsCount(f: seq<Path>)
    ensures 2 * |Combinations(f)| == |f| * (|f| - 1)
  {
    IndexPairsFromCount(0, |f|);
  }

  /** Distinct candidates give distinct pairs, and no pair of a path with itself. */
  lemma CombinationsDistinct(f: seq<Path>)
    requires Distinct(f)
    ensures Distinct(Combinations(f))
    ensures forall p :: p in Combinations(f) ==> p.img1 != p.img2
  {
    var ips := IndexPairsFrom(0, |f|);
    var r := Combinations(f);
    IndexPairsFromSorted(0, |f|);
    forall x, y | 0 <= x < y < |r| ensures r[x] != r[y] {
      assert LexLess(ips[x], ips[y]);
      assert r[x] == Pair(f[ips[x].i], f[ips[x].j]);
      assert r[y] == Pair(f[ips[y].i], f[ips[y].j]);
    }
  }

  /** `itertools.combinations([a, b, c], 2)`. */
  lemma CombinationsOfThree(a: Path, b: Path, c: Path)
    ensures Combinations([a, b, c]) == [Pair(a, b), Pair(a, c), Pair(b, c)]
  {
    assert Row(0, 3) == [IndexPair(0, 1), IndexPair(0, 2)];
    assert Row(1, 3) == [IndexPair(1, 2)];
    assert IndexPairsFrom(2, 3) == Row(2, 3) + IndexPairsFrom(3, 3) == [];
    assert IndexPairsFrom(0, 3) == [IndexPair(0, 1), IndexPair(0, 2), IndexPair(1, 2)];
  }

  /** `itertools.combinations([a, b, c, d, e], 2)`. */
  lemma CombinationsOfFive(a: Path, b: Path, c: Path, d: Path, e: Path)
    ensures Combinations([a, b, c, d, e])
         == [Pair(a, b), Pair(a, c), Pair(a, d), Pair(a, e), Pair(b, c),
             Pair(b, d), Pair(b, e), Pair(c, d), Pair(c, e), Pair(d, e)]
  {
    IndexPairsOfFive();
  }

  /** The index pairs over five positions, row by row. */
  lemma IndexPairsOfFive()
    ensures IndexPairsFrom(0, 5)
         == [IndexPair(0, 1), IndexPair(0, 2), IndexPair(0, 3), IndexPair(0, 4), IndexPair(1, 2),
             IndexPair(1, 3), IndexPair(1, 4), IndexPair(2, 3), IndexPair(2, 4), IndexPair(3, 4)]
  {
    assert Row(0, 5) == [IndexPair(0, 1), IndexPair(0, 2), IndexPair(0, 3), IndexPair(0, 4)];
    assert Row(1, 5) == [IndexPair(1, 2), IndexPair(1, 3), IndexPair(1, 4)];
    assert Row(2, 5) == [IndexPair(2, 3), IndexPair(2, 4)];
    assert Row(3, 5) == [IndexPair(3, 4)];
    assert IndexPairsFrom(4, 5) == Row(4, 5) + IndexPairsFrom(5, 5) == [];
  }

  /** `itertools.combinations([a, b, c, d], 2)`. */
  lemma CombinationsOfFour(a: Path, b: Path, c: Path, d: Path)
    ensures Combinations([a, b, c, d])
         == [Pair(a, b), Pair(a, c), Pair(a, d), Pair(b, c), Pair(b, d), Pair(c, d)]
  {
    assert Row(0, 4) == [IndexPair(0, 1), IndexPair(0, 2), IndexPair(0, 3)];
    assert Row(1, 4) == [IndexPair(1, 2), IndexPair(1, 3)];
    assert Row(2, 4) == [IndexPair(2, 3)];
    assert IndexPairsFrom(3, 4) == Row(3, 4) + IndexPairsFrom(4, 4) == [];
    assert IndexPairsFrom(0, 4)
        == [IndexPair(0, 1), IndexPair(0, 2), IndexPair(0, 3), IndexPair(1, 2), IndexPair(1, 3), IndexPair(2, 3)];
  }
}
