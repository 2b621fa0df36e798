/** `find_duplicate` in image_deduplio/deduplio.py, lines 161-163 of that
    file: after a duplicate `(img_1, img_2)` is
    found, the loop `for pair in img_pairs: if img_1 in pair: img_pairs.remove(pair)`
    walks the live pair list while deleting from it. Python's list iterator
    keeps an index into the list and advances it by one per step, so each
    deletion shifts the next element into the slot already visited and that
    element is skipped. */
module Elimination {
  import opened Seqs
  import opened Listing

  /** Python's `x in pair` on a 2-tuple. */
  predicate Mentions(p: Pair, x: Path)
    ensures Mentions(p, x) <==> x in [p.img1, p.img2]
  {
    x == p.img1 || x == p.img2
  }

  /** Position of the first element of `s` equal to `v`. */
  function IndexOf(s: seq<Pair>, v: Pair): (k: nat)
    requires v in s
    ensures k < |s| && s[k] == v && v !in s[..k]
  {
    if s[0] == v then 0
    else
      var k := 1 + IndexOf(s[1..], v);
      assert s[..k] == [s[0]] + s[1..][..k - 1];
      k
  }

  /** Python's `list.remove(v)`: deletes the first element equal to `v`. */
  function RemoveFirst(s: seq<Pair>, v: Pair): (r: seq<Pair>)
    requires v in s
    ensures r == s[..IndexOf(s, v)] + s[IndexOf(s, v) + 1..]
  {
    if s[0] == v then s[1..]
    else
      var k := IndexOf(s[1..], v);
      assert s[..k + 1] == [s[0]] + s[1..][..k];
      assert s[k + 2..] == s[1..][k + 1..];
      [s[0]] + RemoveFirst(s[1..], v)
  }

  /** The first occurrence is at `m` when `m` holds the value and no earlier position does. */
  lemma {:induction false} IndexOfAt(s: seq<Pair>, m: nat)
    requires m < |s| && s[m] !in s[..m]
    ensures IndexOf(s, s[m]) == m
  {
    if m > 0 {
      assert s[0] in s[..m];
      assert s[1..][..m - 1] == s[1..m];
      assert s[..m] == [s[0]] + s[1..m];
      IndexOfAt(s[1..], m - 1);
    }
  }

  /** In a list without repetitions, removing the element found at position `m`
      deletes exactly that position. */
  lemma RemoveFirstAt(s: seq<Pair>, m: nat)
    requires Distinct(s) && m < |s|
    ensures RemoveFirst(s, s[m]) == s[..m] + s[m + 1..]
  {
    assert forall a :: 0 <= a < m ==> s[..m][a] == s[a] != s[m];
    IndexOfAt(s, m);
  }

  /** Deleting one position keeps a list free of repetitions. */
  lemma DeleteAtDistinct(s: seq<Pair>, m: nat)
    requires Distinct(s) && m < |s|
    ensures Distinct(s[..m] + s[m + 1..])
  {
    var r := s[..m] + s[m + 1..];
    assert forall a :: 0 <= a < |r| ==> r[a] == s[if a < m then a else a + 1];
  }

  /** What the removal pass leaves of the list `s`: an element mentioning `x`
      is deleted and the element right after it is kept without being looked at. */
  function Sweep(s: seq<Pair>, x: Path): (r: seq<Pair>)
    ensures |r| <= |s|
    ensures forall p :: p in r ==> p in s
  {
    if s == [] then []
    else if Mentions(s[0], x) then (if |s| == 1 then [] else [s[1]] + Sweep(s[2..], x))
    else [s[0]] + Sweep(s[1..], x)
  }

  /** The pairs of `s` that do not mention `x`, in order. */
  function Without(s: seq<Pair>, x: Path): (r: seq<Pair>)
    ensures forall p :: p in r <==> p in s && !Mentions(p, x)
  {
    if s == [] then []
    else (if Mentions(s[0], x) then [] else [s[0]]) + Without(s[1..], x)
  }

  /** `Without` is the order-preserving filter of the pairs that do not mention `x`. */
  lemma {:induction false} WithoutIsFilter(s: seq<Pair>, x: Path)
    ensures Without(s, x) == Filter(p => !Mentions(p, x), s)
  {
    if s != [] {
      WithoutIsFilter(s[1..], x);
    }
  }

  /** The pass never adds a pair and keeps the survivors in their order. */
  lemma {:induction false} SweepIsSubsequence(s: seq<Pair>, x: Path)
    ensures IsSubsequence(Sweep(s, x), s)
  {
    if s == [] {
      assert Embeds([], s, []);
    } else if Mentions(s[0], x) {
      if |s| == 1 {
        assert Embeds([], s, []);
      } else {
        SweepIsSubsequence(s[2..], x);
        var idx :| Embeds(Sweep(s[2..], x), s[2..], idx);
        EmbedsKeep(s[1], Sweep(s[2..], x), s[2..], idx);
        assert [s[1]] + s[2..] == s[1..];
        EmbedsSkip(s[0], [s[1]] + Sweep(s[2..], x), s[1..], [0] + Shift(idx, 1));
        assert [s[0]] + s[1..] == s;
      }
    } else {
      SweepIsSubsequence(s[1..], x);
      var idx :| Embeds(Sweep(s[1..], x), s[1..], idx);
      EmbedsKeep(s[0], Sweep(s[1..], x), s[1..], idx);
      assert [s[0]] + s[1..] == s;
    }
  }

  /** The pass keeps a list free of repetitions. */
  lemma SweepDistinct(s: seq<Pair>, x: Path)
    requires Distinct(s)
    ensures Distinct(Sweep(s, x))
  {
    SweepIsSubsequence(s, x);
    var idx :| Embeds(Sweep(s, x), s, idx);
    EmbedsDistinct(Sweep(s, x), s, idx);
  }

  /** Only pairs mentioning `x` are deleted: the pairs that do not mention `x`
      are all still there, in the same relative order. */
  lemma {:induction false} SweepKeepsOthers(s: seq<Pair>, x: Path)
    ensures Without(Sweep(s, x), x) == Without(s, x)
    ensures forall p :: p in s && p !in Sweep(s, x) ==> Mentions(p, x)
  {
    if s == [] {
    } else if Mentions(s[0], x) {
      if |s| == 1 {
        assert Without(s, x) == [] + Without(s[1..], x);
      } else {
        SweepKeepsOthers(s[2..], x);
        var t := [s[1]] + Sweep(s[2..], x);
        assert t[1..] == Sweep(s[2..], x);
        assert s[1..][1..] == s[2..];
        calc {
          Without(Sweep(s, x), x);
          (if Mentions(s[1], x) then [] else [s[1]]) + Without(Sweep(s[2..], x), x);
          (if Mentions(s[1], x) then [] else [s[1]]) + Without(s[2..], x);
          Without(s[1..], x);
          Without(s, x);
        }
      }
    } else {
      SweepKeepsOthers(s[1..], x);
      var t := [s[0]] + Sweep(s[1..], x);
      assert t[1..] == Sweep(s[1..], x);
    }
  }

  /** The list gets strictly shorter exactly when some pair mentions `x`:
      the first such pair is always looked at and deleted. */
  lemma {:induction false} SweepShrinksIff(s: seq<Pair>, x: Path)
    ensures |Sweep(s, x)| < |s| <==> exists p :: p in s && Mentions(p, x)
  {
    if s == [] {
    } else if Mentions(s[0], x) {
      assert s[0] in s;
    } else {
      SweepShrinksIff(s[1..], x);
      var t := [s[0]] + Sweep(s[1..], x);
      if exists p :: p in s && Mentions(p, x) {
        var p :| p in s && Mentions(p, x);
        assert p in s[1..];
      }
      assert forall p :: p in s[1..] ==> p in s;
    }
  }

  /** A removal pass for an image that no pair mentions changes nothing. */
  lemma {:induction false} SweepUntouched(s: seq<Pair>, x: Path)
    requires forall p :: p in s ==> !Mentions(p, x)
    ensures Sweep(s, x) == s
  {
    if s != [] {
      assert s[0] in s;
      assert forall p :: p in s[1..] ==> p in s;
      SweepUntouched(s[1..], x);
    }
  }

  /** One step of the pass over a pair that does not mention `x`: it is kept. */
  lemma SweepPast(p: Pair, t: seq<Pair>, x: Path)
    requires !Mentions(p, x)
    ensures Sweep([p] + t, x) == [p] + Sweep(t, x)
  {
    assert ([p] + t)[1..] == t;
  }

  /** One step of the pass over a pair that mentions `x`: it is deleted and its
      successor `q` is kept unexamined. */
  lemma SweepDropsHead(p: Pair, q: Pair, t: seq<Pair>, x: Path)
    requires Mentions(p, x)
    ensures Sweep([p, q] + t, x) == [q] + Sweep(t, x)
  {
    assert ([p, q] + t)[2..] == t;
  }

  /** The pass is not exhaustive. With (a,b), (a,c), (a,d), (b,c) and `x = a`:
      (a,b) is deleted, (a,c) is skipped, (a,d) is deleted, (b,c) is kept,
      so (a,c) survives although it mentions `a`. */
  lemma SweepSkipsSuccessor(a: Path, b: Path, c: Path, d: Path)
    requires a != b && a != c && a != d && b != c
    ensures Sweep([Pair(a, b), Pair(a, c), Pair(a, d), Pair(b, c)], a) == [Pair(a, c), Pair(b, c)]
  {
    var s := [Pair(a, b), Pair(a, c), Pair(a, d), Pair(b, c)];
    assert s[2..] == [Pair(a, d), Pair(b, c)];
    assert s[2..][1..] == [Pair(b, c)];
    assert Sweep([Pair(b, c)], a) == [Pair(b, c)] + Sweep([], a);
  }

  /** One step of the pass over a pair that does not mention `x`. */
  lemma SweepKept(s: seq<Pair>, x: Path, m: nat)
    requires m < |s| && !Mentions(s[m], x)
    ensures s[..m] + Sweep(s[m..], x) == s[..m + 1] + Sweep(s[m + 1..], x)
  {
    assert s[m..][1..] == s[m + 1..];
    assert s[..m + 1] == s[..m] + [s[m]];
  }

  /** One step of the pass over a pair that mentions `x`: once it is removed,
      the next pair sits at the position already visited. */
  lemma SweepDeleted(s: seq<Pair>, x: Path, m: nat)
    requires m < |s| && Mentions(s[m], x)
    ensures var t := s[..m] + s[m + 1..];
      var m' := if m + 1 <= |t| then m + 1 else |t|;
      s[..m] + Sweep(s[m..], x) == t[..m'] + Sweep(t[m'..], x)
  {
    var t := s[..m] + s[m + 1..];
    if m + 1 < |s| {
      assert s[m..][1..] == s[m + 1..];
      assert s[m..][2..] == s[m + 2..];
      assert t[..m + 1] == s[..m] + [s[m + 1]];
      assert t[m + 1..] == s[m + 2..];
    } else {
      assert t == s[..m];
      assert t[..m] == t;
    }
  }

  /** deduplio.py lines 161-163 as written: a `for` over the list being mutated, with
      Python's iterator index `j` and `list.remove`. */
  method RemovalPass(imgPairs: seq<Pair>, img1: Path) returns (live: seq<Pair>)
    requires Distinct(imgPairs)
    ensures live == Sweep(imgPairs, img1)
  {
    live := imgPairs;
    var j := 0;
    while j < |live|
      invariant j <= |live| + 1
      invariant Distinct(live)
      invariant var m := if j <= |live| then j else |live|;
        Sweep(imgPairs, img1) == live[..m] + Sweep(live[m..], img1)
      decreases |live| + 1 - j
    {
      var pair := live[j];
      j := j + 1;
      if Mentions(pair, img1) {
        SweepDeleted(live, img1, j - 1);
        RemoveFirstAt(live, j - 1);
        DeleteAtDistinct(live, j - 1);
        live := RemoveFirst(live, pair);
      } else {
        SweepKept(live, img1, j - 1);
      }
    }
    assert live[..|live|] == live;
  }
}
