/** `DeduplioApp.find_duplicate` (image_deduplio/deduplio.py, lines 150-167 of that file;
    line numbers below refer to the same file): classify every pair of
    candidate images that the outer loop reaches, eliminating pairs after each
    duplicate as the removal pass does. */
module Scanner {
  import opened Wrappers
  import opened Seqs
  import opened Rules
  import opened Listing
  import opened Elimination

  /** What the image libraries answer, as functions of the paths:
      `phashDiff(a, b)` is `phash(Image.open(a)) - phash(Image.open(b))`, or None
      when PIL raises; `imread(a)` is the shape of `cv.imread(a, IMREAD_GRAYSCALE)`,
      or None when OpenCV cannot read the file; `matchTemplate(a, b)` is the
      outcome of matching template `b` inside image `a`. */
  datatype Oracles = Oracles(
    phashDiff: (Path, Path) -> Option<nat>,
    imread: Path -> Option<Shape>,
    matchTemplate: (Path, Path) -> MatchOutcome)

  /** An exception that escapes `find_duplicate`: PIL failed while hashing the
      pair, or `cv.imread` returned None so that `.shape` raised outside the `try`. */
  datatype ScanError = HashRaised(pair: Pair) | ReadFailed(pair: Pair)

  /** How the loop body treats one pair: the `if`, the `elif`, or neither. */
  datatype Verdict = Duplicate | Cropped | Unrelated

  /** The returned tuple `(duplicated_images, duplicated_cropped_images)`. */
  datatype Report = Report(duplicated: seq<Pair>, cropped: seq<Pair>)

  /** deduplio.py lines 158 and 164 for one pair: the duplicate rule first, the crop rule
      only when it fails. */
  function Classify(o: Oracles, p: Pair): (r: Result<Verdict, ScanError>)
    ensures r == Success(Duplicate) <==>
      o.phashDiff(p.img1, p.img2).Some? && o.phashDiff(p.img1, p.img2).value < DefaultHammingDistance
    ensures r == Success(Cropped) <==>
      && o.phashDiff(p.img1, p.img2).Some? && o.phashDiff(p.img1, p.img2).value >= DefaultHammingDistance
      && o.imread(p.img1).Some? && o.imread(p.img2).Some? && o.imread(p.img1) != o.imread(p.img2)
      && o.matchTemplate(p.img1, p.img2).Score? && o.matchTemplate(p.img1, p.img2).maxScore >= CropThreshold
    ensures r == Failure(HashRaised(p)) <==> o.phashDiff(p.img1, p.img2).None?
    ensures r == Failure(ReadFailed(p)) <==>
      && o.phashDiff(p.img1, p.img2).Some? && o.phashDiff(p.img1, p.img2).value >= DefaultHammingDistance
      && (o.imread(p.img1).None? || o.imread(p.img2).None?)
    ensures r.Failure? ==> r.error.pair == p
  {
    match o.phashDiff(p.img1, p.img2)
    case None => Failure(HashRaised(p))
    case Some(d) =>
      if Truthy(IsImageDuplicate(d, DefaultHammingDistance)) then Success(Duplicate)
      else
        var img, template := o.imread(p.img1), o.imread(p.img2);
        if img.None? || template.None? then Failure(ReadFailed(p))
        else if Truthy(IsImageCropped(img.value, template.value, o.matchTemplate(p.img1, p.img2)))
        then Success(Cropped)
        else Success(Unrelated)
  }

  /** The outer loop from iterator position `i` over the live list `live`, with
      `acc` holding what has been reported so far. After a duplicate the live
      list is replaced by what the removal pass leaves of it, and the iterator
      position still moves on by one. */
  function ScanLoop(live: seq<Pair>, i: nat, acc: Report, o: Oracles): (r: Result<Report, ScanError>)
    ensures r.Success? ==> acc.duplicated <= r.value.duplicated && acc.cropped <= r.value.cropped
    ensures r.Success? ==>
      |r.value.duplicated| + |r.value.cropped| <= |acc.duplicated| + |acc.cropped| + (if i <= |live| then |live| - i else 0)
    decreases |live| - i
  {
    if i >= |live| then Success(acc)
    else
      var p := live[i];
      match Classify(o, p)
      case Failure(e) => Failure(e)
      case Success(Duplicate) =>
        ScanLoop(Sweep(live, p.img1), i + 1, Report(acc.duplicated + [p], acc.cropped), o)
      case Success(Cropped) =>
        ScanLoop(live, i + 1, Report(acc.duplicated, acc.cropped + [p]), o)
      case Success(Unrelated) =>
        ScanLoop(live, i + 1, acc, o)
  }

  /** deduplio.py lines 157-167 started on the full pair list with both result lists empty. */
  function ScanPairs(all: seq<Pair>, o: Oracles): (r: Result<Report, ScanError>)
    ensures r.Success? ==> |r.value.duplicated| + |r.value.cropped| <= |all|
  {
    ScanLoop(all, 0, Report([], []), o)
  }

  /** deduplio.py lines 150-167: `find_duplicate(path)` with `names` standing for `os.listdir(path)`. */
  function FindDuplicateSpec(dir: string, names: seq<string>, o: Oracles): (r: Result<Report, ScanError>)
    ensures var n := |Candidates(dir, names)|;
      r.Success? ==> 2 * (|r.value.duplicated| + |r.value.cropped|) <= n * (n - 1)
  {
    CombinationsCount(Candidates(dir, names));
    ScanPairs(Combinations(Candidates(dir, names)), o)
  }

  /** No position of `d` holds a position of `c`. */
  ghost predicate Disjoint(d: seq<nat>, c: seq<nat>) {
    forall a, b :: 0 <= a < |d| && 0 <= b < |c| ==> d[a] != c[b]
  }

  /** Every pair reported so far sits, in `all`, before every live pair at or
      after the iterator: the outer loop has not yet reached those. */
  ghost predicate Behind(reported: seq<nat>, ids: seq<nat>, i: nat) {
    forall a, k :: 0 <= a < |reported| && i <= k < |ids| ==> reported[a] < ids[k]
  }

  /** Reporting the pair at the iterator: its position in `all` goes after every
      position reported so far and stays apart from the other list's. */
  lemma ReportAtIterator(all: seq<Pair>, live: seq<Pair>, i: nat, ids: seq<nat>,
                         xs: seq<Pair>, ds: seq<nat>, cs: seq<nat>)
    requires Embeds(live, all, ids) && i < |live|
    requires Embeds(xs, all, ds) && Disjoint(ds, cs)
    requires Behind(ds, ids, i) && Behind(cs, ids, i)
    ensures Embeds(xs + [live[i]], all, ds + [ids[i]])
    ensures Disjoint(ds + [ids[i]], cs) && Disjoint(cs, ds + [ids[i]])
    ensures Behind(ds + [ids[i]], ids, i + 1) && Behind(cs, ids, i + 1)
  {
  }

  /** After the removal pass, the survivors at or after the advanced iterator
      all lie, in `all`, after everything reported so far. */
  lemma {:induction false} SweepStaysAhead(all: seq<Pair>, live: seq<Pair>, i: nat, ids: seq<nat>,
                                           x: Path, ds: seq<nat>, cs: seq<nat>)
    requires Embeds(live, all, ids) && i < |live|
    requires Behind(ds, ids, i + 1) && Behind(cs, ids, i + 1)
    ensures exists ids' :: Embeds(Sweep(live, x), all, ids') && Behind(ds, ids', i + 1) && Behind(cs, ids', i + 1)
  {
    var live' := Sweep(live, x);
    SweepIsSubsequence(live, x);
    var idx :| Embeds(live', live, idx);
    EmbedsCompose(live', live, all, idx, ids);
    var ids' := seq(|idx|, k requires 0 <= k < |idx| && idx[k] < |ids| => ids[idx[k]]);
    forall k | i + 1 <= k < |ids'| ensures i + 1 <= idx[k] {
      EmbedsAdvance(live', live, idx, k);
    }
    assert Embeds(live', all, ids') && Behind(ds, ids', i + 1) && Behind(cs, ids', i + 1);
  }

  /** Invariant of the outer loop: both result lists are subsequences of the
      original pair list, taken at disjoint positions, and every reported
      pair precedes all pairs the iterator has yet to reach. */
  lemma {:induction false} ScanLoopOrder(all: seq<Pair>, live: seq<Pair>, i: nat, acc: Report, o: Oracles,
                                         ids: seq<nat>, dIds: seq<nat>, cIds: seq<nat>)
    requires Embeds(live, all, ids)
    requires Embeds(acc.duplicated, all, dIds) && Embeds(acc.cropped, all, cIds)
    requires Disjoint(dIds, cIds)
    requires Behind(dIds, ids, i) && Behind(cIds, ids, i)
    ensures ScanLoop(live, i, acc, o).Success? ==>
      var r := ScanLoop(live, i, acc, o).value;
      exists d, c :: Embeds(r.duplicated, all, d) && Embeds(r.cropped, all, c) && Disjoint(d, c)
    decreases |live| - i
  {
    if i >= |live| {
      assert Embeds(acc.duplicated, all, dIds) && Embeds(acc.cropped, all, cIds) && Disjoint(dIds, cIds);
    } else {
      var p := live[i];
      var e := ids[i];
      match Classify(o, p)
      case Failure(_) =>
      case Success(Duplicate) =>
        ReportAtIterator(all, live, i, ids, acc.duplicated, dIds, cIds);
        SweepStaysAhead(all, live, i, ids, p.img1, dIds + [e], cIds);
        var ids' :| Embeds(Sweep(live, p.img1), all, ids') && Behind(dIds + [e], ids', i + 1) && Behind(cIds, ids', i + 1);
        ScanLoopOrder(all, Sweep(live, p.img1), i + 1, Report(acc.duplicated + [p], acc.cropped), o, ids', dIds + [e], cIds);
      case Success(Cropped) =>
        ReportAtIterator(all, live, i, ids, acc.cropped, cIds, dIds);
        ScanLoopOrder(all, live, i + 1, Report(acc.duplicated, acc.cropped + [p]), o, ids, dIds, cIds + [e]);
      case Success(Unrelated) =>
        ScanLoopOrder(all, live, i + 1, acc, o, ids, dIds, cIds);
    }
  }

  /** Lists taken at disjoint positions of a list without repetitions share no
      element and have no repetitions themselves. */
  lemma DisjointEmbedsDistinct(all: seq<Pair>, xs: seq<Pair>, ys: seq<Pair>, d: seq<nat>, c: seq<nat>)
    requires Distinct(all) && Embeds(xs, all, d) && Embeds(ys, all, c) && Disjoint(d, c)
    ensures Distinct(xs + ys)
  {
    var zs := xs + ys;
    var z := d + c;
    forall a, b | 0 <= a < b < |zs| ensures zs[a] != zs[b] {
      assert zs[a] == all[z[a]] && zs[b] == all[z[b]];
      assert z[a] != z[b];
    }
  }

  /** deduplio.py lines 155-166: each result list is a subsequence of the original
      combination order, and when the pairs are distinct no pair is reported
      twice, in one list or across the two. */
  lemma ScanPairsOrder(all: seq<Pair>, o: Oracles)
    ensures ScanPairs(all, o).Success? ==>
      IsSubsequence(ScanPairs(all, o).value.duplicated, all) && IsSubsequence(ScanPairs(all, o).value.cropped, all)
    ensures ScanPairs(all, o).Success? && Distinct(all) ==>
      Distinct(ScanPairs(all, o).value.duplicated + ScanPairs(all, o).value.cropped)
  {
    var ids := seq(|all|, k requires 0 <= k < |all| => k);
    ScanLoopOrder(all, all, 0, Report([], []), o, ids, [], []);
    if ScanPairs(all, o).Success? {
      var r := ScanPairs(all, o).value;
      var d, c :| Embeds(r.duplicated, all, d) && Embeds(r.cropped, all, c) && Disjoint(d, c);
      if Distinct(all) {
        DisjointEmbedsDistinct(all, r.duplicated, r.cropped, d, c);
      }
    }
  }

  /** The live list once the pair at the iterator has been evaluated without
      raising: shrunk by the removal pass after a duplicate, unchanged otherwise. */
  function Advance(live: seq<Pair>, i: nat, o: Oracles): (r: seq<Pair>)
    requires i < |live|
    ensures |r| <= |live|
  {
    if Classify(o, live[i]) == Success(Duplicate) then Sweep(live, live[i].img1) else live
  }

  /** The pairs the outer loop hands to the two rules, in order, from iterator
      position `i` over `live`: every pair the iterator reaches, up to and
      including one whose evaluation raised. */
  function Evaluated(live: seq<Pair>, i: nat, o: Oracles): (r: seq<Pair>)
    ensures |r| <= (if i <= |live| then |live| - i else 0)
    ensures |r| > 0 ==> i < |live| && r[0] == live[i]
    decreases |live| - i
  {
    if i >= |live| then []
    else if Classify(o, live[i]).Failure? then [live[i]]
    else [live[i]] + Evaluated(Advance(live, i, o), i + 1, o)
  }

  /** The pass that follows an evaluation only deletes pairs. */
  lemma AdvanceIsSubsequence(live: seq<Pair>, i: nat, o: Oracles)
    requires i < |live|
    ensures IsSubsequence(Advance(live, i, o), live)
  {
    if Classify(o, live[i]) == Success(Duplicate) {
      SweepIsSubsequence(live, live[i].img1);
    } else {
      assert Embeds(live, live, seq(|live|, k requires 0 <= k < |live| => k));
    }
  }

  /** The pairs evaluated from iterator position `i` on appear, in order, among
      the live pairs at or after `i`: the removal passes only delete, so the
      iterator never meets a pair it has already passed. */
  lemma {:induction false} EvaluatedInOrder(live: seq<Pair>, i: nat, o: Oracles)
    requires i <= |live|
    ensures IsSubsequence(Evaluated(live, i, o), live[i..])
    decreases |live| - i
  {
    if i == |live| {
      assert Embeds(Evaluated(live, i, o), live[i..], []);
    } else if Classify(o, live[i]).Failure? {
      assert Embeds(Evaluated(live, i, o), live[i..], [0]);
    } else {
      var next := Advance(live, i, o);
      var rest := Evaluated(next, i + 1, o);
      assert IsSubsequence(rest, live[i + 1..]) by {
        if i + 1 <= |next| {
          EvaluatedInOrder(next, i + 1, o);
          AdvanceIsSubsequence(live, i, o);
          SubsequenceOfSuffix(rest, next, live, i + 1);
        } else {
          assert Embeds(rest, live[i + 1..], []);
        }
      }
      var r :| Embeds(rest, live[i + 1..], r);
      EmbedsKeep(live[i], rest, live[i + 1..], r);
      assert [live[i]] + live[i + 1..] == live[i..];
    }
  }

  /** deduplio.py lines 157-166: the pairs handed to the rules appear in
      combination order, and when the pairs are distinct no pair is evaluated
      twice, however the removal pass reshapes the live list. */
  lemma EvaluatedAtMostOnce(all: seq<Pair>, o: Oracles)
    requires Distinct(all)
    ensures IsSubsequence(Evaluated(all, 0, o), all) && Distinct(Evaluated(all, 0, o))
  {
    EvaluatedInOrder(all, 0, o);
    assert all[0..] == all;
    var e :| Embeds(Evaluated(all, 0, o), all, e);
    EmbedsDistinct(Evaluated(all, 0, o), all, e);
  }

  /** deduplio.py lines 157-166: every reported pair was evaluated. */
  lemma {:induction false} ScanLoopReportsEvaluated(live: seq<Pair>, i: nat, acc: Report, o: Oracles)
    ensures ScanLoop(live, i, acc, o).Success? ==>
      var r := ScanLoop(live, i, acc, o).value;
      && (forall p :: p in r.duplicated ==> p in acc.duplicated || p in Evaluated(live, i, o))
      && (forall p :: p in r.cropped ==> p in acc.cropped || p in Evaluated(live, i, o))
    decreases |live| - i
  {
    if i < |live| && Classify(o, live[i]).Success? {
      var p := live[i];
      var next := Advance(live, i, o);
      assert Evaluated(live, i, o) == [p] + Evaluated(next, i + 1, o);
      match Classify(o, p)
      case Success(Duplicate) =>
        ScanLoopReportsEvaluated(next, i + 1, Report(acc.duplicated + [p], acc.cropped), o);
      case Success(Cropped) =>
        ScanLoopReportsEvaluated(next, i + 1, Report(acc.duplicated, acc.cropped + [p]), o);
      case Success(Unrelated) =>
        ScanLoopReportsEvaluated(next, i + 1, acc, o);
    }
  }

  /** deduplio.py lines 157-166: a raised exception comes from the last pair evaluated. */
  lemma {:induction false} ScanLoopRaisesAtLast(live: seq<Pair>, i: nat, acc: Report, o: Oracles)
    ensures ScanLoop(live, i, acc, o).Failure? ==>
      var ev := Evaluated(live, i, o);
      |ev| > 0 && ev[|ev| - 1] == ScanLoop(live, i, acc, o).error.pair
    decreases |live| - i
  {
    if i < |live| && Classify(o, live[i]).Success? {
      var p := live[i];
      var next := Advance(live, i, o);
      var acc' := match Classify(o, p)
        case Success(Duplicate) => Report(acc.duplicated + [p], acc.cropped)
        case Success(Cropped) => Report(acc.duplicated, acc.cropped + [p])
        case _ => acc;
      assert ScanLoop(live, i, acc, o) == ScanLoop(next, i + 1, acc', o);
      ScanLoopRaisesAtLast(next, i + 1, acc', o);
      var rest := Evaluated(next, i + 1, o);
      assert Evaluated(live, i, o) == [p] + rest;
      if |rest| > 0 {
        assert ([p] + rest)[|rest|] == rest[|rest| - 1];
      }
    }
  }


  /** What every reported pair satisfies, per list. */
  ghost predicate Sound(r: Report, o: Oracles) {
    && (forall p :: p in r.duplicated ==> Classify(o, p) == Success(Duplicate))
    && (forall p :: p in r.cropped ==> Classify(o, p) == Success(Cropped))
  }

  lemma {:induction false} ScanLoopSound(live: seq<Pair>, i: nat, acc: Report, o: Oracles)
    requires Sound(acc, o)
    ensures ScanLoop(live, i, acc, o).Success? ==> Sound(ScanLoop(live, i, acc, o).value, o)
    decreases |live| - i
  {
    if i < |live| {
      var p := live[i];
      match Classify(o, p)
      case Failure(_) =>
      case Success(Duplicate) =>
        ScanLoopSound(Sweep(live, p.img1), i + 1, Report(acc.duplicated + [p], acc.cropped), o);
      case Success(Cropped) =>
        ScanLoopSound(live, i + 1, Report(acc.duplicated, acc.cropped + [p]), o);
      case Success(Unrelated) =>
        ScanLoopSound(live, i + 1, acc, o);
    }
  }

  /** deduplio.py lines 158-166: a reported duplicate passed the hash rule; a reported crop
      failed the hash rule, was readable, differs in shape and reached the
      match threshold. */
  lemma ScanPairsSound(all: seq<Pair>, o: Oracles)
    ensures ScanPairs(all, o).Success? ==>
      var r := ScanPairs(all, o).value;
      && (forall p :: p in r.duplicated ==>
            o.phashDiff(p.img1, p.img2).Some? && o.phashDiff(p.img1, p.img2).value < DefaultHammingDistance)
      && (forall p :: p in r.cropped ==>
            && o.phashDiff(p.img1, p.img2).Some? && o.phashDiff(p.img1, p.img2).value >= DefaultHammingDistance
            && o.imread(p.img1).Some? && o.imread(p.img2).Some? && o.imread(p.img1) != o.imread(p.img2)
            && o.matchTemplate(p.img1, p.img2).Score?
            && o.matchTemplate(p.img1, p.img2).maxScore >= CropThreshold)
  {
    ScanLoopSound(all, 0, Report([], []), o);
  }

  lemma {:induction false} ScanLoopFailure(all: seq<Pair>, live: seq<Pair>, i: nat, acc: Report, o: Oracles)
    requires forall p :: p in live ==> p in all
    ensures ScanLoop(live, i, acc, o).Failure? ==>
      var e := ScanLoop(live, i, acc, o).error;
      e.pair in all && Classify(o, e.pair) == Failure(e)
    decreases |live| - i
  {
    if i < |live| {
      var p := live[i];
      match Classify(o, p)
      case Failure(_) =>
      case Success(Duplicate) =>
        ScanLoopFailure(all, Sweep(live, p.img1), i + 1, Report(acc.duplicated + [p], acc.cropped), o);
      case Success(Cropped) =>
        ScanLoopFailure(all, live, i + 1, Report(acc.duplicated, acc.cropped + [p]), o);
      case Success(Unrelated) =>
        ScanLoopFailure(all, live, i + 1, acc, o);
    }
  }

  /** An exception escapes only from evaluating one of the original pairs,
      and it is the one that evaluating that pair raises. */
  lemma ScanPairsFailure(all: seq<Pair>, o: Oracles)
    ensures ScanPairs(all, o).Failure? ==>
      var e := ScanPairs(all, o).error;
      e.pair in all && Classify(o, e.pair) == Failure(e)
  {
    ScanLoopFailure(all, all, 0, Report([], []), o);
  }

  /** The pairs of `s` that the crop rule reports, in order. */
  function CroppedIn(o: Oracles, s: seq<Pair>): (r: seq<Pair>)
    ensures forall p :: p in r <==> p in s && Classify(o, p) == Success(Cropped)
  {
    if s == [] then []
    else (if Classify(o, s[0]) == Success(Cropped) then [s[0]] else []) + CroppedIn(o, s[1..])
  }

  /** `CroppedIn` is the order-preserving filter of the pairs classified as crops. */
  lemma {:induction false} CroppedInIsFilter(o: Oracles, s: seq<Pair>)
    ensures CroppedIn(o, s) == Filter(p => Classify(o, p) == Success(Cropped), s)
  {
    if s != [] {
      CroppedInIsFilter(o, s[1..]);
    }
  }

  /** The pairs of `s` that the duplicate rule reports, in order. */
  function DupsIn(o: Oracles, s: seq<Pair>): (r: seq<Pair>)
    ensures forall p :: p in r <==> p in s && Classify(o, p) == Success(Duplicate)
  {
    if s == [] then []
    else (if Classify(o, s[0]) == Success(Duplicate) then [s[0]] else []) + DupsIn(o, s[1..])
  }

  /** Both filters on a list that starts with `p`. */
  lemma FiltersOnCons(o: Oracles, p: Pair, rest: seq<Pair>)
    ensures DupsIn(o, [p] + rest) == (if Classify(o, p) == Success(Duplicate) then [p] else []) + DupsIn(o, rest)
    ensures CroppedIn(o, [p] + rest) == (if Classify(o, p) == Success(Cropped) then [p] else []) + CroppedIn(o, rest)
  {
    assert ([p] + rest)[1..] == rest;
  }

  /** One turn of the outer loop over a pair that does not raise: what is
      evaluated from here is that pair followed by what is evaluated from the
      next position of the advanced live list. */
  lemma EvaluatedStep(live: seq<Pair>, i: nat, o: Oracles)
    requires i < |live| && Classify(o, live[i]).Success?
    ensures Evaluated(live, i, o) == [live[i]] + Evaluated(Advance(live, i, o), i + 1, o)
  {
  }

  /** One turn of the outer loop over a pair that does not raise: the pair is
      appended to the list of its verdict, if any, and the loop goes on from the
      next position of the advanced live list. */
  lemma ScanLoopStep(live: seq<Pair>, i: nat, acc: Report, o: Oracles)
    requires i < |live| && Classify(o, live[i]).Success?
    ensures var p := live[i];
      var d := if Classify(o, p) == Success(Duplicate) then [p] else [];
      var c := if Classify(o, p) == Success(Cropped) then [p] else [];
      ScanLoop(live, i, acc, o) == ScanLoop(Advance(live, i, o), i + 1, Report(acc.duplicated + d, acc.cropped + c), o)
  {
    assert acc.duplicated + [] == acc.duplicated && acc.cropped + [] == acc.cropped;
  }

  /** The exact report of the rest of the loop, extended by one pair in front. */
  lemma ExactExtend(acc: Report, d: seq<Pair>, c: seq<Pair>, o: Oracles, rest: seq<Pair>, r: Report)
    requires r.duplicated == acc.duplicated + d + DupsIn(o, rest)
    requires r.cropped == acc.cropped + c + CroppedIn(o, rest)
    ensures r.duplicated == acc.duplicated + (d + DupsIn(o, rest))
    ensures r.cropped == acc.cropped + (c + CroppedIn(o, rest))
  {
  }

  /** deduplio.py lines 157-166: when the loop ends without an exception, each
      list has gained exactly the evaluated pairs its rule accepts, in the
      order they were evaluated. */
  lemma {:induction false} ScanLoopExact(live: seq<Pair>, i: nat, acc: Report, o: Oracles)
    ensures ScanLoop(live, i, acc, o).Success? ==>
      var r := ScanLoop(live, i, acc, o).value;
      var ev := Evaluated(live, i, o);
      r.duplicated == acc.duplicated + DupsIn(o, ev) && r.cropped == acc.cropped + CroppedIn(o, ev)
    decreases |live| - i
  {
    if i >= |live| {
      assert acc.duplicated + [] == acc.duplicated && acc.cropped + [] == acc.cropped;
    } else if Classify(o, live[i]).Success? {
      var p := live[i];
      var next := Advance(live, i, o);
      var rest := Evaluated(next, i + 1, o);
      EvaluatedStep(live, i, o);
      FiltersOnCons(o, p, rest);
      var d := if Classify(o, p) == Success(Duplicate) then [p] else [];
      var c := if Classify(o, p) == Success(Cropped) then [p] else [];
      var acc' := Report(acc.duplicated + d, acc.cropped + c);
      ScanLoopStep(live, i, acc, o);
      ScanLoopExact(next, i + 1, acc', o);
      if ScanLoop(next, i + 1, acc', o).Success? {
        ExactExtend(acc, d, c, o, rest, ScanLoop(next, i + 1, acc', o).value);
      }
    }
  }

  /** deduplio.py lines 157-167: a scan that returns reports exactly the
      evaluated pairs that the duplicate rule accepts, and exactly those that
      the crop rule accepts, each in evaluation order. */
  lemma ScanPairsExact(all: seq<Pair>, o: Oracles)
    ensures ScanPairs(all, o).Success? ==>
      ScanPairs(all, o).value == Report(DupsIn(o, Evaluated(all, 0, o)), CroppedIn(o, Evaluated(all, 0, o)))
  {
    ScanLoopExact(all, 0, Report([], []), o);
  }

  lemma {:induction false} ScanLoopNoDuplicates(all: seq<Pair>, i: nat, crops: seq<Pair>, o: Oracles)
    requires i <= |all|
    requires forall p :: p in all ==> Classify(o, p) == Success(Cropped) || Classify(o, p) == Success(Unrelated)
    ensures ScanLoop(all, i, Report([], crops), o) == Success(Report([], crops + CroppedIn(o, all[i..])))
    decreases |all| - i
  {
    if i < |all| {
      var p := all[i];
      assert p in all;
      assert all[i..][1..] == all[i + 1..];
      if Classify(o, p) == Success(Cropped) {
        assert CroppedIn(o, all[i..]) == [p] + CroppedIn(o, all[i + 1..]);
        assert crops + [p] + CroppedIn(o, all[i + 1..]) == crops + ([p] + CroppedIn(o, all[i + 1..]));
        ScanLoopNoDuplicates(all, i + 1, crops + [p], o);
      } else {
        assert Classify(o, p) == Success(Unrelated);
        assert CroppedIn(o, all[i..]) == CroppedIn(o, all[i + 1..]) by {
          assert CroppedIn(o, all[i..]) == [] + CroppedIn(o, all[i + 1..]);
        }
        ScanLoopNoDuplicates(all, i + 1, crops, o);
      }
    } else {
      assert all[i..] == [];
      assert crops + CroppedIn(o, []) == crops;
    }
  }

  /** With no duplicate and no raising pair, the iterator reaches every pair
      from position `i` on. */
  lemma {:induction false} EvaluatedWithoutDuplicates(all: seq<Pair>, i: nat, o: Oracles)
    requires i <= |all|
    requires forall p :: p in all ==> Classify(o, p) == Success(Cropped) || Classify(o, p) == Success(Unrelated)
    ensures Evaluated(all, i, o) == all[i..]
    decreases |all| - i
  {
    if i < |all| {
      assert all[i] in all;
      EvaluatedStep(all, i, o);
      EvaluatedWithoutDuplicates(all, i + 1, o);
      assert [all[i]] + all[i + 1..] == all[i..];
    }
  }

  /** When no pair is a duplicate and none raises, nothing is ever removed:
      every pair is evaluated, in order, and the cropped list is exactly the
      pairs the crop rule accepts. */
  lemma ScanPairsNoDuplicates(all: seq<Pair>, o: Oracles)
    requires forall p :: p in all ==> Classify(o, p) == Success(Cropped) || Classify(o, p) == Success(Unrelated)
    ensures Evaluated(all, 0, o) == all
    ensures ScanPairs(all, o) == Success(Report([], CroppedIn(o, all)))
  {
    EvaluatedWithoutDuplicates(all, 0, o);
    ScanLoopNoDuplicates(all, 0, [], o);
    assert all[0..] == all;
    assert [] + CroppedIn(o, all) == CroppedIn(o, all);
  }

  /** deduplio.py line 167 with fewer than two candidates: no pair exists, no oracle is
      consulted, and both lists come back empty. */
  lemma FindDuplicateTooFew(dir: string, names: seq<string>, o: Oracles)
    requires |Candidates(dir, names)| < 2
    ensures FindDuplicateSpec(dir, names, o) == Success(Report([], []))
  {
  }

  /** deduplio.py lines 150-167 on a real directory listing (distinct names): both lists are
      subsequences of `itertools.combinations(img_files, 2)`, each reported pair
      is two different candidates, and no pair appears twice across the two lists. */
  lemma FindDuplicateReport(dir: string, names: seq<string>, o: Oracles)
    requires Distinct(names)
    ensures FindDuplicateSpec(dir, names, o).Success? ==>
      var r := FindDuplicateSpec(dir, names, o).value;
      var all := Combinations(Candidates(dir, names));
      && IsSubsequence(r.duplicated, all) && IsSubsequence(r.cropped, all)
      && Distinct(r.duplicated + r.cropped)
      && forall p :: p in r.duplicated + r.cropped ==>
           p.img1 != p.img2 && p.img1 in Candidates(dir, names) && p.img2 in Candidates(dir, names)
  {
    var f := Candidates(dir, names);
    var all := Combinations(f);
    CandidatesDistinct(dir, names);
    CombinationsDistinct(f);
    ScanPairsOrder(all, o);
    if FindDuplicateSpec(dir, names, o).Success? {
      var r := FindDuplicateSpec(dir, names, o).value;
      var d, c :| Embeds(r.duplicated, all, d) && Embeds(r.cropped, all, c);
      forall p | p in r.duplicated + r.cropped
        ensures p.img1 != p.img2 && p.img1 in f && p.img2 in f
      {
        assert p in all;
        var a, b :| 0 <= a < b < |f| && p == Pair(f[a], f[b]);
      }
    }
  }

  /** Three mutually duplicate images a, b, c: (a,b) is reported, the removal
      pass for `a` deletes (a,b) but skips (a,c), the iterator moves on to (b,c),
      which is reported too, and (a,c) is never evaluated. Two pairs are
      reported, not all three. */
  lemma ThreeDuplicatesReportTwoPairs(a: Path, b: Path, c: Path, o: Oracles)
    requires a != b && a != c && b != c
    requires Classify(o, Pair(a, b)) == Success(Duplicate)
    requires Classify(o, Pair(b, c)) == Success(Duplicate)
    ensures ScanPairs(Combinations([a, b, c]), o) == Success(Report([Pair(a, b), Pair(b, c)], []))
  {
    CombinationsOfThree(a, b, c);
    var all := [Pair(a, b), Pair(a, c), Pair(b, c)];
    var live := [Pair(a, c), Pair(b, c)];
    assert Sweep(all, a) == live by {
      assert all[2..] == [Pair(b, c)];
      assert Sweep([Pair(b, c)], a) == [Pair(b, c)] + Sweep([], a);
    }
    assert Sweep(live, b) == [Pair(a, c)] by {
      assert live[1..] == [Pair(b, c)];
      assert Sweep([Pair(b, c)], b) == [];
    }
    assert all[0] == Pair(a, b) && live[1] == Pair(b, c);
    assert [] + [Pair(a, b)] == [Pair(a, b)];
    assert [Pair(a, b)] + [Pair(b, c)] == [Pair(a, b), Pair(b, c)];
    assert ScanLoop(all, 0, Report([], []), o) == ScanLoop(live, 1, Report([Pair(a, b)], []), o);
    assert ScanLoop(live, 1, Report([Pair(a, b)], []), o)
        == ScanLoop([Pair(a, c)], 2, Report([Pair(a, b), Pair(b, c)], []), o);
  }

  /** Four images where only (a,b) is a duplicate: the removal pass for `a`
      leaves (a,c) in front of the iterator's position, so (a,c) is never
      evaluated and is absent from the report whatever the crop rule would
      say about it. */
  lemma SkippedPairNeverEvaluated(a: Path, b: Path, c: Path, d: Path, o: Oracles)
    requires a != b && a != c && a != d && b != c && b != d && c != d
    requires Classify(o, Pair(a, b)) == Success(Duplicate)
    requires Classify(o, Pair(b, c)) == Success(Unrelated)
    requires Classify(o, Pair(b, d)) == Success(Unrelated)
    requires Classify(o, Pair(c, d)) == Success(Unrelated)
    ensures ScanPairs(Combinations([a, b, c, d]), o) == Success(Report([Pair(a, b)], []))
  {
    CombinationsOfFour(a, b, c, d);
    var all := [Pair(a, b), Pair(a, c), Pair(a, d), Pair(b, c), Pair(b, d), Pair(c, d)];
    var live := [Pair(a, c), Pair(b, c), Pair(b, d), Pair(c, d)];
    assert Sweep(all, a) == live by {
      var t := [Pair(b, c), Pair(b, d), Pair(c, d)];
      assert all[2..] == [Pair(a, d)] + t;
      assert Sweep([Pair(a, d)] + t, a) == [Pair(b, c)] + Sweep(t[1..], a);
      assert t[1..] == [Pair(b, d), Pair(c, d)];
      assert Sweep([Pair(b, d), Pair(c, d)], a) == [Pair(b, d)] + Sweep([Pair(c, d)], a);
      assert Sweep([Pair(c, d)], a) == [Pair(c, d)] + Sweep([], a);
    }
    var acc := Report([Pair(a, b)], []);
    assert all[0] == Pair(a, b);
    assert [] + [Pair(a, b)] == [Pair(a, b)];
    assert ScanLoop(all, 0, Report([], []), o) == ScanLoop(live, 1, acc, o);
    assert ScanLoop(live, 1, acc, o) == ScanLoop(live, 2, acc, o);
    assert ScanLoop(live, 2, acc, o) == ScanLoop(live, 3, acc, o);
    assert ScanLoop(live, 3, acc, o) == ScanLoop(live, 4, acc, o);
  }

  /** The removal passes of the five-image scenario below, one per duplicate,
      each stated on the live list split where the pass deletes. */
  lemma FiveImageSweepZ(z: Path, a: Path, b: Path, c: Path, u: Path)
    requires z != a && z != b && z != c && z != u
    ensures var tail := [Pair(a, b), Pair(a, c), Pair(a, u), Pair(b, c), Pair(b, u), Pair(c, u)];
      Sweep([Pair(z, a), Pair(z, b)] + ([Pair(z, c), Pair(z, u)] + tail), z) == [Pair(z, b)] + ([Pair(z, u)] + tail)
  {
    var tail := [Pair(a, b), Pair(a, c), Pair(a, u), Pair(b, c), Pair(b, u), Pair(c, u)];
    FiveImageTailKept(z, a, b, c, u);
    SweepDropsHead(Pair(z, c), Pair(z, u), tail, z);
    SweepDropsHead(Pair(z, a), Pair(z, b), [Pair(z, c), Pair(z, u)] + tail, z);
  }

  lemma FiveImageTailKept(z: Path, a: Path, b: Path, c: Path, u: Path)
    requires z != a && z != b && z != c && z != u
    ensures var tail := [Pair(a, b), Pair(a, c), Pair(a, u), Pair(b, c), Pair(b, u), Pair(c, u)];
      Sweep(tail, z) == tail
  {
    SweepUntouched([Pair(a, b), Pair(a, c), Pair(a, u), Pair(b, c), Pair(b, u), Pair(c, u)], z);
  }

  lemma FiveImageSweepA(z: Path, a: Path, b: Path, c: Path, u: Path)
    requires a != z && a != b && a != c && a != u
    ensures var bu := [Pair(b, u), Pair(c, u)];
      Sweep([Pair(z, b)] + ([Pair(z, u)] + ([Pair(a, b), Pair(a, c)] + ([Pair(a, u), Pair(b, c)] + bu))), a)
        == [Pair(z, b)] + ([Pair(z, u)] + ([Pair(a, c)] + ([Pair(b, c)] + bu)))
  {
    var bu := [Pair(b, u), Pair(c, u)];
    SweepUntouched(bu, a);
    SweepDropsHead(Pair(a, u), Pair(b, c), bu, a);
    var mid := [Pair(a, u), Pair(b, c)] + bu;
    SweepDropsHead(Pair(a, b), Pair(a, c), mid, a);
    var rest := [Pair(a, b), Pair(a, c)] + mid;
    SweepPast(Pair(z, u), rest, a);
    SweepPast(Pair(z, b), [Pair(z, u)] + rest, a);
  }

  lemma FiveImageSweepB(z: Path, a: Path, b: Path, c: Path, u: Path)
    requires b != z && b != a && b != c && b != u
    ensures Sweep([Pair(z, b), Pair(z, u)] + ([Pair(a, c)] + ([Pair(b, c), Pair(b, u)] + [Pair(c, u)])), b)
         == [Pair(z, u)] + ([Pair(a, c)] + ([Pair(b, u)] + [Pair(c, u)]))
  {
    SweepUntouched([Pair(c, u)], b);
    SweepDropsHead(Pair(b, c), Pair(b, u), [Pair(c, u)], b);
    var rest := [Pair(b, c), Pair(b, u)] + [Pair(c, u)];
    SweepPast(Pair(a, c), rest, b);
    SweepDropsHead(Pair(z, b), Pair(z, u), [Pair(a, c)] + rest, b);
  }

  /** The live lists of the five-image scenario, in the split forms the
      removal-pass lemmas above use. */
  lemma FiveImageLists(z: Path, a: Path, b: Path, c: Path, u: Path)
    ensures var tail := [Pair(a, b), Pair(a, c), Pair(a, u), Pair(b, c), Pair(b, u), Pair(c, u)];
      [Pair(z, a), Pair(z, b), Pair(z, c), Pair(z, u), Pair(a, b), Pair(a, c), Pair(a, u), Pair(b, c), Pair(b, u), Pair(c, u)]
        == [Pair(z, a), Pair(z, b)] + ([Pair(z, c), Pair(z, u)] + tail)
    ensures var bu := [Pair(b, u), Pair(c, u)];
      [Pair(z, b)] + ([Pair(z, u)] + [Pair(a, b), Pair(a, c), Pair(a, u), Pair(b, c), Pair(b, u), Pair(c, u)])
        == [Pair(z, b)] + ([Pair(z, u)] + ([Pair(a, b), Pair(a, c)] + ([Pair(a, u), Pair(b, c)] + bu)))
    ensures var bu := [Pair(b, u), Pair(c, u)];
      [Pair(z, b)] + ([Pair(z, u)] + ([Pair(a, c)] + ([Pair(b, c)] + bu)))
        == [Pair(z, b), Pair(z, u)] + ([Pair(a, c)] + ([Pair(b, c), Pair(b, u)] + [Pair(c, u)]))
  {
  }

  /** The last two iterations of the five-image scenario below: after the
      removal pass for `z`, the duplicates (a,b) and (b,c) and their removal
      passes leave four live pairs, and the iterator is at position 4. */
  lemma FiveImageScanRest(z: Path, a: Path, b: Path, c: Path, u: Path, o: Oracles)
    requires z != a && z != b && z != c && z != u && a != b && a != c && a != u && b != c && b != u
    requires Classify(o, Pair(a, b)) == Success(Duplicate)
    requires Classify(o, Pair(b, c)) == Success(Duplicate)
    ensures var tail := [Pair(a, b), Pair(a, c), Pair(a, u), Pair(b, c), Pair(b, u), Pair(c, u)];
      ScanLoop([Pair(z, b)] + ([Pair(z, u)] + tail), 2, Report([Pair(z, b)], []), o)
        == Success(Report([Pair(z, b), Pair(a, b), Pair(b, c)], []))
  {
    FiveImageLists(z, a, b, c, u);
    var tail := [Pair(a, b), Pair(a, c), Pair(a, u), Pair(b, c), Pair(b, u), Pair(c, u)];
    var live1 := [Pair(z, b)] + ([Pair(z, u)] + tail);
    FiveImageSweepA(z, a, b, c, u);
    var live2 := Sweep(live1, a);
    FiveImageSweepB(z, a, b, c, u);
    var live3 := Sweep(live2, b);
    assert live1[2] == Pair(a, b) && live2[3] == Pair(b, c) && |live3| == 4;
    assert [Pair(z, b)] + [Pair(a, b)] == [Pair(z, b), Pair(a, b)];
    assert [Pair(z, b), Pair(a, b)] + [Pair(b, c)] == [Pair(z, b), Pair(a, b), Pair(b, c)];
    assert ScanLoop(live1, 2, Report([Pair(z, b)], []), o)
        == ScanLoop(live2, 3, Report([Pair(z, b), Pair(a, b)], []), o);
    assert ScanLoop(live2, 3, Report([Pair(z, b), Pair(a, b)], []), o)
        == ScanLoop(live3, 4, Report([Pair(z, b), Pair(a, b), Pair(b, c)], []), o);
  }

  /** Five images where `u` cannot be hashed at all: (z,a) is unrelated and
      (z,b), (a,b), (b,c) are duplicates. The removal passes for `z`, `a` and
      `b` shrink the live list to four pairs before the iterator reaches any
      pair with `u`, so the scan succeeds although every pair with `u` would
      raise. */
  lemma UnreadableImageNeverOpened(z: Path, a: Path, b: Path, c: Path, u: Path, o: Oracles)
    requires z != a && z != b && z != c && z != u && a != b && a != c && a != u && b != c && b != u && c != u
    requires Classify(o, Pair(z, a)) == Success(Unrelated)
    requires Classify(o, Pair(z, b)) == Success(Duplicate)
    requires Classify(o, Pair(a, b)) == Success(Duplicate)
    requires Classify(o, Pair(b, c)) == Success(Duplicate)
    requires forall x :: o.phashDiff(x, u) == None
    ensures forall x :: Classify(o, Pair(x, u)).Failure?
    ensures ScanPairs(Combinations([z, a, b, c, u]), o)
         == Success(Report([Pair(z, b), Pair(a, b), Pair(b, c)], []))
  {
    CombinationsOfFive(z, a, b, c, u);
    FiveImageLists(z, a, b, c, u);
    var all := [Pair(z, a), Pair(z, b), Pair(z, c), Pair(z, u), Pair(a, b),
                Pair(a, c), Pair(a, u), Pair(b, c), Pair(b, u), Pair(c, u)];
    FiveImageSweepZ(z, a, b, c, u);
    FiveImageScanRest(z, a, b, c, u, o);
    assert all[0] == Pair(z, a) && all[1] == Pair(z, b);
    assert [] + [Pair(z, b)] == [Pair(z, b)];
    assert ScanLoop(all, 0, Report([], []), o) == ScanLoop(all, 1, Report([], []), o);
    assert ScanLoop(all, 1, Report([], []), o) == ScanLoop(Sweep(all, z), 2, Report([Pair(z, b)], []), o);
  }

  /** deduplio.py lines 150-167 as written: the candidate list, the combinations, and a
      `for` loop whose iterator index `i` runs over the live list while the
      removal pass shrinks it. */
  method FindDuplicate(dir: string, names: seq<string>, o: Oracles) returns (res: Result<Report, ScanError>)
    requires Distinct(names)
    ensures res == FindDuplicateSpec(dir, names, o)
  {
    var duplicatedImages: seq<Pair> := [];
    var duplicatedCroppedImages: seq<Pair> := [];
    var imgFiles := Candidates(dir, names);
    var imgPairs := Combinations(imgFiles);
    CandidatesDistinct(dir, names);
    CombinationsDistinct(imgFiles);
    var i := 0;
    while i < |imgPairs|
      invariant Distinct(imgPairs)
      invariant ScanLoop(imgPairs, i, Report(duplicatedImages, duplicatedCroppedImages), o)
             == FindDuplicateSpec(dir, names, o)
      decreases |imgPairs| - i
    {
      var img1, img2 := imgPairs[i].img1, imgPairs[i].img2;
      i := i + 1;
      var diff := o.phashDiff(img1, img2);
      if diff.None? {
        return Failure(HashRaised(Pair(img1, img2)));
      }
      if Truthy(IsImageDuplicate(diff.value, DefaultHammingDistance)) {
        duplicatedImages := duplicatedImages + [Pair(img1, img2)];
        SweepDistinct(imgPairs, img1);
        imgPairs := RemovalPass(imgPairs, img1);
      } else {
        var img, template := o.imread(img1), o.imread(img2);
        if img.None? || template.None? {
          return Failure(ReadFailed(Pair(img1, img2)));
        }
        if Truthy(IsImageCropped(img.value, template.value, o.matchTemplate(img1, img2))) {
          duplicatedCroppedImages := duplicatedCroppedImages + [Pair(img1, img2)];
        }
      }
    }
    res := Success(Report(duplicatedImages, duplicatedCroppedImages));
  }
}
