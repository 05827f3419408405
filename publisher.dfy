/** Batching and version selection of haymaker/publisher.py. */
module Publisher {
  import opened Common
  import opened Text

  /** The batches laid end to end. */
  function Flatten<T>(batches: seq<seq<T>>): seq<T>
  {
    if |batches| == 0 then [] else Flatten(batches[..|batches| - 1]) + batches[|batches| - 1]
  }

  lemma FlattenSnoc<T>(batches: seq<seq<T>>, b: seq<T>)
    ensures Flatten(batches + [b]) == Flatten(batches) + b
  {
    assert (batches + [b])[..|batches|] == batches;
  }

  /** `int(len(items) / max_batches)`. */
  function SmallBatch(n: nat, m: nat): nat
    requires m >= 1
  {
    n / m
  }

  /** `ceil(len(items) / max_batches)`. */
  function BigBatch(n: nat, m: nat): nat
    requires m >= 1
  {
    (n + m - 1) / m
  }

  lemma MulGrows(a: int, m: int)
    requires a >= 1 && m >= 1
    ensures a * m >= m
  {
    assert a * m == (a - 1) * m + m;
  }

  /** Division is unique: `q` is the quotient of `q * m + r` whenever
      `0 <= r < m`. */
  lemma DivUnique(x: int, m: int, q: int, r: int)
    requires m >= 1 && 0 <= r < m && x == q * m + r
    ensures x / m == q
  {
    var d, s := x / m, x % m;
    assert x == d * m + s && 0 <= s < m;
    assert (q - d) * m == s - r;
    if q - d >= 1 {
      MulGrows(q - d, m);
      assert false;
    } else if d - q >= 1 {
      assert (d - q) * m == r - s;
      MulGrows(d - q, m);
      assert false;
    }
  }

  /** The two batch sizes differ by at most one and bracket the even share. */
  lemma BatchSizes(n: nat, m: nat)
    requires m >= 1
    ensures BigBatch(n, m) == SmallBatch(n, m) || BigBatch(n, m) == SmallBatch(n, m) + 1
    ensures BigBatch(n, m) == SmallBatch(n, m) <==> n % m == 0
    ensures SmallBatch(n, m) * m <= n <= BigBatch(n, m) * m
  {
    var q, r := n / m, n % m;
    assert n == q * m + r;
    if r == 0 {
      DivUnique(n + m - 1, m, q, m - 1);
    } else {
      DivUnique(n + m - 1, m, q + 1, r - 1);
      assert (q + 1) * m == q * m + m;
    }
  }

  /** Sizes never grow from one batch to the next. */
  predicate NonIncreasing<T>(batches: seq<seq<T>>)
  {
    forall j, k | 0 <= j < k < |batches| :: |batches[j]| >= |batches[k]|
  }

  /** `split_into_batches`: with no more items than batches every item gets
      a batch of its own; otherwise exactly `max_batches` batches of the two
      near-equal sizes, big ones first, that together are `items`. No
      batches at all for no items, even when `max_batches` is 0. */
  method SplitIntoBatches<T>(items: seq<T>, maxBatches: nat) returns (batches: seq<seq<T>>)
    requires maxBatches >= 1 || |items| == 0
    ensures Flatten(batches) == items
    ensures |items| <= maxBatches ==>
      |batches| == |items| && forall k | 0 <= k < |batches| :: batches[k] == [items[k]]
    ensures |items| > maxBatches ==>
      |batches| == maxBatches
      && NonIncreasing(batches)
      && forall k | 0 <= k < |batches| ::
        |batches[k]| == SmallBatch(|items|, maxBatches) || |batches[k]| == BigBatch(|items|, maxBatches)
  {
    batches := [];
    if |items| <= maxBatches {
      for k := 0 to |items|
        invariant |batches| == k
        invariant forall j | 0 <= j < k :: batches[j] == [items[j]]
        invariant Flatten(batches) == items[..k]
      {
        FlattenSnoc(batches, [items[k]]);
        assert items[..k + 1] == items[..k] + [items[k]];
        batches := batches + [[items[k]]];
      }
      assert items[..|items|] == items;
    } else {
      batches := SplitEvenly(items, maxBatches);
    }
  }

  /** The second half of `split_into_batches`: more items than batches.
      `lo` and `hi` are what `batchesLeft` small and big batches hold. */
  method SplitEvenly<T>(items: seq<T>, maxBatches: nat) returns (batches: seq<seq<T>>)
    requires 1 <= maxBatches < |items|
    ensures Flatten(batches) == items
    ensures |batches| == maxBatches && NonIncreasing(batches)
    ensures forall k | 0 <= k < |batches| ::
      |batches[k]| == SmallBatch(|items|, maxBatches) || |batches[k]| == BigBatch(|items|, maxBatches)
  {
    batches := [];
    var n := |items|;
    var small := SmallBatch(n, maxBatches);
    var big := BigBatch(n, maxBatches);
    BatchSizes(n, maxBatches);
    var i := 0;
    var batchesLeft := maxBatches;
    ghost var lo, hi := small * maxBatches, big * maxBatches;
    assert items[..0] == [];
    while batchesLeft > 0
      invariant batchesLeft <= maxBatches && |batches| == maxBatches - batchesLeft
      invariant lo == batchesLeft * small && hi == batchesLeft * big
      invariant Batching(items, batches, i, lo, hi, small, big)
    {
      var useSmall := batchesLeft * small >= n - i;
      var size := if useSmall then small else big;
      Capacity(batchesLeft, small, big);
      BatchingStep(items, batches, i, lo, hi, small, big, size);
      batches := batches + [items[i..i + size]];
      batchesLeft := batchesLeft - 1;
      i := i + size;
      lo, hi := lo - small, hi - big;
    }
    assert items[..i] == items;
  }

  /** A batch no bigger than the last one keeps the sizes non-increasing. */
  lemma NonIncreasingSnoc<T>(batches: seq<seq<T>>, batch: seq<T>)
    requires NonIncreasing(batches)
    requires |batches| > 0 ==> |batches[|batches| - 1]| >= |batch|
    ensures NonIncreasing(batches + [batch])
  {
    var b := batches + [batch];
    forall j, k | 0 <= j < k < |b|
      ensures |b[j]| >= |b[k]|
    {
      if k == |batches| {
        assert |b[j]| >= |batches[|batches| - 1]|;
      }
    }
  }

  /** Every batch has one of the two sizes. */
  predicate TwoSizes<T>(batches: seq<seq<T>>, small: nat, big: nat)
  {
    forall k | 0 <= k < |batches| :: |batches[k]| == small || |batches[k]| == big
  }

  lemma TwoSizesSnoc<T>(batches: seq<seq<T>>, batch: seq<T>, small: nat, big: nat)
    requires TwoSizes(batches, small, big) && (|batch| == small || |batch| == big)
    ensures TwoSizes(batches + [batch], small, big)
  {
    var b := batches + [batch];
    assert forall k | 0 <= k < |batches| :: b[k] == batches[k];
  }

  /** What the remaining batches hold, one batch fewer: `left` small
      batches hold `small` more than `left - 1` of them, and so on. */
  lemma Capacity(left: nat, small: nat, big: nat)
    requires left >= 1 && small <= big
    ensures (left - 1) * small == left * small - small
    ensures (left - 1) * big == left * big - big
    ensures 0 <= (left - 1) * small <= (left - 1) * big
  {
    assert left * small == (left - 1) * small + small;
    assert left * big == (left - 1) * big + big;
  }

  /** The loop invariant of `split_into_batches` after the first `i` items
      went into `batches`: the rest fits between `lo` (all remaining
      batches small) and `hi` (all big), and while it is more than `lo`
      every batch so far was big. */
  ghost predicate Batching<T>(items: seq<T>, batches: seq<seq<T>>, i: int, lo: int, hi: int, small: nat, big: nat)
  {
    && 0 <= i <= |items|
    && Flatten(batches) == items[..i]
    && lo <= |items| - i <= hi
    && TwoSizes(batches, small, big)
    && NonIncreasing(batches)
    && (|batches| > 0 && lo < |items| - i ==> |batches[|batches| - 1]| == big)
  }

  /** One turn of the batching loop (publisher.py:58-62) keeps `Batching`,
      with one small and one big batch less of capacity. */
  lemma BatchingStep<T>(items: seq<T>, batches: seq<seq<T>>, i: int, lo: int, hi: int, small: nat, big: nat, size: nat)
    requires big == small || big == small + 1
    requires 0 <= lo - small <= hi - big && (big == small ==> lo == hi)
    requires Batching(items, batches, i, lo, hi, small, big)
    requires size == if lo >= |items| - i then small else big
    ensures i + size <= |items|
    ensures Batching(items, batches + [items[i..i + size]], i + size, lo - small, hi - big, small, big)
  {
    BatchStep(|items| - i, lo, hi, small, big, lo >= |items| - i);
    var batch := items[i..i + size];
    FlattenSnoc(batches, batch);
    assert items[..i + size] == items[..i] + batch;
    NonIncreasingSnoc(batches, batch);
    TwoSizesSnoc(batches, batch, small, big);
  }

  /** One turn of the batching loop keeps `rest` (the items still to batch)
      between the capacity `lo` of the remaining batches when all are small
      and `hi` when all are big; once small batches start they fill the
      rest exactly, and a big batch is only taken when it is one bigger. */
  lemma BatchStep(rest: int, lo: int, hi: int, small: nat, big: nat, useSmall: bool)
    requires big == small || big == small + 1
    requires 0 <= lo - small <= hi - big && (big == small ==> lo == hi)
    requires lo <= rest <= hi
    requires useSmall == (lo >= rest)
    ensures var size := if useSmall then small else big;
      size <= rest
      && lo - small <= rest - size <= hi - big
      && (useSmall ==> rest - size == lo - small)
      && (!useSmall ==> big == small + 1)
  {
  }

  /** The folder names `int()` accepts among the sub-directories. */
  predicate IsVersionDir(e: DirEntry)
  {
    e.isDir && IsDigits(e.name)
  }

  /** The version scan of `publish_animation`: one more than the largest
      integer-named sub-directory (files and other names are ignored), or
      1 when there is none; the folder is that number padded to 3 digits.
      A missing publish directory is an empty listing. */
  method NextPublishVersion(entries: seq<DirEntry>) returns (version: nat, folder: string)
    ensures version >= 1
    ensures forall k | 0 <= k < |entries| && IsVersionDir(entries[k]) :: ParseNat(entries[k].name) < version
    ensures version == 1 || exists k | 0 <= k < |entries| ::
      IsVersionDir(entries[k]) && ParseNat(entries[k].name) == version - 1
    ensures folder == FormatInt(version, 3)
    ensures |folder| >= 3 && IsDigits(folder) && ParseNat(folder) == version
    ensures |folder| == 3 || folder[0] != '0'
  {
    var best := 0;
    for k := 0 to |entries|
      invariant forall j | 0 <= j < k && IsVersionDir(entries[j]) :: ParseNat(entries[j].name) <= best
      invariant best == 0 || exists j | 0 <= j < k ::
        IsVersionDir(entries[j]) && ParseNat(entries[j].name) == best
    {
      var entry := entries[k];
      if !entry.isDir || !IsDigits(entry.name) {
        continue;
      }
      var v := ParseNat(entry.name);
      if v > best {
        best := v;
      }
    }
    version := best + 1;
    folder := FormatInt(version, 3);
    FormatIntParses(version, 3);
    FormatIntPadding(version, 3);
  }

  /** The paths `publish_animations` passes on: the non-empty ones. */
  function NonEmpty(paths: seq<string>): (r: seq<string>)
  {
    if |paths| == 0 then []
    else NonEmpty(paths[..|paths| - 1]) + (if paths[|paths| - 1] != "" then [paths[|paths| - 1]] else [])
  }

  /** The non-empty paths whose publish reported `ok`, in input order;
      `outcome[k]` is what publishing `paths[k]` returned. */
  function Published(paths: seq<string>, outcome: seq<bool>, ok: bool): (r: seq<string>)
    requires |outcome| == |paths|
  {
    if |paths| == 0 then []
    else
      var n := |paths| - 1;
      Published(paths[..n], outcome[..n], ok) + (if paths[n] != "" && outcome[n] == ok then [paths[n]] else [])
  }

  /** `publish_animations`: each non-empty path is published once, in
      order, and lands in `success` or `fail` by the outcome; empty paths
      are only warned about. */
  method PublishAnimations(paths: seq<string>, outcome: seq<bool>) returns (success: seq<string>, fail: seq<string>)
    requires |outcome| == |paths|
    ensures success == Published(paths, outcome, true)
    ensures fail == Published(paths, outcome, false)
  {
    success, fail := [], [];
    for k := 0 to |paths|
      invariant success == Published(paths[..k], outcome[..k], true)
      invariant fail == Published(paths[..k], outcome[..k], false)
    {
      assert paths[..k + 1][..k] == paths[..k] && outcome[..k + 1][..k] == outcome[..k];
      var path := paths[k];
      if path == "" {
        // only a warning is logged
      } else if outcome[k] {
        success := success + [path];
      } else {
        fail := fail + [path];
      }
    }
    assert paths[..|paths|] == paths && outcome[..|outcome|] == outcome;
  }

  /** The two lists partition the non-empty paths: every non-empty path is
      in exactly one of them (as many times as it was given), no empty path
      is in either, and each list holds only paths with its outcome. */
  lemma {:induction false} PublishPartition(paths: seq<string>, outcome: seq<bool>)
    requires |outcome| == |paths|
    ensures multiset(Published(paths, outcome, true)) + multiset(Published(paths, outcome, false))
      == multiset(NonEmpty(paths))
    ensures "" !in Published(paths, outcome, true) && "" !in Published(paths, outcome, false)
  {
    PublishedNoEmpty(paths, outcome, true);
    PublishedNoEmpty(paths, outcome, false);
    if |paths| > 0 {
      var n := |paths| - 1;
      var last := if paths[n] != "" then [paths[n]] else [];
      var yes, no := Published(paths[..n], outcome[..n], true), Published(paths[..n], outcome[..n], false);
      PublishPartition(paths[..n], outcome[..n]);
      assert NonEmpty(paths) == NonEmpty(paths[..n]) + last;
      if outcome[n] {
        assert Published(paths, outcome, true) == yes + last;
        assert Published(paths, outcome, false) == no;
        MultisetSnoc(yes, no, NonEmpty(paths[..n]), last);
      } else {
        assert Published(paths, outcome, true) == yes;
        assert Published(paths, outcome, false) == no + last;
        MultisetSnoc(no, yes, NonEmpty(paths[..n]), last);
      }
    }
  }

  /** Appending the same items to one side of a multiset split. */
  lemma MultisetSnoc(a: seq<string>, b: seq<string>, c: seq<string>, x: seq<string>)
    requires multiset(a) + multiset(b) == multiset(c)
    ensures multiset(a + x) + multiset(b) == multiset(c + x)
    ensures multiset(b) + multiset(a + x) == multiset(c + x)
  {
    calc {
      multiset(a + x) + multiset(b);
      multiset(a) + multiset(x) + multiset(b);
      multiset(c) + multiset(x);
      multiset(c + x);
    }
  }

  lemma {:induction false} PublishedNoEmpty(paths: seq<string>, outcome: seq<bool>, ok: bool)
    requires |outcome| == |paths|
    ensures "" !in Published(paths, outcome, ok)
  {
    if |paths| > 0 {
      var n := |paths| - 1;
      PublishedNoEmpty(paths[..n], outcome[..n], ok);
    }
  }

  /** Every path in `success` (`fail`) is a non-empty path whose publish
      succeeded (failed). */
  lemma {:induction false} PublishedOutcome(paths: seq<string>, outcome: seq<bool>, ok: bool, p: string)
    requires |outcome| == |paths| && p in Published(paths, outcome, ok)
    ensures exists k | 0 <= k < |paths| :: paths[k] == p && p != "" && outcome[k] == ok
  {
    var n := |paths| - 1;
    if p in Published(paths[..n], outcome[..n], ok) {
      PublishedOutcome(paths[..n], outcome[..n], ok, p);
      var k :| 0 <= k < n && paths[..n][k] == p && p != "" && outcome[..n][k] == ok;
      assert paths[k] == p && outcome[k] == ok;
    } else {
      assert paths[n] == p && p != "" && outcome[n] == ok;
    }
  }
}
