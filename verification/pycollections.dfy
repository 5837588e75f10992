/** Python's `range` and `dict`, and the range of `timedelta`, as the modelled code uses
    them.

    A dict of strings is kept two ways. Where only its contents matter it is a Dafny
    `map`; where the order of its items matters (a dict literal whose items are
    rendered one by one, so that two of them may collide afterwards) it is a sequence
    of pairs in insertion order with distinct keys.
 */
module PyCollections {
  import opened Results

  // ---------------------------------------------------------------------------
  // range

  /** `list(range(start, stop, step))` for a non-zero step. */
  function Range(start: int, stop: int, step: int): (r: seq<int>)
    requires step != 0
    ensures |r| > 0 ==> r[0] == start
    ensures forall i :: 0 < i < |r| ==> r[i] == r[i - 1] + step
    ensures step > 0 ==> forall i :: 0 <= i < |r| ==> start <= r[i] < stop
    ensures step < 0 ==> forall i :: 0 <= i < |r| ==> stop < r[i] <= start
    decreases if step > 0 then stop - start else start - stop
  {
    if (step > 0 && start < stop) || (step < 0 && start > stop) then
      [start] + Range(start + step, stop, step)
    else
      []
  }

  /** The range stops at the first element that would reach `stop`: the next one along
      would lie on or beyond it. */
  lemma {:induction false} RangeStops(start: int, stop: int, step: int)
    requires step != 0
    ensures var r := Range(start, stop, step);
            step > 0 ==> if |r| == 0 then start >= stop else r[|r| - 1] + step >= stop
    ensures var r := Range(start, stop, step);
            step < 0 ==> if |r| == 0 then start <= stop else r[|r| - 1] + step <= stop
    decreases if step > 0 then stop - start else start - stop
  {
    if (step > 0 && start < stop) || (step < 0 && start > stop) {
      RangeStops(start + step, stop, step);
    }
  }

  /** `list(range(start, stop, step))`, which raises `ValueError` for a zero step. */
  function CheckedRange(start: int, stop: int, step: int): (r: Result<seq<int>>)
    ensures r.Failure? <==> step == 0
    ensures r.Success? ==> r.value == Range(start, stop, step)
  {
    if step == 0 then Failure(ValueError("range() arg 3 must not be zero"))
    else Success(Range(start, stop, step))
  }

  /** `start` advanced by `k` steps. */
  function Stride(start: int, step: int, k: nat): int
  {
    start + k * step
  }

  /** With a positive step, every element of the range is a whole number of steps past
      `start`. */
  lemma {:induction false} RangeOnlyStrides(start: int, stop: int, step: int, i: int)
    requires step > 0 && 0 <= i < |Range(start, stop, step)|
    ensures Range(start, stop, step)[i] == Stride(start, step, i)
    decreases i
  {
    if i > 0 {
      RangeOnlyStrides(start, stop, step, i - 1);
      assert Stride(start, step, i) == Stride(start, step, i - 1) + step;
    }
  }

  /** With a positive step, every whole number of steps past `start` that stays below
      `stop` is in the range, at the index that counts the steps. */
  lemma {:induction false} RangeAllStrides(start: int, stop: int, step: int, k: nat)
    requires step > 0 && Stride(start, step, k) < stop
    ensures k < |Range(start, stop, step)|
    ensures Range(start, stop, step)[k] == Stride(start, step, k)
    decreases k
  {
    var r := Range(start, stop, step);
    if k > 0 {
      assert Stride(start, step, k) == Stride(start, step, k - 1) + step;
      RangeAllStrides(start, stop, step, k - 1);
      RangeStops(start, stop, step);
    }
  }

  /** With step 1 the range is every integer from `start` up to, not including, `stop`. */
  lemma {:induction false} RangeUnit(start: int, stop: int)
    ensures var r := Range(start, stop, 1);
            && |r| == (if stop <= start then 0 else stop - start)
            && forall i :: 0 <= i < |r| ==> r[i] == start + i
    decreases stop - start
  {
    if start < stop {
      RangeUnit(start + 1, stop);
      var rest := Range(start + 1, stop, 1);
      assert forall i :: 0 < i <= |rest| ==> ([start] + rest)[i] == rest[i - 1];
    }
  }

  /** With a positive step the range holds exactly the values a whole number of steps
      past `start` that stay below `stop`. */
  lemma {:induction false} RangeMembers(start: int, stop: int, step: int, x: int)
    requires step > 0
    ensures x in Range(start, stop, step) <==> x < stop && exists k: nat :: x == Stride(start, step, k)
  {
    var r := Range(start, stop, step);
    if x in r {
      var i :| 0 <= i < |r| && r[i] == x;
      RangeOnlyStrides(start, stop, step, i);
      assert x == Stride(start, step, i);
    }
    if x < stop && exists k: nat :: x == Stride(start, step, k) {
      var k: nat :| x == Stride(start, step, k);
      RangeAllStrides(start, stop, step, k);
    }
  }

  /** With a positive step the range strictly increases, so it repeats no value. */
  lemma {:induction false} RangeIncreasing(start: int, stop: int, step: int, i: int, j: int)
    requires step > 0 && 0 <= i < j < |Range(start, stop, step)|
    ensures Range(start, stop, step)[i] < Range(start, stop, step)[j]
    decreases j
  {
    if i < j - 1 {
      RangeIncreasing(start, stop, step, i, j - 1);
    }
  }

  // ---------------------------------------------------------------------------
  // dict contents

  /** Key/value pairs of strings, in the order they are set. */
  type Pairs = seq<(string, string)>

  /** The keys named by a sequence of pairs. */
  function KeysOf(pairs: Pairs): (ks: set<string>)
    ensures forall j :: 0 <= j < |pairs| ==> pairs[j].0 in ks
  {
    if |pairs| == 0 then {} else KeysOf(pairs[..|pairs| - 1]) + {pairs[|pairs| - 1].0}
  }

  /** Every key comes from some pair. */
  lemma {:induction false} KeyWitness(pairs: Pairs, k: string)
    requires k in KeysOf(pairs)
    ensures exists j :: 0 <= j < |pairs| && pairs[j].0 == k
  {
    if k != pairs[|pairs| - 1].0 {
      KeyWitness(pairs[..|pairs| - 1], k);
    }
  }

  /** `m` after `m[k] = v` for each pair in turn, which is also `m.update(d)` for a dict
      `d` with these items. */
  function Update(m: map<string, string>, pairs: Pairs): (r: map<string, string>)
    ensures r.Keys == m.Keys + KeysOf(pairs)
    ensures |pairs| > 0 ==> r[pairs[|pairs| - 1].0] == pairs[|pairs| - 1].1
  {
    if |pairs| == 0 then m
    else
      var last := pairs[|pairs| - 1];
      Update(m, pairs[..|pairs| - 1])[last.0 := last.1]
  }

  /** Every value after an update is the old value or the value of some pair. */
  lemma {:induction false} UpdateWitness(m: map<string, string>, pairs: Pairs, k: string)
    requires k in Update(m, pairs)
    ensures (k in m && Update(m, pairs)[k] == m[k]) ||
            exists j :: 0 <= j < |pairs| && pairs[j] == (k, Update(m, pairs)[k])
  {
    if |pairs| > 0 && k != pairs[|pairs| - 1].0 {
      var init := pairs[..|pairs| - 1];
      UpdateWitness(m, init, k);
      if !(k in m && Update(m, init)[k] == m[k]) {
        var j :| 0 <= j < |init| && init[j] == (k, Update(m, init)[k]);
        assert pairs[j] == init[j];
      }
    }
  }

  /** Position `j` holds the last pair for its key. */
  predicate LastFor(pairs: Pairs, j: int)
    requires 0 <= j < |pairs|
  {
    forall l :: j < l < |pairs| ==> pairs[l].0 != pairs[j].0
  }

  /** Later pairs overwrite earlier ones: each key ends with its last value. */
  lemma {:induction false} UpdateLastWins(m: map<string, string>, pairs: Pairs, j: int)
    requires 0 <= j < |pairs| && LastFor(pairs, j)
    ensures Update(m, pairs)[pairs[j].0] == pairs[j].1
  {
    if j < |pairs| - 1 {
      var init := pairs[..|pairs| - 1];
      assert init[j] == pairs[j];
      UpdateLastWins(m, init, j);
    }
  }

  /** A key no pair names keeps its value. */
  lemma {:induction false} UpdateKeeps(m: map<string, string>, pairs: Pairs, k: string)
    requires k in m && k !in KeysOf(pairs)
    ensures Update(m, pairs)[k] == m[k]
  {
    if |pairs| > 0 {
      UpdateKeeps(m, pairs[..|pairs| - 1], k);
    }
  }

  /** Applying one sequence of pairs and then another is applying both in order. */
  lemma {:induction false} UpdateAppend(m: map<string, string>, p: Pairs, q: Pairs)
    ensures Update(m, p + q) == Update(Update(m, p), q)
  {
    if |q| == 0 {
      assert p + q == p;
    } else {
      var q' := q[..|q| - 1];
      assert (p + q)[..|p + q| - 1] == p + q';
      UpdateAppend(m, p, q');
    }
  }

  // ---------------------------------------------------------------------------
  // dict items in insertion order

  predicate DistinctKeys(d: Pairs)
  {
    forall i, j :: 0 <= i < j < |d| ==> d[i].0 != d[j].0
  }

  /** Where key `k` sits in `d`, or `|d|` when it is absent. */
  function IndexOfKey(d: Pairs, k: string): (i: nat)
    ensures i <= |d|
    ensures i < |d| ==> d[i].0 == k
    ensures i == |d| ==> forall j :: 0 <= j < |d| ==> d[j].0 != k
  {
    if |d| == 0 then 0
    else if d[|d| - 1].0 == k then |d| - 1
    else
      var i := IndexOfKey(d[..|d| - 1], k);
      if i < |d| - 1 then i else |d|
  }

  /** `d[k] = v` on an insertion-ordered dict: an existing key keeps its place and takes
      the new value, a new key goes last. */
  function Assign(d: Pairs, k: string, v: string): (r: Pairs)
    requires DistinctKeys(d)
    ensures AssignedFrom(d, k, v, r)
  {
    var i := IndexOfKey(d, k);
    if i < |d| then
      ReplaceAssigns(d, i, v);
      d[i := (k, v)]
    else
      AppendAssigns(d, k, v);
      d + [(k, v)]
  }

  /** What `d[k] = v` leaves behind: distinct keys, `k` added to the keys, `k` mapped
      to `v`, and every other item where it was. */
  predicate AssignedFrom(d: Pairs, k: string, v: string, r: Pairs)
  {
    && DistinctKeys(r)
    && KeysOf(r) == KeysOf(d) + {k}
    && (forall i :: 0 <= i < |r| && r[i].0 == k ==> r[i].1 == v)
    && (forall i :: 0 <= i < |d| && d[i].0 != k ==> i < |r| && r[i] == d[i])
    && (forall i :: 0 <= i < |r| ==> r[i] == (k, v) || r[i] in d)
  }

  lemma {:induction false} ReplaceAssigns(d: Pairs, i: int, v: string)
    requires DistinctKeys(d) && 0 <= i < |d|
    ensures AssignedFrom(d, d[i].0, v, d[i := (d[i].0, v)])
  {
    var r := d[i := (d[i].0, v)];
    forall x | x in KeysOf(d) ensures x in KeysOf(r) {
      KeyWitness(d, x);
      var j :| 0 <= j < |d| && d[j].0 == x;
      assert r[j].0 == x;
    }
    forall x | x in KeysOf(r) ensures x in KeysOf(d) {
      KeyWitness(r, x);
      var j :| 0 <= j < |r| && r[j].0 == x;
      assert d[j].0 == x;
    }
  }

  lemma {:induction false} AppendAssigns(d: Pairs, k: string, v: string)
    requires DistinctKeys(d) && forall j :: 0 <= j < |d| ==> d[j].0 != k
    ensures AssignedFrom(d, k, v, d + [(k, v)])
  {
    assert (d + [(k, v)])[..|d|] == d;
  }

  /** The dict `{k: v for (k, v) in pairs}`: each key once, where it first appeared,
      with the value it was last given. */
  function DictOf(pairs: Pairs): (d: Pairs)
    ensures DistinctKeys(d)
    ensures KeysOf(d) == KeysOf(pairs)
    ensures forall i :: 0 <= i < |d| ==> d[i] in pairs
  {
    if |pairs| == 0 then []
    else
      var init := pairs[..|pairs| - 1];
      var last := pairs[|pairs| - 1];
      var d := DictOf(init);
      assert forall i :: 0 <= i < |d| ==> d[i] in pairs by {
        forall i | 0 <= i < |d| ensures d[i] in pairs {
          var j :| 0 <= j < |init| && init[j] == d[i];
          assert pairs[j] == d[i];
        }
      }
      Assign(d, last.0, last.1)
  }

  // ---------------------------------------------------------------------------
  // nested loops

  /** The elements of each block in turn: what nested `for` loops visit. */
  function Flatten<T>(blocks: seq<seq<T>>): seq<T>
  {
    if |blocks| == 0 then [] else blocks[0] + Flatten(blocks[1..])
  }

  /** Everything in every block is in the flattened sequence. */
  lemma {:induction false} FlattenHas<T>(blocks: seq<seq<T>>, b: nat, i: nat)
    requires b < |blocks| && i < |blocks[b]|
    ensures blocks[b][i] in Flatten(blocks)
  {
    if b > 0 {
      FlattenHas(blocks[1..], b - 1, i);
    }
  }

  /** Everything in the flattened sequence comes from some block. */
  lemma {:induction false} FlattenMember<T>(blocks: seq<seq<T>>, x: T)
    requires x in Flatten(blocks)
    ensures exists b, i :: 0 <= b < |blocks| && 0 <= i < |blocks[b]| && blocks[b][i] == x
  {
    if x !in blocks[0] {
      FlattenMember(blocks[1..], x);
      var b, i :| 0 <= b < |blocks[1..]| && 0 <= i < |blocks[1..][b]| && blocks[1..][b][i] == x;
      assert blocks[b + 1][i] == x;
    } else {
      var i :| 0 <= i < |blocks[0]| && blocks[0][i] == x;
    }
  }

  /** Blocks of one length `w` flatten to `|blocks| * w` elements, the `r`-th element of
      block `b` sitting at `b * w + r`. */
  lemma {:induction false} FlattenIndex<T>(blocks: seq<seq<T>>, w: nat, b: nat, r: nat)
    requires forall k :: 0 <= k < |blocks| ==> |blocks[k]| == w
    requires b < |blocks| && r < w
    ensures b * w + r < |Flatten(blocks)|
    ensures Flatten(blocks)[b * w + r] == blocks[b][r]
  {
    FlattenLength(blocks, w);
    if b > 0 {
      FlattenIndex(blocks[1..], w, b - 1, r);
      assert (b - 1) * w + r == b * w + r - w;
    }
  }

  /** An index inside block `b` of width `w` is inside `blocks` blocks of that width. */
  lemma {:induction false} BlockIndexBound(b: nat, r: nat, blocks: nat, w: nat)
    requires b < blocks && r < w
    ensures 0 <= b * w + r < blocks * w
    decreases blocks
  {
    if b + 1 < blocks {
      BlockIndexBound(b, r, blocks - 1, w);
    }
  }

  /** Two levels of uniform blocks: element `n` of inner block `d` of outer block `a`
      sits after `a` whole outer blocks and `d` whole inner blocks. */
  lemma {:induction false} FlattenIndexNested<T>(outer: seq<seq<T>>, inner: seq<seq<T>>, a: nat, d: nat, n: nat, width: nat)
    requires forall k :: 0 <= k < |inner| ==> |inner[k]| == width
    requires forall k :: 0 <= k < |outer| ==> |outer[k]| == |inner| * width
    requires a < |outer| && outer[a] == Flatten(inner)
    requires d < |inner| && n < width
    ensures a * (|inner| * width) + d * width + n < |Flatten(outer)|
    ensures Flatten(outer)[a * (|inner| * width) + d * width + n] == inner[d][n]
  {
    BlockIndexBound(d, n, |inner|, width);
    FlattenIndex(inner, width, d, n);
    FlattenIndex(outer, |inner| * width, a, d * width + n);
  }

  /** Indexing past the head of a sequence. */
  lemma {:induction false} ConsIndex<T>(x: T, s: seq<T>, k: nat)
    requires k <= |s|
    ensures ([x] + s)[k] == if k == 0 then x else s[k - 1]
  {
  }

  /** The first `k + 1` blocks are the first block followed by the next `k`. */
  lemma {:induction false} FlattenPrefixHead<T>(blocks: seq<seq<T>>, k: nat)
    requires k < |blocks|
    ensures Flatten(blocks[..k + 1]) == blocks[0] + Flatten(blocks[1..][..k])
  {
    assert blocks[..k + 1][1..] == blocks[1..][..k];
  }

  lemma {:induction false} FlattenAppend<T>(a: seq<seq<T>>, b: seq<seq<T>>)
    ensures Flatten(a + b) == Flatten(a) + Flatten(b)
    decreases |a|
  {
    if |a| == 0 {
      assert a + b == b;
    } else {
      assert (a + b)[1..] == a[1..] + b;
      FlattenAppend(a[1..], b);
    }
  }

  lemma {:induction false} FlattenLength<T>(blocks: seq<seq<T>>, w: nat)
    requires forall k :: 0 <= k < |blocks| ==> |blocks[k]| == w
    ensures |Flatten(blocks)| == |blocks| * w
  {
    if |blocks| > 0 {
      FlattenLength(blocks[1..], w);
      assert |blocks| * w == w + (|blocks| - 1) * w;
    }
  }

  /** Flattening a prefix one block longer appends that block. */
  lemma {:induction false} FlattenSnoc<T>(blocks: seq<seq<T>>, k: nat)
    requires k < |blocks|
    ensures Flatten(blocks[..k + 1]) == Flatten(blocks[..k]) + blocks[k]
    decreases k
  {
    if k == 0 {
      assert blocks[..1][1..] == [];
    } else {
      assert blocks[..k + 1][1..] == blocks[1..][..k];
      assert blocks[..k][1..] == blocks[1..][..k - 1];
      FlattenSnoc(blocks[1..], k - 1);
    }
  }

  // ---------------------------------------------------------------------------
  // repeated dict.update

  /** `acc.update(d)` for each dict `d` in turn. */
  function UpdateAll(acc: map<string, string>, dicts: seq<Pairs>): (r: map<string, string>)
    ensures acc.Keys <= r.Keys
    decreases |dicts|
  {
    if |dicts| == 0 then acc else UpdateAll(Update(acc, dicts[0]), dicts[1..])
  }

  /** Updating with each dict in turn is updating with all their items in order. */
  lemma {:induction false} UpdateAllFlat(acc: map<string, string>, dicts: seq<Pairs>)
    ensures UpdateAll(acc, dicts) == Update(acc, Flatten(dicts))
    decreases |dicts|
  {
    if |dicts| > 0 {
      UpdateAllFlat(Update(acc, dicts[0]), dicts[1..]);
      UpdateAppend(acc, dicts[0], Flatten(dicts[1..]));
    }
  }

  // ---------------------------------------------------------------------------
  // timedelta

  /** The largest number of days a `timedelta` holds, either way. */
  const TimedeltaMaxDays := 999_999_999

  /** The first whole number of seconds beyond `timedelta`'s range. */
  const TimedeltaEnd := (TimedeltaMaxDays + 1) * 86400

  const TimedeltaRange := "days must have magnitude <= 999999999"

  /** A duration of `sec` seconds as `timedelta` keeps it. It is normalised to whole days
      (rounded down) plus a non-negative remainder below one day. When that day count
      lies beyond `TimedeltaMaxDays` either way, the constructor raises `OverflowError`. */
  function Timedelta(sec: int): (r: Result<int>)
    ensures r.Success? <==> -TimedeltaMaxDays * 86400 <= sec < TimedeltaEnd
    ensures r.Success? ==> r.value == sec
    ensures r.Failure? ==> r.error == OverflowError(TimedeltaRange)
  {
    var days := sec / 86400;
    if -TimedeltaMaxDays <= days <= TimedeltaMaxDays then Success(sec)
    else Failure(OverflowError(TimedeltaRange))
  }

  /** `timedelta(hours=h)` fits exactly for the hours from -23999999976 to
      23999999999: its day count is `h` divided by 24, rounded down. */
  lemma HoursTimedelta(h: int)
    ensures Timedelta(h * 3600).Success? <==> -23_999_999_976 <= h < 24_000_000_000
  {
  }
}
