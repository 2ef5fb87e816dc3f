/** The per-button filter pipeline with its caches
    (streamdeck_ui/display/pipeline.py).

    Filters and images are abstract type parameters. A filter's `transform`
    is the four-argument callback that `execute` calls: the current input image
    (what `get_input` would copy), the lookup into the output cache keyed by the
    filter's own hash, the input-changed flag, and the time. It answers with an
    image, or `None` for "no change", and the filter's hash code. Python's
    built-in `hash((a, b))` is the abstract function `combine(a, b)`. */
module Pipelines {
  import opened Wrappers

  /** One element of `filters`: a filter and the image it produced last. */
  datatype Slot<F, I> = Slot(filter: F, cached: Option<I>)

  type Transform<!F, !I> = (F, Option<I>, int -> Option<I>, bool, real) -> (Option<I>, int)

  /** What stays fixed during one `execute`: the first-run flag as it was on
      entry, the time, the filters' transform and the hash combinator. */
  datatype Env<!F, !I> = Env(firstRun: bool, time: real, transform: Transform<F, I>, combine: (int, int) -> int)

  /** The loop variables of `execute` after some number of filters. */
  datatype RunState<F, I> = RunState(
    slots: seq<Slot<F, I>>,
    image: Option<I>,
    modified: bool,
    hash: int,
    cache: map<int, Option<I>>)

  /** The `get_cached` callback: look the filter's hash up, combined with the
      pipeline hash before this filter. */
  function Lookup<I>(cache: map<int, Option<I>>, combine: (int, int) -> int, before: int): int -> Option<I> {
    (h: int) => if combine(h, before) in cache then cache[combine(h, before)] else None
  }

  /** The input-changed flag that filter number `i` is called with. */
  function Flag<F, I>(env: Env<F, I>, st: RunState<F, I>): bool {
    st.modified || env.firstRun
  }

  /** What filter number `i` answers, given the loop state before it. */
  function Call<F, I>(env: Env<F, I>, st: RunState<F, I>, i: nat): (Option<I>, int)
    requires i < |st.slots|
  {
    env.transform(st.slots[i].filter, st.image, Lookup(st.cache, env.combine, st.hash), Flag(env, st), env.time)
  }

  /** One iteration of the loop in `execute`, for filter number `i`. */
  function StepAt<F, I>(env: Env<F, I>, st: RunState<F, I>, i: nat): (r: RunState<F, I>)
    requires i < |st.slots|
    ensures |r.slots| == |st.slots|
  {
    var slot := st.slots[i];
    var (out, h) := Call(env, st, i);
    var hash := env.combine(h, st.hash);
    var image := if out.None? then slot.cached else out;
    var slots := if out.None? then st.slots else st.slots[i := Slot(slot.filter, out)];
    var cache := if hash in st.cache then st.cache else st.cache[hash := image];
    RunState(slots, image, st.modified || out.Some?, hash, cache)
  }

  /** The loop state after the first `k` filters of `init`. */
  function Prefix<F, I>(env: Env<F, I>, init: seq<Slot<F, I>>, cache0: map<int, Option<I>>, k: nat): (r: RunState<F, I>)
    requires k <= |init|
    ensures |r.slots| == |init|
    decreases k
  {
    if k == 0 then RunState(init, None, false, 0, cache0)
    else StepAt(env, Prefix(env, init, cache0, k - 1), k - 1)
  }

  /** What filter number `j` answered in the run. */
  function Answer<F, I>(env: Env<F, I>, init: seq<Slot<F, I>>, cache0: map<int, Option<I>>, j: nat): Option<I>
    requires j < |init|
  {
    Call(env, Prefix(env, init, cache0, j), j).0
  }

  /** The pipeline hash folded after filter number `j`. */
  function FoldedHash<F, I>(env: Env<F, I>, init: seq<Slot<F, I>>, cache0: map<int, Option<I>>, j: nat): int
    requires j < |init|
  {
    Prefix(env, init, cache0, j + 1).hash
  }

  /** One step stores the answer of its filter, if any, in that filter's slot,
      and leaves the other slots alone. */
  lemma SlotsStep<F, I>(env: Env<F, I>, init: seq<Slot<F, I>>, cache0: map<int, Option<I>>, k: nat, i: nat)
    requires 0 < k <= |init| && i < |init|
    ensures var before := Prefix(env, init, cache0, k - 1).slots[i];
            var out := Answer(env, init, cache0, k - 1);
            Prefix(env, init, cache0, k).slots[i] ==
              if i == k - 1 && out.Some? then Slot(before.filter, out) else before
  {
  }

  /** Filters not yet reached still hold their original slot; a filter that
      answered with an image caches exactly that image, and one that answered
      "no change" keeps its previous cached image. The filters themselves never
      change. */
  lemma {:induction false} SlotsAfter<F, I>(env: Env<F, I>, init: seq<Slot<F, I>>, cache0: map<int, Option<I>>, k: nat, i: nat)
    requires k <= |init| && i < |init|
    ensures Prefix(env, init, cache0, k).slots[i] ==
      if i < k && Answer(env, init, cache0, i).Some? then Slot(init[i].filter, Answer(env, init, cache0, i))
      else init[i]
    decreases k
  {
    if k > 0 {
      SlotsAfter(env, init, cache0, k - 1, i);
      SlotsStep(env, init, cache0, k, i);
    }
  }

  /** One step sets the modified flag exactly when its filter answered with
      an image, and never clears it. */
  lemma ModifiedStep<F, I>(env: Env<F, I>, init: seq<Slot<F, I>>, cache0: map<int, Option<I>>, k: nat)
    requires 0 < k <= |init|
    ensures Prefix(env, init, cache0, k).modified ==
            (Prefix(env, init, cache0, k - 1).modified || Answer(env, init, cache0, k - 1).Some?)
  {
  }

  /** Whether one of the first `i` filters answered with an image. */
  function SomeAnswered<F, I>(env: Env<F, I>, init: seq<Slot<F, I>>, cache0: map<int, Option<I>>, i: nat): bool
    requires i <= |init|
    decreases i
  {
    i > 0 && (SomeAnswered(env, init, cache0, i - 1) || Answer(env, init, cache0, i - 1).Some?)
  }

  /** A filter that answered, found by walking back. */
  lemma {:induction false} AnsweredWitness<F, I>(env: Env<F, I>, init: seq<Slot<F, I>>, cache0: map<int, Option<I>>, i: nat)
    returns (j: nat)
    requires i <= |init| && SomeAnswered(env, init, cache0, i)
    ensures j < i && Answer(env, init, cache0, j).Some?
    decreases i
  {
    if Answer(env, init, cache0, i - 1).Some? {
      j := i - 1;
    } else {
      j := AnsweredWitness(env, init, cache0, i - 1);
    }
  }

  /** A filter that answered makes every longer prefix count as answered. */
  lemma {:induction false} AnsweredReaches<F, I>(env: Env<F, I>, init: seq<Slot<F, I>>, cache0: map<int, Option<I>>, j: nat, i: nat)
    requires j < i <= |init| && Answer(env, init, cache0, j).Some?
    ensures SomeAnswered(env, init, cache0, i)
    decreases i
  {
    if j < i - 1 {
      AnsweredReaches(env, init, cache0, j, i - 1);
    }
  }

  lemma {:induction false} ModifiedMeansAnswered<F, I>(env: Env<F, I>, init: seq<Slot<F, I>>, cache0: map<int, Option<I>>, i: nat)
    requires i <= |init|
    ensures Prefix(env, init, cache0, i).modified == SomeAnswered(env, init, cache0, i)
    decreases i
  {
    if i > 0 {
      ModifiedMeansAnswered(env, init, cache0, i - 1);
      ModifiedStep(env, init, cache0, i);
    }
  }

  /** The modified flag after `i` filters is set exactly when one of them
      answered with an image. */
  lemma ModifiedMeansEarlierChange<F, I>(env: Env<F, I>, init: seq<Slot<F, I>>, cache0: map<int, Option<I>>, i: nat)
    requires i <= |init|
    ensures Prefix(env, init, cache0, i).modified <==>
      exists j :: 0 <= j < i && Answer(env, init, cache0, j).Some?
  {
    ModifiedMeansAnswered(env, init, cache0, i);
    if SomeAnswered(env, init, cache0, i) {
      var j := AnsweredWitness(env, init, cache0, i);
    }
    forall j | 0 <= j < i && Answer(env, init, cache0, j).Some? ensures SomeAnswered(env, init, cache0, i) {
      AnsweredReaches(env, init, cache0, j, i);
    }
  }

  /** The input-changed flag passed to filter `i` is true exactly when the run
      is a first run or some earlier filter of this run answered with an image. */
  lemma FlagMeansEarlierChange<F, I>(env: Env<F, I>, init: seq<Slot<F, I>>, cache0: map<int, Option<I>>, i: nat)
    requires i <= |init|
    ensures Flag(env, Prefix(env, init, cache0, i)) <==>
      env.firstRun || exists j :: 0 <= j < i && Answer(env, init, cache0, j).Some?
  {
    ModifiedMeansEarlierChange(env, init, cache0, i);
  }

  /** One step's effect on the output cache: an insertion under the new
      pipeline hash, made only when that hash had no entry. */
  lemma CacheStep<F, I>(env: Env<F, I>, init: seq<Slot<F, I>>, cache0: map<int, Option<I>>, k: nat)
    requires 0 < k <= |init|
    ensures var before := Prefix(env, init, cache0, k - 1).cache;
            var after := Prefix(env, init, cache0, k);
            after.hash == FoldedHash(env, init, cache0, k - 1) &&
            after.cache == if after.hash in before then before else before[after.hash := after.image]
  {
  }

  /** The output cache only grows: an entry, once there, keeps its image. */
  lemma {:induction false} CacheKeepsEntries<F, I>(env: Env<F, I>, init: seq<Slot<F, I>>, cache0: map<int, Option<I>>, k: nat, h: int)
    requires k <= |init| && h in cache0
    ensures h in Prefix(env, init, cache0, k).cache && Prefix(env, init, cache0, k).cache[h] == cache0[h]
    decreases k
  {
    if k > 0 {
      CacheKeepsEntries(env, init, cache0, k - 1, h);
      CacheStep(env, init, cache0, k);
    }
  }

  /** Every pipeline hash folded so far has an entry in the output cache. */
  lemma {:induction false} CacheHasFolded<F, I>(env: Env<F, I>, init: seq<Slot<F, I>>, cache0: map<int, Option<I>>, k: nat, j: nat)
    requires j < k <= |init|
    ensures FoldedHash(env, init, cache0, j) in Prefix(env, init, cache0, k).cache
    decreases k
  {
    CacheStep(env, init, cache0, k);
    if j < k - 1 {
      CacheHasFolded(env, init, cache0, k - 1, j);
    }
  }

  /** And nothing else is added: a key of the output cache was there before the
      run or is one of the folded pipeline hashes. */
  lemma {:induction false} CacheOnlyFolded<F, I>(env: Env<F, I>, init: seq<Slot<F, I>>, cache0: map<int, Option<I>>, k: nat, h: int)
    requires k <= |init| && h in Prefix(env, init, cache0, k).cache
    ensures h in cache0 || exists j :: 0 <= j < k && FoldedHash(env, init, cache0, j) == h
    decreases k
  {
    if k > 0 {
      CacheStep(env, init, cache0, k);
      if h != FoldedHash(env, init, cache0, k - 1) {
        CacheOnlyFolded(env, init, cache0, k - 1, h);
      }
    }
  }

  /** After at least one filter, the running image is what the last filter
      reached now caches. */
  lemma ImageIsLastCached<F, I>(env: Env<F, I>, init: seq<Slot<F, I>>, cache0: map<int, Option<I>>, k: nat)
    requires 0 < k <= |init|
    ensures Prefix(env, init, cache0, k).image == Prefix(env, init, cache0, k).slots[k - 1].cached
  {
  }

  /** The value `execute` returns for a run: the image if anything changed or
      it was a first run, otherwise `None`; and the folded pipeline hash. */
  function Returned<F, I>(env: Env<F, I>, r: RunState<F, I>): (Option<I>, int) {
    (if env.firstRun || r.modified then r.image else None, r.hash)
  }

  /** A run that is not a first run and in which no filter answered with an
      image returns `None`. */
  lemma NoChangeGivesNone<F, I>(env: Env<F, I>, init: seq<Slot<F, I>>, cache0: map<int, Option<I>>)
    requires !env.firstRun
    requires forall j :: 0 <= j < |init| ==> Answer(env, init, cache0, j).None?
    ensures Returned(env, Prefix(env, init, cache0, |init|)).0.None?
  {
    ModifiedMeansEarlierChange(env, init, cache0, |init|);
  }

  /** A first run returns the final image, which is not `None` when the last
      filter answered with an image or already had one cached. */
  lemma FirstRunGivesImage<F, I>(env: Env<F, I>, init: seq<Slot<F, I>>, cache0: map<int, Option<I>>)
    requires env.firstRun && |init| > 0
    requires Answer(env, init, cache0, |init| - 1).Some? || init[|init| - 1].cached.Some?
    ensures Returned(env, Prefix(env, init, cache0, |init|)).0.Some?
    ensures Returned(env, Prefix(env, init, cache0, |init|)).0 ==
      Prefix(env, init, cache0, |init|).slots[|init| - 1].cached
  {
    SlotsAfter(env, init, cache0, |init|, |init| - 1);
    SlotsAfter(env, init, cache0, |init| - 1, |init| - 1);
  }

  /** The source's `Pipeline` object. */
  class Pipeline<F, I> {
    var filters: seq<Slot<F, I>>
    var firstRun: bool
    var outputCache: map<int, Option<I>>

    ghost predicate Valid()
      reads this
    {
      |filters| >= 1
    }

    /** A new pipeline holds one slot, the empty filter, with nothing cached. */
    constructor (empty: F)
      ensures Valid() && filters == [Slot(empty, None)] && firstRun && outputCache == map[]
    {
      filters := [Slot(empty, None)];
      firstRun := true;
      outputCache := map[];
    }

    method Add(filter: F)
      requires Valid()
      modifies this
      ensures Valid() && filters == old(filters) + [Slot(filter, None)] && firstRun
      ensures outputCache == old(outputCache)
      ensures LastResult() == None
    {
      filters := filters + [Slot(filter, None)];
      firstRun := true;
    }

    method Execute(time: real, transform: Transform<F, I>, combine: (int, int) -> int)
      returns (image: Option<I>, hash: int)
      requires Valid()
      modifies this
      ensures Valid() && !firstRun
      ensures var env := Env(old(firstRun), time, transform, combine);
              var r := Prefix(env, old(filters), old(outputCache), |old(filters)|);
              filters == r.slots && outputCache == r.cache && image == Returned(env, r).0 && hash == Returned(env, r).1
    {
      var env := Env(firstRun, time, transform, combine);
      var current: Option<I> := None;
      var isModified := false;
      var pipelineHash := 0;
      var i := 0;
      while i < |filters|
        invariant 0 <= i <= |filters| == |old(filters)|
        invariant firstRun == old(firstRun)
        invariant RunState(filters, current, isModified, pipelineHash, outputCache) ==
                  Prefix(env, old(filters), old(outputCache), i)
      {
        current, isModified, pipelineHash := RunFilter(env, i, current, isModified, pipelineHash);
        i := i + 1;
      }
      if firstRun {
        isModified := true;
        firstRun := false;
      }
      image := if isModified then current else None;
      hash := pipelineHash;
    }

    /** One iteration of the loop in `execute`: filter number `i` is called,
        its answer (if any) replaces its cached image, the pipeline hash is
        folded and the output cache gets an entry under it if it had none. */
    method RunFilter(env: Env<F, I>, i: nat, current: Option<I>, isModified: bool, pipelineHash: int)
      returns (image: Option<I>, modified: bool, hash: int)
      requires i < |filters| && env.firstRun == firstRun
      modifies this`filters, this`outputCache
      ensures RunState(filters, image, modified, hash, outputCache) ==
              StepAt(env, RunState(old(filters), current, isModified, pipelineHash, old(outputCache)), i)
    {
      var slot := filters[i];
      var (out, h) := env.transform(slot.filter, current, Lookup(outputCache, env.combine, pipelineHash),
                                    isModified || firstRun, env.time);
      hash := env.combine(h, pipelineHash);
      modified := isModified;
      if out.None? {
        image := slot.cached;
      } else {
        filters := filters[i := Slot(slot.filter, out)];
        modified := true;
        image := out;
      }
      if hash !in outputCache {
        outputCache := outputCache[hash := image];
      }
    }

    /** `last_result`: the image cached by the final slot. `Add` leaves it
        `None`; `ExecuteImageIsLastResult` shows that an image `Execute`
        returns is this one. */
    function LastResult(): (r: Option<I>)
      reads this
      requires Valid()
      ensures r == filters[|filters| - 1].cached
    {
      filters[|filters| - 1].cached
    }
  }

  /** After `execute`, an image it returns is exactly what `last_result`
      answers from then on. */
  lemma ExecuteImageIsLastResult<F, I>(env: Env<F, I>, init: seq<Slot<F, I>>, cache0: map<int, Option<I>>)
    requires |init| > 0
    ensures var r := Prefix(env, init, cache0, |init|);
            Returned(env, r).0.Some? ==> Returned(env, r).0 == r.slots[|init| - 1].cached
  {
  }
}
