/** The page -> button -> pipeline table of one deck and one iteration of its
    render loop (streamdeck_ui/display/display_grid.py).

    Pipelines are an abstract type `P` here (in the source they are `Pipeline`
    objects, compared by identity). A tick needs two facts about each pipeline:
    what `execute` returns for it in this tick, and what its `last_result()`
    answers afterwards. Both are function parameters. The render thread itself,
    its FPS bookkeeping and its sleeps are not modelled; the flag `threadStarted`
    stands for `pipeline_thread is not None`. */
module DisplayGrids {
  import opened Wrappers

  /** `pages.setdefault(page, {}).setdefault(button, pipeline)`: the first
      pipeline stored for a (page, button) stays. */
  function PutFirst<P>(pages: map<int, map<int, P>>, page: int, button: int, pipeline: P): (r: map<int, map<int, P>>)
    ensures page in r && button in r[page]
    ensures r[page][button] ==
      if page in pages && button in pages[page] then pages[page][button] else pipeline
    ensures forall q :: q != page ==> (q in r <==> q in pages)
    ensures forall q :: q != page && q in pages ==> r[q] == pages[q]
    ensures forall b :: b != button ==> (b in r[page] <==> page in pages && b in pages[page])
    ensures forall b :: b != button && page in pages && b in pages[page] ==> r[page][b] == pages[page][b]
  {
    var row := if page in pages then pages[page] else map[];
    if button in row then pages[page := row] else pages[page := row[button := pipeline]]
  }

  /** `pages[page][button]`, with the KeyError of a missing page or button. */
  function Lookup<P>(pages: map<int, map<int, P>>, page: int, button: int): (r: Result<P>)
    ensures r.Ok? <==> page in pages && button in pages[page]
    ensures r.Ok? ==> r.value == pages[page][button]
  {
    if page !in pages then Err(KeyError("page"))
    else if button !in pages[page] then Err(KeyError("button"))
    else Ok(pages[page][button])
  }

  /** A second `set_pipeline` for the same (page, button) changes nothing. */
  lemma PutFirstTwice<P>(pages: map<int, map<int, P>>, page: int, button: int, first: P, second: P)
    ensures PutFirst(PutFirst(pages, page, button, first), page, button, second) ==
            PutFirst(pages, page, button, first)
  {
    var once := PutFirst(pages, page, button, first);
    assert once[page := once[page]] == once;
  }

  /** `get_pipeline` returns what the first `set_pipeline` stored. */
  lemma LookupAfterPut<P>(pages: map<int, map<int, P>>, page: int, button: int, pipeline: P)
    requires Lookup(pages, page, button).Err?
    ensures Lookup(PutFirst(pages, page, button, pipeline), page, button) == Ok(pipeline)
  {
  }

  /** The force-update decision of a tick. `lastSeen` is the page whose table
      the loop saw last (`None` for the initial `last_page = -1`). The source
      compares the two page dictionaries with `!=`: the same dictionary is
      never different from itself, and two different pages differ exactly when
      their contents do. */
  function ForceUpdate<P(==)>(pages: map<int, map<int, P>>, current: int, lastSeen: Option<int>): bool
    requires current in pages
    requires lastSeen.Some? ==> lastSeen.value in pages
  {
    lastSeen.None? || pages[lastSeen.value] != pages[current]
  }

  /** The image a button ends up with in a tick: what `execute` produced, or
      with force-update on and no new image, the pipeline's last result. */
  function Selected<P, I>(force: bool, pipeline: P, execute: P -> (Option<I>, int), lastResult: P -> Option<I>): Option<I> {
    var image := execute(pipeline).0;
    if force && image.None? then lastResult(pipeline) else image
  }

  /** `frames` are the frames pushed in a tick: one per button of the page
      whose selected image is present, carrying that image. */
  ghost predicate IsFrames<P, I>(frames: map<int, I>, page: map<int, P>, force: bool,
                                 execute: P -> (Option<I>, int), lastResult: P -> Option<I>)
  {
    (forall b :: b in frames <==> b in page && Selected(force, page[b], execute, lastResult).Some?) &&
    (forall b :: b in frames ==> frames[b] == Selected(force, page[b], execute, lastResult).value)
  }

  /** The frames of a tick only come from buttons of the current page, and a
      button whose pipeline produced an image always gets exactly that image. */
  lemma FramesFromPage<P, I>(frames: map<int, I>, page: map<int, P>, force: bool,
                             execute: P -> (Option<I>, int), lastResult: P -> Option<I>, b: int)
    requires IsFrames(frames, page, force, execute, lastResult)
    ensures b in frames ==> b in page
    ensures b in page && execute(page[b]).0.Some? ==> b in frames && frames[b] == execute(page[b]).0.value
  {
  }

  /** Without a page switch, a button whose pipeline reports no change gets no
      frame; after a switch, it gets its last result when there is one. */
  lemma NoChangeNoFrame<P, I>(frames: map<int, I>, page: map<int, P>, force: bool,
                              execute: P -> (Option<I>, int), lastResult: P -> Option<I>, b: int)
    requires IsFrames(frames, page, force, execute, lastResult)
    requires b in page && execute(page[b]).0.None?
    ensures !force ==> b !in frames
    ensures force ==> (b in frames <==> lastResult(page[b]).Some?)
    ensures force && b in frames ==> frames[b] == lastResult(page[b]).value
  {
  }

  /** What one tick produces: whether it forced an update, the frames pushed
      (button -> image) and the page the next tick compares against. */
  datatype Tick<I> = Tick(force: bool, frames: map<int, I>, lastSeen: Option<int>)

  class DisplayGrid<P(==)> {
    var pages: map<int, map<int, P>>
    var currentPage: int
    var running: bool
    var threadStarted: bool

    ghost predicate Valid()
      reads this
    {
      running ==> threadStarted
    }

    constructor ()
      ensures Valid() && pages == map[] && currentPage == -1 && !running && !threadStarted
    {
      pages := map[];
      currentPage := -1;
      running := false;
      threadStarted := false;
    }

    method SetPipeline(page: int, button: int, pipeline: P)
      requires Valid()
      modifies this`pages
      ensures Valid() && pages == PutFirst(old(pages), page, button, pipeline)
      ensures GetPipeline(page, button) == if old(GetPipeline(page, button)).Ok? then old(GetPipeline(page, button)) else Ok(pipeline)
    {
      var row := if page in pages then pages[page] else map[];
      if button !in row {
        row := row[button := pipeline];
      }
      pages := pages[page := row];
    }

    function GetPipeline(page: int, button: int): (r: Result<P>)
      reads this
      ensures r.Ok? <==> page in pages && button in pages[page]
      ensures r.Ok? ==> r.value == pages[page][button]
    {
      Lookup(pages, page, button)
    }

    method SetPage(page: int)
      requires Valid()
      modifies this`currentPage
      ensures Valid() && currentPage == page
    {
      currentPage := page;
    }

    /** `start`: a running thread is asked to stop first; then a new one runs. */
    method Start()
      requires Valid()
      modifies this`running, this`threadStarted
      ensures Valid() && running && threadStarted
    {
      if threadStarted {
        running := false;
      }
      running := true;
      threadStarted := true;
    }

    /** `stop` clears `running` only if a thread was ever started; while the
        invariant holds that is enough for `running` to end false. */
    method Stop()
      requires Valid()
      modifies this`running
      ensures Valid() && !running
      ensures running == (old(running) && !threadStarted)
    {
      if threadStarted {
        running := false;
      }
    }

    /** The loop body of `_run` (lines 46-88), with the image taken out of the
        pair that `execute` returns. A missing current page is a KeyError.
        `order` is the order in which the page's dictionary yields its buttons.
        `execute` and `lastResult` answer the same for a pipeline for the whole
        tick, so the model assumes each button holds its own pipeline: a
        pipeline object shared by two buttons would run once per button, and
        its second run would see the first one's cache. */
    method RunTick<I>(lastSeen: Option<int>, order: seq<int>, execute: P -> (Option<I>, int), lastResult: P -> Option<I>)
      returns (r: Result<Tick<I>>)
      requires lastSeen.Some? ==> lastSeen.value in pages
      requires currentPage in pages ==> Enumerates(order, pages[currentPage].Keys)
      ensures currentPage !in pages <==> r.Err?
      ensures currentPage in pages ==> r.Ok?
      ensures r.Ok? ==>
        var force := ForceUpdate(pages, currentPage, lastSeen);
        r.value.force == force &&
        IsFrames(r.value.frames, pages[currentPage], force, execute, lastResult) &&
        r.value.lastSeen == if force then Some(currentPage) else lastSeen
    {
      if currentPage !in pages {
        return Err(KeyError("page"));
      }
      var page := pages[currentPage];
      var force := false;
      var seen := lastSeen;
      if lastSeen.None? || pages[lastSeen.value] != page {
        force := true;
        seen := Some(currentPage);
      }
      var frames: map<int, I> := map[];
      var i := 0;
      while i < |order|
        invariant 0 <= i <= |order|
        invariant forall b :: b in frames <==>
                    b in order[..i] && Selected(force, page[b], execute, lastResult).Some?
        invariant forall b :: b in frames ==> frames[b] == Selected(force, page[b], execute, lastResult).value
      {
        var button := order[i];
        var image := execute(page[button]).0;
        if force && image.None? {
          image := lastResult(page[button]);
        }
        if image.Some? {
          frames := frames[button := image.value];
        }
        assert order[..i + 1] == order[..i] + [button];
        i := i + 1;
      }
      assert order[..i] == order;
      return Ok(Tick(force, frames, seen));
    }

    /** The loop body of `_run` as written: `image = pipeline.execute(...)`
        binds the whole (image, hash) pair, which is never `None` and always
        truthy, so every button of the page enters the push branch, handed
        that pair. */
    method RunTickAsWritten<I>(order: seq<int>, execute: P -> (Option<I>, int))
      returns (r: Result<map<int, (Option<I>, int)>>)
      requires currentPage in pages ==> Enumerates(order, pages[currentPage].Keys)
      ensures currentPage !in pages <==> r.Err?
      ensures currentPage in pages ==> r.Ok? && forall b :: b in r.value <==> b in pages[currentPage]
      ensures currentPage in pages ==>
        forall b :: b in r.value ==> r.value[b] == execute(pages[currentPage][b])
    {
      if currentPage !in pages {
        return Err(KeyError("page"));
      }
      var page := pages[currentPage];
      var pushed: map<int, (Option<I>, int)> := map[];
      var i := 0;
      while i < |order|
        invariant 0 <= i <= |order|
        invariant forall b :: b in pushed <==> b in order[..i]
        invariant forall b :: b in pushed ==> pushed[b] == execute(page[b])
      {
        var button := order[i];
        pushed := pushed[button := execute(page[button])];
        assert order[..i + 1] == order[..i] + [button];
        i := i + 1;
      }
      assert order[..i] == order;
      return Ok(pushed);
    }
  }

  /** A button whose pipeline reports "no change" outside a page switch: the
      intended tick pushes nothing for it, the tick as written pushes to it,
      handing over a pair whose image part is `None`. */
  lemma AsWrittenPushesUnchanged<P, I>(frames: map<int, I>, pushed: map<int, (Option<I>, int)>, page: map<int, P>,
                                       execute: P -> (Option<I>, int), lastResult: P -> Option<I>, b: int)
    requires IsFrames(frames, page, false, execute, lastResult)
    requires (forall x :: x in pushed <==> x in page) && (forall x :: x in pushed ==> pushed[x] == execute(page[x]))
    requires b in page && execute(page[b]).0.None?
    ensures b !in frames
    ensures b in pushed && pushed[b].0.None?
  {
  }
}
