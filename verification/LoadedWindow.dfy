/** How many of the newest rows are rendered: the correcting effect and the end-reached step. */
module LoadedWindow {
  import opened Text

  datatype Config = Config(virtualization: bool, lazyLoading: bool, maxVisible: int, chunk: int)

  function Min(a: int, b: int): int {
    if a < b then a else b
  }

  /** The effect that runs when the number of rows or the loaded count has changed. */
  function AfterEffect(config: Config, loaded: int, total: nat): int {
    if !config.virtualization then total
    else
      var minVisible := Min(config.maxVisible, total);
      if loaded < minVisible then minVisible
      else if loaded > total then total
      else loaded
  }

  /** `handleEndReached`, as far as the loaded count goes. */
  function AfterEndReached(config: Config, loaded: int, total: nat): int {
    if config.lazyLoading && loaded < total then Min(loaded + config.chunk, total) else loaded
  }

  /** `visibleMessages`. */
  function Visible<T>(config: Config, rows: seq<T>, loaded: int): seq<T> {
    if config.virtualization then SliceFrom(rows, -loaded) else rows
  }

  /** The loaded count as the component keeps it. */
  class Window {
    const config: Config
    var loadedMessageCount: int

    constructor (config: Config, total: nat)
      ensures this.config == config
      ensures loadedMessageCount == if config.virtualization then Min(config.maxVisible, total) else total
    {
      this.config := config;
      loadedMessageCount := if config.virtualization then Min(config.maxVisible, total) else total;
    }

    method Effect(total: nat)
      modifies this
      ensures loadedMessageCount == AfterEffect(config, old(loadedMessageCount), total)
      ensures config.virtualization ==> Settled(config, loadedMessageCount, total)
    {
      if !config.virtualization {
        if loadedMessageCount != total {
          loadedMessageCount := total;
        }
        return;
      }
      var minVisible := Min(config.maxVisible, total);
      if loadedMessageCount < minVisible {
        loadedMessageCount := minVisible;
        return;
      }
      if loadedMessageCount > total {
        loadedMessageCount := total;
      }
    }

    method HandleEndReached(total: nat)
      modifies this
      ensures loadedMessageCount == AfterEndReached(config, old(loadedMessageCount), total)
    {
      if config.lazyLoading && loadedMessageCount < total {
        loadedMessageCount := Min(loadedMessageCount + config.chunk, total);
      }
    }
  }

  predicate Settled(config: Config, loaded: int, total: nat) {
    Min(config.maxVisible, total) <= loaded <= total
  }

  /** One correction is enough, and there is none exactly when the count is in range already. */
  lemma SettlesAtOnce(config: Config, loaded: int, total: nat)
    requires config.virtualization
    ensures var once := AfterEffect(config, loaded, total);
            && Settled(config, once, total)
            && AfterEffect(config, once, total) == once
            && (once == loaded <==> Settled(config, loaded, total))
  {
  }

  /** The newest `n` rows. */
  function Newest<T>(rows: seq<T>, n: nat): seq<T>
    requires n <= |rows|
  {
    rows[|rows| - n..]
  }

  /**
   * The rendered rows are the newest loaded ones exactly when something is loaded or there is
   * nothing to load: with a count of 0, `slice(-0)` renders the whole list.
   */
  lemma VisibleAreNewestExactly<T>(config: Config, rows: seq<T>, loaded: nat)
    requires config.virtualization && loaded <= |rows|
    ensures Visible(config, rows, loaded) == Newest(rows, loaded) <==> loaded >= 1 || rows == []
  {
    if loaded == 0 && rows != [] {
      assert |Visible(config, rows, loaded)| == |rows|;
    }
  }

  /** With a positive minimum a settled count always renders the newest loaded rows. */
  lemma SettledShowsNewest<T>(config: Config, rows: seq<T>, loaded: int)
    requires config.virtualization && config.maxVisible >= 1
    requires Settled(config, loaded, |rows|)
    ensures 0 <= loaded && Visible(config, rows, loaded) == Newest(rows, loaded)
  {
    assert loaded >= 1 || |rows| == 0;
    VisibleAreNewestExactly(config, rows, loaded);
  }

  /** The loaded count after `steps` end-reached steps. */
  function AfterSteps(config: Config, loaded: int, total: nat, steps: nat): int {
    if steps == 0 then loaded else AfterEndReached(config, AfterSteps(config, loaded, total, steps - 1), total)
  }

  lemma {:induction false} StepsAdd(config: Config, loaded: int, total: nat, steps: nat)
    requires config.lazyLoading && config.chunk >= 1 && loaded <= total
    ensures AfterSteps(config, loaded, total, steps) == Min(loaded + steps * config.chunk, total)
  {
    if steps > 0 {
      StepsAdd(config, loaded, total, steps - 1);
      assert steps * config.chunk == (steps - 1) * config.chunk + config.chunk;
    }
  }

  /**
   * Every end-reached step keeps the rendered rows and adds the next older ones; the count stays
   * settled, so the effect never takes rows back.
   */
  lemma StepAddsOlderRows<T>(config: Config, rows: seq<T>, loaded: int)
    requires config.virtualization && config.lazyLoading && config.maxVisible >= 1 && config.chunk >= 1
    requires Settled(config, loaded, |rows|) && loaded < |rows|
    ensures var next := AfterEndReached(config, loaded, |rows|);
            && loaded < next && Settled(config, next, |rows|)
            && AfterEffect(config, next, |rows|) == next
            && Visible(config, rows, next) == rows[|rows| - next..|rows| - loaded] + Visible(config, rows, loaded)
  {
    var next := AfterEndReached(config, loaded, |rows|);
    SettledShowsNewest(config, rows, loaded);
    SettledShowsNewest(config, rows, next);
  }

  /** However many steps: the rendered rows stay, with the next older ones in front of them. */
  lemma {:induction false} StepsAddOlderRows<T>(config: Config, rows: seq<T>, loaded: int, steps: nat)
    requires config.virtualization && config.lazyLoading && config.maxVisible >= 1 && config.chunk >= 1
    requires Settled(config, loaded, |rows|)
    ensures var next := AfterSteps(config, loaded, |rows|, steps);
            && next == Min(loaded + steps * config.chunk, |rows|) && Settled(config, next, |rows|)
            && AfterEffect(config, next, |rows|) == next && 0 <= next
            && Visible(config, rows, next) == Newest(rows, next)
            && Visible(config, rows, next) == rows[|rows| - next..|rows| - loaded] + Visible(config, rows, loaded)
  {
    StepsAdd(config, loaded, |rows|, steps);
    SettledShowsNewest(config, rows, loaded);
    if steps > 0 {
      var before := AfterSteps(config, loaded, |rows|, steps - 1);
      StepsAddOlderRows(config, rows, loaded, steps - 1);
      if before < |rows| {
        StepAddsOlderRows(config, rows, before);
      }
    }
    SettledShowsNewest(config, rows, AfterSteps(config, loaded, |rows|, steps));
  }

  // ----- Over every run -----

  /** The list changes, and the effect corrects the count; or the list is scrolled to its end. */
  datatype Event<T> = ListChanged(rows: seq<T>) | EndReached

  datatype View<T> = View(rows: seq<T>, loaded: int)

  function AfterEvent<T>(config: Config, view: View<T>, event: Event<T>): View<T> {
    match event
    case ListChanged(rows) => View(rows, AfterEffect(config, view.loaded, |rows|))
    case EndReached =>
      View(view.rows, AfterEffect(config, AfterEndReached(config, view.loaded, |view.rows|), |view.rows|))
  }

  function Run<T>(config: Config, rows: seq<T>, events: seq<Event<T>>): View<T> {
    if events == [] then View(rows, if config.virtualization then Min(config.maxVisible, |rows|) else |rows|)
    else AfterEvent(config, Run(config, rows, events[..|events| - 1]), events[|events| - 1])
  }

  lemma EventSettles<T>(config: Config, view: View<T>, event: Event<T>)
    requires config.virtualization && config.maxVisible >= 0 && config.chunk >= 0
    ensures var v := AfterEvent(config, view, event);
            Settled(config, v.loaded, |v.rows|) && 0 <= v.loaded
  {
  }

  lemma RunSettles<T>(config: Config, rows: seq<T>, events: seq<Event<T>>)
    requires config.virtualization && config.maxVisible >= 0 && config.chunk >= 0
    ensures var v := Run(config, rows, events);
            Settled(config, v.loaded, |v.rows|) && 0 <= v.loaded
  {
    if events != [] {
      EventSettles(config, Run(config, rows, events[..|events| - 1]), events[|events| - 1]);
    }
  }

  /**
   * Over every run of list changes and end-reached events the count is settled, so that one more run of
   * the effect would change nothing, and the rendered rows are the newest loaded ones exactly when
   * something is loaded or there are none: always, with a positive minimum.
   */
  lemma EveryRunShowsNewest<T>(config: Config, rows: seq<T>, events: seq<Event<T>>)
    requires config.virtualization && config.maxVisible >= 0 && config.chunk >= 0
    ensures var v := Run(config, rows, events);
            && Settled(config, v.loaded, |v.rows|) && 0 <= v.loaded
            && AfterEffect(config, v.loaded, |v.rows|) == v.loaded
            && (Visible(config, v.rows, v.loaded) == Newest(v.rows, v.loaded) <==> v.loaded >= 1 || v.rows == [])
            && (config.maxVisible >= 1 ==> v.loaded >= 1 || v.rows == [])
  {
    RunSettles(config, rows, events);
    var v := Run(config, rows, events);
    VisibleAreNewestExactly(config, v.rows, v.loaded);
    assert v.rows == [] <==> |v.rows| == 0;
  }

  /** All rows are loaded after `steps` steps exactly when `steps` chunks cover what was missing. */
  lemma AllLoadedExactly(config: Config, loaded: int, total: nat, steps: nat)
    requires config.lazyLoading && config.chunk >= 1 && loaded <= total
    ensures AfterSteps(config, loaded, total, steps) == total <==> total - loaded <= steps * config.chunk
  {
    StepsAdd(config, loaded, total, steps);
  }

  /** That takes the missing rows divided by the chunk, rounded up, and not one step less. */
  lemma StepsNeeded(config: Config, loaded: int, total: nat)
    requires config.lazyLoading && config.chunk >= 1 && loaded < total
    ensures var steps := (total - loaded + config.chunk - 1) / config.chunk;
            && steps >= 1
            && AfterSteps(config, loaded, total, steps) == total
            && AfterSteps(config, loaded, total, steps - 1) < total
  {
    var missing, chunk := total - loaded, config.chunk;
    var steps := (missing + chunk - 1) / chunk;
    CeilingBounds(missing, chunk);
    StepsAdd(config, loaded, total, steps);
    StepsAdd(config, loaded, total, steps - 1);
  }

  lemma CeilingBounds(missing: int, chunk: int)
    requires missing >= 1 && chunk >= 1
    ensures var steps := (missing + chunk - 1) / chunk;
            steps >= 1 && (steps - 1) * chunk < missing <= steps * chunk
  {
    var steps := (missing + chunk - 1) / chunk;
    assert missing + chunk - 1 == steps * chunk + (missing + chunk - 1) % chunk;
    assert (steps - 1) * chunk == steps * chunk - chunk;
    assert (missing + chunk - 1) >= chunk;
    QuotientAtLeastOne(missing + chunk - 1, chunk);
  }

  lemma QuotientAtLeastOne(a: int, b: int)
    requires a >= b >= 1
    ensures a / b >= 1
  {
  }
}
