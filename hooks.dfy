/** The state kept by the page's two hooks: useReveal's one-shot visibility
    flag and the requestAnimationFrame guard of useRafScrollProgress. The
    browser objects (the element, IntersectionObserver, requestAnimationFrame
    and the layout measurement) appear only through the events they
    deliver. */
module Hooks {

  /** useReveal: `visible` starts false; once true it stays true. */
  class Reveal {
    var visible: bool
    /** Whether the observer is still watching the element. */
    var observing: bool

    constructor()
      ensures !visible && !observing
    {
      visible := false;
      observing := false;
    }

    /** The effect: without an element or without IntersectionObserver the
        section is shown at once; otherwise the observer starts watching. */
    method Mount(hasNode: bool, hasObserver: bool)
      modifies this
      ensures old(visible) ==> visible
      ensures !hasNode || !hasObserver ==> visible && observing == old(observing)
      ensures hasNode && hasObserver ==> visible == old(visible) && observing
    {
      if !hasNode || !hasObserver {
        visible := true;
        return;
      }
      observing := true;
    }

    /** The observer callback, one isIntersecting flag per entry: any
        intersecting entry shows the section and stops the observation. The
        observer only reports while it watches the element. */
    method OnEntries(entries: seq<bool>)
      requires observing
      modifies this
      ensures old(visible) ==> visible
      ensures visible <==> old(visible) || exists k :: 0 <= k < |entries| && entries[k]
      ensures observing <==> forall k :: 0 <= k < |entries| ==> !entries[k]
    {
      for i := 0 to |entries|
        invariant visible <==> old(visible) || exists k :: 0 <= k < i && entries[k]
        invariant observing <==> old(observing) && forall k :: 0 <= k < i ==> !entries[k]
      {
        if entries[i] {
          visible := true;
          observing := false;
        }
      }
    }

    /** The effect's cleanup: observer.disconnect(). */
    method Unmount()
      modifies this
      ensures visible == old(visible) && !observing
    {
      observing := false;
    }
  }

  /** useRafScrollProgress: a scroll or resize event schedules at most one
      animation frame until that frame has run. The frame queue holds the
      frames requested and not yet run. */
  class ScrollProgress {
    /** Whether the scroll and resize listeners are registered. */
    var listening: bool
    /** The percentage of the timeline scrolled into view. */
    var progress: real
    /** tickingRef.current. */
    var ticking: bool
    var pendingFrames: nat

    /** A frame is pending exactly while the guard is set, and the progress
        stays a percentage. */
    predicate Valid()
      reads this
    {
      && pendingFrames == (if ticking then 1 else 0)
      && 0.0 <= progress <= 100.0
    }

    constructor()
      ensures Valid() && progress == 0.0 && !ticking && pendingFrames == 0 && !listening
    {
      listening := false;
      progress := 0.0;
      ticking := false;
      pendingFrames := 0;
    }

    /** The effect: setProgress(compute()), then the scroll and resize
        listeners are added; `value` is what compute() returns, which it
        clamps to [0, 100]. */
    method Mount(value: real)
      requires Valid() && 0.0 <= value <= 100.0
      modifies this
      ensures Valid() && progress == value && listening
      ensures ticking == old(ticking) && pendingFrames == old(pendingFrames)
    {
      progress := value;
      listening := true;
    }

    /** The effect's cleanup removes both listeners. A frame already
        requested is not cancelled: it still runs and clears the guard. */
    method Unmount()
      requires Valid()
      modifies this
      ensures Valid() && !listening
      ensures ticking == old(ticking) && pendingFrames == old(pendingFrames) && progress == old(progress)
    {
      listening := false;
    }

    /** onScrollOrResize: ignored while a frame is pending; otherwise sets
        the guard and requests one frame. */
    method Scroll()
      requires Valid() && listening
      modifies this
      ensures Valid() && pendingFrames <= 1 && progress == old(progress) && listening
      ensures old(ticking) ==> ticking && pendingFrames == old(pendingFrames)
      ensures !old(ticking) ==> ticking && pendingFrames == old(pendingFrames) + 1
    {
      if ticking {
        return;
      }
      ticking := true;
      pendingFrames := pendingFrames + 1;
    }

    /** The requested frame runs: it clears the guard and stores the newly
        computed progress. */
    method Frame(value: real)
      requires Valid() && pendingFrames > 0 && 0.0 <= value <= 100.0
      modifies this
      ensures Valid() && pendingFrames <= 1
      ensures !ticking && pendingFrames == old(pendingFrames) - 1 && progress == value
      ensures listening == old(listening)
    {
      pendingFrames := pendingFrames - 1;
      ticking := false;
      progress := value;
    }
  }
}
