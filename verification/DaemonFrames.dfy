/** How a step of the daemon may change the world, and composition of `Throughout`. */
module DaemonFrames {
  import opened Addresses
  import opened InterfaceConfigs
  import opened DaemonEvents

  ghost function ToSet<T>(s: seq<T>): set<T> {
    set x | x in s
  }

  /** Nothing but the network changed, and only by calls other than on exclusions. */
  ghost predicate OnlyNetwork(w: World, w0: World) {
    && w == w0.(net := w.net, allOk := w.allOk, trusted := w.trusted)
    && (w.allOk ==> w0.allOk)
    && (w.trusted ==> w0.trusted)
    && (w.allOk && w0.trusted ==> w.trusted)
  }

  /** Nothing but prefix routes changed. */
  ghost predicate OnlyRoutes(w: World, w0: World) {
    && w == w0.(net := w0.net.(routes := w.net.routes), allOk := w.allOk)
    && (w.allOk ==> w0.allOk)
  }

  /** Nothing but exclusion routes and their assertion changed. */
  ghost predicate OnlyExclusions(w: World, w0: World) {
    && w.net == w0.net && w.signals == w0.signals
    && (w.trusted ==> w0.trusted)
    && (w.exclusionCallsOk ==> w0.exclusionCallsOk)
    && (w.allOk ==> w0.allOk)
    && (w.allOk && w0.exclusionCallsOk ==> w.exclusionCallsOk)
    && (w.exclusionCallsOk && w0.trusted ==> w.trusted)
    && w0.assertions <= w.assertions
    && (w.clean <==> w0.clean && w.assertions == w0.assertions)
  }

  /** A stretch of backend calls: signals do not move, reliability is only ever lost, and the
      record stays clean exactly if no assertion was false. */
  ghost predicate Forward(w: World, w0: World) {
    && w.signals == w0.signals
    && (w.trusted ==> w0.trusted)
    && (w.exclusionCallsOk ==> w0.exclusionCallsOk)
    && (w.allOk ==> w0.allOk)
    && w0.assertions <= w.assertions
    && (w.clean <==> w0.clean && w.assertions == w0.assertions)
  }

  lemma {:induction false} ThroughoutJoins(t2: Trace, t1: Trace, t0: Trace, kept: set<IpAddress>)
    requires Throughout(t2, t1, kept) && Throughout(t1, t0, kept)
    ensures Throughout(t2, t0, kept)
  {
    if t2 == t1 {
    } else {
      ThroughoutJoins(t2.prev, t1, t0, kept);
    }
  }

  lemma {:induction false} ThroughoutWeakens(t: Trace, t0: Trace, kept: set<IpAddress>, fewer: set<IpAddress>)
    requires Throughout(t, t0, kept) && fewer <= kept
    ensures Throughout(t, t0, fewer)
  {
    if t == t0 {
    } else {
      ThroughoutWeakens(t.prev, t0, kept, fewer);
    }
  }

  /** A stretch that drops nothing, after one that keeps `kept`. */
  lemma ThroughoutExtends(t2: Trace, t1: Trace, t0: Trace, kept: set<IpAddress>)
    requires Throughout(t1, t0, kept) && Throughout(t2, t1, WorldOf(t1).exclusions)
    ensures Throughout(t2, t0, kept)
  {
    ThroughoutWeakens(t2, t1, WorldOf(t1).exclusions, kept);
    ThroughoutJoins(t2, t1, t0, kept);
  }
}
