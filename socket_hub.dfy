// `setupWebSocket`: the per-connection event handlers. Every socket carries
// two optional handles in `socket.data` — the interval that pushes metrics
// and the watcher that pushes access-log records — which the handlers set,
// release and null. Timers and watchers are identified by ids; "live" means
// not yet cleared or closed. What a socket is sent is appended to its outbox.
module SocketHub {
  import opened Common
  import opened AccessLog
  import opened LogTail
  import opened Metrics

  type ConnId = nat
  type TimerId = nat
  type WatcherId = nat

  /** `socket.data`: the stored interval and watcher, each possibly null. */
  datatype SocketData = SocketData(metricsInterval: Option<TimerId>, logWatcher: Option<WatcherId>)

  /** A fresh socket holds neither handle. */
  const NoHandles := SocketData(None, None)

  /** The events the server emits on a socket. */
  datatype Emission =
    | MetricsUpdate(metrics: Sample)   // 'metrics:update'
    | LogNew(entry: AccessRecord)      // 'log:new'
    | ErrorEvent(message: string)      // 'error', { message }

  /** The message of the `error` event a failed metrics tick emits. */
  const FetchFailed := "Failed to fetch metrics"

  /** The one-element id set of a present handle, empty for null. */
  function Held(h: Option<nat>): set<nat>
  {
    if h.Some? then {h.value} else {}
  }

  /** What a metrics tick emits: the sample, or the error when fetching it threw. */
  function TickEmission(sample: Option<Sample>): (e: Emission)
    ensures sample.Some? ==> e == MetricsUpdate(sample.value)
    ensures sample.None? ==> e == ErrorEvent(FetchFailed)
  {
    match sample
    case Some(m) => MetricsUpdate(m)
    case None => ErrorEvent(FetchFailed)
  }

  /** One `log:new` emission per record, in order. */
  function LogNews(recs: seq<AccessRecord>): (r: seq<Emission>)
    ensures |r| == |recs|
    ensures forall i :: 0 <= i < |recs| ==> r[i] == LogNew(recs[i])
  {
    seq(|recs|, i requires 0 <= i < |recs| => LogNew(recs[i]))
  }

  /** A watcher: the socket whose callback it runs, and its `watchLogFile` closure. */
  datatype Watcher = Watcher(owner: ConnId, tail: LogTail)

  /** No two ids name the same closure. */
  ghost predicate Distinct(m: map<WatcherId, Watcher>)
  {
    forall v, w :: v in m && w in m && v != w ==> m[v].tail != m[w].tail
  }

  lemma DistinctAdd(m: map<WatcherId, Watcher>, w: WatcherId, x: Watcher)
    requires Distinct(m) && w !in m
    requires forall v :: v in m ==> m[v].tail != x.tail
    ensures Distinct(m[w := x])
  {
  }

  class Hub {
    /** `socket.data` of every socket seen so far. */
    var sockets: map<ConnId, SocketData>
    /** The sockets still connected. */
    var connected: set<ConnId>
    /** Everything emitted on each socket, in order. */
    var outbox: map<ConnId, seq<Emission>>
    /** Every interval started, with the socket its callback emits on. */
    var timerOwner: map<TimerId, ConnId>
    /** The intervals not cleared. */
    var liveTimers: set<TimerId>
    /** Every watcher created: the socket its callback emits on and its closure state. */
    var watchers: map<WatcherId, Watcher>
    /** The watchers not closed. */
    var liveWatchers: set<WatcherId>
    /** Ids not yet handed out. */
    var nextConn: nat
    var nextTimer: nat
    var nextWatcher: nat

    /**
     * The hub's invariant: handles refer to timers and watchers started for
     * that very socket, and every live watcher is the one its socket holds
     * and belongs to a connected socket (a watcher never outlives its
     * socket). Intervals have no such guarantee.
     */
    ghost predicate Valid()
      reads this
    {
      Shape() && TimersValid() && WatchersValid()
    }

    /** Every socket has an outbox, and ids of sockets are below the next one. */
    ghost predicate Shape()
      reads this
    {
      && outbox.Keys == sockets.Keys
      && connected <= sockets.Keys
      && (forall c :: c in sockets ==> c < nextConn)
    }

    /** A stored interval is one started for that very socket. */
    ghost predicate TimersValid()
      reads this
    {
      && (forall t :: t in timerOwner ==> t < nextTimer && timerOwner[t] in sockets)
      && liveTimers <= timerOwner.Keys
      && (forall c :: c in sockets && sockets[c].metricsInterval.Some? ==>
            sockets[c].metricsInterval.value in timerOwner && timerOwner[sockets[c].metricsInterval.value] == c)
    }

    /**
     * A stored watcher is one created for that very socket, watchers are
     * distinct objects, and a live watcher is the one its socket holds.
     */
    ghost predicate WatchersValid()
      reads this
    {
      && (forall w :: w in watchers ==> w < nextWatcher && watchers[w].owner in sockets)
      && Distinct(watchers)
      && liveWatchers <= watchers.Keys
      && (forall c :: c in sockets && sockets[c].logWatcher.Some? ==>
            sockets[c].logWatcher.value in watchers && watchers[sockets[c].logWatcher.value].owner == c)
      && (forall w :: w in liveWatchers ==>
            watchers[w].owner in connected && sockets[watchers[w].owner].logWatcher == Some(w))
    }

    /** A server with no connections. */
    constructor ()
      ensures Valid()
      ensures sockets == map[] && connected == {} && outbox == map[]
      ensures liveTimers == {} && liveWatchers == {}
    {
      sockets, connected, outbox := map[], {}, map[];
      timerOwner, liveTimers := map[], {};
      watchers, liveWatchers := map[], {};
      nextConn, nextTimer, nextWatcher := 0, 0, 0;
    }

    /**
     * `connection`: a new socket with no handles. Exactly one preview
     * emission is attempted: the sample when fetching it succeeds, nothing
     * (the failure is only logged) when it throws.
     */
    method Connect(preview: Option<Sample>) returns (c: ConnId)
      requires Valid()
      modifies this
      ensures Valid()
      ensures c !in old(sockets)
      ensures sockets == old(sockets)[c := NoHandles]
      ensures connected == old(connected) + {c}
      ensures outbox == old(outbox)[c := if preview.Some? then [MetricsUpdate(preview.value)] else []]
      ensures liveTimers == old(liveTimers) && timerOwner == old(timerOwner)
      ensures liveWatchers == old(liveWatchers) && watchers == old(watchers)
    {
      c := nextConn;
      nextConn := nextConn + 1;
      sockets := sockets[c := NoHandles];
      connected := connected + {c};
      outbox := outbox[c := if preview.Some? then [MetricsUpdate(preview.value)] else []];
      assert TimersValid();
      assert WatchersValid();
    }

    /**
     * `subscribe:metrics`: always starts a new interval and stores it,
     * overwriting the stored handle. An interval stored before is not
     * cleared: it stays live with nothing referring to it.
     */
    method SubscribeMetrics(c: ConnId) returns (t: TimerId)
      requires Valid() && c in connected
      modifies this
      ensures Valid()
      ensures t !in old(timerOwner)
      ensures timerOwner == old(timerOwner)[t := c]
      ensures liveTimers == old(liveTimers) + {t}
      ensures sockets == old(sockets)[c := old(sockets[c]).(metricsInterval := Some(t))]
      ensures connected == old(connected) && outbox == old(outbox)
      ensures liveWatchers == old(liveWatchers) && watchers == old(watchers)
    {
      t := nextTimer;
      nextTimer := nextTimer + 1;
      timerOwner := timerOwner[t := c];
      liveTimers := liveTimers + {t};
      sockets := sockets[c := sockets[c].(metricsInterval := Some(t))];
      assert Shape();
      assert WatchersValid();
    }

    /**
     * `subscribe:logs`: only when the socket holds no watcher, calls
     * `watchLogFile` and stores its result. A null result (the watch
     * failed) leaves the handle unset, so a later subscribe tries again;
     * `watchLogFile` never throws, so nothing is emitted either way.
     */
    method SubscribeLogs(c: ConnId, fileExists: bool, size: nat, watchOk: bool)
      requires Valid() && c in connected
      modifies this
      ensures Valid()
      ensures old(sockets[c].logWatcher).Some? || !watchOk ==> unchanged(this)
      ensures old(sockets[c].logWatcher).None? && watchOk ==>
        var w := old(nextWatcher);
        && w !in old(watchers)
        && sockets == old(sockets)[c := old(sockets[c]).(logWatcher := Some(w))]
        && liveWatchers == old(liveWatchers) + {w}
        && w in watchers && watchers[w].owner == c && fresh(watchers[w].tail)
        && watchers == old(watchers)[w := watchers[w]]
        && watchers[w].tail.lastSize == (if fileExists then size else 0)
        && connected == old(connected) && outbox == old(outbox)
        && liveTimers == old(liveTimers) && timerOwner == old(timerOwner)
    {
      if sockets[c].logWatcher.None? {
        var watcher := WatchLogFile(fileExists, size, watchOk);
        if watcher != null {
          var _ := StoreWatcher(c, Watcher(c, watcher));
        }
      }
    }

    /** Stores a new watcher as the socket's handle: `socket.data.logWatcher = watcher`. */
    method StoreWatcher(c: ConnId, watcher: Watcher) returns (w: WatcherId)
      requires Valid() && c in connected && sockets[c].logWatcher.None? && watcher.owner == c
      requires forall v :: v in watchers ==> watchers[v].tail != watcher.tail
      modifies this
      ensures Valid()
      ensures w == old(nextWatcher) && w !in old(watchers)
      ensures sockets == old(sockets)[c := old(sockets[c]).(logWatcher := Some(w))]
      ensures watchers == old(watchers)[w := watcher]
      ensures liveWatchers == old(liveWatchers) + {w}
      ensures connected == old(connected) && outbox == old(outbox)
      ensures liveTimers == old(liveTimers) && timerOwner == old(timerOwner)
    {
      w := nextWatcher;
      assert w !in watchers;
      DistinctAdd(watchers, w, watcher);
      nextWatcher := nextWatcher + 1;
      watchers := watchers[w := watcher];
      liveWatchers := liveWatchers + {w};
      sockets := sockets[c := sockets[c].(logWatcher := Some(w))];
      assert Shape();
      assert TimersValid() by {
        assert forall d :: d in sockets ==> sockets[d].metricsInterval == old(sockets[d].metricsInterval);
      }
      assert forall d :: d in sockets && sockets[d].logWatcher.Some? ==>
        sockets[d].logWatcher.value in watchers && watchers[sockets[d].logWatcher.value].owner == d;
      assert forall v :: v in liveWatchers ==>
        watchers[v].owner in connected && sockets[watchers[v].owner].logWatcher == Some(v);
    }

    /**
     * `unsubscribe:metrics`: clears the stored interval, if any, and nulls
     * the handle; with no handle it does nothing.
     */
    method UnsubscribeMetrics(c: ConnId)
      requires Valid() && c in connected
      modifies this
      ensures Valid()
      ensures old(sockets[c].metricsInterval).None? ==> unchanged(this)
      ensures liveTimers == old(liveTimers) - Held(old(sockets[c].metricsInterval))
      ensures sockets == old(sockets)[c := old(sockets[c]).(metricsInterval := None)]
      ensures timerOwner == old(timerOwner) && connected == old(connected) && outbox == old(outbox)
      ensures liveWatchers == old(liveWatchers) && watchers == old(watchers)
    {
      if sockets[c].metricsInterval.Some? {
        liveTimers := liveTimers - {sockets[c].metricsInterval.value};
        sockets := sockets[c := sockets[c].(metricsInterval := None)];
      }
    }

    /**
     * `unsubscribe:logs`: closes the stored watcher, if any, and nulls the
     * handle; with no handle it does nothing.
     */
    method UnsubscribeLogs(c: ConnId)
      requires Valid() && c in connected
      modifies this
      ensures Valid()
      ensures old(sockets[c].logWatcher).None? ==> unchanged(this)
      ensures liveWatchers == old(liveWatchers) - Held(old(sockets[c].logWatcher))
      ensures sockets == old(sockets)[c := old(sockets[c]).(logWatcher := None)]
      ensures watchers == old(watchers)
      ensures liveTimers == old(liveTimers) && timerOwner == old(timerOwner)
      ensures connected == old(connected) && outbox == old(outbox)
    {
      if sockets[c].logWatcher.Some? {
        liveWatchers := liveWatchers - {sockets[c].logWatcher.value};
        sockets := sockets[c := sockets[c].(logWatcher := None)];
      }
    }

    /**
     * `unsubscribe:all`: both handles end up null and whatever they
     * referred to is released; nothing else changes.
     */
    method UnsubscribeAll(c: ConnId)
      requires Valid() && c in connected
      modifies this
      ensures Valid()
      ensures sockets == old(sockets)[c := NoHandles]
      ensures liveTimers == old(liveTimers) - Held(old(sockets[c].metricsInterval))
      ensures liveWatchers == old(liveWatchers) - Held(old(sockets[c].logWatcher))
      ensures timerOwner == old(timerOwner) && watchers == old(watchers)
      ensures connected == old(connected) && outbox == old(outbox)
    {
      UnsubscribeMetrics(c);
      UnsubscribeLogs(c);
    }

    /**
     * `disconnect`: clears the stored interval and closes the stored
     * watcher but leaves both handles as they were. Afterwards no live
     * watcher belongs to the socket; an interval overwritten by a second
     * `subscribe:metrics` is still live.
     */
    method Disconnect(c: ConnId)
      requires Valid() && c in connected
      modifies this
      ensures Valid()
      ensures sockets == old(sockets)
      ensures connected == old(connected) - {c}
      ensures liveTimers == old(liveTimers) - Held(old(sockets[c].metricsInterval))
      ensures liveWatchers == old(liveWatchers) - Held(old(sockets[c].logWatcher))
      ensures forall w :: w in liveWatchers ==> watchers[w].owner != c
      ensures timerOwner == old(timerOwner) && watchers == old(watchers)
      ensures outbox == old(outbox)
    {
      if sockets[c].metricsInterval.Some? {
        liveTimers := liveTimers - {sockets[c].metricsInterval.value};
      }
      if sockets[c].logWatcher.Some? {
        liveWatchers := liveWatchers - {sockets[c].logWatcher.value};
      }
      connected := connected - {c};
    }

    /**
     * One firing of a live interval: its socket is sent the fresh sample,
     * or the `Failed to fetch metrics` error when fetching threw; the
     * interval keeps running either way. A socket that has disconnected
     * receives nothing.
     */
    method Tick(t: TimerId, sample: Option<Sample>)
      requires Valid() && t in liveTimers
      modifies this
      ensures Valid()
      ensures sockets == old(sockets) && connected == old(connected)
      ensures liveTimers == old(liveTimers) && timerOwner == old(timerOwner)
      ensures liveWatchers == old(liveWatchers) && watchers == old(watchers)
      ensures var c := timerOwner[t];
        outbox == if c in connected then old(outbox)[c := old(outbox[c]) + [TickEmission(sample)]] else old(outbox)
    {
      var c := timerOwner[t];
      if c in connected {
        outbox := outbox[c := outbox[c] + [TickEmission(sample)]];
      }
    }

    /**
     * One `fs.watch` callback of a live watcher: the watcher advances as
     * `watchLogFile` does, and the records it hands over are emitted as
     * `log:new`, in order, on the socket that subscribed and on no other.
     */
    method LogChange(w: WatcherId, obs: Observation)
      requires Valid() && w in liveWatchers
      modifies this, watchers[w].tail
      ensures Valid()
      ensures sockets == old(sockets) && connected == old(connected)
      ensures liveTimers == old(liveTimers) && timerOwner == old(timerOwner)
      ensures liveWatchers == old(liveWatchers) && watchers == old(watchers)
      ensures var step := TailStep(old(watchers[w].tail.lastSize), obs);
        && watchers[w].tail.lastSize == step.cursor
        && outbox == old(outbox)[watchers[w].owner := old(outbox[watchers[w].owner]) + LogNews(step.emitted)]
      ensures forall v :: v in old(watchers) && v != w ==> unchanged(old(watchers)[v].tail)
    {
      var c := watchers[w].owner;
      var emitted := watchers[w].tail.OnChange(obs);
      outbox := outbox[c := outbox[c] + LogNews(emitted)];
    }
  }
}
