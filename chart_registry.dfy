/**
 * The per-chart registry of `window.ecgChart` in wwwroot/js/ecgChart.js: the
 * `charts` dictionary from container id to chart record, the timers that
 * `setInterval` installs for streaming, and the module-level live trace every
 * tick draws into.
 *
 * Chart records are objects: a running timer's callback holds a reference to
 * the record it was started for, so a record keeps being ticked even after
 * `init` has put a new record under the same id. The model keeps that
 * aliasing: `timers` maps each running timer id to the record its callback
 * ticks. Browsers give timers positive ids, so `if (chart.interval)` is the
 * test `interval.Some?`.
 *
 * Network steps (fetching a file, starting or stopping a SignalR connection,
 * joining a group) are not executed: their outcomes are parameters.
 */
module ChartRegistry {
  import opened Options
  import opened Playback
  import LiveTrace
  import SampleParse

  /** The states of a SignalR hub connection. */
  datatype ConnectionState = Disconnected | Connecting | Connected | Disconnecting | Reconnecting

  /** A SignalR hub connection, reduced to an identity and its state. */
  datatype Connection = Connection(id: nat, state: ConnectionState)

  /** A chart's capacity; the live trace needs at least one slot. */
  type Capacity = n: nat | n >= 1 witness 1

  /** The capacity `init` gives every chart. */
  const LiveCapacity: Capacity := 2550

  /** The connection after `stop()` has completed. */
  function Stopped(connection: Option<Connection>): (r: Option<Connection>)
    ensures r.Some? <==> connection.Some?
    ensures r.Some? ==> r.value.id == connection.value.id && r.value.state == Disconnected
  {
    match connection
    case None => None
    case Some(c) => Some(c.(state := Disconnected))
  }

  /** `startStreaming`'s guard: a connection exists and its state is "Connected". */
  predicate Ready(connection: Option<Connection>) {
    connection.Some? && connection.value.state == Connected
  }

  /** `if (!chart.baseUri)` fails: the field is missing or the empty string. */
  predicate MissingBaseUri(baseUri: Option<string>) {
    baseUri.None? || baseUri.value == ""
  }

  /** One entry of `charts`; `baseUri` and `groupName` are absent in a record `renderChart` creates. */
  class Chart {
    var data: seq<int>
    var index: JsIndex
    var interval: Option<nat>
    var maxDisplayedValues: Capacity
    var connection: Option<Connection>
    var baseUri: Option<string>
    var groupName: Option<string>

    /** The record `renderChart` creates for a new container id. */
    constructor Blank(data: seq<int>, maxDisplayedValues: Capacity)
      ensures this.data == data && index == Index(0) && interval == None
      ensures this.maxDisplayedValues == maxDisplayedValues
      ensures connection == None && baseUri == None && groupName == None
    {
      this.data := data;
      index := Index(0);
      interval := None;
      this.maxDisplayedValues := maxDisplayedValues;
      connection := None;
      baseUri := None;
      groupName := None;
    }

    /** The record `init` stores once its connection has started. */
    constructor Live(containerId: string, data: seq<int>, connection: Connection, baseUri: string)
      ensures this.data == data && index == Index(0) && interval == None
      ensures maxDisplayedValues == LiveCapacity
      ensures this.connection == Some(connection) && this.baseUri == Some(baseUri)
      ensures groupName == Some(containerId)
    {
      this.data := data;
      index := Index(0);
      interval := None;
      maxDisplayedValues := LiveCapacity;
      this.connection := Some(connection);
      this.baseUri := Some(baseUri);
      groupName := Some(containerId);
    }
  }

  /** The state of `window.ecgChart` together with the module-level live trace. */
  class EcgCharts {
    var charts: map<string, Chart>
    /** The running timers: each id maps to the chart record its callback ticks. */
    var timers: map<nat, Chart>
    /** The id the next `setInterval` returns. */
    var nextTimer: nat
    const trace: LiveTrace.Trace

    /**
     * Every running timer is the one its chart record holds, so a record is
     * ticked by at most one timer, and ids of running timers are below
     * nextTimer, the id the next timer gets. A registered record that holds a
     * timer id holds a running timer that ticks it.
     */
    ghost predicate Valid()
      reads this, timers.Values, charts.Values
    {
      && (forall t | t in timers :: t < nextTimer && timers[t].interval == Some(t))
      && (forall k | k in charts && charts[k].interval.Some? ::
            charts[k].interval.value in timers && timers[charts[k].interval.value] == charts[k])
    }

    /** The record under a container id, as a frame. */
    function Lookup(containerId: string): set<Chart>
      reads this
    {
      if containerId in charts then {charts[containerId]} else {}
    }

    /** The record a running timer's callback ticks. */
    function Ticked(t: nat): Chart
      requires t in timers
      reads this
    {
      timers[t]
    }

    constructor ()
      ensures Valid() && charts == map[] && timers == map[]
      ensures fresh(trace) && trace.pathPoints == [] && trace.currentIndex == 0
    {
      charts := map[];
      timers := map[];
      nextTimer := 1;
      trace := new LiveTrace.Trace();
    }

    /** A chart record never has two running timers. */
    lemma OneTimerPerChart()
      requires Valid()
      ensures forall t1, t2 :: t1 in timers && t2 in timers && timers[t1] == timers[t2] ==> t1 == t2
    {
    }

    // ------------------------------------------------------ streaming

    /** `stopStreaming(chart)`: clears the chart's timer, if any, and forgets it; a no-op when none runs. */
    method StopChart(chart: Chart)
      requires Valid() && chart in charts.Values
      modifies this`timers, chart`interval
      ensures Valid()
      ensures chart.interval == None
      ensures timers == if old(chart.interval).Some? then old(timers) - {old(chart.interval).value} else old(timers)
    {
      if chart.interval.Some? {
        timers := timers - {chart.interval.value};
        chart.interval := None;
      }
    }

    /**
     * `startStreaming(chart)`: nothing without a connection in the "Connected"
     * state; otherwise the chart's running timer, if any, is cleared and a new
     * one is installed in its place.
     */
    method StartChart(chart: Chart)
      requires Valid() && chart in charts.Values
      modifies this`timers, this`nextTimer, chart`interval
      ensures Valid()
      ensures !Ready(chart.connection) ==>
        timers == old(timers) && nextTimer == old(nextTimer) && chart.interval == old(chart.interval)
      ensures Ready(chart.connection) ==>
        && old(nextTimer) !in old(timers)
        && chart.interval == Some(old(nextTimer))
        && nextTimer == old(nextTimer) + 1
        && timers == (if old(chart.interval).Some? then old(timers) - {old(chart.interval).value}
                      else old(timers))[old(nextTimer) := chart]
    {
      if chart.connection.None? {
        return;
      }
      if chart.connection.value.state != Connected {
        return;
      }
      if chart.interval.Some? {
        timers := timers - {chart.interval.value};
      }
      timers := timers[nextTimer := chart];
      chart.interval := Some(nextTimer);
      nextTimer := nextTimer + 1;
    }

    /**
     * The exported `startStreaming(containerId)`: for a registered id, what
     * `StartChart` does to its record; otherwise nothing.
     */
    method StartStreaming(containerId: string)
      requires Valid()
      modifies this`timers, this`nextTimer, Lookup(containerId)`interval
      ensures Valid()
      ensures charts == old(charts)
      ensures containerId !in charts ==> timers == old(timers) && nextTimer == old(nextTimer)
      ensures containerId in charts && !Ready(charts[containerId].connection) ==>
        timers == old(timers) && nextTimer == old(nextTimer)
        && charts[containerId].interval == old(charts[containerId].interval)
      ensures containerId in charts && Ready(charts[containerId].connection) ==>
        var c := charts[containerId];
        && old(nextTimer) !in old(timers)
        && c.interval == Some(old(nextTimer))
        && nextTimer == old(nextTimer) + 1
        && timers == (if old(c.interval).Some? then old(timers) - {old(c.interval).value}
                      else old(timers))[old(nextTimer) := c]
        && (forall t | t in timers && t != old(nextTimer) :: timers[t] != c)
    {
      if containerId in charts {
        StartChart(charts[containerId]);
      }
    }

    /**
     * The exported `stopStreaming(containerId)`: for a registered id, what
     * `StopChart` does to its record, so a second call changes nothing;
     * otherwise nothing.
     */
    method StopStreaming(containerId: string)
      requires Valid()
      modifies this`timers, Lookup(containerId)`interval
      ensures Valid()
      ensures charts == old(charts)
      ensures containerId !in charts ==> timers == old(timers)
      ensures containerId in charts ==>
        var c := charts[containerId];
        && c.interval == None
        && timers == (if old(c.interval).Some? then old(timers) - {old(c.interval).value} else old(timers))
        && (forall t | t in timers :: timers[t] != c)
    {
      if containerId in charts {
        StopChart(charts[containerId]);
      }
    }

    /**
     * The timer callback of `startStreaming`: reads `chart.data[chart.index]`,
     * advances the index modulo the data length, draws the value into the live
     * trace with the chart's capacity and returns the value it sends to the
     * hub. Only a running timer fires.
     */
    method Tick(t: nat) returns (sent: Option<int>)
      requires Valid() && t in timers
      modifies Ticked(t)`index, trace
      ensures Valid()
      ensures sent == TickValue(timers[t].data, old(timers[t].index))
      ensures timers[t].index == TickIndex(timers[t].data, old(timers[t].index))
      ensures trace.pathPoints
           == LiveTrace.Pushed(old(trace.pathPoints), old(trace.currentIndex), sent, timers[t].maxDisplayedValues)
      ensures trace.currentIndex == LiveTrace.NextCursor(old(trace.currentIndex), timers[t].maxDisplayedValues)
    {
      var chart := timers[t];
      var value := TickValue(chart.data, chart.index);
      chart.index := TickIndex(chart.data, chart.index);
      var _ := trace.Render(value, chart.maxDisplayedValues);
      sent := value;
    }

    // ------------------------------------------------------- lifecycle

    /**
     * `renderChart(containerId, data, maxDisplayedValues)`: a new record with
     * index 0 for an unknown id, otherwise the existing record gets the new
     * data and capacity and its index goes back to 0. Its only caller passes
     * the positive capacity 2550.
     */
    method RenderChart(containerId: string, data: seq<int>, maxDisplayedValues: Capacity)
      requires Valid()
      modifies this`charts, Lookup(containerId)
      ensures Valid()
      ensures charts.Keys == old(charts.Keys) + {containerId}
      ensures forall k | k in old(charts) :: charts[k] == old(charts[k])
      ensures var c := charts[containerId];
        c.data == data && c.index == Index(0) && c.maxDisplayedValues == maxDisplayedValues
      ensures containerId !in old(charts) ==>
        var c := charts[containerId];
        fresh(c) && c.interval == None && c.connection == None && c.baseUri == None && c.groupName == None
      ensures containerId in old(charts) ==>
        var c := charts[containerId];
        c.interval == old(c.interval) && c.connection == old(c.connection)
        && c.baseUri == old(c.baseUri) && c.groupName == old(c.groupName)
    {
      if containerId !in charts {
        var c := new Chart.Blank(data, maxDisplayedValues);
        charts := charts[containerId := c];
      } else {
        var c := charts[containerId];
        c.data := data;
        c.index := Index(0);
        c.maxDisplayedValues := maxDisplayedValues;
      }
    }

    /**
     * The part of `init` after the file and the connection are ready:
     * `renderChart` with capacity 2550, then a new record under the id, then
     * the live trace is cleared. A record that was under the id is left
     * rewritten by `renderChart` (new data, index 0, capacity 2550) and keeps
     * its timer, connection, base URI and group, so a running timer goes on
     * ticking it.
     */
    method Install(containerId: string, data: seq<int>, connection: Connection, baseUri: string)
      requires Valid()
      modifies this`charts, Lookup(containerId), trace
      ensures Valid()
      ensures charts.Keys == old(charts.Keys) + {containerId}
      ensures forall k | k in old(charts) && k != containerId :: charts[k] == old(charts[k])
      ensures var c := charts[containerId];
        && fresh(c) && c.data == data && c.index == Index(0) && c.interval == None
        && c.maxDisplayedValues == LiveCapacity && c.connection == Some(connection)
        && c.baseUri == Some(baseUri) && c.groupName == Some(containerId)
      ensures trace.pathPoints == [] && trace.currentIndex == 0
      ensures containerId in old(charts) ==>
        var orphan := old(charts[containerId]);
        && orphan.data == data && orphan.index == Index(0) && orphan.maxDisplayedValues == LiveCapacity
        && orphan.interval == old(orphan.interval) && orphan.connection == old(orphan.connection)
        && orphan.baseUri == old(orphan.baseUri) && orphan.groupName == old(orphan.groupName)
    {
      RenderChart(containerId, data, LiveCapacity);
      var c := new Chart.Live(containerId, data, connection, baseUri);
      charts := charts[containerId := c];
      trace.Clear();
    }

    /**
     * The exported `init(containerId, baseUri, fileIndex)`. `fetched` is the
     * text of the recording (None when the fetch fails) and `started` the
     * connection once it has started and joined the group named after the
     * container (None when either step fails); a failure ends `init` before
     * any state changes. Otherwise the samples `loadFile` parses from the text
     * are installed, and a record that was under the id is left rewritten by
     * `renderChart`, as `Install` states.
     */
    method Init(containerId: string, baseUri: string, fetched: Option<string>, started: Option<Connection>)
      requires Valid()
      modifies this`charts, Lookup(containerId), trace
      ensures Valid()
      ensures baseUri == "" || fetched.None? || started.None? ==>
        charts == old(charts) && unchanged(trace)
        && (containerId in charts ==> unchanged(charts[containerId]))
      ensures baseUri != "" && fetched.Some? && started.Some? ==>
        && charts.Keys == old(charts.Keys) + {containerId}
        && (forall k | k in old(charts) && k != containerId :: charts[k] == old(charts[k]))
        && var c := charts[containerId];
        && fresh(c) && c.data == SampleParse.ParseSamples(fetched.value) && c.index == Index(0)
        && c.interval == None && c.maxDisplayedValues == LiveCapacity && c.connection == started
        && c.baseUri == Some(baseUri) && c.groupName == Some(containerId)
        && trace.pathPoints == [] && trace.currentIndex == 0
      ensures baseUri != "" && fetched.Some? && started.Some? && containerId in old(charts) ==>
        var orphan := old(charts[containerId]);
        && orphan.data == SampleParse.ParseSamples(fetched.value) && orphan.index == Index(0)
        && orphan.maxDisplayedValues == LiveCapacity
        && orphan.interval == old(orphan.interval) && orphan.connection == old(orphan.connection)
        && orphan.baseUri == old(orphan.baseUri) && orphan.groupName == old(orphan.groupName)
    {
      if baseUri == "" {
        return;
      }
      if fetched.None? {
        return;
      }
      var data := SampleParse.ParseSamples(fetched.value);
      if started.None? {
        return;
      }
      Install(containerId, data, started.value, baseUri);
    }

    /**
     * The part of `updateFile` after the file has loaded: the record gets the
     * samples and index 0, the live trace is cleared, the old connection is
     * stopped, and the new one (`reopened`, None when starting it or joining
     * the group fails) replaces it.
     */
    method Reload(chart: Chart, data: seq<int>, reopened: Option<Connection>)
      requires Valid()
      modifies chart`data, chart`index, chart`connection, trace
      ensures Valid()
      ensures chart.data == data && chart.index == Index(0)
      ensures chart.connection == if reopened.Some? then reopened else Stopped(old(chart.connection))
      ensures trace.pathPoints == [] && trace.currentIndex == 0
    {
      chart.data := data;
      chart.index := Index(0);
      trace.Clear();
      chart.connection := if reopened.Some? then reopened else Stopped(chart.connection);
    }

    /**
     * `updateFile` once the record and its base URI are known: streaming
     * stops; when the fetch fails (`fetched` None) nothing further changes;
     * otherwise the samples `loadFile` parses from the text are reloaded.
     */
    method Refresh(chart: Chart, fetched: Option<string>, reopened: Option<Connection>)
      requires Valid() && chart in charts.Values
      modifies this`timers, chart`interval, chart`data, chart`index, chart`connection, trace
      ensures Valid()
      ensures chart.interval == None
      ensures timers == if old(chart.interval).Some? then old(timers) - {old(chart.interval).value} else old(timers)
      ensures fetched.None? ==>
        chart.data == old(chart.data) && chart.index == old(chart.index)
        && chart.connection == old(chart.connection) && unchanged(trace)
      ensures fetched.Some? ==>
        && chart.data == SampleParse.ParseSamples(fetched.value) && chart.index == Index(0)
        && chart.connection == (if reopened.Some? then reopened else Stopped(old(chart.connection)))
        && trace.pathPoints == [] && trace.currentIndex == 0
    {
      StopChart(chart);
      if fetched.Some? {
        Reload(chart, SampleParse.ParseSamples(fetched.value), reopened);
      }
    }

    /**
     * The exported `updateFile(containerId, fileIndex)`: nothing happens for an
     * unknown id or a record without a base URI; otherwise the record is
     * refreshed. `fetched` is the text of the recording (None when the fetch
     * fails).
     */
    method UpdateFile(containerId: string, fetched: Option<string>, reopened: Option<Connection>)
      requires Valid()
      modifies this`timers, trace
      modifies Lookup(containerId)`interval, Lookup(containerId)`data, Lookup(containerId)`index
      modifies Lookup(containerId)`connection
      ensures Valid()
      ensures charts == old(charts)
      ensures containerId !in charts || MissingBaseUri(charts[containerId].baseUri) ==>
        timers == old(timers) && unchanged(trace) && (containerId in charts ==> unchanged(charts[containerId]))
      ensures containerId in charts && !MissingBaseUri(charts[containerId].baseUri) ==>
        var c := charts[containerId];
        && c.interval == None
        && timers == (if old(c.interval).Some? then old(timers) - {old(c.interval).value} else old(timers))
        && (fetched.None? ==>
              c.data == old(c.data) && c.index == old(c.index) && c.connection == old(c.connection)
              && unchanged(trace))
        && (fetched.Some? ==>
              && c.data == SampleParse.ParseSamples(fetched.value) && c.index == Index(0)
              && c.connection == (if reopened.Some? then reopened else Stopped(old(c.connection)))
              && trace.pathPoints == [] && trace.currentIndex == 0)
    {
      if containerId in charts && !MissingBaseUri(charts[containerId].baseUri) {
        Refresh(charts[containerId], fetched, reopened);
      }
    }

    /**
     * The exported `cleanupChart(containerId)`: for a registered id, stops
     * streaming, stops the connection and removes the entry; otherwise nothing.
     */
    method CleanupChart(containerId: string)
      requires Valid()
      modifies this`charts, this`timers, Lookup(containerId)`interval, Lookup(containerId)`connection
      ensures Valid()
      ensures charts == old(charts) - {containerId}
      ensures containerId !in old(charts) ==> timers == old(timers)
      ensures containerId in old(charts) ==>
        var c := old(charts[containerId]);
        c.interval == None && c.connection == Stopped(old(c.connection))
        && timers == (if old(c.interval).Some? then old(timers) - {old(c.interval).value} else old(timers))
        && (forall t | t in timers :: timers[t] != c)
    {
      if containerId in charts {
        var chart := charts[containerId];
        StopChart(chart);
        if chart.connection.Some? {
          chart.connection := Stopped(chart.connection);
        }
        charts := charts - {containerId};
      }
    }
  }
}
