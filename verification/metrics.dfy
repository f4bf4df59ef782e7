/** The counters of the metrics service. The operating-system block of the
    report (memory, load average, uptime) is read from the process and is a
    parameter here. */
module Metrics {

  datatype Counters = Counters(
    activeConnections: int,
    httpRequests: int,
    wsMessages: int,
    lastSnapshotDuration: real)

  /** `getMetrics()`: the counters together with a freshly read system block. */
  datatype Report<Sys> = Report(counters: Counters, system: Sys)

  const Initial: Counters := Counters(0, 0, 0, 0.0)

  /** The counters every reachable state satisfies. */
  predicate Valid(m: Counters) {
    m.activeConnections >= 0 && m.httpRequests >= 0 && m.wsMessages >= 0
  }

  function IncrementConnections(m: Counters): (r: Counters)
    ensures r.activeConnections == m.activeConnections + 1
    ensures r.(activeConnections := m.activeConnections) == m
  {
    m.(activeConnections := m.activeConnections + 1)
  }

  /** Decrements, but never below zero (`Math.max(0, n - 1)`). */
  function DecrementConnections(m: Counters): (r: Counters)
    ensures r.activeConnections >= 0
    ensures m.activeConnections > 0 ==> r.activeConnections == m.activeConnections - 1
    ensures m.activeConnections <= 0 ==> r.activeConnections == 0
    ensures r.(activeConnections := m.activeConnections) == m
  {
    m.(activeConnections := if m.activeConnections - 1 > 0 then m.activeConnections - 1 else 0)
  }

  function IncrementHttpRequests(m: Counters): (r: Counters)
    ensures r.httpRequests == m.httpRequests + 1
    ensures r.(httpRequests := m.httpRequests) == m
  {
    m.(httpRequests := m.httpRequests + 1)
  }

  function IncrementWsMessages(m: Counters): (r: Counters)
    ensures r.wsMessages == m.wsMessages + 1
    ensures r.(wsMessages := m.wsMessages) == m
  {
    m.(wsMessages := m.wsMessages + 1)
  }

  function SetLastSnapshotDuration(m: Counters, duration: real): (r: Counters)
    ensures r.lastSnapshotDuration == duration
    ensures r.(lastSnapshotDuration := m.lastSnapshotDuration) == m
  {
    m.(lastSnapshotDuration := duration)
  }

  /** The counters are reported as they are; only the system block is new. */
  function GetMetrics<Sys>(m: Counters, system: Sys): (r: Report<Sys>)
    ensures r.counters == m && r.system == system
  {
    Report(m, system)
  }

  datatype Event = Connected | Disconnected | HttpRequest | WsMessage | SnapshotTook(duration: real)

  function Apply(m: Counters, e: Event): Counters {
    match e
    case Connected => IncrementConnections(m)
    case Disconnected => DecrementConnections(m)
    case HttpRequest => IncrementHttpRequests(m)
    case WsMessage => IncrementWsMessages(m)
    case SnapshotTook(d) => SetLastSnapshotDuration(m, d)
  }

  function Run(m: Counters, events: seq<Event>): Counters
    decreases |events|
  {
    if |events| == 0 then m else Run(Apply(m, events[0]), events[1..])
  }

  function Count(events: seq<Event>, e: Event): nat
    decreases |events|
  {
    if |events| == 0 then 0 else (if events[0] == e then 1 else 0) + Count(events[1..], e)
  }

  /** Every sequence of service calls from the initial counters keeps them
      valid: in particular the connection gauge is never negative. It never
      exceeds the number of connects, and each counter of events counts them
      exactly. */
  lemma {:induction false} RunFromValid(m: Counters, events: seq<Event>)
    requires Valid(m)
    ensures var r := Run(m, events);
      && Valid(r)
      && r.activeConnections <= m.activeConnections + Count(events, Connected)
      && r.httpRequests == m.httpRequests + Count(events, HttpRequest)
      && r.wsMessages == m.wsMessages + Count(events, WsMessage)
    decreases |events|
  {
    if |events| > 0 {
      RunFromValid(Apply(m, events[0]), events[1..]);
    }
  }

  /** A connect followed by a disconnect restores the gauge from any valid
      state; the floor at zero makes the converse order lossy at zero. */
  lemma {:induction false} ConnectThenDisconnect(m: Counters)
    requires Valid(m)
    ensures DecrementConnections(IncrementConnections(m)) == m
    ensures m.activeConnections == 0 ==>
      IncrementConnections(DecrementConnections(m)).activeConnections == 1
  {
  }
}
