/**
 * The browser's stream connection (src/contexts/WebSocketContext.jsx): one
 * WebSocket to the server, the connection flags shown by the UI, the bounded
 * buffers of the newest alerts and activities, and the reconnect back-off.
 *
 * Every callback of the original is a method here: the socket's four events
 * (OnOpen, OnMessage, OnClose, OnError), the reconnect timer firing, and the
 * calls the provider makes (Connect, Disconnect, SendMessage, Ping). Frames are
 * given already decoded; a frame that is not JSON is `Unparsable`.
 */
module StreamClient {
  import opened Seqs
  import opened Events

  // ---------------------------------------------------------------------------
  // The bounded buffers (handleNewAlert, handleNewActivity)

  const AlertCapacity: nat := 100
  const ActivityCapacity: nat := 200

  /** `[x, ...prev.slice(0, cap - 1)]` */
  function Retain<T>(x: T, prev: seq<T>, cap: nat): (r: seq<T>)
    requires cap >= 1
    ensures |r| == Min(|prev| + 1, cap)
    ensures r[0] == x
  {
    [x] + prev[..Min(|prev|, cap - 1)]
  }

  /** Prepending keeps the previous entries in order and drops only the oldest ones. */
  lemma RetainSpec<T>(x: T, prev: seq<T>, cap: nat)
    requires cap >= 1
    ensures Retain(x, prev, cap) == Take([x] + prev, cap)
    ensures Retain(x, prev, cap)[1..] <= prev
    ensures |prev| < cap ==> Retain(x, prev, cap) == [x] + prev
  {
    assert ([x] + prev)[..Min(|prev| + 1, cap)] == [x] + prev[..Min(|prev|, cap - 1)];
  }

  /** The buffer after receiving `xs` in order, one frame at a time. */
  function ReceiveAll<T>(prev: seq<T>, xs: seq<T>, cap: nat): seq<T>
    requires cap >= 1
    decreases |xs|
  {
    if xs == [] then prev else ReceiveAll(Retain(xs[0], prev, cap), xs[1..], cap)
  }

  function Reverse<T>(s: seq<T>): (r: seq<T>)
    ensures |r| == |s|
    ensures forall i :: 0 <= i < |s| ==> r[i] == s[|s| - 1 - i]
  {
    if s == [] then [] else Reverse(s[1..]) + [s[0]]
  }

  /**
   * However many frames arrive, the buffer holds the newest `cap` of them (and
   * then of what it held before), newest first.
   */
  lemma {:induction false} ReceiveAllKeepsNewest<T>(prev: seq<T>, xs: seq<T>, cap: nat)
    requires cap >= 1 && |prev| <= cap
    ensures ReceiveAll(prev, xs, cap) == Take(Reverse(xs) + prev, cap)
    decreases |xs|
  {
    if xs != [] {
      var x, rx := xs[0], Reverse(xs[1..]);
      var next := Retain(x, prev, cap);
      RetainSpec(x, prev, cap);
      calc {
        ReceiveAll(prev, xs, cap);
        ReceiveAll(next, xs[1..], cap);
        { ReceiveAllKeepsNewest(next, xs[1..], cap); }
        Take(rx + next, cap);
        { TakeConcat(rx, [x] + prev, cap); }
        Take(rx + ([x] + prev), cap);
        { assert rx + ([x] + prev) == Reverse(xs) + prev; }
        Take(Reverse(xs) + prev, cap);
      }
    }
  }

  /** Truncating what follows `a` to `cap` does not change the first `cap` of `a + b`. */
  lemma TakeConcat<T>(a: seq<T>, b: seq<T>, cap: nat)
    ensures Take(a + Take(b, cap), cap) == Take(a + b, cap)
  {
    var n := Min(|a + b|, cap);
    assert |a + Take(b, cap)| >= n;
    forall i | 0 <= i < n ensures (a + Take(b, cap))[i] == (a + b)[i] {
      if i >= |a| {
        assert i - |a| < Min(|b|, cap);
      }
    }
  }

  // ---------------------------------------------------------------------------
  // Reconnect back-off (scheduleReconnect)

  const MaxReconnectAttempts: nat := 5
  const MaxReconnectDelayMs: nat := 30000

  function Pow2(n: nat): (p: nat)
    ensures p >= 1
  {
    if n == 0 then 1 else 2 * Pow2(n - 1)
  }

  /** `Math.min(1000 * Math.pow(2, n), 30000)` */
  function ReconnectDelay(n: nat): (d: nat)
    ensures 1000 <= d <= MaxReconnectDelayMs
  {
    Min(1000 * Pow2(n), MaxReconnectDelayMs)
  }

  /** The first five delays double from one second; from the sixth on the cap applies. */
  lemma ReconnectDelayValues()
    ensures ReconnectDelay(0) == 1000 && ReconnectDelay(1) == 2000 && ReconnectDelay(2) == 4000
    ensures ReconnectDelay(3) == 8000 && ReconnectDelay(4) == 16000
  {
  }

  lemma {:induction false} Pow2Monotone(m: nat, n: nat)
    requires m <= n
    ensures Pow2(m) <= Pow2(n)
  {
    if m < n {
      Pow2Monotone(m, n - 1);
    }
  }

  lemma ReconnectDelayCapped(n: nat)
    requires n >= 5
    ensures ReconnectDelay(n) == MaxReconnectDelayMs
  {
    Pow2Monotone(5, n);
  }

  /** A later attempt never waits less. */
  lemma ReconnectDelayMonotone(m: nat, n: nat)
    requires m <= n
    ensures ReconnectDelay(m) <= ReconnectDelay(n)
  {
    Pow2Monotone(m, n);
  }

  // ---------------------------------------------------------------------------
  // Frames and notifications

  /** The `stats` payload, kept as its fields. */
  datatype Stats = Stats(fields: map<string, int>)

  /** A decoded inbound frame, by its `type`. */
  datatype Message =
    | AlertMessage(alert: Alert)
    | ActivityMessage(activity: Activity)
    | StatsMessage(stats: Stats)
    | SystemStatusMessage
    | PongMessage
    | OtherMessage(kind: string)

  /** A message as decoding yields it: `OtherMessage` never carries one of the five dispatched types. */
  predicate WellFormedMessage(m: Message) {
    m.OtherMessage? ==> m.kind !in {"alert", "activity", "stats", "system_status", "pong"}
  }

  datatype Inbound = Unparsable | Parsed(message: Message)

  /** Frames the client writes to the socket. */
  datatype OutFrame =
    | ClientInfo(clientType: string, userId: string, subscriptions: seq<string>)
    | PingFrame
    | AppFrame(payload: string)

  /** The `client_info` frame sent on every open. */
  const DashboardInfo: OutFrame := ClientInfo("dashboard", "admin", ["alerts", "activities", "stats"])

  /** The toasts, by level. */
  datatype Notice = SuccessNotice(text: string) | ErrorNotice(text: string) | WarningNotice(text: string)

  /** The toast for a new alert: an error toast for high and critical, a warning otherwise. */
  function AlertNotice(a: Alert): (n: Notice)
    ensures n.ErrorNotice? <==> IsHighOrCritical(a)
    ensures n.WarningNotice? <==> !IsHighOrCritical(a)
    ensures n.text == a.description
  {
    if a.severity == High || a.severity == Critical then ErrorNotice(a.description)
    else WarningNotice(a.description)
  }

  /**
   * The toast as `handleNewAlert` raises it: react-hot-toast has no `warning`
   * method, so the call for a low or medium alert throws (after the alert was
   * buffered) and `onmessage`'s catch swallows the error; no toast appears.
   */
  function AlertNoticeAsWritten(a: Alert): (n: Option<Notice>)
    ensures n.Some? <==> IsHighOrCritical(a)
    ensures n.Some? ==> n.value == AlertNotice(a)
  {
    if a.severity == High || a.severity == Critical then Some(ErrorNotice(a.description)) else None
  }

  /** A medium alert is meant to raise a warning toast, and as written raises none. */
  lemma MediumAlertLosesWarning(a: Alert)
    requires a.severity == Medium
    ensures AlertNoticeAsWritten(a) == None
    ensures AlertNotice(a) == WarningNotice(a.description)
  {
  }

  // ---------------------------------------------------------------------------
  // The provider's state

  datatype ConnectionStatus = Connected | Disconnected | Error

  datatype ReadyState = Connecting | Open | Closed

  class Client {
    var isConnected: bool
    var status: ConnectionStatus
    var lastMessage: Option<Message>
    var alerts: seq<Alert>
    var activities: seq<Activity>
    var stats: Option<Stats>
    /** `ws.current`: None for null, else the state of the current socket. */
    var socket: Option<ReadyState>
    /** The delay of the reconnect timer while one is pending. */
    var pendingReconnect: Option<nat>
    var reconnectAttempts: nat
    /** Frames written to the socket, oldest first. */
    var sent: seq<OutFrame>
    /** Toasts raised, oldest first. */
    var notices: seq<Notice>

    ghost predicate Valid()
      reads this
    {
      && |alerts| <= AlertCapacity
      && |activities| <= ActivityCapacity
      && reconnectAttempts <= MaxReconnectAttempts
      && (status == Connected ==> isConnected)
      && (isConnected ==> status != Disconnected && socket.Some?)
    }

    /** The provider's initial state, before the mount effect connects. */
    constructor ()
      ensures Valid()
      ensures !isConnected && status == Disconnected && lastMessage == None
      ensures alerts == [] && activities == [] && stats == None
      ensures socket == None && pendingReconnect == None && reconnectAttempts == 0
      ensures sent == [] && notices == []
    {
      isConnected := false;
      status := Disconnected;
      lastMessage := None;
      alerts := [];
      activities := [];
      stats := None;
      socket := None;
      pendingReconnect := None;
      reconnectAttempts := 0;
      sent := [];
      notices := [];
    }

    /**
     * `connect`: opens a new socket; when the constructor throws, only the
     * status changes. A previous socket is neither closed nor kept.
     */
    method Connect(constructorThrows: bool)
      requires Valid()
      modifies this
      ensures Valid()
      ensures constructorThrows ==> status == Error && socket == old(socket)
      ensures !constructorThrows ==> status == old(status) && socket == Some(Connecting)
      ensures isConnected == old(isConnected) && reconnectAttempts == old(reconnectAttempts)
      ensures pendingReconnect == old(pendingReconnect)
      ensures alerts == old(alerts) && activities == old(activities) && stats == old(stats)
      ensures lastMessage == old(lastMessage) && sent == old(sent) && notices == old(notices)
    {
      if constructorThrows {
        status := Error;
      } else {
        socket := Some(Connecting);
      }
    }

    /** `onopen`: connected, attempts reset, one `client_info` frame sent, a success toast. */
    method OnOpen()
      requires Valid() && socket == Some(Connecting)
      modifies this
      ensures Valid()
      ensures isConnected && status == Connected && reconnectAttempts == 0
      ensures socket == Some(Open)
      ensures sent == old(sent) + [DashboardInfo]
      ensures notices == old(notices) + [SuccessNotice("Connected to real-time monitoring")]
      ensures pendingReconnect == old(pendingReconnect)
      ensures alerts == old(alerts) && activities == old(activities) && stats == old(stats)
      ensures lastMessage == old(lastMessage)
    {
      isConnected := true;
      status := Connected;
      reconnectAttempts := 0;
      socket := Some(Open);
      sent := sent + [DashboardInfo];
      notices := notices + [SuccessNotice("Connected to real-time monitoring")];
    }

    /** `handleNewAlert` */
    method HandleNewAlert(a: Alert)
      requires Valid()
      modifies this
      ensures Valid()
      ensures alerts == Retain(a, old(alerts), AlertCapacity)
      ensures notices == old(notices) + [AlertNotice(a)]
      ensures isConnected == old(isConnected) && status == old(status) && socket == old(socket)
      ensures pendingReconnect == old(pendingReconnect) && reconnectAttempts == old(reconnectAttempts)
      ensures activities == old(activities) && stats == old(stats)
      ensures lastMessage == old(lastMessage) && sent == old(sent)
    {
      alerts := Retain(a, alerts, AlertCapacity);
      notices := notices + [AlertNotice(a)];
    }

    /** `handleNewActivity` */
    method HandleNewActivity(x: Activity)
      requires Valid()
      modifies this
      ensures Valid()
      ensures activities == Retain(x, old(activities), ActivityCapacity)
      ensures isConnected == old(isConnected) && status == old(status) && socket == old(socket)
      ensures pendingReconnect == old(pendingReconnect) && reconnectAttempts == old(reconnectAttempts)
      ensures alerts == old(alerts) && stats == old(stats)
      ensures lastMessage == old(lastMessage) && sent == old(sent) && notices == old(notices)
    {
      activities := Retain(x, activities, ActivityCapacity);
    }

    /**
     * `onmessage`: a parsed frame becomes `lastMessage` and is dispatched on its
     * type; an unparsable one changes nothing. Nothing here touches the
     * connection.
     */
    method OnMessage(frame: Inbound)
      requires Valid()
      modifies this
      ensures Valid()
      ensures isConnected == old(isConnected) && status == old(status) && socket == old(socket)
      ensures pendingReconnect == old(pendingReconnect) && reconnectAttempts == old(reconnectAttempts)
      ensures sent == old(sent)
      ensures frame.Unparsable? ==> lastMessage == old(lastMessage)
      ensures frame.Parsed? ==> lastMessage == Some(frame.message)
      ensures alerts == (if frame.Parsed? && frame.message.AlertMessage?
                         then Retain(frame.message.alert, old(alerts), AlertCapacity) else old(alerts))
      ensures notices == (if frame.Parsed? && frame.message.AlertMessage?
                          then old(notices) + [AlertNotice(frame.message.alert)] else old(notices))
      ensures activities == (if frame.Parsed? && frame.message.ActivityMessage?
                             then Retain(frame.message.activity, old(activities), ActivityCapacity)
                             else old(activities))
      ensures stats == (if frame.Parsed? && frame.message.StatsMessage? then Some(frame.message.stats)
                        else old(stats))
    {
      if frame.Parsed? {
        var m := frame.message;
        lastMessage := Some(m);
        match m {
          case AlertMessage(a) => HandleNewAlert(a);
          case ActivityMessage(x) => HandleNewActivity(x);
          case StatsMessage(s) => stats := Some(s);
          case SystemStatusMessage =>
          case PongMessage =>
          case OtherMessage(_) =>
        }
      }
    }

    /** `scheduleReconnect`: replaces any pending timer, delay from the attempts so far, one more attempt. */
    method ScheduleReconnect()
      modifies this
      ensures pendingReconnect == Some(ReconnectDelay(old(reconnectAttempts)))
      ensures reconnectAttempts == old(reconnectAttempts) + 1
      ensures isConnected == old(isConnected) && status == old(status) && socket == old(socket)
      ensures alerts == old(alerts) && activities == old(activities) && stats == old(stats)
      ensures lastMessage == old(lastMessage) && sent == old(sent) && notices == old(notices)
    {
      pendingReconnect := Some(ReconnectDelay(reconnectAttempts));
      reconnectAttempts := reconnectAttempts + 1;
    }

    /**
     * `onclose`: disconnected; a reconnect is scheduled only after an unclean
     * close with fewer than five attempts made. `ws.current` is left pointing at
     * the closed socket (or stays null after `disconnect`).
     */
    method OnClose(wasClean: bool)
      requires Valid()
      modifies this
      ensures Valid()
      ensures !isConnected && status == Disconnected
      ensures socket == (if old(socket).Some? then Some(Closed) else None)
      ensures var scheduled := !wasClean && old(reconnectAttempts) < MaxReconnectAttempts;
        && (scheduled ==> pendingReconnect == Some(ReconnectDelay(old(reconnectAttempts)))
                          && reconnectAttempts == old(reconnectAttempts) + 1)
        && (!scheduled ==> pendingReconnect == old(pendingReconnect)
                           && reconnectAttempts == old(reconnectAttempts))
      ensures notices == old(notices) + [ErrorNotice("Disconnected from real-time monitoring")]
      ensures alerts == old(alerts) && activities == old(activities) && stats == old(stats)
      ensures lastMessage == old(lastMessage) && sent == old(sent)
    {
      isConnected := false;
      status := Disconnected;
      if socket.Some? {
        socket := Some(Closed);
      }
      if !wasClean && reconnectAttempts < MaxReconnectAttempts {
        ScheduleReconnect();
      }
      notices := notices + [ErrorNotice("Disconnected from real-time monitoring")];
    }

    /** `onerror`: only the status changes (and a toast); `isConnected` is left as it was. */
    method OnError()
      requires Valid()
      modifies this
      ensures Valid()
      ensures status == Error && isConnected == old(isConnected) && socket == old(socket)
      ensures pendingReconnect == old(pendingReconnect) && reconnectAttempts == old(reconnectAttempts)
      ensures notices == old(notices) + [ErrorNotice("WebSocket connection error")]
      ensures alerts == old(alerts) && activities == old(activities) && stats == old(stats)
      ensures lastMessage == old(lastMessage) && sent == old(sent)
    {
      status := Error;
      notices := notices + [ErrorNotice("WebSocket connection error")];
    }

    /** The pending reconnect timer fires and calls `connect`; with none pending nothing happens. */
    method ReconnectTimerFires(constructorThrows: bool)
      requires Valid()
      modifies this
      ensures Valid()
      ensures old(pendingReconnect).None? ==> socket == old(socket) && status == old(status)
      ensures old(pendingReconnect).Some? && constructorThrows ==> status == Error && socket == old(socket)
      ensures old(pendingReconnect).Some? && !constructorThrows ==>
        status == old(status) && socket == Some(Connecting)
      ensures pendingReconnect == None
      ensures isConnected == old(isConnected) && reconnectAttempts == old(reconnectAttempts)
      ensures alerts == old(alerts) && activities == old(activities) && stats == old(stats)
      ensures lastMessage == old(lastMessage) && sent == old(sent) && notices == old(notices)
    {
      if pendingReconnect.Some? {
        pendingReconnect := None;
        Connect(constructorThrows);
      }
    }

    /** `disconnect`: closes and drops the socket, cancels the reconnect timer, disconnected. */
    method Disconnect()
      requires Valid()
      modifies this
      ensures Valid()
      ensures socket == None && pendingReconnect == None
      ensures !isConnected && status == Disconnected
      ensures reconnectAttempts == old(reconnectAttempts)
      ensures alerts == old(alerts) && activities == old(activities) && stats == old(stats)
      ensures lastMessage == old(lastMessage) && sent == old(sent) && notices == old(notices)
    {
      socket := None;
      pendingReconnect := None;
      isConnected := false;
      status := Disconnected;
    }

    /** `sendMessage`: written only when the current socket is open, silently dropped otherwise. */
    method SendMessage(m: OutFrame)
      modifies this
      ensures sent == if old(socket) == Some(Open) then old(sent) + [m] else old(sent)
      ensures isConnected == old(isConnected) && status == old(status) && socket == old(socket)
      ensures pendingReconnect == old(pendingReconnect) && reconnectAttempts == old(reconnectAttempts)
      ensures alerts == old(alerts) && activities == old(activities) && stats == old(stats)
      ensures lastMessage == old(lastMessage) && notices == old(notices)
    {
      if socket == Some(Open) {
        sent := sent + [m];
      }
    }

    /** `ping`, run every 30 seconds by the mount effect. */
    method Ping()
      modifies this
      ensures sent == if old(socket) == Some(Open) then old(sent) + [PingFrame] else old(sent)
      ensures isConnected == old(isConnected) && status == old(status) && socket == old(socket)
      ensures pendingReconnect == old(pendingReconnect) && reconnectAttempts == old(reconnectAttempts)
      ensures alerts == old(alerts) && activities == old(activities) && stats == old(stats)
      ensures lastMessage == old(lastMessage) && notices == old(notices)
    {
      SendMessage(PingFrame);
    }
  }

  /**
   * Between two opens the client schedules at most five reconnects: with the
   * socket failing every time, the sixth unclean close schedules nothing.
   */
  method FailingReconnects() returns (c: Client)
    ensures c.reconnectAttempts == MaxReconnectAttempts && c.pendingReconnect == None
    ensures c.status == Disconnected && !c.isConnected
  {
    c := new Client();
    c.Connect(false);
    var k := 0;
    while k < MaxReconnectAttempts
      invariant 0 <= k <= MaxReconnectAttempts
      invariant c.Valid() && c.reconnectAttempts == k && c.socket == Some(Connecting)
      invariant c.pendingReconnect == None
      modifies c
    {
      c.OnClose(false);
      assert c.pendingReconnect == Some(ReconnectDelay(k));
      c.ReconnectTimerFires(false);
      k := k + 1;
    }
    c.OnClose(false);
  }
}
