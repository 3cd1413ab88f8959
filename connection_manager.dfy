/**
 * The server's WebSocket registry (websocket_manager.py, class
 * ConnectionManager): the list of live connections, a metadata dictionary per
 * connection, and the fan-out of events to every client. A connection is known
 * by its identity (`ConnId`); each send is decided by an outcome passed in,
 * `true` for delivered and `false` for the exception that marks a dead client.
 */
module ConnectionRegistry {
  import opened Seqs

  type ConnId = nat

  /** The values the metadata dictionaries hold. */
  datatype MetaValue =
    | Text(text: string)
    | Number(number: int)
    | NoValue
    | Instant(millis: int)
    | Topics(topics: set<string>)
    | Items(items: seq<string>)

  type Metadata = map<string, MetaValue>

  /** The JSON text the server writes: its `type`, its payload and its `timestamp`. */
  datatype Frame = Frame(kind: string, body: string, timestamp: int)

  datatype Delivery = Delivery(to: ConnId, frame: Frame)

  /** `{'connected_at': now, 'client_type': 'dashboard', 'user_id': None}` */
  function DefaultMetadata(now: int): (m: Metadata)
    ensures m.Keys == {"connected_at", "client_type", "user_id"}
    ensures m["client_type"] == Text("dashboard") && m["user_id"] == NoValue
  {
    map["connected_at" := Instant(now), "client_type" := Text("dashboard"), "user_id" := NoValue]
  }

  // ---------------------------------------------------------------------------
  // List operations behind disconnect and _broadcast_message

  /** `list.remove(x)` when `x` is present: drops the first occurrence only. */
  function RemoveFirst(s: seq<ConnId>, x: ConnId): (r: seq<ConnId>)
    ensures x in s ==> |r| == |s| - 1 && multiset(r) == multiset(s) - multiset{x}
    ensures x !in s ==> r == s
    ensures forall c :: c != x ==> (c in r <==> c in s)
  {
    if s == [] then []
    else
      assert s == [s[0]] + s[1..];
      if s[0] == x then s[1..]
      else [s[0]] + RemoveFirst(s[1..], x)
  }

  /** The copy that goes is the first: at the first index holding `x`, and nowhere else. */
  lemma {:induction false} RemoveFirstIsFirst(s: seq<ConnId>, x: ConnId, i: int)
    requires 0 <= i < |s| && s[i] == x && x !in s[..i]
    ensures RemoveFirst(s, x) == s[..i] + s[i + 1..]
  {
    if i == 0 {
      assert s[..0] + s[1..] == s[1..];
    } else {
      FirstInTail(s, x, i);
      RemoveFirstIsFirst(s[1..], x, i - 1);
      RemoveAfterHead(s, x, i);
    }
  }

  /** The first `x` at `i > 0` is the first `x` of the tail, one place earlier. */
  lemma FirstInTail(s: seq<ConnId>, x: ConnId, i: int)
    requires 0 < i < |s| && s[i] == x && x !in s[..i]
    ensures s[0] != x && s[1..][i - 1] == x && x !in s[1..][..i - 1]
  {
    assert s[0] == s[..i][0];
    var t := s[1..][..i - 1];
    forall q | 0 <= q < |t| ensures t[q] != x {
      assert t[q] == s[..i][q + 1];
    }
  }

  lemma RemoveAfterHead(s: seq<ConnId>, x: ConnId, i: int)
    requires 0 < i < |s| && s[0] != x
    requires RemoveFirst(s[1..], x) == s[1..][..i - 1] + s[1..][i..]
    ensures RemoveFirst(s, x) == s[..i] + s[i + 1..]
  {
    var a, b := s[1..i], s[i + 1..];
    HeadSlices(s, i);
    assert RemoveFirst(s, x) == [s[0]] + RemoveFirst(s[1..], x);
    ConsAssoc(s[0], a, b);
  }

  /** `s` split after its head and around position `i`. */
  lemma HeadSlices<T>(s: seq<T>, i: int)
    requires 0 < i < |s|
    ensures s[1..][..i - 1] == s[1..i] && s[1..][i..] == s[i + 1..]
    ensures s[..i] == [s[0]] + s[1..i]
  {
  }

  lemma ConsAssoc<T>(h: T, a: seq<T>, b: seq<T>)
    ensures [h] + (a + b) == ([h] + a) + b
  {
  }

  /** The order survives: removing the first `x` leaves the others as they were. */
  lemma {:induction false} RemoveFirstKeepsOrder(s: seq<ConnId>, x: ConnId)
    ensures IsSubsequence(RemoveFirst(s, x), s)
    ensures NoDuplicates(s) ==> x !in RemoveFirst(s, x)
  {
    if s != [] {
      RemoveFirstKeepsOrder(s[1..], x);
      if s[0] != x {
        var r := RemoveFirst(s[1..], x);
        assert RemoveFirst(s, x) == [s[0]] + r;
        assert ([s[0]] + r)[1..] == r;
      } else {
        SubsequenceOfTail(s);
      }
      if NoDuplicates(s) {
        NoDuplicatesTail(s);
      }
    }
  }

  lemma {:induction false} SubsequenceOfTail(s: seq<ConnId>)
    requires s != []
    ensures IsSubsequence(s[1..], s)
  {
    SubsequenceRefl(s[1..]);
  }

  lemma {:induction false} SubsequenceRefl(s: seq<ConnId>)
    ensures IsSubsequence(s, s)
  {
    if s != [] {
      SubsequenceRefl(s[1..]);
    }
  }

  /** `for connection in disconnected: self.disconnect(connection)`, on the list alone. */
  function RemoveEach(s: seq<ConnId>, xs: seq<ConnId>): seq<ConnId>
    decreases |xs|
  {
    if xs == [] then s else RemoveEach(RemoveFirst(s, xs[0]), xs[1..])
  }

  /** When every removal finds its target, exactly the removed ones go. */
  lemma {:induction false} RemoveEachMultiset(s: seq<ConnId>, xs: seq<ConnId>)
    requires multiset(xs) <= multiset(s)
    ensures multiset(RemoveEach(s, xs)) == multiset(s) - multiset(xs)
    ensures |RemoveEach(s, xs)| == |s| - |xs|
    decreases |xs|
  {
    if xs != [] {
      var x, t := xs[0], xs[1..];
      MultisetHeadTail(xs);
      assert x in multiset(s);
      var s1 := RemoveFirst(s, x);
      RemoveOneMore(multiset(s), multiset(s1), x, multiset(t));
      RemoveEachMultiset(s1, t);
    }
  }

  lemma MultisetHeadTail<T>(xs: seq<T>)
    requires xs != []
    ensures multiset(xs) == multiset{xs[0]} + multiset(xs[1..])
  {
    assert xs == [xs[0]] + xs[1..];
  }

  /** Multiset arithmetic of one removal followed by the rest. */
  lemma RemoveOneMore<T>(m: multiset<T>, m1: multiset<T>, x: T, rest: multiset<T>)
    requires multiset{x} + rest <= m && m1 == m - multiset{x}
    ensures rest <= m1 && m1 - rest == m - (multiset{x} + rest)
  {
  }

  /** The connections whose send raised, in list order. */
  function Failed(conns: seq<ConnId>, ok: seq<bool>): seq<ConnId>
    requires |ok| == |conns|
  {
    if conns == [] then [] else (if ok[0] then [] else [conns[0]]) + Failed(conns[1..], ok[1..])
  }

  /** Only connections whose send raised are collected, each as often as its sends raised. */
  lemma FailedSpec(conns: seq<ConnId>, ok: seq<bool>)
    requires |ok| == |conns|
    ensures multiset(Failed(conns, ok)) <= multiset(conns)
    ensures forall x :: x in Failed(conns, ok) ==> exists i :: 0 <= i < |conns| && conns[i] == x && !ok[i]
    ensures forall i :: 0 <= i < |conns| && !ok[i] ==> conns[i] in Failed(conns, ok)
  {
    FailedSubMultiset(conns, ok);
    FailedProvenance(conns, ok);
    FailedCovers(conns, ok);
  }

  /** Every connection whose send raised is collected. */
  lemma {:induction false} FailedCovers(conns: seq<ConnId>, ok: seq<bool>)
    requires |ok| == |conns|
    ensures forall i :: 0 <= i < |conns| && !ok[i] ==> conns[i] in Failed(conns, ok)
  {
    if conns != [] {
      var rest, okRest := conns[1..], ok[1..];
      FailedCovers(rest, okRest);
      var h := if ok[0] then [] else [conns[0]];
      assert Failed(conns, ok) == h + Failed(rest, okRest);
      assert forall i :: 1 <= i < |conns| ==> conns[i] == rest[i - 1] && ok[i] == okRest[i - 1];
    }
  }

  lemma {:induction false} FailedSubMultiset(conns: seq<ConnId>, ok: seq<bool>)
    requires |ok| == |conns|
    ensures multiset(Failed(conns, ok)) <= multiset(conns)
  {
    if conns != [] {
      var rest := conns[1..];
      FailedSubMultiset(rest, ok[1..]);
      var f := Failed(rest, ok[1..]);
      assert conns == [conns[0]] + rest;
      assert multiset(conns) == multiset{conns[0]} + multiset(rest);
      if ok[0] {
        assert Failed(conns, ok) == f;
      } else {
        assert Failed(conns, ok) == [conns[0]] + f;
        assert multiset([conns[0]] + f) == multiset{conns[0]} + multiset(f);
      }
    }
  }

  lemma {:induction false} FailedProvenance(conns: seq<ConnId>, ok: seq<bool>)
    requires |ok| == |conns|
    ensures forall x :: x in Failed(conns, ok) ==> exists i :: 0 <= i < |conns| && conns[i] == x && !ok[i]
  {
    if conns != [] {
      var rest, okRest := conns[1..], ok[1..];
      FailedProvenance(rest, okRest);
      var h := if ok[0] then [] else [conns[0]];
      assert Failed(conns, ok) == h + Failed(rest, okRest);
      forall x | x in Failed(conns, ok)
        ensures exists i :: 0 <= i < |conns| && conns[i] == x && !ok[i]
      {
        if x in h {
          assert conns[0] == x && !ok[0];
        } else {
          var i :| 0 <= i < |rest| && rest[i] == x && !okRest[i];
          assert conns[i + 1] == x && !ok[i + 1];
        }
      }
    }
  }

  /** The connections whose send went through, in list order. */
  function Succeeded(conns: seq<ConnId>, ok: seq<bool>): (r: seq<ConnId>)
    requires |ok| == |conns|
    ensures forall x :: x in r ==> exists i :: 0 <= i < |conns| && conns[i] == x && ok[i]
    ensures forall i :: 0 <= i < |conns| && ok[i] ==> conns[i] in r
  {
    if conns == [] then []
    else
      var rest := Succeeded(conns[1..], ok[1..]);
      assert forall i :: 1 <= i < |conns| ==> conns[i] == conns[1..][i - 1] && ok[i] == ok[1..][i - 1];
      (if ok[0] then [conns[0]] else []) + rest
  }

  lemma {:induction false} SucceededIsSubsequence(conns: seq<ConnId>, ok: seq<bool>)
    requires |ok| == |conns|
    ensures IsSubsequence(Succeeded(conns, ok), conns)
  {
    if conns != [] {
      SucceededIsSubsequence(conns[1..], ok[1..]);
      var rest := Succeeded(conns[1..], ok[1..]);
      if ok[0] {
        assert ([conns[0]] + rest)[1..] == rest;
      } else {
        assert Succeeded(conns, ok) == rest;
      }
    }
  }

  /** Removals that never name the head leave it in front. */
  lemma {:induction false} RemoveEachKeepsHead(s: seq<ConnId>, xs: seq<ConnId>)
    requires s != [] && s[0] !in xs
    ensures RemoveEach(s, xs) == [s[0]] + RemoveEach(s[1..], xs)
    decreases |xs|
  {
    if xs == [] {
      assert s == [s[0]] + s[1..];
    } else {
      var r := RemoveFirst(s[1..], xs[0]);
      assert RemoveFirst(s, xs[0]) == [s[0]] + r;
      var s2 := [s[0]] + r;
      assert s2[0] == s[0] && s2[1..] == r;
      assert forall y :: y in xs[1..] ==> y in xs;
      RemoveEachKeepsHead(s2, xs[1..]);
    }
  }

  /**
   * With no connection listed twice, removing the failed ones one by one leaves
   * exactly the ones whose send succeeded, in their original order.
   */
  lemma NoDuplicatesTail(s: seq<ConnId>)
    requires s != [] && NoDuplicates(s)
    ensures NoDuplicates(s[1..]) && s[0] !in s[1..]
  {
    assert forall i :: 0 <= i < |s| - 1 ==> s[1..][i] == s[i + 1];
  }

  lemma {:induction false} BroadcastSurvivors(conns: seq<ConnId>, ok: seq<bool>)
    requires |ok| == |conns| && NoDuplicates(conns)
    ensures RemoveEach(conns, Failed(conns, ok)) == Succeeded(conns, ok)
  {
    if conns != [] {
      NoDuplicatesTail(conns);
      BroadcastSurvivors(conns[1..], ok[1..]);
      HeadNotFailed(conns, ok);
      SurvivorsStep(conns, ok);
    }
  }

  /** A connection listed once is not among the failures of the rest of the list. */
  lemma HeadNotFailed(conns: seq<ConnId>, ok: seq<bool>)
    requires |ok| == |conns| && conns != [] && conns[0] !in conns[1..]
    ensures conns[0] !in Failed(conns[1..], ok[1..])
  {
    FailedSpec(conns[1..], ok[1..]);
  }

  /** One step of the survivor equation: the head goes exactly when its send failed. */
  lemma SurvivorsStep(conns: seq<ConnId>, ok: seq<bool>)
    requires |ok| == |conns| && conns != []
    requires conns[0] !in Failed(conns[1..], ok[1..])
    requires RemoveEach(conns[1..], Failed(conns[1..], ok[1..])) == Succeeded(conns[1..], ok[1..])
    ensures RemoveEach(conns, Failed(conns, ok)) == Succeeded(conns, ok)
  {
    if ok[0] {
      SurvivorsKeepHead(conns, ok);
    } else {
      SurvivorsDropHead(conns, ok);
    }
  }

  lemma SurvivorsKeepHead(conns: seq<ConnId>, ok: seq<bool>)
    requires |ok| == |conns| && conns != [] && ok[0]
    requires conns[0] !in Failed(conns[1..], ok[1..])
    requires RemoveEach(conns[1..], Failed(conns[1..], ok[1..])) == Succeeded(conns[1..], ok[1..])
    ensures RemoveEach(conns, Failed(conns, ok)) == Succeeded(conns, ok)
  {
    var f := Failed(conns[1..], ok[1..]);
    assert Failed(conns, ok) == f;
    RemoveEachKeepsHead(conns, f);
  }

  lemma SurvivorsDropHead(conns: seq<ConnId>, ok: seq<bool>)
    requires |ok| == |conns| && conns != [] && !ok[0]
    requires RemoveEach(conns[1..], Failed(conns[1..], ok[1..])) == Succeeded(conns[1..], ok[1..])
    ensures RemoveEach(conns, Failed(conns, ok)) == Succeeded(conns, ok)
  {
    var c, rest, f := conns[0], conns[1..], Failed(conns[1..], ok[1..]);
    var g := [c] + f;
    assert Failed(conns, ok) == g;
    assert g[0] == c && g[1..] == f;
    assert RemoveFirst(conns, c) == rest;
    assert RemoveEach(conns, g) == RemoveEach(rest, f);
    assert Succeeded(conns, ok) == Succeeded(rest, ok[1..]);
  }

  /** Hence no connection whose send failed survives, and every successful one does. */
  lemma BroadcastPrunesFailures(conns: seq<ConnId>, ok: seq<bool>)
    requires |ok| == |conns| && NoDuplicates(conns)
    ensures forall i :: 0 <= i < |conns| ==> (conns[i] in RemoveEach(conns, Failed(conns, ok)) <==> ok[i])
    ensures IsSubsequence(RemoveEach(conns, Failed(conns, ok)), conns)
  {
    BroadcastSurvivors(conns, ok);
    SucceededIsSubsequence(conns, ok);
  }

  /**
   * With a connection listed twice the guarantee fails: when the second copy's
   * send fails, `list.remove` drops the first copy, which had succeeded.
   */
  lemma DuplicateConnectionSurvivesFailure()
    ensures RemoveEach([7, 8, 7], Failed([7, 8, 7], [true, true, false])) == [8, 7]
  {
    assert Failed([7, 8, 7], [true, true, false]) == [7];
  }

  function ToSet(s: seq<ConnId>): set<ConnId> {
    set x | x in s
  }

  // ---------------------------------------------------------------------------
  // Subscriptions

  /**
   * `_handle_subscription` on one metadata dictionary: the `subscriptions` set
   * (created empty when missing) gains `topic`. A value there that is not a
   * set (the list a `client_info` frame can put there) makes `.add` raise,
   * which is `None`.
   */
  function Subscribe(m: Metadata, topic: string): (r: Option<Metadata>)
    ensures r.None? <==> "subscriptions" in m && !m["subscriptions"].Topics?
    ensures r.Some? ==>
      && r.value.Keys == m.Keys + {"subscriptions"}
      && r.value["subscriptions"].Topics? && topic in r.value["subscriptions"].topics
      && forall k :: k in m && k != "subscriptions" ==> r.value[k] == m[k]
    ensures r.Some? ==> r.value["subscriptions"].topics == (if "subscriptions" in m then m["subscriptions"].topics else {}) + {topic}
  {
    if "subscriptions" !in m then Some(m["subscriptions" := Topics({topic})])
    else match m["subscriptions"]
      case Topics(ts) => Some(m["subscriptions" := Topics(ts + {topic})])
      case _ => None
  }

  /** Subscribing twice to the same topic is subscribing once. */
  lemma SubscribeIdempotent(m: Metadata, topic: string)
    requires Subscribe(m, topic).Some?
    ensures Subscribe(Subscribe(m, topic).value, topic) == Subscribe(m, topic)
  {
    var m1 := Subscribe(m, topic).value;
    assert m1["subscriptions"].topics + {topic} == m1["subscriptions"].topics;
    assert m1["subscriptions" := Topics(m1["subscriptions"].topics + {topic})] == m1;
  }

  /** Subscriptions only grow: earlier topics stay. */
  lemma SubscribeKeepsTopics(m: Metadata, topic: string)
    requires "subscriptions" in m && m["subscriptions"].Topics?
    ensures Subscribe(m, topic).Some?
    ensures Subscribe(m, topic).value["subscriptions"].topics == m["subscriptions"].topics + {topic}
  {
  }

  /** A decoded client frame, by its `type`. */
  datatype ClientMessage =
    | InvalidJson
    | Ping
    | SubscribeRequest(subscription: string)
    // Any metadata is accepted here, `Topics` values included, although a decoded
    // JSON payload never holds a set: a deliberate over-approximation.
    | ClientInfoMessage(info: Metadata)
    | OtherType(kind: string)

  /** A message as decoding yields it: `OtherType` never carries one of the three handled types. */
  predicate WellFormedClientMessage(m: ClientMessage) {
    m.OtherType? ==> m.kind !in {"ping", "subscribe", "client_info"}
  }

  // ---------------------------------------------------------------------------
  // The manager

  class ConnectionManager {
    var activeConnections: seq<ConnId>
    var metadata: map<ConnId, Metadata>
    /** Every frame written to a client, oldest first. */
    var delivered: seq<Delivery>

    /** Metadata is only ever kept for a listed connection. */
    ghost predicate Valid()
      reads this
    {
      forall c :: c in metadata ==> c in activeConnections
    }

    constructor ()
      ensures Valid()
      ensures activeConnections == [] && metadata == map[] && delivered == []
    {
      activeConnections := [];
      metadata := map[];
      delivered := [];
    }

    /** `get_connection_count` */
    function ConnectionCount(): (n: nat)
      reads this
      ensures n == |activeConnections|
    {
      |activeConnections|
    }

    /** `connect` after a successful `accept`: appended without a duplicate check, fresh metadata. */
    method Connect(ws: ConnId, now: int)
      requires Valid()
      modifies this
      ensures Valid()
      ensures activeConnections == old(activeConnections) + [ws]
      ensures ConnectionCount() == old(ConnectionCount()) + 1
      ensures metadata == old(metadata)[ws := DefaultMetadata(now)]
      ensures delivered == old(delivered)
    {
      activeConnections := activeConnections + [ws];
      metadata := metadata[ws := DefaultMetadata(now)];
    }

    /** `disconnect`: an unknown socket is ignored; otherwise its first entry and its metadata go. */
    method Disconnect(ws: ConnId)
      requires Valid()
      modifies this
      ensures Valid()
      ensures ws !in old(activeConnections) ==> activeConnections == old(activeConnections) && metadata == old(metadata)
      ensures ws in old(activeConnections) ==>
        activeConnections == RemoveFirst(old(activeConnections), ws) && metadata == old(metadata) - {ws}
      ensures delivered == old(delivered)
    {
      if ws in activeConnections {
        activeConnections := RemoveFirst(activeConnections, ws);
        metadata := metadata - {ws};
      }
    }

    /**
     * `_broadcast_message`: one send per listed connection, in order; then every
     * connection whose send raised is disconnected, in the same order.
     */
    method BroadcastMessage(frame: Frame, sendOk: seq<bool>)
      requires Valid() && |sendOk| == |activeConnections|
      modifies this
      ensures Valid()
      ensures activeConnections == RemoveEach(old(activeConnections), Failed(old(activeConnections), sendOk))
      ensures metadata == old(metadata) - ToSet(Failed(old(activeConnections), sendOk))
      ensures delivered == old(delivered) + Deliveries(old(activeConnections), sendOk, frame)
    {
      var failed := SendAll(frame, sendOk);
      FailedSpec(activeConnections, sendOk);
      DisconnectAll(failed);
    }

    /** The first loop of `_broadcast_message`: try every connection, collect the ones that raised. */
    method SendAll(frame: Frame, sendOk: seq<bool>) returns (failed: seq<ConnId>)
      requires |sendOk| == |activeConnections|
      modifies this
      ensures activeConnections == old(activeConnections) && metadata == old(metadata)
      ensures failed == Failed(activeConnections, sendOk)
      ensures delivered == old(delivered) + Deliveries(activeConnections, sendOk, frame)
    {
      var conns := activeConnections;
      failed := [];
      var i := 0;
      while i < |conns|
        invariant 0 <= i <= |conns|
        invariant failed == Failed(conns[..i], sendOk[..i])
        invariant delivered == old(delivered) + Deliveries(conns[..i], sendOk[..i], frame)
        invariant activeConnections == conns && metadata == old(metadata)
      {
        FailedSnoc(conns[..i], sendOk[..i], conns[i], sendOk[i]);
        DeliveriesSnoc(conns[..i], sendOk[..i], conns[i], sendOk[i], frame);
        assert conns[..i + 1] == conns[..i] + [conns[i]];
        assert sendOk[..i + 1] == sendOk[..i] + [sendOk[i]];
        if sendOk[i] {
          delivered := delivered + [Delivery(conns[i], frame)];
        } else {
          failed := failed + [conns[i]];
        }
        i := i + 1;
      }
      assert conns[..i] == conns && sendOk[..i] == sendOk;
    }

    /** The second loop of `_broadcast_message`: `disconnect` each listed connection in turn. */
    method DisconnectAll(failed: seq<ConnId>)
      requires Valid() && multiset(failed) <= multiset(activeConnections)
      modifies this
      ensures Valid()
      ensures activeConnections == RemoveEach(old(activeConnections), failed)
      ensures metadata == old(metadata) - ToSet(failed)
      ensures delivered == old(delivered)
    {
      ghost var conns0, meta0 := activeConnections, metadata;
      var j := 0;
      while j < |failed|
        invariant 0 <= j <= |failed|
        invariant Valid()
        invariant activeConnections == RemoveEach(conns0, failed[..j])
        invariant metadata == meta0 - ToSet(failed[..j])
        invariant multiset(failed[j..]) <= multiset(activeConnections)
        invariant delivered == old(delivered)
      {
        var c := failed[j];
        RemovalStep(failed, j, activeConnections);
        RemoveEachSnoc(conns0, failed[..j], c);
        ToSetSnoc(failed, j);
        MapMinusStep(meta0, ToSet(failed[..j]), c);
        Disconnect(c);
        j := j + 1;
      }
      assert failed[..j] == failed;
    }
    /** `broadcast_alert`, `broadcast_activity`, `broadcast_stats`, `broadcast_system_status`, `broadcast_custom_event`. */
    method Broadcast(kind: string, body: string, now: int, sendOk: seq<bool>)
      requires Valid() && |sendOk| == |activeConnections|
      modifies this
      ensures Valid()
      ensures old(activeConnections) == [] ==>
        activeConnections == old(activeConnections) && metadata == old(metadata) && delivered == old(delivered)
      ensures old(activeConnections) != [] ==>
        && activeConnections == RemoveEach(old(activeConnections), Failed(old(activeConnections), sendOk))
        && metadata == old(metadata) - ToSet(Failed(old(activeConnections), sendOk))
        && delivered == old(delivered) + Deliveries(old(activeConnections), sendOk, Frame(kind, body, now))
    {
      if activeConnections != [] {
        BroadcastMessage(Frame(kind, body, now), sendOk);
      }
    }

    /** `send_to_client`: a failed send disconnects that client. */
    method SendToClient(ws: ConnId, frame: Frame, ok: bool)
      requires Valid()
      modifies this
      ensures Valid()
      ensures ok ==>
        && delivered == old(delivered) + [Delivery(ws, frame)]
        && activeConnections == old(activeConnections) && metadata == old(metadata)
      ensures !ok ==> delivered == old(delivered)
      ensures !ok && ws in old(activeConnections) ==>
        activeConnections == RemoveFirst(old(activeConnections), ws) && metadata == old(metadata) - {ws}
      ensures !ok && ws !in old(activeConnections) ==>
        activeConnections == old(activeConnections) && metadata == old(metadata)
    {
      if ok {
        delivered := delivered + [Delivery(ws, frame)];
      } else {
        Disconnect(ws);
      }
    }

    /** `_handle_subscription`: only for a socket with metadata; confirmed to the client. */
    method HandleSubscription(ws: ConnId, topic: string, now: int, sendOk: bool)
      requires Valid()
      modifies this
      ensures Valid()
      ensures ws !in old(metadata) || Subscribe(old(metadata)[ws], topic).None? ==>
        activeConnections == old(activeConnections) && metadata == old(metadata) && delivered == old(delivered)
      ensures ws in old(metadata) && Subscribe(old(metadata)[ws], topic).Some? && sendOk ==>
        && metadata == old(metadata)[ws := Subscribe(old(metadata)[ws], topic).value]
        && activeConnections == old(activeConnections)
        && delivered == old(delivered) + [Delivery(ws, Frame("subscription_confirmed", topic, now))]
      ensures ws in old(metadata) && Subscribe(old(metadata)[ws], topic).Some? && !sendOk ==>
        && activeConnections == RemoveFirst(old(activeConnections), ws)
        && metadata == old(metadata) - {ws}
        && delivered == old(delivered)
    {
      if ws in metadata {
        var updated := Subscribe(metadata[ws], topic);
        if updated.Some? {
          metadata := metadata[ws := updated.value];
          SendToClient(ws, Frame("subscription_confirmed", topic, now), sendOk);
        }
      }
    }

    /**
     * `handle_client_message`: a ping is answered with a pong, a subscription
     * is recorded, client information is merged into known metadata; invalid
     * JSON and any other type change nothing.
     */
    method HandleClientMessage(ws: ConnId, message: ClientMessage, now: int, sendOk: bool)
      requires Valid()
      modifies this
      ensures Valid()
      ensures message.InvalidJson? || message.OtherType? ==>
        activeConnections == old(activeConnections) && metadata == old(metadata) && delivered == old(delivered)
      ensures message.Ping? && sendOk ==>
        activeConnections == old(activeConnections) && metadata == old(metadata)
        && delivered == old(delivered) + [Delivery(ws, Frame("pong", "", now))]
      ensures message.Ping? && !sendOk ==>
        && delivered == old(delivered)
        && activeConnections == (if ws in old(activeConnections) then RemoveFirst(old(activeConnections), ws)
                                 else old(activeConnections))
        && metadata == old(metadata) - {ws}
      ensures message.SubscribeRequest? && message.subscription == "" ==>
        activeConnections == old(activeConnections) && metadata == old(metadata) && delivered == old(delivered)
      ensures message.SubscribeRequest? && message.subscription != "" && ws in old(metadata)
              && Subscribe(old(metadata)[ws], message.subscription).Some? && sendOk ==>
        && metadata == old(metadata)[ws := Subscribe(old(metadata)[ws], message.subscription).value]
        && activeConnections == old(activeConnections)
        && delivered == old(delivered) + [Delivery(ws, Frame("subscription_confirmed", message.subscription, now))]
      ensures message.SubscribeRequest? && message.subscription != "" && ws in old(metadata)
              && Subscribe(old(metadata)[ws], message.subscription).Some? && !sendOk ==>
        && activeConnections == RemoveFirst(old(activeConnections), ws)
        && metadata == old(metadata) - {ws}
        && delivered == old(delivered)
      ensures message.SubscribeRequest? && (ws !in old(metadata) || Subscribe(old(metadata)[ws], message.subscription).None?) ==>
        activeConnections == old(activeConnections) && metadata == old(metadata) && delivered == old(delivered)
      ensures message.ClientInfoMessage? ==> activeConnections == old(activeConnections) && delivered == old(delivered)
      ensures message.ClientInfoMessage? && ws in old(metadata) ==>
        metadata == old(metadata)[ws := old(metadata)[ws] + message.info]
      ensures message.ClientInfoMessage? && ws !in old(metadata) ==> metadata == old(metadata)
    {
      match message {
        case InvalidJson =>
        case Ping => SendToClient(ws, Frame("pong", "", now), sendOk);
        case SubscribeRequest(topic) =>
          if topic != "" {
            HandleSubscription(ws, topic, now, sendOk);
          }
        case ClientInfoMessage(info) =>
          if ws in metadata {
            metadata := metadata[ws := metadata[ws] + info];
          }
        case OtherType(_) =>
      }
    }
  }

  /** The frames a broadcast delivers: one per connection whose send succeeded, in list order. */
  function Deliveries(conns: seq<ConnId>, ok: seq<bool>, frame: Frame): seq<Delivery>
    requires |ok| == |conns|
  {
    if conns == [] then []
    else (if ok[0] then [Delivery(conns[0], frame)] else []) + Deliveries(conns[1..], ok[1..], frame)
  }

  /** Each successful connection gets the frame once, in list order, and nobody else does. */
  lemma {:induction false} DeliveriesAreToSucceeded(conns: seq<ConnId>, ok: seq<bool>, frame: Frame)
    requires |ok| == |conns|
    ensures |Deliveries(conns, ok, frame)| == |Succeeded(conns, ok)|
    ensures forall k :: 0 <= k < |Succeeded(conns, ok)| ==>
      Deliveries(conns, ok, frame)[k] == Delivery(Succeeded(conns, ok)[k], frame)
  {
    if conns != [] {
      DeliveriesAreToSucceeded(conns[1..], ok[1..], frame);
    }
  }

  lemma {:induction false} FailedSnoc(conns: seq<ConnId>, ok: seq<bool>, c: ConnId, b: bool)
    requires |ok| == |conns|
    ensures Failed(conns + [c], ok + [b]) == Failed(conns, ok) + (if b then [] else [c])
  {
    var cs, bs := conns + [c], ok + [b];
    if conns == [] {
      assert cs == [c] && bs == [b];
      assert cs[1..] == [] && bs[1..] == [];
    } else {
      assert cs[0] == conns[0] && bs[0] == ok[0];
      assert cs[1..] == conns[1..] + [c] && bs[1..] == ok[1..] + [b];
      FailedSnoc(conns[1..], ok[1..], c, b);
      var h := if ok[0] then [] else [conns[0]];
      assert Failed(cs, bs) == h + Failed(conns[1..] + [c], ok[1..] + [b]);
      assert Failed(conns, ok) == h + Failed(conns[1..], ok[1..]);
    }
  }

  lemma {:induction false} DeliveriesSnoc(conns: seq<ConnId>, ok: seq<bool>, c: ConnId, b: bool, frame: Frame)
    requires |ok| == |conns|
    ensures Deliveries(conns + [c], ok + [b], frame)
         == Deliveries(conns, ok, frame) + (if b then [Delivery(c, frame)] else [])
  {
    if conns == [] {
      assert Deliveries([c], [b], frame) == (if b then [Delivery(c, frame)] else []) + Deliveries([], [], frame);
    } else {
      assert (conns + [c])[1..] == conns[1..] + [c];
      assert (ok + [b])[1..] == ok[1..] + [b];
      DeliveriesSnoc(conns[1..], ok[1..], c, b, frame);
    }
  }

  lemma {:induction false} RemoveEachSnoc(s: seq<ConnId>, xs: seq<ConnId>, x: ConnId)
    ensures RemoveEach(s, xs + [x]) == RemoveFirst(RemoveEach(s, xs), x)
    decreases |xs|
  {
    if xs == [] {
      assert [] + [x] == [x];
    } else {
      assert (xs + [x])[1..] == xs[1..] + [x];
      RemoveEachSnoc(RemoveFirst(s, xs[0]), xs[1..], x);
    }
  }

  lemma RemovalStep(failed: seq<ConnId>, j: nat, active: seq<ConnId>)
    requires j < |failed| && multiset(failed[j..]) <= multiset(active)
    ensures failed[j] in active
    ensures multiset(failed[j + 1..]) <= multiset(RemoveFirst(active, failed[j]))
    ensures failed[..j + 1] == failed[..j] + [failed[j]]
  {
    var x := failed[j];
    assert failed[j..] == [x] + failed[j + 1..];
    assert multiset(failed[j..]) == multiset{x} + multiset(failed[j + 1..]);
    assert x in multiset(active);
    assert multiset(RemoveFirst(active, x)) == multiset(active) - multiset{x};
  }

  lemma ToSetSnoc(failed: seq<ConnId>, j: nat)
    requires j < |failed|
    ensures ToSet(failed[..j + 1]) == ToSet(failed[..j]) + {failed[j]}
  {
    assert failed[..j + 1] == failed[..j] + [failed[j]];
  }

  lemma MapMinusStep(m: map<ConnId, Metadata>, gone: set<ConnId>, c: ConnId)
    ensures (m - gone) - {c} == m - (gone + {c})
  {
  }
}
