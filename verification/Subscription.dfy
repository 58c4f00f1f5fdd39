/**
 * Live subscriptions: the browser's listener table, its reconnecting WebSocket client, and the
 * server's per-connection subscription map, as one step system. The client may hold stale sockets
 * whose events still arrive.
 */
module Subscription {
  import opened Octets
  import opened Results
  import opened Decimals

  type Sid = seq<byte>
  type Key = seq<byte>
  type Callback = nat

  datatype Channel = Channel(sid: Sid, ch: nat)
  datatype Frame = Sub(c: Channel) | Unsub(c: Channel)

  const SLASH: byte := 0x2f

  // ---- Listener keys ----

  /** `keyOf`: `${sid}/${ch}`. */
  function KeyOf(c: Channel): Key {
    c.sid + [SLASH] + Decimal(c.ch)
  }

  function LastSlash(key: Key, from: nat): (k: int)
    requires from <= |key|
    ensures -1 <= k < |key| && (k >= 0 ==> key[k] == SLASH)
  {
    if from == 0 then -1 else if key[from - 1] == SLASH then from - 1 else LastSlash(key, from - 1)
  }

  /** The parsing half of `resubscribeChannels`; a key without a session id is skipped. */
  function ParseKey(key: Key): Option<Channel> {
    var slash := LastSlash(key, |key|);
    if slash <= 0 then None
    else
      match ParseDigits(key[slash + 1..])
      case None => None
      case Some(ch) => Some(Channel(key[..slash], ch))
  }

  lemma {:induction false} LastSlashAt(key: Key, from: nat, k: nat)
    requires k < from <= |key| && key[k] == SLASH
    requires forall i :: k < i < from ==> key[i] != SLASH
    ensures LastSlash(key, from) == k
  {
    if from - 1 > k {
      LastSlashAt(key, from - 1, k);
    }
  }

  /** A key splits back into its channel, whatever slashes the session id contains. */
  lemma KeySplits(c: Channel)
    ensures LastSlash(KeyOf(c), |KeyOf(c)|) == |c.sid|
    ensures KeyOf(c)[..|c.sid|] == c.sid && KeyOf(c)[|c.sid| + 1..] == Decimal(c.ch)
    ensures KeyOf(c) == c.sid + ['/' as int] + Decimal(c.ch)
    ensures ParseKey(KeyOf(c)) == if c.sid == [] then None else Some(c)
  {
    var key, k := KeyOf(c), |c.sid|;
    assert key[k + 1..] == Decimal(c.ch);
    forall i | k < i < |key|
      ensures key[i] != SLASH
    {
      assert key[i] == Decimal(c.ch)[i - k - 1];
    }
    LastSlashAt(key, |key|, k);
    ParseDecimal(c.ch);
  }

  lemma KeyInjective(a: Channel, b: Channel)
    requires KeyOf(a) == KeyOf(b)
    ensures a == b
  {
    KeySplits(a);
    KeySplits(b);
    DecimalInjective(a.ch, b.ch);
  }

  // ---- The listener table and the frames its changes ask for ----

  type Listeners = map<Key, set<Callback>>

  function Use(l: Listeners, c: Channel, cb: Callback): Listeners {
    var key := KeyOf(c);
    l[key := (if key in l then l[key] else {}) + {cb}]
  }

  function UseFrames(l: Listeners, c: Channel): seq<Frame> {
    if KeyOf(c) in l then [] else [Sub(c)]
  }

  function Dispose(l: Listeners, c: Channel, cb: Callback): Listeners {
    var key := KeyOf(c);
    if key !in l then l
    else if l[key] - {cb} == {} then l - {key}
    else l[key := l[key] - {cb}]
  }

  function DisposeFrames(l: Listeners, c: Channel, cb: Callback): seq<Frame> {
    if KeyOf(c) in l && l[KeyOf(c)] - {cb} == {} then [Unsub(c)] else []
  }

  function ResubscribeFrames(keys: seq<Key>): seq<Frame> {
    if keys == [] then []
    else
      var rest := ResubscribeFrames(keys[..|keys| - 1]);
      match ParseKey(keys[|keys| - 1])
      case None => rest
      case Some(c) => rest + [Sub(c)]
  }

  /** The module-level table of the browser and what it hands to `client.send`. */
  class ChannelTable {
    var channelListeners: Listeners
    var outbox: seq<Frame>

    constructor ()
      ensures channelListeners == map[] && outbox == []
    {
      channelListeners, outbox := map[], [];
    }

    method UseChannel(c: Channel, cb: Callback)
      modifies this
      ensures channelListeners == Use(old(channelListeners), c, cb)
      ensures outbox == old(outbox) + UseFrames(old(channelListeners), c)
    {
      var key := KeyOf(c);
      if key !in channelListeners {
        channelListeners := channelListeners[key := {}];
        outbox := outbox + [Sub(c)];
      }
      channelListeners := channelListeners[key := channelListeners[key] + {cb}];
    }

    /** The function `useChannel` returns. */
    method DisposeChannel(c: Channel, cb: Callback)
      modifies this
      ensures channelListeners == Dispose(old(channelListeners), c, cb)
      ensures outbox == old(outbox) + DisposeFrames(old(channelListeners), c, cb)
    {
      var key := KeyOf(c);
      if key !in channelListeners {
        return;
      }
      var remaining := channelListeners[key] - {cb};
      channelListeners := channelListeners[key := remaining];
      if |remaining| == 0 {
        channelListeners := channelListeners - {key};
        outbox := outbox + [Unsub(c)];
      }
    }

    /** `resubscribeChannels`, walking the keys in the table's own order. */
    method Resubscribe(keys: seq<Key>)
      modifies this`outbox
      ensures outbox == old(outbox) + ResubscribeFrames(keys)
    {
      assert keys[..0] == [];
      for i := 0 to |keys|
        invariant outbox == old(outbox) + ResubscribeFrames(keys[..i])
      {
        assert keys[..i + 1][..i] == keys[..i];
        match ParseKey(keys[i])
        case None =>
        case Some(c) => outbox := outbox + [Sub(c)];
      }
      assert keys[..|keys|] == keys;
    }
  }

  // ---- Sockets ----

  datatype Ready = Connecting | Open | Closing | Closed

  /** One WebSocket with the frames under way on it and the server end of the connection. */
  datatype Socket = Socket(ready: Ready, inflight: seq<Frame>, subs: set<Channel>, serverUp: bool)

  datatype State = State(listeners: Listeners, ws: Option<nat>, sockets: seq<Socket>)

  datatype Step =
    | UseChannel(c: Channel, cb: Callback)
    | DisposeChannel(c: Channel, cb: Callback)
    | Connect                          // by the user or the reconnect timer
    | OpenEvent(i: nat, keys: seq<Key>)
    | StartsClosing(i: nat)
    | CloseEvent(i: nat)
    | UserCloses
    | ServerHandles(i: nat, registered: bool)
    | ServerEnds(i: nat)

  const INIT: State := State(map[], None, [])

  /** `WireClient.send`, frame by frame: dropped unless the current socket is open. */
  function Send(s: State, frames: seq<Frame>): State {
    if s.ws.Some? && s.ws.value < |s.sockets| && s.sockets[s.ws.value].ready == Open then
      var k := s.sockets[s.ws.value];
      s.(sockets := s.sockets[s.ws.value := k.(inflight := k.inflight + frames)])
    else s
  }

  /** `subscribe_session` and `unsubscribe_session`; an unknown session is answered, not subscribed. */
  function Handle(f: Frame, subs: set<Channel>, registered: bool): set<Channel> {
    match f
    case Sub(c) => if registered then subs + {c} else subs
    case Unsub(c) => subs - {c}
  }

  ghost predicate Enabled(stable: set<Sid>, s: State, step: Step) {
    match step
    case UseChannel(_, _) => true
    case DisposeChannel(_, _) => true
    case Connect => true
    case OpenEvent(i, keys) =>
      i < |s.sockets| && s.sockets[i].ready == Connecting && (forall k :: k in keys <==> k in s.listeners)
    case StartsClosing(i) => i < |s.sockets| && s.sockets[i].ready in {Connecting, Open}
    case CloseEvent(i) => i < |s.sockets| && s.sockets[i].ready != Closed
    case UserCloses => true
    case ServerHandles(i, registered) =>
      && i < |s.sockets| && s.sockets[i].serverUp && s.sockets[i].inflight != []
      && (s.sockets[i].inflight[0].c.sid in stable ==> registered)
    case ServerEnds(i) => i < |s.sockets|
  }

  ghost function Apply(stable: set<Sid>, s: State, step: Step): State
    requires Enabled(stable, s, step)
  {
    match step
    case UseChannel(c, cb) => Send(s, UseFrames(s.listeners, c)).(listeners := Use(s.listeners, c, cb))
    case DisposeChannel(c, cb) => Send(s, DisposeFrames(s.listeners, c, cb)).(listeners := Dispose(s.listeners, c, cb))
    case Connect =>
      if s.ws.Some? && s.ws.value < |s.sockets| && s.sockets[s.ws.value].ready in {Connecting, Open} then s
      else s.(ws := Some(|s.sockets|), sockets := s.sockets + [Socket(Connecting, [], {}, true)])
    case OpenEvent(i, keys) =>
      // The handler writes to the current socket, which need not be the one that opened.
      Send(s.(sockets := s.sockets[i := s.sockets[i].(ready := Open)]), ResubscribeFrames(keys))
    case StartsClosing(i) => s.(sockets := s.sockets[i := s.sockets[i].(ready := Closing)])
    case CloseEvent(i) =>
      // Even the event of a stale socket clears the client's reference.
      s.(ws := None, sockets := s.sockets[i := s.sockets[i].(ready := Closed)])
    case UserCloses =>
      if s.ws.Some? && s.ws.value < |s.sockets| then
        s.(ws := None, sockets := s.sockets[s.ws.value := s.sockets[s.ws.value].(ready := Closing)])
      else s.(ws := None)
    case ServerHandles(i, registered) =>
      var k := s.sockets[i];
      s.(sockets := s.sockets[i := k.(inflight := k.inflight[1..], subs := Handle(k.inflight[0], k.subs, registered))])
    case ServerEnds(i) => s.(sockets := s.sockets[i := s.sockets[i].(serverUp := false, subs := {})])
  }

  /** The state after a run. `stable` are the sessions that stay registered throughout. */
  ghost function Run(stable: set<Sid>, steps: seq<Step>): Option<State> {
    if steps == [] then Some(INIT)
    else
      match Run(stable, steps[..|steps| - 1])
      case None => None
      case Some(s) =>
        var last := steps[|steps| - 1];
        if Enabled(stable, s, last) then Some(Apply(stable, s, last)) else None
  }

  /** The last thing the run did with this listener was to register it. */
  ghost predicate Subscribed(steps: seq<Step>, c: Channel, cb: Callback) {
    steps != [] &&
    match steps[|steps| - 1]
    case UseChannel(c', cb') => (c' == c && cb' == cb) || Subscribed(steps[..|steps| - 1], c, cb)
    case DisposeChannel(c', cb') => !(c' == c && cb' == cb) && Subscribed(steps[..|steps| - 1], c, cb)
    case _ => Subscribed(steps[..|steps| - 1], c, cb)
  }

  // ---- Replaying frames ----

  /** What the server's map becomes once it has handled `frames`. */
  function Replay(frames: seq<Frame>, subs: set<Channel>): set<Channel> {
    if frames == [] then subs else Replay(frames[1..], Handle(frames[0], subs, true))
  }

  lemma {:induction false} ReplayConcat(a: seq<Frame>, b: seq<Frame>, subs: set<Channel>)
    ensures Replay(a + b, subs) == Replay(b, Replay(a, subs))
    decreases |a|
  {
    if a == [] {
      assert a + b == b;
    } else {
      ReplayConcat(a[1..], b, Handle(a[0], subs, true));
      assert (a + b)[1..] == a[1..] + b;
    }
  }

  /** What happens to one channel depends on that channel alone. */
  lemma {:induction false} ReplayPointwise(frames: seq<Frame>, s1: set<Channel>, s2: set<Channel>, c: Channel)
    requires c in s1 <==> c in s2
    ensures c in Replay(frames, s1) <==> c in Replay(frames, s2)
    decreases |frames|
  {
    if frames != [] {
      ReplayPointwise(frames[1..], Handle(frames[0], s1, true), Handle(frames[0], s2, true), c);
    }
  }

  ghost predicate ChannelKey(key: Key) {
    exists c :: key == KeyOf(c)
  }

  ghost predicate FromChannels(keys: seq<Key>) {
    forall i :: 0 <= i < |keys| ==> ChannelKey(keys[i])
  }

  /** A key of the table is skipped or parsed to the channel it was made from. */
  lemma KeyParsed(key: Key, c: Channel)
    requires ChannelKey(key) && c.sid != []
    ensures key == KeyOf(c) <==> ParseKey(key) == Some(c)
  {
    hide KeyOf;
    var d :| key == KeyOf(d);
    KeySplits(d);
    KeySplits(c);
    if key == KeyOf(c) {
      KeyInjective(c, d);
    }
  }

  lemma ReplaySub(c: Channel, subs: set<Channel>)
    ensures Replay([Sub(c)], subs) == subs + {c}
  {
    assert [Sub(c)][1..] == [];
  }

  /** Subscribing again adds the channels of the table and touches no other. */
  lemma {:induction false} ReplayResubscribe(keys: seq<Key>, subs: set<Channel>, c: Channel)
    requires FromChannels(keys) && c.sid != []
    ensures c in Replay(ResubscribeFrames(keys), subs) <==> c in subs || KeyOf(c) in keys
  {
    hide KeyOf, ParseKey;
    if keys != [] {
      hide Replay;
      var front, last := keys[..|keys| - 1], keys[|keys| - 1];
      ReplayResubscribe(front, subs, c);
      assert keys == front + [last];
      KeyParsed(last, c);
      match ParseKey(last)
      case None =>
      case Some(e) =>
        ReplayConcat(ResubscribeFrames(front), [Sub(e)], subs);
        ReplaySub(e, Replay(ResubscribeFrames(front), subs));
    }
  }

  // ---- What every step keeps ----

  ghost predicate TableInv(l: Listeners) {
    forall k :: k in l ==> l[k] != {} && ChannelKey(k)
  }

  ghost predicate SocketInv(s: State) {
    && (s.ws.Some? ==> s.ws.value < |s.sockets|)
    && (forall i :: 0 <= i < |s.sockets| && s.sockets[i].ready == Connecting ==>
          s.sockets[i].inflight == [] && s.sockets[i].subs == {})
  }

  /** The current connection, once its frames are through, carries exactly the listened-to channels. */
  ghost predicate Synced(k: Socket, l: Listeners, stable: set<Sid>) {
    forall c: Channel :: c.sid in stable ==> (c in Replay(k.inflight, k.subs) <==> KeyOf(c) in l)
  }

  ghost predicate Live(s: State) {
    s.ws.Some? && s.ws.value < |s.sockets| && s.sockets[s.ws.value].ready == Open && s.sockets[s.ws.value].serverUp
  }

  ghost predicate Inv(stable: set<Sid>, s: State) {
    && TableInv(s.listeners) && SocketInv(s)
    && (Live(s) ==> Synced(s.sockets[s.ws.value], s.listeners, stable))
  }

  lemma SendOne(k: Socket, l: Listeners, l': Listeners, frames: seq<Frame>, c: Channel, stable: set<Sid>)
    requires Synced(k, l, stable)
    requires forall d: Channel :: d != c ==> (KeyOf(d) in l' <==> KeyOf(d) in l)
    requires frames == if KeyOf(c) in l && KeyOf(c) !in l' then [Unsub(c)]
                       else if KeyOf(c) !in l && KeyOf(c) in l' then [Sub(c)] else []
    ensures Synced(k.(inflight := k.inflight + frames), l', stable)
  {
    ReplayConcat(k.inflight, frames, k.subs);
    var now := Replay(k.inflight, k.subs);
    assert frames != [] ==> Replay(frames, now) == Replay([], Handle(frames[0], now, true));
    forall d: Channel | d.sid in stable
      ensures d in Replay(k.inflight + frames, k.subs) <==> KeyOf(d) in l'
    {
    }
  }

  lemma OtherKeys(l: Listeners, c: Channel, cb: Callback, d: Channel)
    requires d != c
    ensures KeyOf(d) in Use(l, c, cb) <==> KeyOf(d) in l
    ensures KeyOf(d) in Dispose(l, c, cb) <==> KeyOf(d) in l
  {
    if KeyOf(c) == KeyOf(d) {
      KeyInjective(c, d);
    }
  }

  lemma UseStep(stable: set<Sid>, s: State, c: Channel, cb: Callback)
    requires Inv(stable, s)
    ensures Inv(stable, Apply(stable, s, UseChannel(c, cb)))
  {
    var l' := Use(s.listeners, c, cb);
    forall d: Channel | d != c
      ensures KeyOf(d) in l' <==> KeyOf(d) in s.listeners
    {
      OtherKeys(s.listeners, c, cb, d);
    }
    if Live(s) {
      SendOne(s.sockets[s.ws.value], s.listeners, l', UseFrames(s.listeners, c), c, stable);
    }
  }

  lemma DisposeStep(stable: set<Sid>, s: State, c: Channel, cb: Callback)
    requires Inv(stable, s)
    ensures Inv(stable, Apply(stable, s, DisposeChannel(c, cb)))
  {
    var l' := Dispose(s.listeners, c, cb);
    forall d: Channel | d != c
      ensures KeyOf(d) in l' <==> KeyOf(d) in s.listeners
    {
      OtherKeys(s.listeners, c, cb, d);
    }
    if Live(s) {
      SendOne(s.sockets[s.ws.value], s.listeners, l', DisposeFrames(s.listeners, c, cb), c, stable);
    }
  }

  lemma OpenStep(stable: set<Sid>, s: State, i: nat, keys: seq<Key>)
    requires Inv(stable, s) && [] !in stable && Enabled(stable, s, OpenEvent(i, keys))
    ensures Inv(stable, Apply(stable, s, OpenEvent(i, keys)))
  {
    var t := Apply(stable, s, OpenEvent(i, keys));
    KeysAreChannels(s.listeners, keys);
    if Live(t) {
      var w := s.ws.value;
      var k := s.sockets[w];
      assert t.sockets[w].inflight == k.inflight + ResubscribeFrames(keys) && t.sockets[w].subs == k.subs;
      ReplayConcat(k.inflight, ResubscribeFrames(keys), k.subs);
      forall c: Channel | c.sid in stable
        ensures c in Replay(t.sockets[w].inflight, k.subs) <==> KeyOf(c) in s.listeners
      {
        ReplayResubscribe(keys, Replay(k.inflight, k.subs), c);
      }
    }
  }

  lemma HandleStep(stable: set<Sid>, s: State, i: nat, registered: bool)
    requires Inv(stable, s) && Enabled(stable, s, ServerHandles(i, registered))
    ensures Inv(stable, Apply(stable, s, ServerHandles(i, registered)))
  {
    var t, k := Apply(stable, s, ServerHandles(i, registered)), s.sockets[i];
    if Live(t) && s.ws.value == i {
      forall c: Channel | c.sid in stable
        ensures c in Replay(t.sockets[i].inflight, t.sockets[i].subs) <==> KeyOf(c) in s.listeners
      {
        ReplayPointwise(k.inflight[1..], Handle(k.inflight[0], k.subs, registered),
                        Handle(k.inflight[0], k.subs, true), c);
      }
    }
  }

  lemma {:induction false} RunInv(stable: set<Sid>, steps: seq<Step>)
    requires [] !in stable && Run(stable, steps).Some?
    ensures Inv(stable, Run(stable, steps).value)
  {
    if steps != [] {
      RunInv(stable, steps[..|steps| - 1]);
      var s := Run(stable, steps[..|steps| - 1]).value;
      match steps[|steps| - 1]
      case UseChannel(c, cb) => UseStep(stable, s, c, cb);
      case DisposeChannel(c, cb) => DisposeStep(stable, s, c, cb);
      case OpenEvent(i, keys) => OpenStep(stable, s, i, keys);
      case ServerHandles(i, registered) => HandleStep(stable, s, i, registered);
      case _ =>
    }
  }

  // ---- Main results, over every run ----

  lemma SameKey(l: Listeners, c: Channel, cb: Callback, d: Channel, cb': Callback)
    requires TableInv(l) && (d != c || cb' != cb)
    ensures Listening(Use(l, c, cb), d, cb') <==> Listening(l, d, cb')
    ensures Listening(Dispose(l, c, cb), d, cb') <==> Listening(l, d, cb')
  {
    if KeyOf(c) == KeyOf(d) {
      KeyInjective(c, d);
    }
  }

  ghost predicate Listening(l: Listeners, c: Channel, cb: Callback) {
    KeyOf(c) in l && cb in l[KeyOf(c)]
  }

  /** The table holds exactly the listeners whose last call was a registration. */
  lemma {:induction false} TableIsSubscribed(stable: set<Sid>, steps: seq<Step>, c: Channel, cb: Callback)
    requires [] !in stable && Run(stable, steps).Some?
    ensures Listening(Run(stable, steps).value.listeners, c, cb) <==> Subscribed(steps, c, cb)
  {
    if steps != [] {
      TableIsSubscribed(stable, steps[..|steps| - 1], c, cb);
      RunInv(stable, steps[..|steps| - 1]);
      var s := Run(stable, steps[..|steps| - 1]).value;
      match steps[|steps| - 1]
      case UseChannel(d, cb') =>
        if d != c || cb' != cb {
          SameKey(s.listeners, d, cb', c, cb);
        }
      case DisposeChannel(d, cb') =>
        if d != c || cb' != cb {
          SameKey(s.listeners, d, cb', c, cb);
        }
      case _ =>
    }
  }

  /**
   * Convergence: through any mix of registrations, disposals, disconnects, reconnects and stale
   * socket events, what is under way on the open connection turns the server's map into exactly
   * the channels that still have a listener; with nothing under way, the map already is that.
   */
  lemma Converges(stable: set<Sid>, steps: seq<Step>, c: Channel)
    requires [] !in stable && c.sid in stable && Run(stable, steps).Some? && Live(Run(stable, steps).value)
    ensures var s := Run(stable, steps).value;
      var k := s.sockets[s.ws.value];
      && (c in Replay(k.inflight, k.subs) <==> exists cb :: Subscribed(steps, c, cb))
      && (k.inflight == [] ==> (c in k.subs <==> exists cb :: Subscribed(steps, c, cb)))
  {
    var s := Run(stable, steps).value;
    RunInv(stable, steps);
    if KeyOf(c) in s.listeners {
      var cb :| cb in s.listeners[KeyOf(c)];
      TableIsSubscribed(stable, steps, c, cb);
    } else if exists cb :: Subscribed(steps, c, cb) {
      var cb :| Subscribed(steps, c, cb);
      TableIsSubscribed(stable, steps, c, cb);
    }
  }

  // ---- A lost connection can always be made good ----

  lemma RunOne(stable: set<Sid>, steps: seq<Step>, step: Step)
    requires Run(stable, steps).Some? && Enabled(stable, Run(stable, steps).value, step)
    ensures Run(stable, steps + [step]) == Some(Apply(stable, Run(stable, steps).value, step))
  {
    hide Enabled, Apply;
    assert (steps + [step])[..|steps|] == steps;
  }

  /** The client has a current socket in one of these states. */
  predicate Current(s: State, ready: set<Ready>) {
    s.ws.Some? && s.ws.value < |s.sockets| && s.sockets[s.ws.value].ready in ready
  }

  /** `connect` keeps a socket that is connecting or open, and makes a new one otherwise; the old ones stay as they
      are. */
  lemma ConnectMakesOne(stable: set<Sid>, steps: seq<Step>)
    requires [] !in stable && Run(stable, steps).Some?
    ensures Run(stable, steps + [Connect]).Some?
    ensures var s, t := Run(stable, steps).value, Run(stable, steps + [Connect]).value;
      if Current(s, {Connecting, Open}) then t == s
      else t.ws == Some(|s.sockets|) && |t.sockets| == |s.sockets| + 1 && t.sockets[..|s.sockets|] == s.sockets
           && t.sockets[|s.sockets|] == Socket(Connecting, [], {}, true) && t.listeners == s.listeners
  {
    hide Run;
    RunInv(stable, steps);
    RunOne(stable, steps, Connect);
  }

  /** The server works off what is under way on the current connection. */
  lemma {:induction false} Drained(stable: set<Sid>, steps: seq<Step>, w: nat) returns (more: seq<Step>)
    requires Run(stable, steps).Some?
    requires var s := Run(stable, steps).value; s.ws == Some(w) && Live(s)
    ensures Run(stable, steps + more).Some?
    ensures var s, t := Run(stable, steps).value, Run(stable, steps + more).value;
      && t.ws == s.ws && Live(t) && t.listeners == s.listeners && t.sockets[w].inflight == []
      && t.sockets[w].subs == Replay(s.sockets[w].inflight, s.sockets[w].subs)
    decreases |Run(stable, steps).value.sockets[w].inflight|
  {
    hide Run;
    var s := Run(stable, steps).value;
    if s.sockets[w].inflight == [] {
      more := [];
      assert steps + more == steps;
    } else {
      var step := ServerHandles(w, true);
      RunOne(stable, steps, step);
      var rest := Drained(stable, steps + [step], w);
      more := [step] + rest;
      assert steps + more == steps + [step] + rest;
    }
  }

  /** The current connection goes, by the user or by itself. */
  lemma Lost(stable: set<Sid>, steps: seq<Step>, byUser: bool) returns (step: Step)
    requires [] !in stable && Run(stable, steps).Some?
    requires byUser || Current(Run(stable, steps).value, {Connecting, Open, Closing})
    ensures step == if byUser then UserCloses else CloseEvent(Run(stable, steps).value.ws.value)
    ensures Run(stable, steps + [step]).Some?
    ensures var s, t := Run(stable, steps).value, Run(stable, steps + [step]).value;
      && t.ws == None && t.listeners == s.listeners && |t.sockets| == |s.sockets|
      && (Current(s, {Connecting, Open}) ==> t.sockets[s.ws.value].ready == if byUser then Closing else Closed)
  {
    hide Run;
    RunInv(stable, steps);
    var s := Run(stable, steps).value;
    step := if byUser then UserCloses else CloseEvent(s.ws.value);
    RunOne(stable, steps, step);
  }

  /** After every run, once the connection is lost, connecting again, opening and letting the server catch up makes
      its map the channels that have a listener, for all sessions at once. */
  lemma Recovers(stable: set<Sid>, steps: seq<Step>, byUser: bool, keys: seq<Key>) returns (more: seq<Step>)
    requires [] !in stable && Run(stable, steps).Some?
    requires byUser || Current(Run(stable, steps).value, {Connecting, Open, Closing})
    requires forall k :: k in keys <==> k in Run(stable, steps).value.listeners
    ensures Run(stable, steps + more).Some? && Live(Run(stable, steps + more).value)
    ensures var s, t := Run(stable, steps).value, Run(stable, steps + more).value;
      && t.listeners == s.listeners && t.ws == Some(|s.sockets|) && t.sockets[|s.sockets|].inflight == []
      && forall c: Channel :: c.sid != [] ==> (c in t.sockets[|s.sockets|].subs <==> KeyOf(c) in s.listeners)
  {
    hide Run, KeyOf;
    var s, n := Run(stable, steps).value, |Run(stable, steps).value.sockets|;
    RunInv(stable, steps);
    var loss := Lost(stable, steps, byUser);
    var lost := steps + [loss];
    ConnectMakesOne(stable, lost);
    var connected := lost + [Connect];
    RunOne(stable, connected, OpenEvent(n, keys));
    var opened' := connected + [OpenEvent(n, keys)];
    var t := Run(stable, opened').value;
    assert t.sockets[n].inflight == ResubscribeFrames(keys) && t.sockets[n].subs == {};
    var rest := Drained(stable, opened', n);
    more := [loss, Connect, OpenEvent(n, keys)] + rest;
    assert steps + more == opened' + rest;
    forall c: Channel | c.sid != []
      ensures c in Replay(ResubscribeFrames(keys), {}) <==> KeyOf(c) in s.listeners
    {
      KeysAreChannels(s.listeners, keys);
      ReplayResubscribe(keys, {}, c);
    }
  }

  lemma KeysAreChannels(l: Listeners, keys: seq<Key>)
    requires TableInv(l) && forall k :: k in keys ==> k in l
    ensures FromChannels(keys)
  {
    hide ChannelKey;
    forall i | 0 <= i < |keys| ensures ChannelKey(keys[i]) {
      assert keys[i] in l;
    }
  }
}
