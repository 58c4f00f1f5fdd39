/**
 * Write-back through a remote mirror: callers, the mirror task, the two directions of its
 * WebSocket, and the edge server that owns the physical channel, as one step system.
 *
 * A channel is the log of what was ever put into it plus a read position.
 */
module RemoteWrite {
  import opened Octets
  import opened Results
  import opened Wire

  datatype Remote = Remote(sid: Sid, ch: nat)
  datatype Request = Request(body: seq<byte>, target: Option<string>)

  /** A request in the mirror's queue; `id` stands for its acknowledgement sender. */
  datatype Queued = Queued(id: nat, request: Request)

  /** What became of the acknowledgement sender that travels with a request. */
  datatype Resolution = Sent(ok: bool) | Dropped

  /** `source_manager.write` on the edge; a failure may come before or after bytes reached the sink. */
  datatype EdgeResult = Completed | Failed(handedOver: bool)
  datatype Handled = Handled(seqNo: nat, request: WriteRequest, result: EdgeResult)

  datatype State = State(
    writes: seq<Request>,             // every request put into the mirror's queue, by caller id
    outcome: map<nat, bool>,          // what callers were told: true is Ok
    queue: seq<Queued>,               // requests the mirror has not taken up yet
    nextSeq: nat,
    pending: map<nat, nat>,           // sequence number to caller id
    resolved: seq<(nat, Resolution)>, // every use of an acknowledgement sender
    running: bool,
    sent: seq<Envelope>, edgePos: nat,
    edgeUp: bool,
    handled: seq<Handled>,            // write frames the edge has acted on
    replies: seq<Envelope>, mirrorPos: nat)

  datatype Step =
    | Call(body: seq<byte>, target: Option<string>)
    | Timeout(id: nat)
    | Deliver(id: nat)
    | Accept
    | AcceptFails(delivered: bool)
    | EdgeSubscribes(known: bool)
    | EdgeWrites(result: EdgeResult, replied: bool)
    | EdgePublishes(env: Envelope)
    | EdgeStops
    | MirrorReceives(recorded: bool)
    | MirrorSeesClose
    | MirrorExits

  /** The mirror has connected and sent its subscription. */
  function Init(r: Remote): State {
    State([], map[], [], 2, map[], [], true,
          [Envelope(Sub, Some(r.sid), Some(r.ch), 1, [])], 0, true, [], [], 0)
  }

  /** An empty target counts as none (`ctl` filters it). */
  function Effective(target: Option<string>): Option<string> {
    if target == Some("") then None else target
  }

  function FrameFor(r: Remote, seqNo: nat, request: Request): Envelope {
    WriteFrame(seqNo, r.sid, r.ch, request.body, request.target)
  }

  // ---- The mirror's bookkeeping ----

  /** `resolve_write_ack`. */
  function ResolveWriteAck(env: Envelope, s: State): (t: State)
    ensures t == s.(pending := t.pending, resolved := t.resolved)
  {
    if env.seqNo !in s.pending then s
    else if IsAck(env) then
      s.(pending := s.pending - {env.seqNo}, resolved := s.resolved + [(s.pending[env.seqNo], Sent(true))])
    else if IsError(env) then
      s.(pending := s.pending - {env.seqNo}, resolved := s.resolved + [(s.pending[env.seqNo], Sent(false))])
    else s
  }

  /** Use up every pending sender below `n` in the same way. */
  function Drain(pending: map<nat, nat>, n: nat, how: Resolution): seq<(nat, Resolution)> {
    if n == 0 then []
    else Drain(pending, n - 1, how) + if n - 1 in pending then [(pending[n - 1], how)] else []
  }

  function DropAll(queue: seq<Queued>): (r: seq<(nat, Resolution)>)
    ensures |r| == |queue| && forall i :: 0 <= i < |queue| ==> r[i] == (queue[i].id, Dropped)
  {
    seq(|queue|, i requires 0 <= i < |queue| => (queue[i].id, Dropped))
  }

  /** The run is over: pending senders end as `how`, queued requests are dropped with the receiver. */
  function EndRun(s: State, how: Resolution): (t: State)
    ensures t == s.(running := false, pending := map[], queue := [], resolved := t.resolved)
  {
    s.(running := false, pending := map[], queue := [],
       resolved := s.resolved + Drain(s.pending, s.nextSeq, how) + DropAll(s.queue))
  }

  /** One message from the edge, in the mirror's `select!` loop. */
  function Receive(s: State, recorded: bool): (t: State)
    requires s.mirrorPos < |s.replies|
    ensures t == s.(mirrorPos := s.mirrorPos + 1, running := t.running, pending := t.pending, queue := t.queue,
                    resolved := t.resolved)
  {
    var env := s.replies[s.mirrorPos];
    var t := s.(mirrorPos := s.mirrorPos + 1);
    if env.kind == Ctl then
      var u := ResolveWriteAck(env, t);
      if IsError(env) then EndRun(u, Dropped) else u
    else if recorded then t
    else EndRun(t, Dropped)
  }

  // ---- The edge ----

  /** What the edge answers to a write frame. */
  function EdgeReply(env: Envelope, result: EdgeResult): Envelope {
    match ParseWrite(env)
    case Err(refusal) => refusal
    case Ok(w) =>
      if result == Completed then WriteAck(env.seqNo, w.sid, w.ch, |w.body|)
      else CtlError(env.seqNo, "write failed", "E-1001", Some(w.sid))
  }

  /** `handle_write` on the next frame. */
  function EdgeWrite(s: State, result: EdgeResult, replied: bool): (t: State)
    requires s.edgePos < |s.sent|
    ensures t == s.(edgePos := s.edgePos + 1, handled := t.handled, replies := t.replies)
    ensures s.replies <= t.replies
  {
    var env := s.sent[s.edgePos];
    s.(edgePos := s.edgePos + 1,
       handled := s.handled + if ParseWrite(env).Ok? then [Handled(env.seqNo, ParseWrite(env).value, result)] else [],
       replies := s.replies + if replied then [EdgeReply(env, result)] else [])
  }

  /** `subscribe_session` on the next frame. */
  function EdgeSubscribe(s: State, known: bool): (t: State)
    requires s.edgePos < |s.sent|
    ensures t == s.(edgePos := s.edgePos + 1, replies := t.replies) && s.replies <= t.replies
  {
    var refusal := CtlError(s.sent[s.edgePos].seqNo, "subscription sid is unknown", "E-2001", None);
    s.(edgePos := s.edgePos + 1, replies := s.replies + if known then [] else [refusal])
  }

  // ---- Steps ----

  /**
   * The wait for an acknowledgement looks at its receiver before its timer, so a caller that times
   * out has found its sender unused; `Timeout` is the moment of that look.
   */
  ghost predicate Enabled(s: State, step: Step) {
    match step
    case Call(_, _) => true
    case Timeout(id) => id < |s.writes| && id !in s.outcome && forall how :: (id, how) !in s.resolved
    case Deliver(id) => id !in s.outcome && exists how :: (id, how) in s.resolved
    case Accept => s.running && s.queue != []
    case AcceptFails(_) => s.running && s.queue != []
    case EdgeSubscribes(_) => s.edgeUp && s.edgePos < |s.sent| && s.sent[s.edgePos].kind == Sub
    case EdgeWrites(_, _) => s.edgeUp && s.edgePos < |s.sent| && s.sent[s.edgePos].kind == Write
    case EdgePublishes(env) => s.edgeUp && env.kind != Ctl
    case EdgeStops => s.edgeUp
    case MirrorReceives(recorded) =>
      s.running && s.mirrorPos < |s.replies| && (s.replies[s.mirrorPos].kind != Data ==> recorded)
    case MirrorSeesClose => s.running
    case MirrorExits => s.running
  }

  ghost function Apply(r: Remote, s: State, step: Step): State
    requires Enabled(s, step)
  {
    match step
    case Call(body, target) =>
      // With no mirror task behind the channel, the caller gets an error at once.
      var request := Request(body, Effective(target));
      if s.running then s.(writes := s.writes + [request], queue := s.queue + [Queued(|s.writes|, request)]) else s
    case Timeout(id) => s.(outcome := s.outcome[id := false])
    case Deliver(id) => s.(outcome := s.outcome[id := (id, Sent(true)) in s.resolved])
    case Accept =>
      s.(queue := s.queue[1..], nextSeq := s.nextSeq + 1, pending := s.pending[s.nextSeq := s.queue[0].id],
         sent := s.sent + [FrameFor(r, s.nextSeq, s.queue[0].request)])
    case AcceptFails(delivered) =>
      // The request in hand is dropped on the way out, with everything else.
      EndRun(s, Dropped).(nextSeq := s.nextSeq + 1,
                          sent := s.sent + if delivered then [FrameFor(r, s.nextSeq, s.queue[0].request)] else [])
    case EdgeSubscribes(known) => EdgeSubscribe(s, known)
    case EdgeWrites(result, replied) => EdgeWrite(s, result, replied)
    case EdgePublishes(env) => s.(replies := s.replies + [env])
    case EdgeStops => s.(edgeUp := false)
    case MirrorReceives(recorded) => Receive(s, recorded)
    case MirrorSeesClose => EndRun(s, Sent(false))
    case MirrorExits => EndRun(s, Dropped)
  }

  /** The state after a run of steps, if each was possible when its turn came. */
  ghost function Run(r: Remote, steps: seq<Step>): Option<State> {
    if steps == [] then Some(Init(r))
    else
      match Run(r, steps[..|steps| - 1])
      case None => None
      case Some(s) =>
        var last := steps[|steps| - 1];
        if Enabled(s, last) then Some(Apply(r, s, last)) else None
  }

  // ---- What every step keeps ----

  ghost predicate IsResolved(s: State, id: nat) {
    exists k :: 0 <= k < |s.resolved| && s.resolved[k].0 == id
  }

  /** Requests are taken up in call order, and sequence numbers count them from 2. */
  ghost predicate QueueInv(s: State) {
    && s.nextSeq >= 2
    && (s.running ==> s.nextSeq - 2 + |s.queue| == |s.writes|)
    && (s.running ==> forall i :: 0 <= i < |s.queue| ==>
          s.queue[i] == Queued(s.nextSeq - 2 + i, s.writes[s.nextSeq - 2 + i]))
    && (!s.running ==> s.queue == [] && s.pending == map[] && s.nextSeq - 2 <= |s.writes|)
    && (forall q :: q in s.pending ==> 2 <= q < s.nextSeq && s.pending[q] == q - 2)
  }

  /** Each acknowledgement sender is used at most once, and exactly once when the run is over. */
  ghost predicate ResolvedInv(s: State) {
    && (forall i, j :: 0 <= i < j < |s.resolved| ==> s.resolved[i].0 != s.resolved[j].0)
    && (forall i :: 0 <= i < |s.resolved| ==> s.resolved[i].0 < |s.writes|)
    && (s.running ==> forall id: nat :: IsResolved(s, id) <==> id + 2 < s.nextSeq && id + 2 !in s.pending)
    && (!s.running ==> forall id: nat :: id < |s.writes| ==> IsResolved(s, id))
  }

  /** The edge sees the accepted requests, in order, as they were called. */
  ghost predicate SentInv(r: Remote, s: State) {
    && 1 <= |s.sent| <= s.nextSeq - 1 && (s.running ==> |s.sent| == s.nextSeq - 1)
    && |s.sent| - 1 <= |s.writes|
    && s.sent[0].kind == Sub && s.sent[0].seqNo == 1
    && (forall k :: 1 <= k < |s.sent| ==> s.sent[k] == FrameFor(r, k + 1, s.writes[k - 1]))
  }

  ghost predicate HandledInv(r: Remote, s: State) {
    && s.edgePos <= |s.sent|
    && |s.handled| == (if s.edgePos == 0 then 0 else s.edgePos - 1) <= |s.writes|
    && (forall j :: 0 <= j < |s.handled| ==>
          && s.handled[j].seqNo == j + 2
          && s.handled[j].request == WriteRequest(r.sid, r.ch, s.writes[j].body, s.writes[j].target))
  }

  lemma ReceiveKeepsQueue(s: State, recorded: bool)
    requires QueueInv(s) && s.running && s.mirrorPos < |s.replies|
    ensures QueueInv(Receive(s, recorded))
  {
    hide EndRun, IsAck, IsError;
  }

  lemma QueueStep(r: Remote, s: State, step: Step)
    requires QueueInv(s) && Enabled(s, step)
    ensures QueueInv(Apply(r, s, step))
  {
    hide EndRun, Receive, EdgeWrite, EdgeSubscribe, FrameFor;
    if step.MirrorReceives? {
      ReceiveKeepsQueue(s, step.recorded);
    }
  }

  lemma SentStep(r: Remote, s: State, step: Step)
    requires QueueInv(s) && SentInv(r, s) && Enabled(s, step)
    ensures SentInv(r, Apply(r, s, step))
  {
    hide FrameFor, EndRun, Receive, EdgeWrite, EdgeSubscribe;
  }

  lemma HandledStep(r: Remote, s: State, step: Step)
    requires QueueInv(s) && SentInv(r, s) && HandledInv(r, s) && Enabled(s, step)
    ensures HandledInv(r, Apply(r, s, step))
  {
    hide EndRun, Receive, EdgeSubscribe, EdgeWrite, FrameFor;
    match step
    case EdgeWrites(result, replied) => EdgeWriteHandled(r, s, result, replied);
    case EdgeSubscribes(_) => SubscribeIsFirst(r, s);
    case _ =>
  }

  lemma SubscribeIsFirst(r: Remote, s: State)
    requires SentInv(r, s) && s.edgePos < |s.sent| && s.sent[s.edgePos].kind == Sub
    ensures s.edgePos == 0
  {
  }

  lemma EdgeWriteHandled(r: Remote, s: State, result: EdgeResult, replied: bool)
    requires SentInv(r, s) && HandledInv(r, s) && Enabled(s, EdgeWrites(result, replied))
    ensures HandledInv(r, EdgeWrite(s, result, replied))
  {
    hide ParseWrite, EdgeReply;
    var w := s.writes[s.edgePos - 1];
    WriteFrameArrives(s.edgePos + 1, r.sid, r.ch, w.body, w.target);
  }

  // ---- Every acknowledgement sender is used exactly once ----

  ghost predicate NumberedFromTwo(pending: map<nat, nat>) {
    forall q :: q in pending ==> q >= 2 && pending[q] == q - 2
  }

  /** The ids of pending writes below sequence number `n`, in order. */
  ghost predicate Drained(d: seq<(nat, Resolution)>, pending: map<nat, nat>, n: nat) {
    && (forall k :: 0 <= k < |d| ==> d[k].0 + 2 in pending && d[k].0 + 2 < n)
    && (forall k, l :: 0 <= k < l < |d| ==> d[k].0 < d[l].0)
  }

  lemma {:induction false} DrainIds(pending: map<nat, nat>, n: nat, how: Resolution)
    requires NumberedFromTwo(pending)
    ensures Drained(Drain(pending, n, how), pending, n)
  {
    if n > 0 {
      DrainIds(pending, n - 1, how);
      var before, d := Drain(pending, n - 1, how), Drain(pending, n, how);
      assert forall k :: 0 <= k < |before| ==> d[k] == before[k];
      assert |d| > |before| ==> d[|before|] == (n - 3, how);
    }
  }

  lemma {:induction false} DrainCovers(pending: map<nat, nat>, n: nat, how: Resolution, q: nat) returns (k: nat)
    requires NumberedFromTwo(pending) && q in pending && q < n
    ensures k < |Drain(pending, n, how)| && Drain(pending, n, how)[k].0 == q - 2
  {
    k := if q == n - 1 then |Drain(pending, n - 1, how)| else 0;
    if q < n - 1 {
      k := DrainCovers(pending, n - 1, how, q);
    }
  }

  lemma EndRunCovers(s: State, how: Resolution, id: nat)
    requires QueueInv(s) && ResolvedInv(s) && s.running && id < |s.writes|
    ensures IsResolved(EndRun(s, how), id)
  {
    hide Drain, DropAll;
    var d, t := Drain(s.pending, s.nextSeq, how), EndRun(s, how).resolved;
    if id + 2 >= s.nextSeq {
      var i := id + 2 - s.nextSeq;
      assert t[|s.resolved| + |d| + i] == DropAll(s.queue)[i];
    } else if id + 2 in s.pending {
      var k := DrainCovers(s.pending, s.nextSeq, how, id + 2);
      assert t[|s.resolved| + k] == d[k];
    } else {
      assert IsResolved(s, id);
      var k :| 0 <= k < |s.resolved| && s.resolved[k].0 == id;
      assert t[k] == s.resolved[k];
    }
  }

  /** While the mirror runs, used senders belong to accepted writes that are no longer pending. */
  lemma ResolvedIds(s: State)
    requires ResolvedInv(s) && s.running
    ensures forall k :: 0 <= k < |s.resolved| ==> s.resolved[k].0 + 2 < s.nextSeq && s.resolved[k].0 + 2 !in s.pending
  {
    forall k | 0 <= k < |s.resolved|
      ensures s.resolved[k].0 + 2 < s.nextSeq && s.resolved[k].0 + 2 !in s.pending
    {
      assert IsResolved(s, s.resolved[k].0);
    }
  }

  lemma EndRunDistinct(s: State, how: Resolution)
    requires QueueInv(s) && ResolvedInv(s) && s.running
    ensures var t := EndRun(s, how).resolved;
      && (forall i, j :: 0 <= i < j < |t| ==> t[i].0 != t[j].0)
      && (forall i :: 0 <= i < |t| ==> t[i].0 < |s.writes|)
  {
    hide Drain, DropAll;
    ResolvedIds(s);
    DrainIds(s.pending, s.nextSeq, how);
    hide IsResolved;
    DistinctConcat(s.resolved, Drain(s.pending, s.nextSeq, how), DropAll(s.queue));
  }

  lemma DistinctConcat(a: seq<(nat, Resolution)>, b: seq<(nat, Resolution)>, c: seq<(nat, Resolution)>)
    requires forall i, j :: 0 <= i < j < |a| ==> a[i].0 != a[j].0
    requires forall i, j :: 0 <= i < j < |b| ==> b[i].0 != b[j].0
    requires forall i, j :: 0 <= i < j < |c| ==> c[i].0 != c[j].0
    requires forall i, j :: 0 <= i < |a| && 0 <= j < |b| ==> a[i].0 != b[j].0
    requires forall i, j :: 0 <= i < |a| && 0 <= j < |c| ==> a[i].0 != c[j].0
    requires forall i, j :: 0 <= i < |b| && 0 <= j < |c| ==> b[i].0 != c[j].0
    ensures forall i, j :: 0 <= i < j < |a + b + c| ==> (a + b + c)[i].0 != (a + b + c)[j].0
  {
  }

  lemma EndRunResolves(s: State, how: Resolution)
    requires QueueInv(s) && ResolvedInv(s) && s.running
    ensures ResolvedInv(EndRun(s, how))
  {
    EndRunDistinct(s, how);
    hide EndRun;
    forall id: nat | id < |s.writes|
      ensures IsResolved(EndRun(s, how), id)
    {
      EndRunCovers(s, how, id);
    }
  }

  lemma AckResolves(env: Envelope, s: State)
    requires QueueInv(s) && ResolvedInv(s) && s.running
    ensures QueueInv(ResolveWriteAck(env, s)) && ResolvedInv(ResolveWriteAck(env, s))
  {
    hide IsAck, IsError;
    var t := ResolveWriteAck(env, s);
    if t != s {
      var id := s.pending[env.seqNo];
      assert !IsResolved(s, id);
      assert t.resolved[|s.resolved|].0 == id;
      forall x: nat
        ensures IsResolved(t, x) <==> IsResolved(s, x) || x == id
      {
        if IsResolved(s, x) {
          var k :| 0 <= k < |s.resolved| && s.resolved[k].0 == x;
          assert t.resolved[k].0 == x;
        }
      }
    }
  }

  lemma ReceiveResolves(s: State, recorded: bool)
    requires QueueInv(s) && ResolvedInv(s) && s.running && s.mirrorPos < |s.replies|
    ensures ResolvedInv(Receive(s, recorded))
  {
    hide EndRun, ResolveWriteAck, IsError;
    var t := s.(mirrorPos := s.mirrorPos + 1);
    assert forall id: nat :: IsResolved(t, id) <==> IsResolved(s, id);
    AckResolves(s.replies[s.mirrorPos], t);
    EndRunResolves(t, Dropped);
    EndRunResolves(ResolveWriteAck(s.replies[s.mirrorPos], t), Dropped);
  }

  lemma ResolvedStep(r: Remote, s: State, step: Step)
    requires QueueInv(s) && ResolvedInv(s) && Enabled(s, step)
    ensures ResolvedInv(Apply(r, s, step))
  {
    hide EndRun, Receive, EdgeWrite, EdgeSubscribe, FrameFor;
    var t := Apply(r, s, step);
    match step
    case MirrorReceives(recorded) => ReceiveResolves(s, recorded);
    case MirrorSeesClose => EndRunResolves(s, Sent(false));
    case MirrorExits => EndRunResolves(s, Dropped);
    case AcceptFails(_) =>
      EndRunResolves(s, Dropped);
      assert forall id: nat :: IsResolved(t, id) <==> IsResolved(EndRun(s, Dropped), id);
    case _ =>
      assert forall id: nat :: IsResolved(t, id) <==> IsResolved(s, id);
  }

  // ---- Acknowledgements come from completed writes, one per write ----

  ghost predicate ReplyOk(s: State, env: Envelope) {
    && IsAck(env) != IsError(env)
    && 1 <= env.seqNo <= s.edgePos
    && (IsAck(env) ==> 2 <= env.seqNo < |s.handled| + 2 && s.handled[env.seqNo - 2].result == Completed)
  }

  /** Every control reply answers a frame the edge has read, and no frame is answered twice. */
  ghost predicate ReplyInv(s: State) {
    && s.mirrorPos <= |s.replies|
    && (forall p :: 0 <= p < |s.replies| && s.replies[p].kind == Ctl ==> ReplyOk(s, s.replies[p]))
    && (forall p, q :: 0 <= p < q < |s.replies| && s.replies[p].kind == Ctl && s.replies[q].kind == Ctl ==>
          s.replies[p].seqNo < s.replies[q].seqNo)
  }

  lemma EdgeReplyOk(r: Remote, s: State, result: EdgeResult, replied: bool)
    requires SentInv(r, s) && HandledInv(r, s) && ReplyInv(s) && 0 < s.edgePos < |s.sent|
    ensures ReplyInv(EdgeWrite(s, result, replied))
  {
    var w := s.writes[s.edgePos - 1];
    var env, t := s.sent[s.edgePos], EdgeWrite(s, result, replied);
    WriteFrameArrives(s.edgePos + 1, r.sid, r.ch, w.body, w.target);
    RepliesAreDistinguished(env.seqNo, r.sid, r.ch, |w.body|, "write failed", "E-1001", Some(r.sid));
    hide ParseWrite, IsAck, IsError, WriteAck, CtlError, WriteFrame;
    assert ReplyOk(t, EdgeReply(env, result));
    forall p | 0 <= p < |s.replies| && s.replies[p].kind == Ctl
      ensures ReplyOk(t, s.replies[p])
    {
      assert ReplyOk(s, s.replies[p]);
    }
  }

  lemma EdgeRefusalOk(r: Remote, s: State, known: bool)
    requires SentInv(r, s) && HandledInv(r, s) && ReplyInv(s) && s.edgePos == 0
    ensures ReplyInv(EdgeSubscribe(s, known))
  {
    var t := EdgeSubscribe(s, known);
    RepliesAreDistinguished(1, r.sid, r.ch, 0, "subscription sid is unknown", "E-2001", None);
    hide IsAck, IsError, WriteAck, CtlError;
    forall p | 0 <= p < |s.replies|
      ensures s.replies[p].kind != Ctl
    {
      assert s.replies[p].kind == Ctl ==> ReplyOk(s, s.replies[p]);
    }
  }

  lemma OtherStepReplies(r: Remote, s: State, step: Step)
    requires ReplyInv(s) && Enabled(s, step) && !step.EdgeWrites? && !step.EdgeSubscribes?
    ensures var t := Apply(r, s, step);
      && s.replies <= t.replies && t.handled == s.handled && t.edgePos == s.edgePos && t.mirrorPos <= |t.replies|
      && forall p :: |s.replies| <= p < |t.replies| ==> t.replies[p].kind != Ctl
  {
    hide EndRun, Receive, EdgeWrite, EdgeSubscribe, FrameFor, ReplyOk;
  }

  lemma ReplyInvKept(s: State, t: State)
    requires ReplyInv(s) && s.replies <= t.replies && t.handled == s.handled && t.edgePos == s.edgePos
    requires t.mirrorPos <= |t.replies| && forall p :: |s.replies| <= p < |t.replies| ==> t.replies[p].kind != Ctl
    ensures ReplyInv(t)
  {
    hide IsAck, IsError;
    forall p | 0 <= p < |t.replies| && t.replies[p].kind == Ctl
      ensures ReplyOk(t, t.replies[p])
    {
      assert ReplyOk(s, s.replies[p]);
    }
  }

  lemma ReplyStep(r: Remote, s: State, step: Step)
    requires SentInv(r, s) && HandledInv(r, s) && ReplyInv(s) && Enabled(s, step)
    ensures ReplyInv(Apply(r, s, step))
  {
    hide EndRun, Receive, EdgeWrite, EdgeSubscribe, IsAck, IsError, ReplyInv;
    match step
    case EdgeWrites(result, replied) => EdgeReplyOk(r, s, result, replied);
    case EdgeSubscribes(known) =>
      assert s.edgePos == 0;
      EdgeRefusalOk(r, s, known);
    case _ =>
      hide Apply, Enabled;
      OtherStepReplies(r, s, step);
      ReplyInvKept(s, Apply(r, s, step));
  }

  /** The mirror has read an acknowledgement for this write. */
  ghost predicate AckRead(s: State, id: nat) {
    exists p :: 0 <= p < s.mirrorPos <= |s.replies| && IsAck(s.replies[p]) && s.replies[p].seqNo == id + 2
  }

  ghost predicate ReplyRead(s: State, id: nat) {
    exists p :: 0 <= p < s.mirrorPos <= |s.replies| && s.replies[p].kind == Ctl && s.replies[p].seqNo == id + 2
  }

  /** A sender carries Ok exactly when the mirror has read the acknowledgement of that very write. */
  ghost predicate AckInv(s: State) {
    && (forall id: nat :: (id, Sent(true)) in s.resolved <==> AckRead(s, id))
    && (s.running ==> forall id: nat :: IsResolved(s, id) ==> ReplyRead(s, id))
  }

  lemma EndRunAcks(s: State, how: Resolution)
    requires QueueInv(s) && AckInv(s) && s.running && how != Sent(true)
    ensures AckInv(EndRun(s, how))
  {
    var t := EndRun(s, how);
    DrainHow(s.pending, s.nextSeq, how);
    hide Drain, DropAll, IsAck;
    forall id: nat
      ensures (id, Sent(true)) in t.resolved <==> (id, Sent(true)) in s.resolved
      ensures AckRead(t, id) <==> AckRead(s, id)
    {
    }
  }

  lemma {:induction false} DrainHow(pending: map<nat, nat>, n: nat, how: Resolution)
    ensures forall k :: 0 <= k < |Drain(pending, n, how)| ==> Drain(pending, n, how)[k].1 == how
  {
    if n > 0 {
      DrainHow(pending, n - 1, how);
    }
  }

  /** When the mirror reads an acknowledgement, the write it answers is still pending. */
  lemma AckFindsPending(r: Remote, s: State)
    requires QueueInv(s) && ResolvedInv(s) && SentInv(r, s) && HandledInv(r, s) && ReplyInv(s) && AckInv(s)
    requires s.running && s.mirrorPos < |s.replies| && s.replies[s.mirrorPos].kind == Ctl
    requires s.replies[s.mirrorPos].seqNo >= 2
    ensures s.replies[s.mirrorPos].seqNo in s.pending
  {
    hide IsAck, IsError;
    var env := s.replies[s.mirrorPos];
    assert ReplyOk(s, env);
    var id := env.seqNo - 2;
    assert IsResolved(s, id) ==> ReplyRead(s, id);
  }

  lemma AckInvAfterResolve(r: Remote, s: State)
    requires QueueInv(s) && ResolvedInv(s) && SentInv(r, s) && HandledInv(r, s) && ReplyInv(s) && AckInv(s)
    requires s.running && s.mirrorPos < |s.replies| && s.replies[s.mirrorPos].kind == Ctl
    ensures AckInv(ResolveWriteAck(s.replies[s.mirrorPos], s.(mirrorPos := s.mirrorPos + 1)))
  {
    hide IsAck, IsError;
    var env := s.replies[s.mirrorPos];
    var t := ResolveWriteAck(env, s.(mirrorPos := s.mirrorPos + 1));
    assert ReplyOk(s, env);
    if env.seqNo >= 2 {
      AckFindsPending(r, s);
    }
    forall id: nat
      ensures (id, Sent(true)) in t.resolved <==> AckRead(t, id)
      ensures IsResolved(t, id) ==> ReplyRead(t, id)
    {
      assert t.replies[s.mirrorPos] == env;
      if IsResolved(t, id) && id + 2 != env.seqNo {
        var k :| 0 <= k < |t.resolved| && t.resolved[k].0 == id;
        assert s.resolved[k].0 == id;
        assert IsResolved(s, id) && ReplyRead(s, id);
      }
    }
  }

  lemma ReceiveAcks(r: Remote, s: State, recorded: bool)
    requires QueueInv(s) && ResolvedInv(s) && SentInv(r, s) && HandledInv(r, s) && ReplyInv(s) && AckInv(s)
    requires s.running && s.mirrorPos < |s.replies|
    ensures AckInv(Receive(s, recorded))
  {
    hide EndRun, ResolveWriteAck, QueueInv, ResolvedInv, SentInv, HandledInv, ReplyInv;
    var env, t := s.replies[s.mirrorPos], s.(mirrorPos := s.mirrorPos + 1);
    if env.kind == Ctl {
      AckInvAfterResolve(r, s);
      QueueAfterResolve(env, t, s);
      EndRunAcks(ResolveWriteAck(env, t), Dropped);
    } else {
      OtherReadKeepsAcks(s);
      QueueAfterResolve(env, t, s);
      EndRunAcks(t, Dropped);
    }
  }

  lemma QueueAfterResolve(env: Envelope, t: State, s: State)
    requires QueueInv(s) && t == s.(mirrorPos := t.mirrorPos)
    ensures QueueInv(t) && QueueInv(ResolveWriteAck(env, t))
  {
    hide IsAck, IsError;
  }

  /** Reading anything but a control frame leaves the acknowledgements as they were. */
  lemma OtherReadKeepsAcks(s: State)
    requires AckInv(s) && s.mirrorPos < |s.replies| && s.replies[s.mirrorPos].kind != Ctl
    ensures AckInv(s.(mirrorPos := s.mirrorPos + 1))
  {
    var t := s.(mirrorPos := s.mirrorPos + 1);
    forall id: nat
      ensures AckRead(t, id) <==> AckRead(s, id)
      ensures ReplyRead(s, id) ==> ReplyRead(t, id)
      ensures IsResolved(t, id) <==> IsResolved(s, id)
    {
    }
  }

  lemma AckStep(r: Remote, s: State, step: Step)
    requires QueueInv(s) && ResolvedInv(s) && SentInv(r, s) && HandledInv(r, s) && ReplyInv(s) && AckInv(s)
    requires Enabled(s, step)
    ensures AckInv(Apply(r, s, step))
  {
    hide EndRun, Receive, EdgeWrite, EdgeSubscribe, FrameFor, IsAck, IsError;
    hide QueueInv, SentInv, HandledInv, ResolvedInv;
    var t := Apply(r, s, step);
    match step
    case MirrorReceives(recorded) => ReceiveAcks(r, s, recorded);
    case MirrorSeesClose => EndRunAcks(s, Sent(false));
    case MirrorExits => EndRunAcks(s, Dropped);
    case AcceptFails(_) =>
      EndRunAcks(s, Dropped);
      RepliesGrow(EndRun(s, Dropped), t);
    case _ => RepliesGrow(s, t);
  }

  lemma RepliesGrow(s: State, t: State)
    requires AckInv(s) && t.resolved == s.resolved && t.running == s.running
    requires s.replies <= t.replies && t.mirrorPos == s.mirrorPos <= |s.replies|
    ensures AckInv(t)
  {
    forall id: nat
      ensures AckRead(t, id) <==> AckRead(s, id)
      ensures ReplyRead(t, id) <==> ReplyRead(s, id)
      ensures IsResolved(t, id) <==> IsResolved(s, id)
    {
    }
  }

  // ---- Callers ----

  ghost predicate OutcomeInv(s: State) {
    forall id :: id in s.outcome && s.outcome[id] ==> (id, Sent(true)) in s.resolved
  }

  lemma OutcomeStep(r: Remote, s: State, step: Step)
    requires OutcomeInv(s) && Enabled(s, step)
    ensures OutcomeInv(Apply(r, s, step))
  {
    hide Drain, DropAll, EdgeWrite, EdgeSubscribe, FrameFor, IsAck, IsError;
    var t := Apply(r, s, step);
    assert s.resolved <= t.resolved;
  }

  ghost predicate Inv(r: Remote, s: State) {
    QueueInv(s) && ResolvedInv(s) && SentInv(r, s) && HandledInv(r, s) && ReplyInv(s) && AckInv(s) && OutcomeInv(s)
  }

  lemma InitInv(r: Remote)
    ensures Inv(r, Init(r))
  {
  }

  lemma {:induction false} RunInv(r: Remote, steps: seq<Step>)
    requires Run(r, steps).Some?
    ensures Inv(r, Run(r, steps).value)
  {
    if steps == [] {
      InitInv(r);
    } else {
      var s, last := Run(r, steps[..|steps| - 1]).value, steps[|steps| - 1];
      RunInv(r, steps[..|steps| - 1]);
      hide Apply, Enabled, QueueInv, ResolvedInv, SentInv, HandledInv, ReplyInv, AckInv, OutcomeInv;
      QueueStep(r, s, last);
      ResolvedStep(r, s, last);
      SentStep(r, s, last);
      HandledStep(r, s, last);
      ReplyStep(r, s, last);
      AckStep(r, s, last);
      OutcomeStep(r, s, last);
    }
  }

  // ---- Main results, over every run ----

  /**
   * A caller is told Ok only if the edge completed the sink write of exactly that body, for exactly
   * that target, under the sequence number of that write. No other reply, close, timeout or exit
   * can produce it.
   */
  lemma OkMeansApplied(r: Remote, steps: seq<Step>, id: nat)
    requires Run(r, steps).Some?
    requires id in Run(r, steps).value.outcome && Run(r, steps).value.outcome[id]
    ensures var s := Run(r, steps).value;
      && id < |s.handled| && id < |s.writes|
      && s.handled[id] == Handled(id + 2, WriteRequest(r.sid, r.ch, s.writes[id].body, s.writes[id].target), Completed)
  {
    var s := Run(r, steps).value;
    RunInv(r, steps);
    assert AckRead(s, id);
    var p :| 0 <= p < s.mirrorPos <= |s.replies| && IsAck(s.replies[p]) && s.replies[p].seqNo == id + 2;
    assert ReplyOk(s, s.replies[p]);
  }

  /** By the time the run is over, every request taken into the queue has used its sender exactly once. */
  lemma ResolvedExactlyOnce(r: Remote, steps: seq<Step>, id: nat)
    requires Run(r, steps).Some? && !Run(r, steps).value.running && id < |Run(r, steps).value.writes|
    ensures var s := Run(r, steps).value;
      exists k :: 0 <= k < |s.resolved| && s.resolved[k].0 == id
                  && forall j :: 0 <= j < |s.resolved| && s.resolved[j].0 == id ==> j == k
  {
    var s := Run(r, steps).value;
    RunInv(r, steps);
    assert IsResolved(s, id);
  }

  /**
   * At any moment the writes the edge has acted on are the first ones the callers made, in call
   * order, each once, each with its own body and target.
   */
  lemma EdgeFollowsCallers(r: Remote, steps: seq<Step>)
    requires Run(r, steps).Some?
    ensures var s := Run(r, steps).value; |s.handled| <= |s.writes| && forall j :: 0 <= j < |s.handled| ==>
      && s.handled[j].seqNo == j + 2
      && s.handled[j].request == WriteRequest(r.sid, r.ch, s.writes[j].body, s.writes[j].target)
  {
    RunInv(r, steps);
  }

  /** Exactly when a sender carries Ok: when the mirror has read that write's acknowledgement. */
  lemma SenderOkIffAckRead(r: Remote, steps: seq<Step>, id: nat)
    requires Run(r, steps).Some?
    ensures (id, Sent(true)) in Run(r, steps).value.resolved <==> AckRead(Run(r, steps).value, id)
  {
    RunInv(r, steps);
  }

  /** A caller is answered once, by its own time-out or by the delivery of what its sender carried. */
  lemma AnsweredByStep(r: Remote, s: State, step: Step, id: nat)
    requires Enabled(s, step)
    ensures var t := Apply(r, s, step);
      && (id in s.outcome ==> id in t.outcome && t.outcome[id] == s.outcome[id])
      && (id !in s.outcome && id in t.outcome ==>
            && (step == Timeout(id) || step == Deliver(id))
            && (t.outcome[id] <==> (id, Sent(true)) in s.resolved))
  {
    hide Drain, DropAll, EdgeWrite, EdgeSubscribe, FrameFor, IsAck, IsError;
  }

  /**
   * What a caller is told, in every run: Ok if and only if the mirror had read the acknowledgement of
   * its write by the time the caller was answered, which is at step `k`.
   */
  lemma {:induction false} OkIffAckRead(r: Remote, steps: seq<Step>, id: nat) returns (k: nat)
    requires Run(r, steps).Some? && id in Run(r, steps).value.outcome
    ensures k < |steps| && Run(r, steps[..k]).Some? && id !in Run(r, steps[..k]).value.outcome
    ensures Answers(steps[k], id)
    ensures Run(r, steps).value.outcome[id] <==> AckRead(Run(r, steps[..k]).value, id)
  {
    hide Apply, Enabled, AckRead;
    var front, last := steps[..|steps| - 1], steps[|steps| - 1];
    var s := Run(r, front).value;
    AnsweredByStep(r, s, last, id);
    if id in s.outcome {
      k := OkIffAckRead(r, front, id);
      assert front[..k] == steps[..k];
    } else {
      k := |steps| - 1;
      SenderOkIffAckRead(r, front, id);
    }
  }

  /** Step `k` hands caller `id` its answer, and the mirror has read the acknowledgement by then. */
  ghost predicate DeliversAck(r: Remote, steps: seq<Step>, id: nat, k: int) {
    0 <= k < |steps| && steps[k] == Deliver(id) && Run(r, steps[..k]).Some? && AckRead(Run(r, steps[..k]).value, id)
  }

  predicate Answers(step: Step, id: nat) {
    step == Timeout(id) || step == Deliver(id)
  }

  lemma {:induction false} StaysAnswered(r: Remote, steps: seq<Step>, id: nat, k: nat)
    requires Run(r, steps).Some? && k < |steps| && Answers(steps[k], id)
    ensures id in Run(r, steps).value.outcome
  {
    hide Drain, DropAll, EdgeWrite, EdgeSubscribe, FrameFor, IsAck, IsError;
    var front, last := steps[..|steps| - 1], steps[|steps| - 1];
    if k < |steps| - 1 {
      StaysAnswered(r, front, id, k);
      AnsweredByStep(r, Run(r, front).value, last, id);
    }
  }

  lemma {:induction false} RunPrefix(r: Remote, steps: seq<Step>, k: nat)
    requires Run(r, steps).Some? && k < |steps|
    ensures Run(r, steps[..k]).Some? && Enabled(Run(r, steps[..k]).value, steps[k])
  {
    hide Apply, Enabled;
    if k < |steps| - 1 {
      RunPrefix(r, steps[..|steps| - 1], k);
      assert steps[..|steps| - 1][..k] == steps[..k];
    }
  }

  lemma OneAnswer(r: Remote, steps: seq<Step>, id: nat, j: nat, k: nat)
    requires Run(r, steps).Some? && j < k < |steps| && Answers(steps[j], id)
    ensures !Answers(steps[k], id)
  {
    RunPrefix(r, steps, k);
    hide Run;
    StaysAnswered(r, steps[..k], id, j);
  }

  lemma AckedIsDelivered(r: Remote, steps: seq<Step>, id: nat, k: nat)
    requires Run(r, steps).Some? && k < |steps| && Answers(steps[k], id)
    requires Run(r, steps[..k]).Some? && AckRead(Run(r, steps[..k]).value, id)
    ensures steps[k] == Deliver(id)
  {
    hide Run, AckRead;
    RunPrefix(r, steps, k);
    SenderOkIffAckRead(r, steps[..k], id);
  }

  /** A caller is told Ok if and only if its sender was delivered after the mirror had read the acknowledgement. */
  lemma OkIffDelivered(r: Remote, steps: seq<Step>, id: nat)
    requires Run(r, steps).Some? && id in Run(r, steps).value.outcome
    ensures Run(r, steps).value.outcome[id] <==> exists k :: DeliversAck(r, steps, id, k)
  {
    hide AckRead, Run;
    var k := OkIffAckRead(r, steps, id);
    if AckRead(Run(r, steps[..k]).value, id) {
      AckedIsDelivered(r, steps, id, k);
      assert DeliversAck(r, steps, id, k);
    }
    forall j | DeliversAck(r, steps, id, j) ensures j == k {
      if j < k {
        OneAnswer(r, steps, id, j, k);
      } else if k < j {
        OneAnswer(r, steps, id, k, j);
      }
    }
  }

  lemma RunSnoc(r: Remote, steps: seq<Step>, last: Step)
    requires Run(r, steps).Some? && Enabled(Run(r, steps).value, last)
    ensures Run(r, steps + [last]) == Some(Apply(r, Run(r, steps).value, last))
  {
    assert (steps + [last])[..|steps|] == steps;
  }

  /** One write on its way: queued, sent, and next in line at the edge. */
  lemma OneWriteSent(r: Remote, body: seq<byte>) returns (steps: seq<Step>)
    ensures Run(r, steps).Some?
    ensures var s := Run(r, steps).value;
      && s.edgeUp && s.edgePos == 1 && |s.sent| == 2 && s.sent[1] == WriteFrame(2, r.sid, r.ch, body, None)
      && |s.writes| == 1 && s.handled == [] && s.outcome == map[] && s.resolved == []
      && s.running && s.pending == map[2 := 0] && s.replies == [] && s.mirrorPos == 0
  {
    hide WriteFrame;
    steps := [] + [Call(body, None)];
    RunSnoc(r, [], Call(body, None));
    RunSnoc(r, steps, Accept);
    steps := steps + [Accept];
    RunSnoc(r, steps, EdgeSubscribes(true));
    steps := steps + [EdgeSubscribes(true)];
  }

  /** The converse of `OkMeansApplied` fails: the edge may complete a write whose caller gave up. */
  lemma AppliedButTimedOut(r: Remote, body: seq<byte>) returns (steps: seq<Step>)
    ensures Run(r, steps).Some?
    ensures var s := Run(r, steps).value;
      |s.handled| == 1 && s.handled[0].result == Completed && s.outcome == map[0 := false]
  {
    WriteFrameArrives(2, r.sid, r.ch, body, None);
    hide ParseWrite, EdgeReply;
    steps := OneWriteSent(r, body);
    RunSnoc(r, steps, EdgeWrites(Completed, true));
    steps := steps + [EdgeWrites(Completed, true)];
    RunSnoc(r, steps, Timeout(0));
    steps := steps + [Timeout(0)];
  }

  // ---- How a run ends ----

  /** What ends a run: a close, an exit, a write that cannot be sent, an error reply, or data that cannot be recorded.
      */
  ghost predicate Ends(s: State, step: Step) {
    match step
    case AcceptFails(_) => true
    case MirrorReceives(recorded) => s.mirrorPos < |s.replies| && (IsError(s.replies[s.mirrorPos]) || !recorded)
    case MirrorSeesClose => true
    case MirrorExits => true
    case _ => false
  }

  lemma EndsByStep(r: Remote, s: State, step: Step)
    requires Enabled(s, step)
    ensures Apply(r, s, step).running <==> s.running && !Ends(s, step)
  {
    hide Drain, DropAll, EdgeWrite, EdgeSubscribe, FrameFor, IsAck;
  }

  ghost predicate EndsAt(r: Remote, steps: seq<Step>, k: int) {
    0 <= k < |steps| && Run(r, steps[..k]).Some? && Ends(Run(r, steps[..k]).value, steps[k])
  }

  /** The mirror runs exactly as long as none of these has happened. */
  lemma {:induction false} RunningIff(r: Remote, steps: seq<Step>)
    requires Run(r, steps).Some?
    ensures Run(r, steps).value.running <==> forall k :: 0 <= k < |steps| ==> !EndsAt(r, steps, k)
  {
    hide Apply, Enabled, Ends;
    if steps == [] {
      assert Run(r, steps).value == Init(r);
    } else {
      var n := |steps| - 1;
      var front := steps[..n];
      RunningIff(r, front);
      RunPrefix(r, steps, n);
      EndsByStep(r, Run(r, front).value, steps[n]);
      forall k | 0 <= k < n ensures EndsAt(r, steps, k) <==> EndsAt(r, front, k) {
        assert front[..k] == steps[..k];
      }
      assert EndsAt(r, steps, n) <==> Ends(Run(r, front).value, steps[n]);
    }
  }

  /** An error reply is the last thing the mirror reads. */
  ghost predicate ErrorIsLast(s: State) {
    && s.mirrorPos <= |s.replies|
    && (forall p :: 0 <= p < s.mirrorPos - 1 ==> !IsError(s.replies[p]))
    && (s.running && s.mirrorPos > 0 ==> !IsError(s.replies[s.mirrorPos - 1]))
  }

  lemma ErrorIsLastStep(r: Remote, s: State, step: Step)
    requires ErrorIsLast(s) && Enabled(s, step)
    ensures ErrorIsLast(Apply(r, s, step))
  {
    hide Drain, DropAll, EdgeReply, FrameFor, IsError, IsAck, ParseWrite, WriteAck, CtlError;
    EndsByStep(r, s, step);
  }

  lemma {:induction false} ErrorIsLastRun(r: Remote, steps: seq<Step>)
    requires Run(r, steps).Some?
    ensures ErrorIsLast(Run(r, steps).value)
  {
    hide Apply, Enabled, ErrorIsLast;
    if steps == [] {
      assert Run(r, steps).value == Init(r);
      ErrorIsLastInit(r);
    } else {
      ErrorIsLastRun(r, steps[..|steps| - 1]);
      ErrorIsLastStep(r, Run(r, steps[..|steps| - 1]).value, steps[|steps| - 1]);
    }
  }

  lemma ErrorIsLastInit(r: Remote)
    ensures ErrorIsLast(Init(r))
  {
  }

  /** As long as the mirror runs, it has read no error reply. */
  lemma RunningReadNoError(r: Remote, steps: seq<Step>, p: nat)
    requires Run(r, steps).Some? && Run(r, steps).value.running && p < Run(r, steps).value.mirrorPos
    ensures var s := Run(r, steps).value; p < |s.replies| && !IsError(s.replies[p])
  {
    hide IsError, Run;
    ErrorIsLastRun(r, steps);
  }

  /** A caller told Ok had its acknowledgement read at a place with no error reply before it. */
  lemma OkHadNoErrorBefore(r: Remote, steps: seq<Step>, id: nat) returns (p: nat)
    requires Run(r, steps).Some?
    requires id in Run(r, steps).value.outcome && Run(r, steps).value.outcome[id]
    ensures var s := Run(r, steps).value;
      && p < s.mirrorPos <= |s.replies| && IsAck(s.replies[p]) && s.replies[p].seqNo == id + 2
      && forall q :: 0 <= q < p ==> !IsError(s.replies[q])
  {
    hide IsAck, IsError, Run;
    var s := Run(r, steps).value;
    RunInv(r, steps);
    ErrorIsLastRun(r, steps);
    assert AckRead(s, id);
    p :| 0 <= p < s.mirrorPos <= |s.replies| && IsAck(s.replies[p]) && s.replies[p].seqNo == id + 2;
  }

  // ---- What the callers asked for ----

  /** The calls made while the mirror ran, in order; an empty target is none. */
  ghost function CallsMade(r: Remote, steps: seq<Step>): seq<Request>
    requires Run(r, steps).Some?
  {
    if steps == [] then []
    else
      var front, last := steps[..|steps| - 1], steps[|steps| - 1];
      CallsMade(r, front)
      + if last.Call? && Run(r, front).value.running
        then [Request(last.body, if last.target == Some("") then None else last.target)] else []
  }

  lemma WritesByStep(r: Remote, s: State, step: Step)
    requires Enabled(s, step)
    ensures Apply(r, s, step).writes ==
      s.writes + if step.Call? && s.running
                 then [Request(step.body, if step.target == Some("") then None else step.target)] else []
  {
    hide EndRun, Receive, EdgeWrite, EdgeSubscribe, FrameFor;
  }

  /** What the run knows as writes are the calls, with their own bodies and targets. */
  lemma {:induction false} WritesAreCalls(r: Remote, steps: seq<Step>)
    requires Run(r, steps).Some?
    ensures Run(r, steps).value.writes == CallsMade(r, steps)
  {
    hide Apply, Enabled;
    if steps == [] {
      assert Run(r, steps).value == Init(r);
    } else {
      WritesAreCalls(r, steps[..|steps| - 1]);
      WritesByStep(r, Run(r, steps[..|steps| - 1]).value, steps[|steps| - 1]);
    }
  }

  // ---- What the edge answers ----

  /** In every run: the edge answers a write it has acted on with an acknowledgement if it completed, and with an
      error if not, under the sequence number of that write. */
  lemma EdgeAnswers(r: Remote, steps: seq<Step>, result: EdgeResult)
    requires Run(r, steps).Some? && Enabled(Run(r, steps).value, EdgeWrites(result, true))
    ensures var s, t := Run(r, steps).value, Apply(r, Run(r, steps).value, EdgeWrites(result, true));
      && |t.handled| == |s.handled| + 1 && t.handled[|s.handled|].result == result
      && |t.replies| == |s.replies| + 1 && t.replies[|s.replies|].seqNo == t.handled[|s.handled|].seqNo
      && (IsAck(t.replies[|s.replies|]) <==> result == Completed)
      && (IsError(t.replies[|s.replies|]) <==> result != Completed)
      && (if result == Completed then
            MapGet(t.replies[|s.replies|].payload, "bytes_written") == Some(Num(|t.handled[|s.handled|].request.body|))
          else
            && MapGet(t.replies[|s.replies|].payload, "message") == Some(Str("write failed"))
            && MapGet(t.replies[|s.replies|].payload, "error_id") == Some(Str("E-1001")))
  {
    RunInv(r, steps);
    hide Run, MapGet;
    var s := Run(r, steps).value;
    var w := s.writes[s.edgePos - 1];
    assert s.sent[s.edgePos] == FrameFor(r, s.edgePos + 1, w);
    WriteFrameArrives(s.edgePos + 1, r.sid, r.ch, w.body, w.target);
    RepliesAreDistinguished(s.edgePos + 1, r.sid, r.ch, |w.body|, "write failed", "E-1001", Some(r.sid));
    ReplyFields(s.edgePos + 1, r.sid, r.ch, |w.body|, "write failed", "E-1001", Some(r.sid));
    hide ParseWrite, WriteFrame, WriteAck, CtlError, IsAck, IsError;
  }

  /** A subscription to an unknown session is refused under the sequence number of its frame. */
  lemma EdgeRefuses(r: Remote, steps: seq<Step>)
    requires Run(r, steps).Some? && Enabled(Run(r, steps).value, EdgeSubscribes(false))
    ensures var s, t := Run(r, steps).value, Apply(r, Run(r, steps).value, EdgeSubscribes(false));
      && |t.replies| == |s.replies| + 1 && IsError(t.replies[|s.replies|])
      && t.replies[|s.replies|].seqNo == s.sent[s.edgePos].seqNo
      && MapGet(t.replies[|s.replies|].payload, "message") == Some(Str("subscription sid is unknown"))
      && MapGet(t.replies[|s.replies|].payload, "error_id") == Some(Str("E-2001"))
  {
    hide Run, MapGet, CtlError, IsError;
    var n := Run(r, steps).value.sent[Run(r, steps).value.edgePos].seqNo;
    RepliesAreDistinguished(n, 0, 0, 0, "subscription sid is unknown", "E-2001", None);
    ReplyFields(n, 0, 0, 0, "subscription sid is unknown", "E-2001", None);
  }

  lemma StoppedStep(r: Remote, s: State, step: Step)
    requires Enabled(s, step) && !s.edgeUp
    ensures var t := Apply(r, s, step);
      !t.edgeUp && t.edgePos == s.edgePos && t.handled == s.handled && t.replies == s.replies
  {
    hide FrameFor;
  }

  /** Once the edge has stopped, it takes nothing up, acts on nothing and answers nothing. */
  lemma {:induction false} StoppedEdgeIsSilent(r: Remote, steps: seq<Step>, k: nat)
    requires Run(r, steps).Some? && k < |steps| && steps[k] == EdgeStops
    ensures Run(r, steps[..k]).Some?
    ensures var s, t := Run(r, steps[..k]).value, Run(r, steps).value;
      !t.edgeUp && t.edgePos == s.edgePos && t.handled == s.handled && t.replies == s.replies
  {
    hide Enabled, Apply;
    var front := steps[..|steps| - 1];
    if k == |steps| - 1 {
      StopsNow(r, Run(r, front).value);
    } else {
      StoppedEdgeIsSilent(r, front, k);
      assert front[..k] == steps[..k];
      StoppedStep(r, Run(r, front).value, steps[|steps| - 1]);
    }
  }

  lemma StopsNow(r: Remote, s: State)
    requires Enabled(s, EdgeStops)
    ensures Apply(r, s, EdgeStops) == s.(edgeUp := false)
  {
  }

  /** A send that fails ends the run; whether the frame went out all the same is up to the network. */
  lemma FailedSend(r: Remote, s: State, delivered: bool)
    requires Enabled(s, AcceptFails(delivered))
    ensures var t := Apply(r, s, AcceptFails(delivered));
      && !t.running && t.queue == [] && t.pending == map[]
      && t.sent == s.sent + if delivered then [FrameFor(r, s.nextSeq, s.queue[0].request)] else []
  {
    hide FrameFor;
  }

  lemma {:induction false} DrainHolds(pending: map<nat, nat>, n: nat, how: Resolution, q: nat)
    ensures q < n && q in pending ==> (pending[q], how) in Drain(pending, n, how)
    ensures forall x :: x in Drain(pending, n, how) ==> x.1 == how
  {
    if n > 0 {
      DrainHolds(pending, n - 1, how, q);
    }
  }

  /** A running mirror may end at any time. If it saw the connection close, every sender that waits for an answer is
      told so; otherwise, and for requests still queued, the sender is dropped. Nobody is told Ok by an end. */
  lemma EndFailsAll(r: Remote, steps: seq<Step>, closed: bool)
    requires Run(r, steps).Some? && Run(r, steps).value.running
    ensures var step := if closed then MirrorSeesClose else MirrorExits; Run(r, steps + [step]).Some?
    ensures var step, how := if closed then MirrorSeesClose else MirrorExits, if closed then Sent(false) else Dropped;
      var s, t := Run(r, steps).value, Run(r, steps + [step]).value;
      && !t.running && s.resolved <= t.resolved
      && (forall q :: q in s.pending ==> (s.pending[q], how) in t.resolved)
      && (forall i :: 0 <= i < |s.queue| ==> (s.queue[i].id, Dropped) in t.resolved)
      && (forall k :: |s.resolved| <= k < |t.resolved| ==> t.resolved[k].1 != Sent(true))
  {
    var step, how := if closed then MirrorSeesClose else MirrorExits, if closed then Sent(false) else Dropped;
    var s := Run(r, steps).value;
    RunInv(r, steps);
    RunSnoc(r, steps, step);
    hide Run, Drain, DropAll;
    var drained, dropped := Drain(s.pending, s.nextSeq, how), DropAll(s.queue);
    assert EndRun(s, how).resolved == s.resolved + drained + dropped;
    forall q: nat ensures q in s.pending ==> (s.pending[q], how) in drained {
      DrainHolds(s.pending, s.nextSeq, how, q);
    }
    DrainHolds(s.pending, s.nextSeq, how, 0);
    assert forall i :: 0 <= i < |s.queue| ==> dropped[i] in dropped;
    assert forall i :: 0 <= i < |drained| ==> drained[i] in drained;
  }

  /** Nothing stands in the way of Ok: every write can be answered with it. */
  lemma OkReachable(r: Remote, body: seq<byte>) returns (steps: seq<Step>)
    ensures Run(r, steps).Some? && Run(r, steps).value.outcome == map[0 := true]
  {
    WriteFrameArrives(2, r.sid, r.ch, body, None);
    RepliesAreDistinguished(2, r.sid, r.ch, |body|, "write failed", "E-1001", Some(r.sid));
    hide ParseWrite, WriteAck, CtlError, IsAck, IsError;
    steps := OneWriteSent(r, body);
    RunSnoc(r, steps, EdgeWrites(Completed, true));
    steps := steps + [EdgeWrites(Completed, true)];
    RunSnoc(r, steps, MirrorReceives(true));
    steps := steps + [MirrorReceives(true)];
    assert Run(r, steps).value.resolved == [(0, Sent(true))];
    RunSnoc(r, steps, Deliver(0));
    steps := steps + [Deliver(0)];
  }

  // ---- The sink in front of the queue ----

  class RemoteWriteSink {
    var pendingTarget: Option<string>
    var requests: seq<Request>         // what went into the mirror's queue

    constructor ()
      ensures pendingTarget == None && requests == []
    {
      pendingTarget, requests := None, [];
    }

    /** `ctl`: only `udp-next-target` means anything, and an empty target clears it. */
    method Ctl(kind: string, data: Option<string>)
      modifies this`pendingTarget
      ensures pendingTarget == if kind == "udp-next-target" then Effective(data) else old(pendingTarget)
    {
      if kind == "udp-next-target" {
        pendingTarget := if data.Some? && data.value != "" then data else None;
      }
    }

    /** `write` up to the point where it waits: the target is used up even if the mirror is gone. */
    method Write(body: seq<byte>, mirrorRunning: bool) returns (queued: bool)
      modifies this
      ensures pendingTarget == None && queued == mirrorRunning
      ensures requests == old(requests) + if queued then [Request(body, old(pendingTarget))] else []
    {
      var request := Request(body, pendingTarget);
      pendingTarget := None;
      queued := mirrorRunning;
      if queued {
        requests := requests + [request];
      }
    }

    /**
     * `SourceManager::write` under the sink's lock. Between calls no target is left over, so a
     * target travels with its own body and with no other.
     */
    method WriteFor(body: seq<byte>, target: Option<string>, mirrorRunning: bool) returns (queued: bool)
      requires pendingTarget == None
      modifies this
      ensures pendingTarget == None && queued == mirrorRunning
      ensures requests == old(requests) + if queued then [Request(body, Effective(target))] else []
    {
      if target.Some? {
        Ctl("udp-next-target", target);
      }
      queued := Write(body, mirrorRunning);
    }
  }
}
