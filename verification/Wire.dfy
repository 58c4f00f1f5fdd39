/** Wire envelopes, as far as write-back needs them. A session id is carried as a value. */
module Wire {
  import opened Octets
  import opened Results

  type Sid = nat

  datatype Value = Str(text: string) | Bin(bytes: seq<byte>) | Num(n: nat)
  type Payload = seq<(string, Value)>

  datatype FrameType =
    | Hello | Auth | Sub | Unsub | Data | Ctl | Write | Metrics | Clientlog | Ping | Pong | ClockSync | PanelPriority
    | Child

  datatype Envelope = Envelope(kind: FrameType, sid: Option<Sid>, ch: Option<nat>, seqNo: nat, payload: Payload)

  /** The first entry under `key`. */
  function MapGet(payload: Payload, key: string): Option<Value> {
    if payload == [] then None
    else if payload[0].0 == key then Some(payload[0].1)
    else MapGet(payload[1..], key)
  }

  function MapStr(payload: Payload, key: string): Option<string> {
    match MapGet(payload, key)
    case Some(Str(text)) => Some(text)
    case _ => None
  }

  /** `remote_write_envelope`. */
  function WriteFrame(seqNo: nat, sid: Sid, ch: nat, body: seq<byte>, target: Option<string>): Envelope {
    var payload := [("body", Bin(body))] + if target.Some? then [("target", Str(target.value))] else [];
    Envelope(Write, Some(sid), Some(ch), seqNo, payload)
  }

  /** `write_ack`. */
  function WriteAck(seqNo: nat, sid: Sid, ch: nat, bytesWritten: nat): Envelope {
    Envelope(Ctl, Some(sid), Some(ch), seqNo,
             [("event", Str("write_ack")), ("message", Str("write completed")), ("sid", Num(sid)), ("ch", Num(ch)),
              ("bytes_written", Num(bytesWritten))])
  }

  /** `ctl_error_inner`. */
  function CtlError(seqNo: nat, message: string, errorId: string, sid: Option<Sid>): Envelope {
    var payload := [("event", Str("error")), ("message", Str(message)), ("error_id", Str(errorId))];
    Envelope(Ctl, sid, None, seqNo, payload + if sid.Some? then [("sid", Num(sid.value))] else [])
  }

  /** What the receiving server understands of a write frame, or the reply that refuses it. */
  datatype WriteRequest = WriteRequest(sid: Sid, ch: nat, body: seq<byte>, target: Option<string>)

  function ParseWrite(env: Envelope): Result<WriteRequest, Envelope> {
    if env.sid.None? then Err(CtlError(env.seqNo, "write missing sid", "E-2001", None))
    else
      match MapGet(env.payload, "body")
      case Some(Bin(body)) =>
        Ok(WriteRequest(env.sid.value, if env.ch.Some? then env.ch.value else 0, body, MapStr(env.payload, "target")))
      case _ => Err(CtlError(env.seqNo, "write payload.body bin is required", "E-2001", None))
  }

  predicate IsAck(env: Envelope) {
    env.kind == Ctl && MapStr(env.payload, "event") == Some("write_ack")
  }

  predicate IsError(env: Envelope) {
    env.kind == Ctl && MapStr(env.payload, "event") == Some("error")
  }

  lemma MapGetHit(key: string, value: Value, rest: Payload)
    ensures MapGet([(key, value)] + rest, key) == Some(value)
  {
  }

  lemma MapGetMiss(other: string, value: Value, rest: Payload, key: string)
    requires other != key
    ensures MapGet([(other, value)] + rest, key) == MapGet(rest, key)
  {
    assert ([(other, value)] + rest)[1..] == rest;
  }

  /** The body and the target arrive as they were sent, and a missing target stays missing. */
  lemma WriteFrameArrives(seqNo: nat, sid: Sid, ch: nat, body: seq<byte>, target: Option<string>)
    ensures ParseWrite(WriteFrame(seqNo, sid, ch, body, target)) == Ok(WriteRequest(sid, ch, body, target))
  {
    var rest: Payload := if target.Some? then [("target", Str(target.value))] else [];
    MapGetHit("body", Bin(body), rest);
    assert "body"[0] != "target"[0];
    MapGetMiss("body", Bin(body), rest, "target");
    if target.Some? {
      MapGetHit("target", Str(target.value), []);
      assert rest == [("target", Str(target.value))] + [];
    }
  }

  /** The two replies of the edge are told apart by their event alone. */
  lemma RepliesAreDistinguished(
    seqNo: nat, sid: Sid, ch: nat, n: nat, message: string, errorId: string, owner: Option<Sid>)
    ensures var ack, error := WriteAck(seqNo, sid, ch, n), CtlError(seqNo, message, errorId, owner);
      && ack.seqNo == error.seqNo == seqNo && ack.kind == error.kind == Ctl
      && IsAck(ack) && !IsError(ack) && IsError(error) && !IsAck(error)
  {
    var ack, error := WriteAck(seqNo, sid, ch, n), CtlError(seqNo, message, errorId, owner);
    assert ack.payload[0] == ("event", Str("write_ack")) && error.payload[0] == ("event", Str("error"));
    assert "write_ack"[0] != "error"[0];
  }

  lemma MapGetSkips(payload: Payload, key: string, n: nat)
    requires n < |payload| && payload[n].0 == key && forall i :: 0 <= i < n ==> payload[i].0 != key
    ensures MapGet(payload, key) == Some(payload[n].1)
    decreases n
  {
    if n > 0 {
      MapGetSkips(payload[1..], key, n - 1);
    }
  }

  /** What a reader finds in the two replies. */
  lemma ReplyFields(seqNo: nat, sid: Sid, ch: nat, n: nat, message: string, errorId: string, owner: Option<Sid>)
    ensures var ack := WriteAck(seqNo, sid, ch, n).payload;
      && MapGet(ack, "message") == Some(Str("write completed")) && MapGet(ack, "bytes_written") == Some(Num(n))
      && MapGet(ack, "sid") == Some(Num(sid)) && MapGet(ack, "ch") == Some(Num(ch))
    ensures var error := CtlError(seqNo, message, errorId, owner).payload;
      && MapGet(error, "message") == Some(Str(message)) && MapGet(error, "error_id") == Some(Str(errorId))
      && MapGet(error, "sid") == if owner.Some? then Some(Num(owner.value)) else None
  {
    hide MapGet;
    KeysDiffer();
    var ack, error := WriteAck(seqNo, sid, ch, n).payload, CtlError(seqNo, message, errorId, owner).payload;
    MapGetSkips(ack, "message", 1);
    MapGetSkips(ack, "sid", 2);
    MapGetSkips(ack, "ch", 3);
    MapGetSkips(ack, "bytes_written", 4);
    MapGetSkips(error, "message", 1);
    MapGetSkips(error, "error_id", 2);
    if owner.Some? {
      MapGetSkips(error, "sid", 3);
    } else {
      MapGetNone(error, "sid");
    }
  }

  lemma KeysDiffer()
    ensures "event" != "message" && "event" != "sid" && "event" != "ch" && "event" != "bytes_written"
    ensures "message" != "sid" && "message" != "ch" && "message" != "bytes_written" && "sid" != "ch"
    ensures "sid" != "bytes_written" && "ch" != "bytes_written"
    ensures "event" != "error_id" && "message" != "error_id" && "error_id" != "sid"
  {
    assert "event"[0] == 'e' && "message"[0] == 'm' && "sid"[0] == 's' && "ch"[0] == 'c' && "bytes_written"[0] == 'b';
    assert "error_id"[1] == 'r' && "event"[1] == 'v' && "error_id"[0] == 'e';
  }

  lemma {:induction false} MapGetNone(payload: Payload, key: string)
    requires forall i :: 0 <= i < |payload| ==> payload[i].0 != key
    ensures MapGet(payload, key) == None
  {
    if payload != [] {
      MapGetNone(payload[1..], key);
    }
  }

  /** A write frame is refused exactly when it lacks a session or a binary body, under its own sequence number and with
      E-2001; without a channel it means channel 0. */
  lemma WriteRefusedIff(env: Envelope)
    ensures ParseWrite(env).Err? <==> env.sid.None? || !(exists b :: MapGet(env.payload, "body") == Some(Bin(b)))
    ensures var r := ParseWrite(env);
      r.Err? ==>
        && IsError(r.error) && r.error.seqNo == env.seqNo && MapGet(r.error.payload, "error_id") == Some(Str("E-2001"))
        && MapGet(r.error.payload, "message")
           == Some(Str(if env.sid.None? then "write missing sid" else "write payload.body bin is required"))
    ensures ParseWrite(env).Ok? && env.ch.None? ==> ParseWrite(env).value.ch == 0
  {
    hide MapGet, CtlError;
    var m := if env.sid.None? then "write missing sid" else "write payload.body bin is required";
    RepliesAreDistinguished(env.seqNo, 0, 0, 0, m, "E-2001", None);
    ReplyFields(env.seqNo, 0, 0, 0, m, "E-2001", None);
  }
}
