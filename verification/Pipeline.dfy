/** Content sampling, replay of the sampled frames, and the runner loop of one source. */
module Pipeline {
  import opened Octets
  import opened Results
  import EncodingChoice

  type Bytes = seq<byte>

  datatype Frame =
    | Raw(data: Bytes)
    | Datagram(src: Option<string>, data: Bytes)
    | Ssh(stream: byte, data: Bytes)
    | Visa(eom: bool, data: Bytes)
    | Other(kind: string, data: Bytes)

  datatype Failure = Failure

  function Payloads(frames: seq<Frame>): (p: seq<Bytes>)
    ensures |p| == |frames|
    ensures forall i :: 0 <= i < |frames| ==> p[i] == frames[i].data
  {
    seq(|frames|, i requires 0 <= i < |frames| => frames[i].data)
  }

  // ---- Sources ----

  /** A source is what it will deliver: its frames in order, and then either the end of input, again and again, or an
      error. */
  class Source {
    const frames: seq<Frame>
    const opensFine: bool
    const endsFine: bool
    var pos: nat
    var opens: nat
    var closes: nat

    ghost predicate Valid()
      reads this
    {
      pos <= |frames|
    }

    constructor (frames: seq<Frame>, opensFine: bool, endsFine: bool)
      ensures Valid() && this.frames == frames && this.opensFine == opensFine && this.endsFine == endsFine
      ensures pos == 0 && opens == 0 && closes == 0
    {
      this.frames, this.opensFine, this.endsFine := frames, opensFine, endsFine;
      pos, opens, closes := 0, 0, 0;
    }

    method Open() returns (ok: bool)
      modifies this`opens
      ensures ok == opensFine && opens == old(opens) + 1
    {
      opens := opens + 1;
      return opensFine;
    }

    method Recv() returns (r: Result<Option<Frame>, Failure>)
      requires Valid()
      modifies this`pos
      ensures Valid()
      ensures old(pos) < |frames| ==> r == Ok(Some(frames[old(pos)])) && pos == old(pos) + 1
      ensures old(pos) == |frames| ==> r == (if endsFine then Ok(None) else Err(Failure)) && pos == old(pos)
    {
      if pos < |frames| {
        r := Ok(Some(frames[pos]));
        pos := pos + 1;
      } else {
        r := if endsFine then Ok(None) else Err(Failure);
      }
    }

    method Close()
      modifies this`closes
      ensures closes == old(closes) + 1
    {
      closes := closes + 1;
    }
  }

  /** A source with frames already taken from it, which are handed out first. */
  class PrefetchedSource {
    const inner: Source
    var prefetched: seq<Frame>
    var isOpen: bool

    ghost predicate Valid()
      reads this, inner
    {
      inner.Valid()
    }

    /** The frames still to be received. */
    ghost function Pending(): seq<Frame>
      requires Valid()
      reads this, inner
    {
      prefetched + inner.frames[inner.pos..]
    }

    constructor (inner: Source, prefetched: seq<Frame>, isOpen: bool)
      requires inner.Valid()
      ensures Valid() && this.inner == inner && this.prefetched == prefetched && this.isOpen == isOpen
    {
      this.inner, this.prefetched, this.isOpen := inner, prefetched, isOpen;
    }

    /** Opens the inner source unless that has been done. */
    method Open() returns (ok: bool)
      requires Valid()
      modifies this`isOpen, inner`opens
      ensures Valid() && Pending() == old(Pending())
      ensures old(isOpen) ==> ok && isOpen && inner.opens == old(inner.opens)
      ensures !old(isOpen) ==> ok == isOpen == inner.opensFine && inner.opens == old(inner.opens) + 1
    {
      ok := true;
      if !isOpen {
        ok := inner.Open();
        isOpen := ok;
      }
    }

    method Recv() returns (r: Result<Option<Frame>, Failure>)
      requires Valid()
      modifies this`prefetched, inner`pos
      ensures Valid()
      ensures old(Pending()) != [] ==> r == Ok(Some(old(Pending())[0])) && Pending() == old(Pending())[1..]
      ensures old(Pending()) == [] ==> r == (if inner.endsFine then Ok(None) else Err(Failure)) && Pending() == []
    {
      if prefetched != [] {
        r := Ok(Some(prefetched[0]));
        prefetched := prefetched[1..];
      } else {
        r := inner.Recv();
      }
    }

    method Close()
      modifies this`isOpen, inner`closes
      ensures !isOpen && inner.closes == old(inner.closes) + 1
    {
      isOpen := false;
      inner.Close();
    }
  }

  // ---- Sampling ----

  type DetectionMode = EncodingChoice.Mode

  predicate Samples(mode: DetectionMode) {
    mode.Auto? || mode.Suggest?
  }

  function Take(s: Bytes, n: nat): Bytes {
    if |s| <= n then s else s[..n]
  }

  /** All payload bytes of the first `n` frames. */
  function Content(frames: seq<Frame>, n: nat): Bytes
    requires n <= |frames|
  {
    if n == 0 then [] else Content(frames, n - 1) + frames[n - 1].data
  }

  lemma {:induction false} ContentGrows(frames: seq<Frame>, m: nat, n: nat)
    requires m <= n <= |frames|
    ensures |Content(frames, m)| <= |Content(frames, n)|
  {
    if m < n {
      ContentGrows(frames, m, n - 1);
    }
  }

  /** Sampling takes `n` frames: up to the sample limit, the end of input, or the first receive that times out. */
  ghost predicate SampleSize(frames: seq<Frame>, patience: nat, n: nat) {
    n <= |frames| && n <= patience
    && (forall m :: 0 <= m < n ==> |Content(frames, m)| < 65_536)
    && (|Content(frames, n)| >= 65_536 || n == |frames| || n == patience)
  }

  /** The source fails while it is being sampled. */
  predicate SamplingFails(frames: seq<Frame>, endsFine: bool, patience: nat) {
    !endsFine && |frames| < patience && |Content(frames, |frames|)| < 65_536
  }

  lemma SampleStart(frames: seq<Frame>)
    ensures [] == Take(Content(frames, 0), SAMPLE_LIMIT)
  {
  }

  lemma SampleStep(frames: seq<Frame>, n: nat, bytes: Bytes)
    requires n < |frames| && bytes == Take(Content(frames, n), SAMPLE_LIMIT) && |bytes| < SAMPLE_LIMIT
    ensures bytes + Take(frames[n].data, SAMPLE_LIMIT - |bytes|) == Take(Content(frames, n + 1), SAMPLE_LIMIT)
    ensures |Content(frames, n)| < SAMPLE_LIMIT
  {
  }

  lemma SampleFull(frames: seq<Frame>, n: nat)
    requires n <= |frames|
    ensures |Take(Content(frames, n), SAMPLE_LIMIT)| < SAMPLE_LIMIT <==> |Content(frames, n)| < SAMPLE_LIMIT
  {
  }

  /** `prefetch_for_detection`; `patience` is how many receives answer before one times out. */
  method Prefetch(source: Source, mode: DetectionMode, patience: nat)
    returns (r: Result<PrefetchedSource, Failure>, sample: Option<Bytes>)
    requires source.Valid() && source.pos == 0 && source.opens == 0
    modifies source`pos, source`opens
    ensures r.Err? <==> Samples(mode) && (!source.opensFine || SamplingFails(source.frames, source.endsFine, patience))
    ensures r.Ok? ==> fresh(r.value) && r.value.Valid() && r.value.inner == source && r.value.Pending() == source.frames
    ensures r.Ok? ==> r.value.isOpen == sample.Some? == (mode.Auto? || mode.Suggest?)
    ensures r.Ok? ==> source.opens == if Samples(mode) then 1 else 0
    ensures r.Ok? && Samples(mode) ==>
      var n := |r.value.prefetched|;
      SampleSize(source.frames, patience, n) && sample.value == Take(Content(source.frames, n), 65_536)
  {
    hide Content, Take;
    if !mode.Auto? && !mode.Suggest? {
      var p := new PrefetchedSource(source, [], false);
      return Ok(p), None;
    }
    var ok := source.Open();
    if !ok {
      return Err(Failure), None;
    }
    var prefetched: seq<Frame> := [];
    var bytes: Bytes := [];
    SampleStart(source.frames);
    while |bytes| < SAMPLE_LIMIT
      invariant source.Valid() && source.pos == |prefetched| <= patience && prefetched == source.frames[..source.pos]
      invariant source.opens == 1
      invariant bytes == Take(Content(source.frames, source.pos), SAMPLE_LIMIT)
      invariant forall m :: 0 <= m < source.pos ==> |Content(source.frames, m)| < SAMPLE_LIMIT
      decreases |source.frames| - source.pos
    {
      if |prefetched| == patience {
        break;
      }
      var next := source.Recv();
      match next
      case Err(_) =>
        SampleFull(source.frames, source.pos);
        return Err(Failure), None;
      case Ok(None) =>
        break;
      case Ok(Some(frame)) =>
        SampleStep(source.frames, source.pos - 1, bytes);
        var remaining := SAMPLE_LIMIT - |bytes|;
        bytes := bytes + Take(frame.data, remaining);
        prefetched := prefetched + [frame];
    }
    SampleFull(source.frames, source.pos);
    NoSamplingFailure(source.frames, source.endsFine, patience, source.pos);
    var p := new PrefetchedSource(source, prefetched, true);
    return Ok(p), Some(bytes);
  }

  lemma NoSamplingFailure(frames: seq<Frame>, endsFine: bool, patience: nat, n: nat)
    requires n <= |frames| && n <= patience
    requires |Content(frames, n)| >= SAMPLE_LIMIT || n == patience || endsFine
    ensures !SamplingFails(frames, endsFine, patience)
  {
    ContentGrows(frames, n, |frames|);
  }

  // ---- The runner ----

  /** What a framer makes of the buffered bytes: more are needed, too many are waiting, or a frame made from the first
      `taken` of them. */
  datatype Poll = More | Overflow | Emit(framed: Bytes, taken: nat)

  /** A framer consumes the bytes of the frames it emits. What it says may depend on how often it has been asked,
      and so on any state it keeps. */
  type Framer = f: (nat, Bytes) -> Poll | forall n, b :: f(n, b).Emit? ==> 0 < f(n, b).taken <= |b|
    witness ((_, _) => More)

  /** The framer of the default pipeline. */
  const PASSTHROUGH: Framer := (_, b) => if b == [] then More else Emit(b, |b|)

  datatype Decoded = Nothing | Record | Fails

  /** What a decoder makes of the `n`-th frame. */
  type Decoder = (nat, Bytes) -> Decoded

  /** Everything that is decided elsewhere; `registered(n)` says whether the session is still known at the `n`-th
      payload. */
  datatype World = World(
    logOpens: bool, rawFails: nat -> bool, tooLarge: Bytes -> bool, registered: nat -> bool, framer: Framer,
    decode: Decoder, recordFails: nat -> bool, commitFails: bool, logCloseFails: bool, sourceCloseFails: bool)

  /** A payload with its sequence number. */
  type Numbered = (nat, Bytes)

  /** What has been written (raw payloads, numbered bodies handed to the fan-out, those of them that reached it,
      records), what the framer has taken and emitted and what it has left in the buffer. */
  datatype Log = Log(
    raw: seq<Bytes>, published: seq<Numbered>, reached: seq<Numbered>, buf: Bytes, taken: Bytes, polls: nat,
    frames: seq<Bytes>, records: seq<Bytes>)

  datatype Progress = Going(log: Log) | Stopped(log: Log)

  const NOTHING_YET := Log([], [], [], [], [], 0, [], [])

  /** One frame handed to the decoder. */
  function HandleFramed(log: Log, framed: Bytes, w: World): (p: Progress)
    ensures p.log == log.(frames := log.frames + [framed], records := p.log.records)
  {
    var counted := log.(frames := log.frames + [framed]);
    match w.decode(|log.frames|, framed)
    case Nothing => Going(counted)
    case Fails => Stopped(counted)
    case Record =>
      if w.recordFails(|log.records|) then Stopped(counted) else Going(counted.(records := log.records + [framed]))
  }

  function Polled(log: Log): Log {
    log.(polls := log.polls + 1)
  }

  function TakeOff(log: Log, n: nat): (t: Log)
    requires n <= |log.buf|
    ensures t == log.(buf := t.buf, taken := t.taken)
  {
    log.(buf := log.buf[n..], taken := log.taken + log.buf[..n])
  }

  /** Frames taken from the buffer until the framer asks for more, or something fails. */
  function HandleFrames(log: Log, w: World): Progress
    decreases |log.buf|
  {
    match w.framer(log.polls, log.buf)
    case More => Going(Polled(log))
    case Overflow => Stopped(Polled(log))
    case Emit(framed, taken) =>
      match HandleFramed(TakeOff(Polled(log), taken), framed, w)
      case Stopped(t) => Stopped(t)
      case Going(t) => HandleFrames(t, w)
  }

  /** A payload that got past the log and the size check, handed to the fan-out. */
  function Publish(log: Log, payload: Bytes, w: World): Log {
    var entry := (|log.raw| + 1, payload);
    log.(raw := log.raw + [payload], published := log.published + [entry],
         reached := log.reached + if w.registered(entry.0) then [entry] else [], buf := log.buf + payload)
  }

  /** One received payload, up to the first error. */
  function Handle(log: Log, payload: Bytes, w: World): Progress {
    if w.rawFails(|log.raw|) then Stopped(log)
    else if w.tooLarge(payload) then Stopped(log.(raw := log.raw + [payload]))
    else HandleFrames(Publish(log, payload, w), w)
  }

  function HandleAll(p: Progress, payloads: seq<Bytes>, w: World): Progress
    decreases |payloads|
  {
    if payloads == [] || p.Stopped? then p else HandleAll(Handle(p.log, payloads[0], w), payloads[1..], w)
  }

  /** How a run ended: stopped by an error while handling a payload, or not; its log committed or not; all well or
      not. */
  datatype Outcome = Outcome(log: Log, stopped: bool, committed: bool, ok: bool)

  const NEVER_RAN := Outcome(NOTHING_YET, false, false, false)

  /** What running a source comes to, told from its frames alone. */
  function RunOutcome(frames: seq<Frame>, endsFine: bool, w: World): Outcome {
    match HandleAll(Going(NOTHING_YET), Payloads(frames), w)
    case Stopped(log) => Outcome(log, true, false, false)
    case Going(log) =>
      if !endsFine || w.commitFails then Outcome(log, false, false, false)
      else Outcome(log, false, true, !w.logCloseFails && !w.sourceCloseFails)
  }

  /** The runner's inner loop. */
  method DrainFramer(start: Log, w: World) returns (p: Progress)
    ensures p == HandleFrames(start, w)
  {
    var log := start;
    while true
      invariant HandleFrames(log, w) == HandleFrames(start, w)
      decreases |log.buf|
    {
      var answer := w.framer(log.polls, log.buf);
      log := Polled(log);
      match answer
      case More =>
        return Going(log);
      case Overflow =>
        return Stopped(log);
      case Emit(framed, taken) =>
        log := TakeOff(log, taken);
        var index := |log.frames|;
        log := log.(frames := log.frames + [framed]);
        match w.decode(index, framed)
        case Nothing =>
        case Fails =>
          return Stopped(log);
        case Record =>
          if w.recordFails(|log.records|) {
            return Stopped(log);
          }
          log := log.(records := log.records + [framed]);
    }
  }

  /** `run_source_once_notify`. */
  method Run(source: PrefetchedSource, w: World) returns (out: Outcome)
    requires source.Valid()
    modifies source, source.inner
    ensures old(source.isOpen) || source.inner.opensFine ==>
      out == RunOutcome(old(source.Pending()), source.inner.endsFine, w)
    ensures !old(source.isOpen) && !source.inner.opensFine ==> out == Outcome(NOTHING_YET, false, false, false)
    ensures source.inner.opens == old(source.inner.opens) + if old(source.isOpen) then 0 else 1
    ensures source.inner.closes == old(source.inner.closes) + if out.committed && !w.logCloseFails then 1 else 0
  {
    hide HandleAll, HandleFrames;
    var isOpen := source.Open();
    if !isOpen {
      return NEVER_RAN;
    }
    var log := NOTHING_YET;
    ghost var all := Payloads(source.Pending());
    while true
      invariant source.Valid() && source.inner.closes == old(source.inner.closes)
      invariant source.inner.opens == old(source.inner.opens) + if old(source.isOpen) then 0 else 1
      invariant HandleAll(Going(log), Payloads(source.Pending()), w) == HandleAll(Going(NOTHING_YET), all, w)
      decreases |source.Pending()|
    {
      HandleNext(log, source.Pending(), w);
      var next := source.Recv();
      if next.Err? {
        return Outcome(log, false, false, false);
      }
      if next.value.None? {
        break;
      }
      var raw := next.value.value.data;
      if w.rawFails(|log.raw|) {
        return Outcome(log, true, false, false);
      }
      if w.tooLarge(raw) {
        return Outcome(log.(raw := log.raw + [raw]), true, false, false);
      }
      var drained := DrainFramer(Publish(log, raw, w), w);
      log := drained.log;
      if drained.Stopped? {
        return Outcome(log, true, false, false);
      }
    }
    if w.commitFails {
      return Outcome(log, false, false, false);
    }
    if w.logCloseFails {
      return Outcome(log, false, true, false);
    }
    source.Close();
    return Outcome(log, false, true, !w.sourceCloseFails);
  }

  lemma HandleNext(log: Log, pending: seq<Frame>, w: World)
    ensures pending == [] ==> HandleAll(Going(log), Payloads(pending), w) == Going(log)
    ensures pending != [] ==>
      HandleAll(Going(log), Payloads(pending), w) ==
      HandleAll(Handle(log, pending[0].data, w), Payloads(pending[1..]), w)
    ensures pending != [] && Handle(log, pending[0].data, w).Stopped? ==>
      HandleAll(Going(log), Payloads(pending), w) == Handle(log, pending[0].data, w)
  {
    hide Handle;
    if pending != [] {
      assert Payloads(pending)[1..] == Payloads(pending[1..]);
    }
  }

  // ---- What every run keeps ----

  /** The bodies that reached subscribers' fan-out: those handed over while the session was known. */
  ghost function ReachedOf(published: seq<Numbered>, w: World): seq<Numbered> {
    if published == [] then []
    else
      var last := published[|published| - 1];
      ReachedOf(published[..|published| - 1], w) + if w.registered(last.0) then [last] else []
  }

  /** After the payloads `seen`: the raw log is the first of them, what was published is the same again with its
      place in the stream, and the log is at most one payload ahead of the stream. The framer has been given what
      was published: the bytes it has taken and those still buffered are the published bytes, in order. */
  ghost predicate InStep(log: Log, seen: seq<Bytes>, w: World) {
    log.raw <= seen
    && |log.published| <= |log.raw| <= |log.published| + 1
    && (forall i :: 0 <= i < |log.published| ==> log.published[i] == (i + 1, seen[i]))
    && log.reached == ReachedOf(log.published, w)
    && log.taken + log.buf == Flatten(seen[..|log.published|])
  }

  /** Between two receives nothing is outstanding, and the framer has asked for more. */
  ghost predicate CaughtUp(log: Log, seen: seq<Bytes>, w: World) {
    InStep(log, seen, w) && log.raw == seen && |log.published| == |seen|
    && (seen != [] ==> log.polls > 0 && w.framer(log.polls - 1, log.buf) == More)
  }

  /** Framing moves bytes from the buffer to the framer and leaves the rest of the log alone. */
  lemma {:induction false} FramesKeep(log: Log, w: World)
    ensures var t := HandleFrames(log, w).log;
      && t.raw == log.raw && t.published == log.published && t.reached == log.reached
      && t.taken + t.buf == log.taken + log.buf
    ensures var p := HandleFrames(log, w);
      p.Going? ==> p.log.polls > 0 && w.framer(p.log.polls - 1, p.log.buf) == More
    decreases |log.buf|
  {
    match w.framer(log.polls, log.buf)
    case More =>
    case Overflow =>
    case Emit(framed, taken) =>
      var off := TakeOff(Polled(log), taken);
      assert log.buf[..taken] + log.buf[taken..] == log.buf;
      assert off.taken + off.buf == log.taken + log.buf;
      match HandleFramed(off, framed, w)
      case Stopped(_) =>
      case Going(t) => FramesKeep(t, w);
  }

  /** A payload that made it past log and stream. */
  ghost predicate Sent(log: Log, payload: Bytes, t: Log, w: World) {
    var entry := (|log.raw| + 1, payload);
    t.raw == log.raw + [payload] && t.published == log.published + [entry]
    && t.reached == log.reached + (if w.registered(entry.0) then [entry] else [])
    && t.taken + t.buf == log.taken + log.buf + payload
  }

  /** The three ways to handle a payload: stopped before the log, stopped before the stream, or sent. */
  lemma HandleShape(log: Log, payload: Bytes, w: World)
    ensures var p := Handle(log, payload, w);
      (p == Stopped(log) || p == Stopped(log.(raw := log.raw + [payload])) || Sent(log, payload, p.log, w))
      && (p.Going? ==>
            Sent(log, payload, p.log, w) && p.log.polls > 0 && w.framer(p.log.polls - 1, p.log.buf) == More)
  {
    hide HandleFrames;
    assert log.taken + (log.buf + payload) == log.taken + log.buf + payload;
    FramesKeep(Publish(log, payload, w), w);
  }

  lemma ReachedSnoc(published: seq<Numbered>, entry: Numbered, w: World)
    ensures ReachedOf(published + [entry], w) ==
      ReachedOf(published, w) + if w.registered(entry.0) then [entry] else []
  {
    assert (published + [entry])[..|published|] == published;
  }

  lemma SentKeeps(log: Log, seen: seq<Bytes>, payload: Bytes, t: Log, w: World)
    requires CaughtUp(log, seen, w) && Sent(log, payload, t, w)
    ensures InStep(t, seen + [payload], w)
    ensures t.polls > 0 && w.framer(t.polls - 1, t.buf) == More ==> CaughtUp(t, seen + [payload], w)
  {
    hide Flatten, ReachedOf;
    assert seen[..|seen|] == seen && (seen + [payload])[..|seen| + 1] == seen + [payload];
    FlattenSnoc(seen, payload);
    ReachedSnoc(log.published, (|log.raw| + 1, payload), w);
  }

  lemma KeptKeeps(log: Log, seen: seq<Bytes>, payload: Bytes, w: World)
    requires CaughtUp(log, seen, w)
    ensures InStep(log, seen + [payload], w) && InStep(log.(raw := log.raw + [payload]), seen + [payload], w)
  {
    hide Flatten, ReachedOf;
    assert (seen + [payload])[..|seen|] == seen[..|seen|];
  }

  lemma HandleKeeps(log: Log, seen: seq<Bytes>, payload: Bytes, w: World)
    requires CaughtUp(log, seen, w)
    ensures InStep(Handle(log, payload, w).log, seen + [payload], w)
    ensures Handle(log, payload, w).Going? ==> CaughtUp(Handle(log, payload, w).log, seen + [payload], w)
  {
    hide Handle, CaughtUp, InStep, Sent;
    HandleShape(log, payload, w);
    var p := Handle(log, payload, w);
    if Sent(log, payload, p.log, w) {
      SentKeeps(log, seen, payload, p.log, w);
    } else {
      KeptKeeps(log, seen, payload, w);
    }
  }

  lemma {:induction false} HandleAllKeeps(log: Log, seen: seq<Bytes>, rest: seq<Bytes>, w: World)
    requires CaughtUp(log, seen, w)
    ensures InStep(HandleAll(Going(log), rest, w).log, seen + rest, w)
    ensures HandleAll(Going(log), rest, w).Going? ==> CaughtUp(HandleAll(Going(log), rest, w).log, seen + rest, w)
    decreases |rest|
  {
    hide Handle, CaughtUp, InStep;
    if rest == [] {
      assert seen + rest == seen;
      CaughtUpInStep(log, seen, w);
    } else {
      HandleKeeps(log, seen, rest[0], w);
      var p := Handle(log, rest[0], w);
      assert seen + rest == (seen + [rest[0]]) + rest[1..];
      if p.Going? {
        HandleAllKeeps(p.log, seen + [rest[0]], rest[1..], w);
      } else {
        InStepMore(p.log, seen + [rest[0]], rest[1..], w);
      }
    }
  }

  lemma CaughtUpInStep(log: Log, seen: seq<Bytes>, w: World)
    requires CaughtUp(log, seen, w)
    ensures InStep(log, seen, w)
  {
  }

  lemma InStepMore(log: Log, seen: seq<Bytes>, rest: seq<Bytes>, w: World)
    requires InStep(log, seen, w)
    ensures InStep(log, seen + rest, w)
  {
    hide Flatten, ReachedOf;
    assert (seen + rest)[..|log.published|] == seen[..|log.published|];
  }

  /** Every run, however it ends: log, stream and framer agree with the source, and the log is committed only once
      it holds everything the source delivered. */
  lemma RunKeepsStep(frames: seq<Frame>, endsFine: bool, w: World)
    ensures var out := RunOutcome(frames, endsFine, w); InStep(out.log, Payloads(frames), w)
    ensures var out := RunOutcome(frames, endsFine, w); out.ok ==> out.committed
    ensures var out := RunOutcome(frames, endsFine, w);
      out.committed ==> endsFine && !out.stopped && CaughtUp(out.log, Payloads(frames), w)
  {
    hide HandleAll;
    assert CaughtUp(NOTHING_YET, [], w);
    assert [] + Payloads(frames) == Payloads(frames);
    HandleAllKeeps(NOTHING_YET, [], Payloads(frames), w);
  }

  /** In the default pipeline nothing stays in the buffer: once a run is committed, every byte has been framed. */
  lemma PassthroughFramesAll(frames: seq<Frame>, endsFine: bool, w: World)
    requires w.framer == PASSTHROUGH && RunOutcome(frames, endsFine, w).committed
    ensures RunOutcome(frames, endsFine, w).log.taken == Flatten(Payloads(frames))
  {
    hide RunOutcome, Flatten;
    RunKeepsStep(frames, endsFine, w);
    var log, seen := RunOutcome(frames, endsFine, w).log, Payloads(frames);
    assert seen[..|seen|] == seen;
    if seen == [] {
      FlattenNothing();
    }
  }

  lemma FlattenNothing()
    ensures Flatten<byte>([]) == []
  {
  }

  // ---- What is recorded ----

  /** The emitted frames, in order, that the decoder makes a record of. */
  ghost function RecordsOf(frames: seq<Bytes>, decode: Decoder): seq<Bytes> {
    if frames == [] then []
    else
      var n := |frames| - 1;
      RecordsOf(frames[..n], decode) + if decode(n, frames[n]) == Record then [frames[n]] else []
  }

  /** Everything so far was written: every payload logged and published, no frame refused, every record kept. */
  ghost predicate Accounted(log: Log, w: World) {
    (forall i :: 0 <= i < |log.raw| ==> !w.rawFails(i) && !w.tooLarge(log.raw[i]))
    && (forall j :: 0 <= j < |log.frames| ==> w.decode(j, log.frames[j]) != Fails)
    && (forall j :: 0 <= j < |log.records| ==> !w.recordFails(j))
    && log.records == RecordsOf(log.frames, w.decode)
  }

  function Front<T>(s: seq<T>): seq<T>
    requires s != []
  {
    s[..|s| - 1]
  }

  /** The last frame is where the run stopped: the decoder refused it, or its record could not be written. Everything
      before it is accounted for. */
  ghost predicate StoppedAtFrame(log: Log, w: World) {
    log.frames != []
    && Accounted(log.(frames := Front(log.frames)), w)
    && var n := |log.frames| - 1;
       w.decode(n, log.frames[n]) == Fails || (w.decode(n, log.frames[n]) == Record && w.recordFails(|log.records|))
  }

  ghost predicate StoppedByFramer(log: Log, w: World) {
    log.polls > 0 && w.framer(log.polls - 1, log.buf) == Overflow && Accounted(log, w)
  }

  /** Why a run stopped among the payloads `seen`: a payload that could not be logged, one too large to publish, a
      framer with too much waiting, or a frame. */
  ghost predicate StoppedFor(log: Log, seen: seq<Bytes>, w: World) {
    (|log.raw| < |seen| && w.rawFails(|log.raw|) && Accounted(log, w))
    || (log.raw != [] && w.tooLarge(log.raw[|log.raw| - 1]) && |log.published| == |log.raw| - 1
        && !w.rawFails(|log.raw| - 1) && Accounted(log.(raw := Front(log.raw)), w))
    || StoppedByFramer(log, w)
    || StoppedAtFrame(log, w)
  }

  lemma RecordsSnoc(frames: seq<Bytes>, last: Bytes, decode: Decoder)
    ensures RecordsOf(frames + [last], decode) ==
      RecordsOf(frames, decode) + if decode(|frames|, last) == Record then [last] else []
  {
    assert (frames + [last])[..|frames|] == frames;
  }

  lemma FramedAccounts(log: Log, framed: Bytes, w: World)
    requires Accounted(log, w)
    ensures var p := HandleFramed(log, framed, w);
      if p.Going? then Accounted(p.log, w) else StoppedAtFrame(p.log, w)
  {
    hide RecordsOf;
    RecordsSnoc(log.frames, framed, w.decode);
    assert Front(log.frames + [framed]) == log.frames;
  }

  lemma {:induction false} FramesAccount(log: Log, w: World)
    requires Accounted(log, w)
    ensures var p := HandleFrames(log, w);
      if p.Going? then Accounted(p.log, w) else StoppedByFramer(p.log, w) || StoppedAtFrame(p.log, w)
    decreases |log.buf|
  {
    hide RecordsOf, HandleFramed, StoppedAtFrame;
    match w.framer(log.polls, log.buf)
    case More =>
    case Overflow =>
    case Emit(framed, taken) =>
      var off := TakeOff(Polled(log), taken);
      FramedAccounts(off, framed, w);
      match HandleFramed(off, framed, w)
      case Stopped(_) =>
      case Going(t) => FramesAccount(t, w);
  }

  lemma PublishAccounts(log: Log, payload: Bytes, w: World)
    requires Accounted(log, w) && !w.rawFails(|log.raw|) && !w.tooLarge(payload)
    ensures Accounted(Publish(log, payload, w), w)
  {
    hide RecordsOf;
  }

  lemma HandleAccounts(log: Log, seen: seq<Bytes>, payload: Bytes, w: World)
    requires Accounted(log, w) && log.raw == seen && |log.published| == |seen|
    ensures var p := Handle(log, payload, w);
      if p.Going? then Accounted(p.log, w) else StoppedFor(p.log, seen + [payload], w)
  {
    hide HandleFrames, StoppedAtFrame, StoppedByFramer, Publish;
    if !w.rawFails(|log.raw|) {
      if w.tooLarge(payload) {
        assert Front(log.raw + [payload]) == log.raw;
      } else {
        PublishAccounts(log, payload, w);
        FramesAccount(Publish(log, payload, w), w);
      }
    }
  }

  lemma StoppedMore(log: Log, seen: seq<Bytes>, rest: seq<Bytes>, w: World)
    requires StoppedFor(log, seen, w)
    ensures StoppedFor(log, seen + rest, w)
  {
  }

  lemma {:induction false} HandleAllAccounts(log: Log, seen: seq<Bytes>, rest: seq<Bytes>, w: World)
    requires Accounted(log, w) && CaughtUp(log, seen, w)
    ensures var p := HandleAll(Going(log), rest, w);
      if p.Going? then Accounted(p.log, w) else StoppedFor(p.log, seen + rest, w)
    decreases |rest|
  {
    hide Handle, Accounted, StoppedFor, InStep;
    if rest != [] {
      HandleAccounts(log, seen, rest[0], w);
      HandleKeeps(log, seen, rest[0], w);
      hide CaughtUp;
      var p := Handle(log, rest[0], w);
      assert seen + rest == (seen + [rest[0]]) + rest[1..];
      if p.Going? {
        HandleAllAccounts(p.log, seen + [rest[0]], rest[1..], w);
      } else {
        StoppedMore(p.log, seen + [rest[0]], rest[1..], w);
      }
    }
  }

  /** Every run, however it ends: the records are exactly the emitted frames the decoder makes a record of, in order,
      less a last one that could not be written; a run that stops does so for one of the listed failures and at the
      first of them; and it is committed exactly when it did not stop, the source ended well and the log could be
      committed. */
  lemma RunAccounts(frames: seq<Frame>, endsFine: bool, w: World)
    ensures var out := RunOutcome(frames, endsFine, w);
      if out.stopped then StoppedFor(out.log, Payloads(frames), w) else Accounted(out.log, w)
    ensures var out := RunOutcome(frames, endsFine, w);
      && (out.committed <==> !out.stopped && endsFine && !w.commitFails)
      && (out.ok <==> out.committed && !w.logCloseFails && !w.sourceCloseFails)
  {
    hide HandleAll, StoppedFor;
    assert CaughtUp(NOTHING_YET, [], w) && Accounted(NOTHING_YET, w);
    assert [] + Payloads(frames) == Payloads(frames);
    HandleAllAccounts(NOTHING_YET, [], Payloads(frames), w);
  }

  // ---- What is emitted ----

  /** A framer on its own: how often it was asked, what it has emitted, what is left, and whether it gave up. */
  datatype Framing = Framing(polls: nat, buf: Bytes, frames: seq<Bytes>, stuck: bool)

  /** Asked until it wants more. */
  ghost function AskAll(f: Framer, s: Framing): Framing
    decreases |s.buf|
  {
    match f(s.polls, s.buf)
    case More => s.(polls := s.polls + 1)
    case Overflow => s.(polls := s.polls + 1, stuck := true)
    case Emit(framed, taken) => AskAll(f, Framing(s.polls + 1, s.buf[taken..], s.frames + [framed], s.stuck))
  }

  /** What a framer makes of a stream that arrives in these pieces. */
  ghost function FramingOf(f: Framer, pieces: seq<Bytes>): Framing {
    if pieces == [] then Framing(0, [], [], false)
    else
      var s := FramingOf(f, Front(pieces));
      if s.stuck then s else AskAll(f, s.(buf := s.buf + pieces[|pieces| - 1]))
  }

  lemma {:induction false} AskAllGrows(f: Framer, s: Framing)
    ensures s.frames <= AskAll(f, s).frames
    decreases |s.buf|
  {
    match f(s.polls, s.buf)
    case More =>
    case Overflow =>
    case Emit(framed, taken) => AskAllGrows(f, Framing(s.polls + 1, s.buf[taken..], s.frames + [framed], s.stuck));
  }

  ghost function FramingIn(log: Log): Framing {
    Framing(log.polls, log.buf, log.frames, false)
  }

  /** The runner asks its framer as it would be asked alone, until something stops the run. */
  lemma {:induction false} FramesAreAsked(log: Log, w: World)
    ensures var p := HandleFrames(log, w);
      && p.log.frames <= AskAll(w.framer, FramingIn(log)).frames
      && (p.Going? ==> FramingIn(p.log) == AskAll(w.framer, FramingIn(log)))
    decreases |log.buf|
  {
    match w.framer(log.polls, log.buf)
    case More =>
    case Overflow =>
    case Emit(framed, taken) =>
      var off := TakeOff(Polled(log), taken);
      match HandleFramed(off, framed, w)
      case Stopped(t) => AskAllGrows(w.framer, FramingIn(t));
      case Going(t) => FramesAreAsked(t, w);
  }

  /** What the framer has been given is what was published. */
  ghost predicate Framed(log: Log, seen: seq<Bytes>, w: World) {
    FramingIn(log) == FramingOf(w.framer, seen)
  }

  lemma HandleFramesOn(log: Log, seen: seq<Bytes>, payload: Bytes, w: World)
    requires Framed(log, seen, w) && log.raw == seen
    ensures var p := Handle(log, payload, w);
      && p.log.frames <= FramingOf(w.framer, seen + [payload]).frames
      && (p.Going? ==> Framed(p.log, seen + [payload], w) && p.log.raw == seen + [payload])
  {
    hide HandleFrames, AskAll;
    assert Front(seen + [payload]) == seen;
    var sent := Publish(log, payload, w);
    FramesAreAsked(sent, w);
    FramesKeep(sent, w);
    AskAllGrows(w.framer, FramingIn(sent));
  }

  lemma {:induction false} FramingGrows(f: Framer, pieces: seq<Bytes>, more: seq<Bytes>)
    ensures FramingOf(f, pieces).frames <= FramingOf(f, pieces + more).frames
    decreases |more|
  {
    hide AskAll;
    if more == [] {
      assert pieces + more == pieces;
    } else {
      FramingGrows(f, pieces, Front(more));
      assert Front(pieces + more) == pieces + Front(more);
      var s := FramingOf(f, pieces + Front(more));
      AskAllGrows(f, s.(buf := s.buf + more[|more| - 1]));
    }
  }

  lemma {:induction false} HandleAllFrames(log: Log, seen: seq<Bytes>, rest: seq<Bytes>, w: World)
    requires Framed(log, seen, w) && log.raw == seen
    ensures var p := HandleAll(Going(log), rest, w);
      && p.log.frames <= FramingOf(w.framer, seen + rest).frames
      && (p.Going? ==> Framed(p.log, seen + rest, w))
    decreases |rest|
  {
    hide Handle, FramingOf;
    if rest == [] {
      assert seen + rest == seen;
    } else {
      HandleFramesOn(log, seen, rest[0], w);
      var p := Handle(log, rest[0], w);
      assert seen + rest == (seen + [rest[0]]) + rest[1..];
      if p.Going? {
        HandleAllFrames(p.log, seen + [rest[0]], rest[1..], w);
      } else {
        FramingGrows(w.framer, seen + [rest[0]], rest[1..]);
      }
    }
  }

  /** Every run: the frames are the first that the framer, asked on its own, makes of the payloads; and all of them if
      nothing stopped the run. */
  lemma RunFrames(frames: seq<Frame>, endsFine: bool, w: World)
    ensures var out, alone := RunOutcome(frames, endsFine, w), FramingOf(w.framer, Payloads(frames));
      && out.log.frames <= alone.frames
      && (!out.stopped ==> out.log.frames == alone.frames && out.log.buf == alone.buf && !alone.stuck)
  {
    hide HandleAll;
    assert Framed(NOTHING_YET, [], w);
    assert [] + Payloads(frames) == Payloads(frames);
    HandleAllFrames(NOTHING_YET, [], Payloads(frames), w);
  }

  /** A world in which only the framer can stop a run. */
  ghost predicate Faultless(w: World) {
    (forall i :: !w.rawFails(i)) && (forall b :: !w.tooLarge(b)) && (forall i :: !w.recordFails(i))
    && (forall i, b :: w.decode(i, b) != Fails)
  }

  lemma {:induction false} FramesStuck(log: Log, w: World)
    requires Faultless(w)
    ensures HandleFrames(log, w).Stopped? <==> AskAll(w.framer, FramingIn(log)).stuck
    decreases |log.buf|
  {
    match w.framer(log.polls, log.buf)
    case More =>
    case Overflow =>
    case Emit(framed, taken) =>
      match HandleFramed(TakeOff(Polled(log), taken), framed, w)
      case Stopped(t) =>
      case Going(t) => FramesStuck(t, w);
  }

  lemma {:induction false} StuckStays(f: Framer, pieces: seq<Bytes>, more: seq<Bytes>)
    requires FramingOf(f, pieces).stuck
    ensures FramingOf(f, pieces + more).stuck
    decreases |more|
  {
    if more == [] {
      assert pieces + more == pieces;
    } else {
      StuckStays(f, pieces, Front(more));
      assert Front(pieces + more) == pieces + Front(more);
    }
  }

  lemma {:induction false} HandleAllStuck(log: Log, seen: seq<Bytes>, rest: seq<Bytes>, w: World)
    requires Faultless(w) && Framed(log, seen, w) && log.raw == seen
    ensures HandleAll(Going(log), rest, w).Stopped? <==> FramingOf(w.framer, seen + rest).stuck
    decreases |rest|
  {
    hide HandleFrames, AskAll;
    if rest == [] {
      assert seen + rest == seen;
    } else {
      var p, now := Handle(log, rest[0], w), seen + [rest[0]];
      HandleFramesOn(log, seen, rest[0], w);
      FramesStuck(Publish(log, rest[0], w), w);
      assert Front(now) == seen;
      assert seen + rest == now + rest[1..];
      if p.Going? {
        HandleAllStuck(p.log, now, rest[1..], w);
      } else {
        StuckStays(w.framer, now, rest[1..]);
      }
    }
  }

  /** Where nothing else can fail, a run stops exactly when its framer gives up on what it has been given. */
  lemma StopsIffStuck(frames: seq<Frame>, endsFine: bool, w: World)
    requires Faultless(w)
    ensures RunOutcome(frames, endsFine, w).stopped <==> FramingOf(w.framer, Payloads(frames)).stuck
  {
    hide HandleAll, Faultless;
    assert Framed(NOTHING_YET, [], w);
    assert [] + Payloads(frames) == Payloads(frames);
    HandleAllStuck(NOTHING_YET, [], Payloads(frames), w);
  }

  /** A framer on its own gives up exactly when it says so. */
  lemma GivesUp(f: Framer, s: Framing)
    ensures f(s.polls, s.buf) == Overflow ==> AskAll(f, s).stuck
    ensures f(s.polls, s.buf) == More ==> AskAll(f, s) == s.(polls := s.polls + 1)
  {
  }

  function NonEmpty(pieces: seq<Bytes>): seq<Bytes> {
    if pieces == [] then []
    else NonEmpty(Front(pieces)) + if pieces[|pieces| - 1] == [] then [] else [pieces[|pieces| - 1]]
  }

  /** The default framer emits every payload that is not empty, as it came. */
  lemma {:induction false} PassthroughEmits(pieces: seq<Bytes>)
    ensures FramingOf(PASSTHROUGH, pieces).frames == NonEmpty(pieces)
    ensures FramingOf(PASSTHROUGH, pieces).buf == [] && !FramingOf(PASSTHROUGH, pieces).stuck
  {
    if pieces != [] {
      PassthroughEmits(Front(pieces));
      var s, last := FramingOf(PASSTHROUGH, Front(pieces)), pieces[|pieces| - 1];
      assert s.buf + last == last;
      PassthroughAsked(s, last);
    }
  }

  lemma PassthroughAsked(s: Framing, last: Bytes)
    requires s.buf == [] && !s.stuck
    ensures var t := AskAll(PASSTHROUGH, s.(buf := last));
      t.buf == [] && !t.stuck && t.frames == s.frames + if last == [] then [] else [last]
  {
    if last != [] {
      assert last[|last|..] == [];
    }
  }

  /** In the default pipeline, a run that nothing stopped has recorded exactly the non-empty payloads that the decoder
      makes a record of, in order. */
  lemma DefaultPipelineRecords(frames: seq<Frame>, endsFine: bool, w: World)
    requires w.framer == PASSTHROUGH && !RunOutcome(frames, endsFine, w).stopped
    ensures RunOutcome(frames, endsFine, w).log.records == RecordsOf(NonEmpty(Payloads(frames)), w.decode)
  {
    hide RunOutcome, FramingOf;
    RunAccounts(frames, endsFine, w);
    RunFrames(frames, endsFine, w);
    PassthroughEmits(Payloads(frames));
  }

  // ---- What the decoder can change ----

  ghost predicate SameButRecords(a: Log, b: Log) {
    a == b.(records := a.records)
  }

  /** The same world with another decoder. */
  function With(w: World, decode: Decoder): World {
    w.(decode := decode)
  }

  lemma {:induction false} FramesSame(a: Log, b: Log, w: World, d: Decoder, e: Decoder)
    requires SameButRecords(a, b) && HandleFrames(a, With(w, d)).Going? && HandleFrames(b, With(w, e)).Going?
    ensures SameButRecords(HandleFrames(a, With(w, d)).log, HandleFrames(b, With(w, e)).log)
    decreases |a.buf|
  {
    match w.framer(a.polls, a.buf)
    case More =>
    case Overflow =>
    case Emit(framed, taken) =>
      var s := HandleFramed(TakeOff(Polled(a), taken), framed, With(w, d));
      var t := HandleFramed(TakeOff(Polled(b), taken), framed, With(w, e));
      FramesSame(s.log, t.log, w, d, e);
  }

  lemma HandleSame(a: Log, b: Log, payload: Bytes, w: World, d: Decoder, e: Decoder)
    requires SameButRecords(a, b) && Handle(a, payload, With(w, d)).Going? && Handle(b, payload, With(w, e)).Going?
    ensures SameButRecords(Handle(a, payload, With(w, d)).log, Handle(b, payload, With(w, e)).log)
  {
    hide HandleFrames;
    FramesSame(Publish(a, payload, With(w, d)), Publish(b, payload, With(w, e)), w, d, e);
  }

  lemma {:induction false} HandleAllSame(a: Log, b: Log, payloads: seq<Bytes>, w: World, d: Decoder, e: Decoder)
    requires SameButRecords(a, b)
    requires HandleAll(Going(a), payloads, With(w, d)).Going? && HandleAll(Going(b), payloads, With(w, e)).Going?
    ensures SameButRecords(HandleAll(Going(a), payloads, With(w, d)).log, HandleAll(Going(b), payloads, With(w, e)).log)
    decreases |payloads|
  {
    hide Handle, SameButRecords;
    if payloads != [] {
      var s, t := Handle(a, payloads[0], With(w, d)), Handle(b, payloads[0], With(w, e));
      HandleSame(a, b, payloads[0], w, d, e);
      HandleAllSame(s.log, t.log, payloads[1..], w, d, e);
    }
  }

  /** The choice of decoder shows in the records alone: two runs of the same source that neither decoder stops agree on
      raw log, stream, framing and outcome. */
  lemma DecoderShowsInRecordsOnly(frames: seq<Frame>, endsFine: bool, w: World, d: Decoder, e: Decoder)
    requires !RunOutcome(frames, endsFine, With(w, d)).stopped && !RunOutcome(frames, endsFine, With(w, e)).stopped
    ensures var a, b := RunOutcome(frames, endsFine, With(w, d)), RunOutcome(frames, endsFine, With(w, e));
      a == b.(log := b.log.(records := a.log.records))
  {
    hide HandleAll;
    HandleAllSame(NOTHING_YET, NOTHING_YET, Payloads(frames), w, d, e);
  }

  /** `start_default_pipeline`: the sample chooses the decoder and does nothing else. Whatever the mode, and
      wherever sampling stops, the source is opened once and the run is that of all its frames with the chosen
      decoder. */
  method RunPipeline(source: Source, mode: DetectionMode, patience: nat, w: World, decoderFor: Option<Bytes> -> Decoder)
    returns (out: Option<Outcome>, sample: Option<Bytes>)
    requires source.Valid() && source.pos == 0 && source.opens == 0
    modifies source
    ensures out.None? <==>
      (Samples(mode) && (!source.opensFine || SamplingFails(source.frames, source.endsFine, patience))) || !w.logOpens
    ensures out.Some? && source.opensFine ==>
      out.value == RunOutcome(source.frames, source.endsFine, With(w, decoderFor(sample)))
    ensures out.Some? && !source.opensFine ==> out.value == Outcome(NOTHING_YET, false, false, false)
    ensures out.Some? ==> source.opens == 1 && (sample.Some? <==> mode.Auto? || mode.Suggest?)
    ensures out.Some? && Samples(mode) ==> exists n :: IsSample(source.frames, patience, n, sample.value)
  {
    hide RunOutcome;
    var prefetched;
    prefetched, sample := Prefetch(source, mode, patience);
    if prefetched.Err? {
      return None, sample;
    }
    assert Samples(mode) ==> IsSample(source.frames, patience, |prefetched.value.prefetched|, sample.value);
    if !w.logOpens {
      return None, sample;
    }
    var o := Run(prefetched.value, With(w, decoderFor(sample)));
    return Some(o), sample;
  }

  ghost predicate IsSample(frames: seq<Frame>, patience: nat, n: nat, sample: Bytes) {
    SampleSize(frames, patience, n) && sample == Take(Content(frames, n), 65_536)
  }
}
