/** One-time download tickets. */
module Tickets {
  import opened Results

  type Ticket = nat
  type Scope = nat
  type Client = nat

  const TTL := 60_000

  datatype Stored = Stored(scope: Scope, expiresAt: nat)

  type Table = map<Ticket, Stored>

  /** `prune_expired`. */
  function Prune(table: Table, now: nat): Table {
    map t | t in table && table[t].expiresAt > now :: table[t]
  }

  datatype Verdict = Missing | Expired | Mismatch | Accepted

  /** What a consumer decides about the ticket it tried to remove. */
  function Judge(table: Table, ticket: Ticket, scope: Scope, now: nat): Verdict {
    if ticket !in table then Missing
    else if table[ticket].expiresAt <= now then Expired
    else if table[ticket].scope != scope then Mismatch
    else Accepted
  }

  // ---- The table object ----

  class DownloadTickets {
    var inner: Table

    constructor ()
      ensures inner == map[]
    {
      inner := map[];
    }

    method PruneExpired(now: nat)
      modifies this
      ensures inner == Prune(old(inner), now)
    {
      inner := map t | t in inner && inner[t].expiresAt > now :: inner[t];
    }

    /** `issue`, with the two clock readings it makes and the identifier it draws. */
    method Issue(scope: Scope, first: nat, second: nat, ticket: Ticket)
      modifies this
      ensures inner == Prune(old(inner), first)[ticket := Stored(scope, second + 60_000)]
    {
      PruneExpired(first);
      var expiresAt := second + TTL;
      inner := inner[ticket := Stored(scope, expiresAt)];
    }

    /** `consume` with nobody else at work: it succeeds for a ticket in force and the scope it was issued for, and the
        ticket is gone afterwards whatever the answer. */
    method Consume(ticket: Ticket, scope: Scope, now: nat) returns (ok: bool)
      modifies this
      ensures ok <==> ticket in old(inner) && now < old(inner)[ticket].expiresAt && old(inner)[ticket].scope == scope
      ensures ticket !in inner && inner == Prune(old(inner), now) - {ticket}
    {
      PruneExpired(now);
      if ticket !in inner {
        return false;
      }
      var stored := inner[ticket];
      inner := inner - {ticket};
      if stored.expiresAt <= now {
        return false;
      }
      if stored.scope != scope {
        return false;
      }
      return true;
    }
  }

  // ---- Everybody at work at once ----

  /** A ticket as it was issued; `since` is how many attempts had been made by then. */
  datatype Issue = Issue(scope: Scope, expiresAt: nat, since: nat)

  /** A consumer that has read the clock, and then one that has also pruned. */
  datatype Phase = Began(ticket: Ticket, scope: Scope, now: nat) | Pruned(ticket: Ticket, scope: Scope, now: nat)

  /** An attempt to remove a ticket: by a consumer that read `now`, at time `at`. */
  datatype Attempt = Attempt(ticket: Ticket, scope: Scope, now: nat, at: nat, verdict: Verdict)

  datatype State = State(
    clock: nat, table: Table, clients: map<Client, Phase>, issued: map<Ticket, Issue>, attempts: seq<Attempt>)

  const INIT := State(0, map[], map[], map[], [])

  /** One step per clock reading or critical section. An issuer prunes and inserts with times it has read before. */
  datatype Step =
    | Tick(ms: nat)
    | IssuerPrunes(read: nat)
    | IssuerInserts(ticket: Ticket, scope: Scope, read: nat)
    | Begin(client: Client, ticket: Ticket, scope: Scope)
    | ConsumerPrunes(client: Client)
    | Take(client: Client)

  predicate Enabled(s: State, step: Step) {
    match step
    case Tick(_) => true
    case IssuerPrunes(read) => read <= s.clock
    case IssuerInserts(ticket, _, read) => read <= s.clock && ticket !in s.issued
    case Begin(client, _, _) => client !in s.clients
    case ConsumerPrunes(client) => client in s.clients && s.clients[client].Began?
    case Take(client) => client in s.clients && s.clients[client].Pruned?
  }

  function Apply(s: State, step: Step): State
    requires Enabled(s, step)
  {
    match step
    case Tick(ms) => s.(clock := s.clock + ms)
    case IssuerPrunes(read) => s.(table := Prune(s.table, read))
    case IssuerInserts(ticket, scope, read) =>
      s.(table := s.table[ticket := Stored(scope, read + TTL)],
         issued := s.issued[ticket := Issue(scope, read + TTL, |s.attempts|)])
    case Begin(client, ticket, scope) => s.(clients := s.clients[client := Began(ticket, scope, s.clock)])
    case ConsumerPrunes(client) =>
      var c := s.clients[client];
      s.(table := Prune(s.table, c.now), clients := s.clients[client := Pruned(c.ticket, c.scope, c.now)])
    case Take(client) =>
      var c := s.clients[client];
      s.(table := s.table - {c.ticket}, clients := s.clients - {client},
         attempts := s.attempts
                     + [Attempt(c.ticket, c.scope, c.now, s.clock, Judge(s.table, c.ticket, c.scope, c.now))])
  }

  function Run(steps: seq<Step>): Option<State> {
    if steps == [] then Some(INIT)
    else
      match Run(steps[..|steps| - 1])
      case None => None
      case Some(s) => if Enabled(s, steps[|steps| - 1]) then Some(Apply(s, steps[|steps| - 1])) else None
  }

  // ---- Invariants ----

  /** One of the first `n` attempts found the ticket, whatever it then decided. */
  predicate FoundBy(attempts: seq<Attempt>, ticket: Ticket, n: int)
    requires n <= |attempts|
  {
    exists j :: 0 <= j < n && attempts[j].ticket == ticket && attempts[j].verdict != Missing
  }

  /** What an attempt must have decided, told from the tickets issued and the attempts before it. */
  predicate Judged(a: Attempt, issued: map<Ticket, Issue>, i: int, found: bool) {
    a.now <= a.at &&
    if a.ticket !in issued || issued[a.ticket].since > i || found then a.verdict == Missing
    else
      var t := issued[a.ticket];
      match a.verdict
      case Missing => t.expiresAt <= a.at
      case Expired => t.expiresAt <= a.now
      case Mismatch => a.now < t.expiresAt && a.scope != t.scope
      case Accepted => a.now < t.expiresAt && a.scope == t.scope
  }

  predicate AttemptsOk(s: State) {
    forall i :: 0 <= i < |s.attempts| ==>
      Judged(s.attempts[i], s.issued, i, FoundBy(s.attempts, s.attempts[i].ticket, i))
  }

  /** The table holds the tickets that were issued and not yet found, except expired ones. */
  predicate TableOk(s: State) {
    (forall t :: t in s.table ==>
       t in s.issued && s.table[t] == Stored(s.issued[t].scope, s.issued[t].expiresAt)
       && !FoundBy(s.attempts, t, |s.attempts|))
    && (forall t :: t in s.issued && t !in s.table ==>
          FoundBy(s.attempts, t, |s.attempts|) || s.issued[t].expiresAt <= s.clock)
    && (forall t :: t in s.issued ==> s.issued[t].since <= |s.attempts|)
  }

  predicate ClocksOk(s: State) {
    forall c :: c in s.clients ==> s.clients[c].now <= s.clock
  }

  predicate Inv(s: State) {
    AttemptsOk(s) && TableOk(s) && ClocksOk(s)
  }

  /** Attempts on other tickets, and later attempts, change nothing about who found what. */
  lemma FoundMore(attempts: seq<Attempt>, a: Attempt, ticket: Ticket, n: int)
    requires 0 <= n <= |attempts|
    ensures FoundBy(attempts + [a], ticket, n) <==> FoundBy(attempts, ticket, n)
    ensures FoundBy(attempts + [a], ticket, |attempts| + 1) <==>
      FoundBy(attempts, ticket, |attempts|) || (a.ticket == ticket && a.verdict != Missing)
  {
    var more := attempts + [a];
    assert more[|attempts|] == a;
    if FoundBy(attempts, ticket, n) {
      var j :| 0 <= j < n && attempts[j].ticket == ticket && attempts[j].verdict != Missing;
      assert more[j] == attempts[j];
    }
    if FoundBy(attempts, ticket, |attempts|) {
      var j :| 0 <= j < |attempts| && attempts[j].ticket == ticket && attempts[j].verdict != Missing;
      assert more[j] == attempts[j];
    }
  }

  lemma PruneKeeps(s: State, now: nat)
    requires Inv(s) && now <= s.clock
    ensures Inv(s.(table := Prune(s.table, now)))
  {
    hide Judged, FoundBy;
  }

  lemma InsertKeeps(s: State, ticket: Ticket, scope: Scope, read: nat)
    requires Inv(s) && read <= s.clock && ticket !in s.issued
    ensures Inv(Apply(s, IssuerInserts(ticket, scope, read)))
  {
    var t := Apply(s, IssuerInserts(ticket, scope, read));
    forall i | 0 <= i < |t.attempts|
      ensures Judged(t.attempts[i], t.issued, i, FoundBy(t.attempts, t.attempts[i].ticket, i))
    {
      assert Judged(s.attempts[i], s.issued, i, FoundBy(s.attempts, s.attempts[i].ticket, i));
    }
    NeverFound(s, ticket);
  }

  lemma NeverFound(s: State, ticket: Ticket)
    requires AttemptsOk(s) && ticket !in s.issued
    ensures !FoundBy(s.attempts, ticket, |s.attempts|)
  {
    forall j | 0 <= j < |s.attempts| && s.attempts[j].ticket == ticket ensures s.attempts[j].verdict == Missing {
      assert Judged(s.attempts[j], s.issued, j, FoundBy(s.attempts, s.attempts[j].ticket, j));
    }
  }

  lemma TakeKeeps(s: State, client: Client)
    requires Inv(s) && Enabled(s, Take(client))
    ensures Inv(Apply(s, Take(client)))
  {
    TakeAttempts(s, client);
    TakeTable(s, client);
  }

  lemma TakeAttempts(s: State, client: Client)
    requires Inv(s) && Enabled(s, Take(client))
    ensures AttemptsOk(Apply(s, Take(client)))
  {
    hide FoundBy;
    var t, n := Apply(s, Take(client)), |s.attempts|;
    var a := t.attempts[n];
    forall i | 0 <= i < |t.attempts|
      ensures Judged(t.attempts[i], t.issued, i, FoundBy(t.attempts, t.attempts[i].ticket, i))
    {
      FoundMore(s.attempts, a, t.attempts[i].ticket, i);
      if i < n {
        assert t.attempts[i] == s.attempts[i];
      }
    }
  }

  lemma TakeTable(s: State, client: Client)
    requires Inv(s) && Enabled(s, Take(client))
    ensures TableOk(Apply(s, Take(client)))
  {
    hide FoundBy, AttemptsOk;
    var t, n := Apply(s, Take(client)), |s.attempts|;
    forall x: Ticket
      ensures FoundBy(t.attempts, x, n + 1) <==>
        FoundBy(s.attempts, x, n) || (t.attempts[n].ticket == x && t.attempts[n].verdict != Missing)
    {
      FoundMore(s.attempts, t.attempts[n], x, n);
    }
  }

  lemma StepKeeps(s: State, step: Step)
    requires Inv(s) && Enabled(s, step)
    ensures Inv(Apply(s, step))
  {
    match step
    case Tick(ms) => TickKeeps(s, ms);
    case IssuerPrunes(read) => PruneKeeps(s, read);
    case IssuerInserts(ticket, scope, read) => InsertKeeps(s, ticket, scope, read);
    case Begin(_, _, _) => BeginKeeps(s, Apply(s, step));
    case ConsumerPrunes(client) =>
      PruneKeeps(s, s.clients[client].now);
      BeginKeeps(s.(table := Prune(s.table, s.clients[client].now)), Apply(s, step));
    case Take(client) => TakeKeeps(s, client);
  }

  lemma TickKeeps(s: State, ms: nat)
    requires Inv(s)
    ensures Inv(s.(clock := s.clock + ms))
  {
    hide FoundBy, Judged;
  }

  lemma BeginKeeps(s: State, t: State)
    requires Inv(s) && t == s.(clients := t.clients) && ClocksOk(t)
    ensures Inv(t)
  {
    hide FoundBy, Judged;
  }

  lemma {:induction false} RunKeeps(steps: seq<Step>)
    requires Run(steps).Some?
    ensures Inv(Run(steps).value)
  {
    hide Apply, Inv;
    if steps == [] {
      InitOk();
    } else {
      RunKeeps(steps[..|steps| - 1]);
      StepKeeps(Run(steps[..|steps| - 1]).value, steps[|steps| - 1]);
    }
  }

  lemma InitOk()
    ensures Inv(INIT)
  {
  }

  // ---- Over every interleaving ----

  /** An accepted attempt carried a ticket that had been issued for exactly its scope, at a moment read before the
      expiry, and no attempt before or after it found that ticket. */
  lemma AcceptedOnce(steps: seq<Step>, i: nat)
    requires Run(steps).Some? && i < |Run(steps).value.attempts| && Run(steps).value.attempts[i].verdict == Accepted
    ensures var s := Run(steps).value; var a := s.attempts[i];
      a.ticket in s.issued && s.issued[a.ticket].scope == a.scope && a.now < s.issued[a.ticket].expiresAt
    ensures forall j :: 0 <= j < |Run(steps).value.attempts| && j != i
                        && Run(steps).value.attempts[j].ticket == Run(steps).value.attempts[i].ticket ==>
      Run(steps).value.attempts[j].verdict == Missing
  {
    RunKeeps(steps);
    FoundOnce(steps, i);
  }

  /** Whatever the answer, the attempt that finds a ticket uses it up: a mismatch as much as a match. */
  lemma FoundOnce(steps: seq<Step>, i: nat)
    requires Run(steps).Some? && i < |Run(steps).value.attempts| && Run(steps).value.attempts[i].verdict != Missing
    ensures forall j :: 0 <= j < |Run(steps).value.attempts| && j != i
                        && Run(steps).value.attempts[j].ticket == Run(steps).value.attempts[i].ticket ==>
      Run(steps).value.attempts[j].verdict == Missing
  {
    RunKeeps(steps);
    var s := Run(steps).value;
    forall j | 0 <= j < |s.attempts| && j != i && s.attempts[j].ticket == s.attempts[i].ticket
      ensures s.attempts[j].verdict == Missing
    {
      assert Judged(s.attempts[i], s.issued, i, FoundBy(s.attempts, s.attempts[i].ticket, i));
      assert Judged(s.attempts[j], s.issued, j, FoundBy(s.attempts, s.attempts[j].ticket, j));
    }
  }

  /** Nothing else stands in the way: a ticket that was issued and not found before, tried with its own scope and taken
      before it expires, is accepted. */
  lemma LiveTicketAccepted(steps: seq<Step>, i: nat)
    requires Run(steps).Some? && i < |Run(steps).value.attempts|
    requires var s := Run(steps).value; var a := s.attempts[i];
      a.ticket in s.issued && s.issued[a.ticket].since <= i && !FoundBy(s.attempts, a.ticket, i)
      && a.at < s.issued[a.ticket].expiresAt && a.scope == s.issued[a.ticket].scope
    ensures Run(steps).value.attempts[i].verdict == Accepted
  {
    RunKeeps(steps);
    var s := Run(steps).value;
    assert Judged(s.attempts[i], s.issued, i, FoundBy(s.attempts, s.attempts[i].ticket, i));
  }

  lemma RunOne(steps: seq<Step>, step: Step)
    requires Run(steps).Some? && Enabled(Run(steps).value, step)
    ensures Run(steps + [step]) == Some(Apply(Run(steps).value, step))
  {
    hide Enabled, Apply;
    assert (steps + [step])[..|steps|] == steps;
  }

  /** A download: a ticket issued now, tried `wait` milliseconds later. */
  function Download(now: nat, ticket: Ticket, scope: Scope, client: Client, wait: nat): seq<Step> {
    [IssuerPrunes(now), IssuerInserts(ticket, scope, now), Tick(wait)]
    + [Begin(client, ticket, scope), ConsumerPrunes(client), Take(client)]
  }

  lemma Issued(steps: seq<Step>, ticket: Ticket, scope: Scope, wait: nat)
    requires Run(steps).Some? && ticket !in Run(steps).value.issued
    ensures var now := Run(steps).value.clock;
      var r := Run(steps + [IssuerPrunes(now), IssuerInserts(ticket, scope, now), Tick(wait)]);
      && r.Some? && r.value.clock == now + wait && r.value.clients == Run(steps).value.clients
      && r.value.attempts == Run(steps).value.attempts
      && ticket in r.value.table && r.value.table[ticket] == Stored(scope, now + 60_000)
  {
    hide Run;
    var now := Run(steps).value.clock;
    var a, b, c := IssuerPrunes(now), IssuerInserts(ticket, scope, now), Tick(wait);
    RunOne(steps, a);
    RunOne(steps + [a], b);
    RunOne(steps + [a] + [b], c);
    assert steps + [a] + [b] + [c] == steps + [a, b, c];
  }

  lemma Tried(steps: seq<Step>, ticket: Ticket, scope: Scope, client: Client)
    requires Run(steps).Some? && client !in Run(steps).value.clients && ticket in Run(steps).value.table
    requires Run(steps).value.table[ticket].scope == scope
    ensures var s := Run(steps).value;
      var r := Run(steps + [Begin(client, ticket, scope), ConsumerPrunes(client), Take(client)]);
      && r.Some? && ticket !in r.value.table
      && r.value.attempts == s.attempts
         + [Attempt(ticket, scope, s.clock, s.clock, if s.clock < s.table[ticket].expiresAt then Accepted else Missing)]
  {
    hide Run;
    var a, b, c := Begin(client, ticket, scope), ConsumerPrunes(client), Take(client);
    RunOne(steps, a);
    RunOne(steps + [a], b);
    RunOne(steps + [a] + [b], c);
    assert steps + [a] + [b] + [c] == steps + [a, b, c];
  }

  /** After every run, a new ticket can be issued and tried at any later time; it is accepted exactly within a minute,
      and otherwise it is not there any more. */
  lemma AcceptedWithinAMinute(steps: seq<Step>, ticket: Ticket, scope: Scope, client: Client, wait: nat)
    requires Run(steps).Some? && ticket !in Run(steps).value.issued && client !in Run(steps).value.clients
    ensures var s, r := Run(steps).value, Run(steps + Download(Run(steps).value.clock, ticket, scope, client, wait));
      && r.Some? && |r.value.attempts| == |s.attempts| + 1 && r.value.attempts[|s.attempts|].ticket == ticket
      && r.value.attempts[|s.attempts|].verdict == if wait < 60_000 then Accepted else Missing
  {
    hide Run;
    var now := Run(steps).value.clock;
    var first := [IssuerPrunes(now), IssuerInserts(ticket, scope, now), Tick(wait)];
    Issued(steps, ticket, scope, wait);
    Tried(steps + first, ticket, scope, client);
    assert steps + Download(now, ticket, scope, client, wait) ==
      steps + first + [Begin(client, ticket, scope), ConsumerPrunes(client), Take(client)];
  }
}
