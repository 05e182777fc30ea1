/**
 The outbox store and the delivery worker, as the code runs them. `ProcessPending` is shown to be
 a run of the lease protocol, so every theorem about runs holds of it, whatever other workers,
 enqueues and pruning do between any two of its statements.
 */
module OutboxWorker {
  import opened Common
  import opened EmailOutbox
  import opened OutboxProtocol
  import OutboxMessages

  datatype MarkOutcome = Done | NoRows

  /** The claim statement is rejected, or leases the rows and is read to the end, or leases them and is not. */
  datatype ClaimAnswer = Rejected | Returned | ReadFails

  class EmailOutboxStore {
    var rows: Table

    /** The protocol state this table is part of. */
    ghost var world: World

    ghost predicate Current()
      reads this
    {
      world.rows == rows
    }

    ghost predicate Valid(c: Config)
      reads this
    {
      Current() && Inv(c, world)
    }

    constructor (ghost now: int)
      ensures rows == map[] && world == Init(now)
    {
      rows := map[];
      world := Init(now);
    }

    /** Records that the step `st`, whose statement has just run on the table, has been taken. */
    ghost method Take(c: Config, st: Step)
      requires Enabled(c, world, st) && rows == Apply(c, world, st).rows
      modifies this`world
      ensures world == Apply(c, old(world), st) && Current()
    {
      world := Apply(c, world, st);
    }

    /** The table gives a new row one more than its largest rowid, which pruning may have freed. */
    method Enqueue(ghost c: Config, message: Message, availableAt: int) returns (id: Id)
      requires c.Valid() && Valid(c)
      modifies this
      ensures forall i :: i in old(rows) ==> i < id
      ensures rows == old(rows)[id := Row(message, Pending, 0, [], availableAt, None, None, "", None)]
      ensures Enabled(c, old(world), Step.Enqueue(old(world).now, id, message, availableAt))
      ensures world == Apply(c, old(world), Step.Enqueue(old(world).now, id, message, availableAt)) && Valid(c)
    {
      id := 1;
      var rest := rows.Keys;
      while rest != {}
        invariant rows == old(rows) && world == old(world) && rest <= rows.Keys
        invariant forall i :: i in rows && i !in rest ==> i < id
      {
        ghost var someId := MemberOf(rest);
        var i :| i in rest;
        id := Max(id, i + 1);
        rest := rest - {i};
      }
      rows := rows[id := NewRow(message, availableAt)];
      StepKeepsInv(c, world, Step.Enqueue(world.now, id, message, availableAt));
      Take(c, Step.Enqueue(world.now, id, message, availableAt));
    }

    /**
     `token` is the drawn claim token, or None when the random source fails. The statement
     returns the claimed rows in no particular order; reading them can fail after they are leased.
     */
    method ClaimPending(now: int, claimTTL: int, limit: int, token: Option<string>, answer: ClaimAnswer)
      returns (r: Result<seq<OutboxEmail>>, ghost order: seq<Id>)
      modifies this`rows
      ensures r.Ok? <==> limit > 0 && claimTTL > 0 && token.Some? && answer.Returned?
      ensures limit > 0 && claimTTL > 0 && token.Some? && !answer.Rejected? ==>
                && IsOrderOf(order, Selection(old(rows), now, limit))
                && rows == ClaimRows(old(rows), Elems(order), now, now + claimTTL, token.value)
                && (r.Ok? ==> r.value == Snapshots(old(rows), order, token.value))
      ensures !(limit > 0 && claimTTL > 0 && token.Some? && !answer.Rejected?) ==> rows == old(rows) && order == []
    {
      order := [];
      if limit <= 0 {
        return Err("claim pending emails limit must be greater than zero"), order;
      }
      if claimTTL <= 0 {
        return Err("claim pending emails ttl must be greater than zero"), order;
      }
      if token.None? {
        return Err("generate outbox claim token"), order;
      }
      if answer.Rejected? {
        return Err("database"), order;
      }
      SelectionIsFirst(rows, now, limit);
      var claimed := Selection(rows, now, limit);
      rows := ClaimRows(rows, claimed, now, now + claimTTL, token.value);
      var messages;
      messages, order := ScanRows(rows, claimed);
      assert forall k :: 0 <= k < |order| ==> order[k] in claimed;
      assert messages == Snapshots(old(rows), order, token.value);
      r := if answer.Returned? then Ok(messages) else Err("database");
    }

    /** Reads the rows `ids` that a statement returned, in the order they happen to arrive. */
    static method ScanRows(t: Table, ids: set<Id>) returns (messages: seq<OutboxEmail>, ghost order: seq<Id>)
      requires ids <= t.Keys
      ensures IsOrderOf(order, ids) && |messages| == |order|
      ensures forall k :: 0 <= k < |order| ==>
                order[k] in ids && messages[k] == OutboxEmail(order[k], t[order[k]].message, t[order[k]].attempts, t[order[k]].claimToken)
    {
      messages, order := [], [];
      var rest := ids;
      while rest != {}
        invariant rest <= ids && Elems(order) == ids - rest && NoDuplicates(order) && |messages| == |order|
        invariant forall k :: 0 <= k < |order| ==>
                    order[k] in ids && messages[k] == OutboxEmail(order[k], t[order[k]].message, t[order[k]].attempts, t[order[k]].claimToken)
        decreases |rest|
      {
        ghost var someId := MemberOf(rest);
        var i :| i in rest;
        assert i !in Elems(order);
        messages := messages + [OutboxEmail(i, t[i].message, t[i].attempts, t[i].claimToken)];
        ghost var before := order;
        order := order + [i];
        assert Elems(order) == Elems(before) + {i};
        rest := rest - {i};
      }
    }

    method MarkSent(id: Id, claimToken: string, sentAt: int) returns (r: MarkOutcome)
      modifies this`rows
      ensures rows == EmailOutbox.MarkSent(old(rows), id, claimToken, sentAt)
      ensures r.Done? <==> Owns(old(rows), id, claimToken)
    {
      if id in rows && rows[id].claimToken == claimToken {
        rows := rows[id := Released(rows[id]).(status := Status.Sent, sentAt := Some(sentAt))];
        return Done;
      }
      return NoRows;
    }

    method MarkFailed(id: Id, claimToken: string, lastError: seq<byte>, availableAt: int) returns (r: MarkOutcome)
      modifies this`rows
      ensures rows == EmailOutbox.MarkFailed(old(rows), id, claimToken, lastError, availableAt)
      ensures r.Done? <==> Owns(old(rows), id, claimToken)
    {
      if id in rows && rows[id].claimToken == claimToken {
        var row := rows[id];
        rows := rows[id := Released(row).(status := Pending, attempts := row.attempts + 1, lastError := lastError, availableAt := availableAt)];
        return Done;
      }
      return NoRows;
    }

    method MarkFailedPermanently(id: Id, claimToken: string, lastError: seq<byte>, failedAt: int) returns (r: MarkOutcome)
      modifies this`rows
      ensures rows == EmailOutbox.MarkFailedPermanently(old(rows), id, claimToken, lastError, failedAt)
      ensures r.Done? <==> Owns(old(rows), id, claimToken)
    {
      if id in rows && rows[id].claimToken == claimToken {
        var row := rows[id];
        rows := rows[id := Released(row).(status := Failed, attempts := row.attempts + 1, lastError := lastError, availableAt := failedAt)];
        return Done;
      }
      return NoRows;
    }
  }

  // ----- what the marks of one worker did in a run

  datatype Kind = Sent | RetryScheduled | PermanentFailure | ClaimLost

  /** The counters of a cycle. */
  datatype Tally = Tally(sent: nat, retryScheduled: nat, permanentFailures: nat, skippedClaimLost: nat) {
    function Of(kind: Kind): nat {
      match kind
      case Sent => sent
      case RetryScheduled => retryScheduled
      case PermanentFailure => permanentFailures
      case ClaimLost => skippedClaimLost
    }

    function Total(): nat {
      sent + retryScheduled + permanentFailures + skippedClaimLost
    }

    function Plus(kind: Kind): (r: Tally)
      ensures forall k: Kind :: r.Of(k) == Of(k) + if k == kind then 1 else 0
      ensures r.Total() == Total() + 1
    {
      match kind
      case Sent => this.(sent := sent + 1)
      case RetryScheduled => this.(retryScheduled := retryScheduled + 1)
      case PermanentFailure => this.(permanentFailures := permanentFailures + 1)
      case ClaimLost => this.(skippedClaimLost := skippedClaimLost + 1)
    }
  }

  /** What the mark of worker `w` would do in world `s`, told by the row it moves. */
  ghost function KindOfMark(c: Config, s: World, w: int): Option<Kind> {
    if w in s.cycles && s.cycles[w].next < |s.cycles[w].batch| then
      var m := s.cycles[w].batch[s.cycles[w].next];
      if !Owns(s.rows, m.id, m.claimToken) then Some(ClaimLost)
      else
        match MarkRows(c, s.rows, m, s.cycles[w].phase, 0)[m.id].status
        case Sent => Some(Kind.Sent)
        case Pending => Some(RetryScheduled)
        case Failed => Some(PermanentFailure)
        case Sending => None
    else None
  }

  ghost function OfKind(c: Config, s: World, st: Step, w: int, kind: Kind): nat {
    if st.Mark? && st.w == w && KindOfMark(c, s, w) == Some(kind) then 1 else 0
  }

  ghost function CountMarks(c: Config, s: World, steps: seq<Step>, w: int, kind: Kind): nat
    requires OutboxProtocol.Valid(c, s, steps)
    decreases |steps|
  {
    if steps == [] then 0
    else
      OfKind(c, s, steps[0], w, kind)
      + CountMarks(c, Apply(c, s, steps[0]), steps[1..], w, kind)
  }

  lemma {:induction false} CountOfConcat(c: Config, s: World, a: seq<Step>, b: seq<Step>, w: int, kind: Kind)
    requires OutboxProtocol.Valid(c, s, a) && OutboxProtocol.Valid(c, Run(c, s, a), b)
    ensures OutboxProtocol.Valid(c, s, a + b)
    ensures CountMarks(c, s, a + b, w, kind) == CountMarks(c, s, a, w, kind) + CountMarks(c, Run(c, s, a), b, w, kind)
    decreases |a|
  {
    RunOfConcat(c, s, a, b);
    if a == [] {
      assert a + b == b;
    } else {
      assert (a + b)[0] == a[0] && (a + b)[1..] == a[1..] + b;
      CountOfConcat(c, Apply(c, s, a[0]), a[1..], b, w, kind);
    }
  }

  /** What worker `w` sends in a step: the message it has at hand. */
  ghost function MailOf(s: World, st: Step, w: int): seq<Mail> {
    if st.Send? && st.w == w && w in s.cycles && s.cycles[w].next < |s.cycles[w].batch|
    then [Mail(s.cycles[w].batch[s.cycles[w].next].message, st.ok)] else []
  }

  ghost function MailsOf(c: Config, s: World, steps: seq<Step>, w: int): seq<Mail>
    requires OutboxProtocol.Valid(c, s, steps)
    decreases |steps|
  {
    if steps == [] then [] else MailOf(s, steps[0], w) + MailsOf(c, Apply(c, s, steps[0]), steps[1..], w)
  }

  lemma MailsFromFirst(c: Config, s: World, first: Step, rest: seq<Step>, w: int)
    requires Enabled(c, s, first) && OutboxProtocol.Valid(c, Apply(c, s, first), rest)
    ensures OutboxProtocol.Valid(c, s, [first] + rest)
    ensures MailsOf(c, s, [first] + rest, w) == MailOf(s, first, w) + MailsOf(c, Apply(c, s, first), rest, w)
  {
    assert ([first] + rest)[0] == first && ([first] + rest)[1..] == rest;
  }

  lemma {:induction false} MailsOfConcat(c: Config, s: World, a: seq<Step>, b: seq<Step>, w: int)
    requires OutboxProtocol.Valid(c, s, a) && OutboxProtocol.Valid(c, Run(c, s, a), b)
    ensures OutboxProtocol.Valid(c, s, a + b)
    ensures MailsOf(c, s, a + b, w) == MailsOf(c, s, a, w) + MailsOf(c, Run(c, s, a), b, w)
    decreases |a|
  {
    if a == [] {
      assert a + b == b;
    } else {
      var s', rest := Apply(c, s, a[0]), a[1..];
      MailsOfConcat(c, s', rest, b, w);
      MailsFromFirst(c, s, a[0], rest + b, w);
      assert a + b == [a[0]] + (rest + b);
    }
  }

  ghost predicate OthersOnly(steps: seq<Step>, w: int) {
    forall k :: 0 <= k < |steps| && (steps[k].Claim? || steps[k].Send? || steps[k].Mark? || steps[k].Abandon?) ==> steps[k].w != w
  }

  lemma {:induction false} OthersLeaveCycle(c: Config, s: World, steps: seq<Step>, w: int)
    requires OutboxProtocol.Valid(c, s, steps) && OthersOnly(steps, w)
    ensures var s' := Run(c, s, steps);
            && (w in s'.cycles <==> w in s.cycles)
            && (w in s.cycles ==> s'.cycles[w] == s.cycles[w])
    ensures (forall kind :: CountMarks(c, s, steps, w, kind) == 0) && MailsOf(c, s, steps, w) == []
    decreases |steps|
  {
    if steps != [] {
      OthersLeaveCycle(c, Apply(c, s, steps[0]), steps[1..], w);
    }
  }

  /** The run so far, what worker `w` sent in it and the marks of each kind that it made. */
  ghost predicate Tracks(c: Config, s0: World, trace: seq<Step>, s: World, w: int, mails: seq<Mail>, counts: Tally) {
    && OutboxProtocol.Valid(c, s0, trace) && Run(c, s0, trace) == s
    && MailsOf(c, s0, trace, w) == mails
    && forall kind :: CountMarks(c, s0, trace, w, kind) == counts.Of(kind)
  }

  lemma TracksNothing(c: Config, s0: World, w: int)
    ensures Tracks(c, s0, [], s0, w, [], Tally(0, 0, 0, 0))
  {
  }

  lemma TracksMore(
    c: Config, s0: World, trace: seq<Step>, s: World, w: int, mails: seq<Mail>, counts: Tally, more: seq<Step>, mails': seq<Mail>, counts': Tally)
    requires Tracks(c, s0, trace, s, w, mails, counts) && OutboxProtocol.Valid(c, s, more)
    requires mails' == mails + MailsOf(c, s, more, w)
    requires forall kind :: counts'.Of(kind) == counts.Of(kind) + CountMarks(c, s, more, w, kind)
    ensures Tracks(c, s0, trace + more, Run(c, s, more), w, mails', counts')
  {
    RunOfConcat(c, s0, trace, more);
    MailsOfConcat(c, s0, trace, more, w);
    forall kind ensures CountMarks(c, s0, trace + more, w, kind) == counts'.Of(kind) {
      CountOfConcat(c, s0, trace, more, w, kind);
    }
  }

  lemma RunOfOne(c: Config, s: World, st: Step)
    requires Enabled(c, s, st)
    ensures OutboxProtocol.Valid(c, s, [st]) && Run(c, s, [st]) == Apply(c, s, st)
    ensures forall w, kind :: CountMarks(c, s, [st], w, kind) == OfKind(c, s, st, w, kind)
    ensures forall w :: MailsOf(c, s, [st], w) == MailOf(s, st, w)
  {
    assert [st][1..] == [];
  }

  lemma KindIs(c: Config, s: World, w: int, m: OutboxEmail, ok: bool, error: seq<byte>)
    requires w in s.cycles && s.cycles[w].next < |s.cycles[w].batch| && s.cycles[w].batch[s.cycles[w].next] == m
    requires s.cycles[w].phase == if ok then Phase.Delivered else Refused(error)
    ensures KindOfMark(c, s, w) == Some(
              if !Owns(s.rows, m.id, m.claimToken) then ClaimLost else if ok then Kind.Sent
              else if m.attempts + 1 >= c.maxAttempts then PermanentFailure else RetryScheduled)
  {
  }

  /** Only a message that was taken is marked sent, and only one that was not is put off or given up. */
  predicate KindFits(kind: Kind, ok: bool) {
    match kind
    case Sent => ok
    case RetryScheduled => !ok
    case PermanentFailure => !ok
    case ClaimLost => true
  }

  // ----- the worker

  datatype Outcome =
    | Completed(claimed: nat)
    | Stopped(error: string)

  /** A message handed to the sender, and whether the sender took it. */
  datatype Mail = Mail(message: Message, ok: bool)

  /** How many of the messages the sender took. */
  function TakenOf(mails: seq<Mail>): nat {
    if mails == [] then 0 else TakenOf(mails[..|mails| - 1]) + if mails[|mails| - 1].ok then 1 else 0
  }

  lemma OneMoreMail(mails: seq<Mail>, mail: Mail)
    ensures TakenOf(mails + [mail]) == TakenOf(mails) + if mail.ok then 1 else 0
  {
    assert (mails + [mail])[..|mails|] == mails;
  }

  class Sender {
    /** Everything handed to the sender so far. */
    ghost var log: seq<Mail>

    constructor ()
      ensures log == []
    {
      log := [];
    }

    /** Delivery, whose result nothing here determines. */
    method Send(message: Message) returns (ok: bool, error: seq<byte>)
      modifies this
      ensures log == old(log) + [Mail(message, ok)]
    {
      ok, error := *, *;
      log := log + [Mail(message, ok)];
    }
  }

  /**
   Anything the rest of the deployment does before worker `w` continues. A caller knows the
   contract only: some steps, none of them by `w`, have been taken.
   */
  method Interference(ghost c: Config, store: EmailOutboxStore, ghost w: int) returns (ghost others: seq<Step>)
    requires c.Valid() && store.Valid(c)
    modifies store
    ensures store.Valid(c) && OthersOnly(others, w)
    ensures OutboxProtocol.Valid(c, old(store.world), others) && Run(c, old(store.world), others) == store.world
  {
    others := [];
  }

  class Processor {
    const config: Config
    const store: EmailOutboxStore
    const sender: Sender

    constructor (store: EmailOutboxStore, sender: Sender, batchSize: nat, retryDelay: int, maxAttempts: int, claimTTL: int)
      ensures this.store == store && this.sender == sender
      ensures config == Config(if batchSize == 0 then 10 else batchSize, if retryDelay == 0 then 60_000_000_000 else retryDelay,
                               if maxAttempts == 0 then 5 else maxAttempts, if claimTTL == 0 then 120_000_000_000 else claimTTL)
    {
      this.store := store;
      this.sender := sender;
      this.config := Config(
        if batchSize == 0 then 10 else batchSize,
        if retryDelay == 0 then 60_000_000_000 else retryDelay,
        if maxAttempts == 0 then 5 else maxAttempts,
        if claimTTL == 0 then 120_000_000_000 else claimTTL);
    }

    /** Records the step `st` in the store and in the trace. */
    ghost method Take(st: Step, s0: World, trace: seq<Step>, mails: seq<Mail>, mails': seq<Mail>, counts: Tally, counts': Tally, w: int)
      requires config.Valid() && Inv(config, store.world) && Enabled(config, store.world, st)
      requires store.rows == Apply(config, store.world, st).rows
      requires Tracks(config, s0, trace, store.world, w, mails, counts)
      requires mails' == mails + MailOf(store.world, st, w)
      requires forall kind :: counts'.Of(kind) == counts.Of(kind) + OfKind(config, store.world, st, w, kind)
      modifies store`world
      ensures store.world == Apply(config, old(store.world), st) && store.Valid(config)
      ensures Tracks(config, s0, trace + [st], store.world, w, mails', counts')
    {
      RunOfOne(config, store.world, st);
      TracksMore(config, s0, trace, store.world, w, mails, counts, [st], mails', counts');
      StepKeepsInv(config, store.world, st);
      store.Take(config, st);
    }

    /** Lets the rest of the deployment run. */
    method Yield(ghost s0: World, ghost trace: seq<Step>, ghost mails: seq<Mail>, ghost counts: Tally, ghost w: int)
      returns (ghost longer: seq<Step>)
      requires config.Valid() && store.Valid(config) && Tracks(config, s0, trace, store.world, w, mails, counts)
      modifies store
      ensures store.Valid(config) && Tracks(config, s0, longer, store.world, w, mails, counts) && trace <= longer
      ensures w in store.world.cycles <==> w in old(store.world).cycles
      ensures w in old(store.world).cycles ==> store.world.cycles[w] == old(store.world).cycles[w]
    {
      ghost var s := store.world;
      ghost var others := Interference(config, store, w);
      OthersLeaveCycle(config, s, others, w);
      TracksMore(config, s0, trace, s, w, mails, counts, others, mails, counts);
      longer := trace + others;
    }

    /** The mark for a message whose Send succeeded, or failed with `error`. */
    method MarkMessage(m: OutboxEmail, ok: bool, error: seq<byte>) returns (r: MarkOutcome, asOf: int)
      modifies store`rows
      ensures store.rows == MarkRows(config, old(store.rows), m, if ok then Delivered else Refused(error), asOf)
      ensures r.Done? <==> Owns(old(store.rows), m.id, m.claimToken)
    {
      asOf := *;
      if ok {
        r := store.MarkSent(m.id, m.claimToken, asOf);
        return;
      }
      var nextAttempt := m.attempts + 1;
      var lastError := Utf8.TruncateLastError(error);
      if nextAttempt >= config.maxAttempts {
        r := store.MarkFailedPermanently(m.id, m.claimToken, lastError, asOf);
      } else {
        r := store.MarkFailed(m.id, m.claimToken, lastError, asOf + config.retryDelay);
      }
    }

    /** Claims a batch, none of which is sent yet. Rows leased but not read are as good as abandoned. */
    method ClaimBatch(ghost w: int, token: Option<string>) returns (claim: Result<seq<OutboxEmail>>, ghost trace: seq<Step>)
      requires config.Valid() && store.Valid(config) && w !in store.world.cycles
      requires token.Some? ==> token.value != "" && token.value !in store.world.tokens
      modifies store
      ensures store.Valid(config)
      ensures claim.Err? ==> w !in store.world.cycles
      ensures Tracks(config, old(store.world), trace, store.world, w, [], Tally(0, 0, 0, 0))
      ensures claim.Ok? ==> |trace| == 1 && trace[0].Claim? && trace[0].w == w
      ensures claim.Ok? ==> |claim.value| == |trace[0].order| == |Selection(old(store.rows), trace[0].asOf, config.batchSize)|
      ensures claim.Ok? ==> forall k :: 0 <= k < |claim.value| ==>
                trace[0].order[k] in old(store.rows) && claim.value[k].message == old(store.rows)[trace[0].order[k]].message
      ensures claim.Ok? ==> InBatch(store.world, w, claim.value, 0)
    {
      var now: int := *;
      var answer: ClaimAnswer := *;
      ghost var s0, counts := store.world, Tally(0, 0, 0, 0);
      trace := [];
      TracksNothing(config, s0, w);
      ghost var order;
      claim, order := store.ClaimPending(now, config.claimTTL, config.batchSize, token, answer);
      if token.None? || answer.Rejected? {
        return;
      }
      ghost var step := TakeClaim(now, w, token.value, order, s0);
      trace := [step];
      OutboxMessages.BatchIsRead(s0.rows, now, config.batchSize, order, token.value);
      if claim.Err? && order != [] {
        trace := Drop(w, s0, trace, [], counts);
      }
    }

    ghost method TakeClaim(now: int, w: int, token: string, order: seq<Id>, s0: World) returns (step: Step)
      requires config.Valid() && Inv(config, store.world) && store.world == s0 && w !in s0.cycles
      requires token != "" && token !in s0.tokens && IsOrderOf(order, Selection(s0.rows, now, config.batchSize))
      requires store.rows == ClaimRows(s0.rows, Elems(order), now, now + config.claimTTL, token)
      modifies store`world
      ensures step == Step.Claim(Max(s0.now, now), now, w, token, order) && |order| == |Selection(s0.rows, now, config.batchSize)|
      ensures store.Valid(config) && Tracks(config, s0, [step], store.world, w, [], Tally(0, 0, 0, 0))
      ensures InBatch(store.world, w, Snapshots(s0.rows, order, token), 0)
    {
      step := Step.Claim(Max(s0.now, now), now, w, token, order);
      OrderSize(order);
      TracksNothing(config, s0, w);
      Take(step, s0, [], [], [], Tally(0, 0, 0, 0), Tally(0, 0, 0, 0), w);
    }

    /** The cycle of worker `w` ends without its marks. */
    ghost method Drop(w: int, s0: World, trace: seq<Step>, mails: seq<Mail>, counts: Tally) returns (longer: seq<Step>)
      requires config.Valid() && store.Valid(config) && Tracks(config, s0, trace, store.world, w, mails, counts)
      requires w in store.world.cycles
      modifies store`world
      ensures store.Valid(config) && w !in store.world.cycles
      ensures trace <= longer && Tracks(config, s0, longer, store.world, w, mails, counts)
    {
      var abandon := Step.Abandon(store.world.now, w);
      Take(abandon, s0, trace, mails, mails, counts, counts, w);
      longer := trace + [abandon];
    }

    /** Sends one claimed message; `mails` is what was sent since `sent` messages had been handed to the sender. */
    method SendClaimed(m: OutboxEmail, ghost w: int, ghost s0: World, ghost trace: seq<Step>, ghost mails: seq<Mail>, ghost counts: Tally)
      returns (ok: bool, error: seq<byte>, ghost longer: seq<Step>)
      requires config.Valid() && store.Valid(config) && Tracks(config, s0, trace, store.world, w, mails, counts)
      requires w in store.world.cycles && store.world.cycles[w].phase.Ready?
      requires store.world.cycles[w].next < |store.world.cycles[w].batch| && store.world.cycles[w].batch[store.world.cycles[w].next] == m
      modifies store, sender
      ensures store.Valid(config) && trace <= longer
      ensures sender.log == old(sender.log) + [Mail(m.message, ok)]
      ensures Tracks(config, s0, longer, store.world, w, mails + [Mail(m.message, ok)], counts)
      ensures w in store.world.cycles
      ensures store.world.cycles[w] == old(store.world).cycles[w].(phase := if ok then Delivered else Refused(error))
    {
      longer := Yield(s0, trace, mails, counts, w);
      ok, error := sender.Send(m.message);
      ghost var send := Step.Send(store.world.now, w, ok, error);
      assert CycleOk(store.world, store.world.cycles[w]);
      Take(send, s0, longer, mails, mails + [Mail(m.message, ok)], counts, counts, w);
      longer := Yield(s0, longer + [send], mails + [Mail(m.message, ok)], counts, w);
    }

    /** Marks the message just sent, or not; None when the store fails and the cycle has to end. */
    method MarkClaimed(
      m: OutboxEmail, ok: bool, error: seq<byte>, ghost w: int, ghost s0: World, ghost trace: seq<Step>, ghost mails: seq<Mail>, ghost counts: Tally)
      returns (kind: Option<Kind>, ghost longer: seq<Step>)
      requires config.Valid() && store.Valid(config) && Tracks(config, s0, trace, store.world, w, mails, counts)
      requires w in store.world.cycles && store.world.cycles[w].phase == if ok then Delivered else Refused(error)
      requires store.world.cycles[w].next < |store.world.cycles[w].batch| && store.world.cycles[w].batch[store.world.cycles[w].next] == m
      modifies store
      ensures store.Valid(config) && trace <= longer
      ensures kind.None? ==> Tracks(config, s0, longer, store.world, w, mails, counts) && w !in store.world.cycles
      ensures kind.Some? ==> Tracks(config, s0, longer, store.world, w, mails, counts.Plus(kind.value)) && KindFits(kind.value, ok)
      ensures kind.Some? ==> var cy := old(store.world).cycles[w];
                && (w in store.world.cycles <==> cy.next + 1 < |cy.batch|)
                && (w in store.world.cycles ==> store.world.cycles[w] == cy.(next := cy.next + 1, phase := Ready))
    {
      ghost var s := store.world;
      var storeFails: bool := *;
      if storeFails {
        longer := Drop(w, s0, trace, mails, counts);
        return None, longer;
      }
      var outcome, asOf := MarkMessage(m, ok, error);
      ghost var mark := Step.Mark(Max(s.now, asOf), asOf, w);
      var marked := if outcome.NoRows? then ClaimLost else if ok then Kind.Sent
                    else if m.attempts + 1 >= config.maxAttempts then PermanentFailure else RetryScheduled;
      kind := Some(marked);
      KindIs(config, s, w, m, ok, error);
      Take(mark, s0, trace, mails, mails, counts, counts.Plus(marked), w);
      longer := trace + [mark];
    }

    method ProcessMessage(
      m: OutboxEmail, ghost messages: seq<OutboxEmail>, ghost i: nat, ghost w: int, ghost s0: World, ghost trace: seq<Step>,
      ghost mails: seq<Mail>, ghost counts: Tally)
      returns (kind: Option<Kind>, ghost longer: seq<Step>, ghost mail: Mail)
      requires config.Valid() && store.Valid(config) && Tracks(config, s0, trace, store.world, w, mails, counts)
      requires i < |messages| && messages[i] == m && InBatch(store.world, w, messages, i)
      modifies store, sender
      ensures store.Valid(config) && trace <= longer
      ensures sender.log == old(sender.log) + [mail] && mail.message == m.message
      ensures Tracks(config, s0, longer, store.world, w, mails + [mail], if kind.None? then counts else counts.Plus(kind.value))
      ensures kind.None? ==> w !in store.world.cycles
      ensures kind.Some? ==> KindFits(kind.value, mail.ok) && InBatch(store.world, w, messages, i + 1)
    {
      var ok, error;
      ok, error, longer := SendClaimed(m, w, s0, trace, mails, counts);
      mail := Mail(m.message, ok);
      kind, longer := MarkClaimed(m, ok, error, w, s0, longer, mails + [mail], counts);
    }

    /** The messages of a batch that has just been claimed, one after the other. */
    method ProcessBatch(messages: seq<OutboxEmail>, ghost w: int, ghost s0: World, ghost claimed: seq<Step>)
      returns (r: Outcome, counts: Tally, ghost trace: seq<Step>, ghost mails: seq<Mail>)
      requires config.Valid() && store.Valid(config) && InBatch(store.world, w, messages, 0)
      requires Tracks(config, s0, claimed, store.world, w, [], Tally(0, 0, 0, 0))
      modifies store, sender
      ensures store.Valid(config) && w !in store.world.cycles && claimed <= trace
      ensures sender.log == old(sender.log) + mails
      ensures Tracks(config, s0, trace, store.world, w, mails, counts)
      ensures r.Completed? ==> Accounted(messages, mails, counts, |messages|) && r.claimed == |messages|
    {
      counts := Tally(0, 0, 0, 0);
      trace, mails := claimed, [];
      for i := 0 to |messages|
        invariant store.Valid(config) && claimed <= trace
        invariant sender.log == old(sender.log) + mails
        invariant Accounted(messages, mails, counts, i)
        invariant Tracks(config, s0, trace, store.world, w, mails, counts)
        invariant InBatch(store.world, w, messages, i)
      {
        var kind;
        ghost var mail;
        kind, trace, mail := ProcessMessage(messages[i], messages, i, w, s0, trace, mails, counts);
        if kind.None? {
          mails := mails + [mail];
          r := Stopped("mark email");
          return;
        }
        OneMoreAccounted(messages, mails, counts, i, mail, kind.value);
        mails := mails + [mail];
        counts := counts.Plus(kind.value);
      }
      r := Completed(|messages|);
    }

    /**
     One delivery cycle of worker `w`. Whatever happens in between, the cycle is a run of the
     protocol that ends with no cycle of `w` in flight. What the sender was handed meanwhile,
     `mails`, is what the run says that `w` sent; on normal return that is the message of every
     claimed row, once and in the order of the claim, the counters count the rows that its marks
     moved, and together they account for every claimed row.
     */
    method ProcessPending(ghost w: int, token: Option<string>)
      returns (r: Outcome, counts: Tally, ghost trace: seq<Step>, ghost mails: seq<Mail>)
      requires config.Valid() && store.Valid(config) && w !in store.world.cycles
      requires token.Some? ==> token.value != "" && token.value !in store.world.tokens
      modifies store, sender
      ensures store.Valid(config) && w !in store.world.cycles
      ensures sender.log == old(sender.log) + mails
      ensures Tracks(config, old(store.world), trace, store.world, w, mails, counts)
      ensures r.Completed? ==> r.claimed == counts.sent + counts.retryScheduled + counts.permanentFailures + counts.skippedClaimLost
      ensures r.Completed? ==>
                counts.sent <= TakenOf(mails) && counts.retryScheduled + counts.permanentFailures <= |mails| - TakenOf(mails)
      ensures r.Completed? ==> trace != [] && trace[0].Claim? && trace[0].w == w && |trace[0].order| == r.claimed == |mails|
                               && r.claimed == |Selection(old(store.rows), trace[0].asOf, config.batchSize)|
      ensures r.Completed? ==> forall k :: 0 <= k < r.claimed ==>
                trace[0].order[k] in old(store.rows) && mails[k].message == old(store.rows)[trace[0].order[k]].message
    {
      var claim;
      claim, trace := ClaimBatch(w, token);
      if claim.Err? {
        return Stopped("claim pending email"), Tally(0, 0, 0, 0), trace, [];
      }
      r, counts, trace, mails := ProcessBatch(claim.value, w, old(store.world), trace);
    }
  }

  /** Worker `w` has the `i`-th message of its batch at hand, or is done with it. */
  ghost predicate InBatch(s: World, w: int, messages: seq<OutboxEmail>, i: nat) {
    if i < |messages| then w in s.cycles && s.cycles[w].batch == messages && s.cycles[w].next == i && s.cycles[w].phase.Ready?
    else w !in s.cycles
  }

  /** The first `i` messages were each sent once, in order, and counted once, as what became of them. */
  predicate Accounted(messages: seq<OutboxEmail>, mails: seq<Mail>, counts: Tally, i: nat) {
    && counts.Total() == i == |mails| <= |messages|
    && (forall k :: 0 <= k < i ==> mails[k].message == messages[k].message)
    && counts.sent <= TakenOf(mails) && counts.retryScheduled + counts.permanentFailures <= |mails| - TakenOf(mails)
  }

  lemma OneMoreAccounted(messages: seq<OutboxEmail>, mails: seq<Mail>, counts: Tally, i: nat, mail: Mail, kind: Kind)
    requires Accounted(messages, mails, counts, i) && i < |messages| && mail.message == messages[i].message && KindFits(kind, mail.ok)
    ensures Accounted(messages, mails + [mail], counts.Plus(kind), i + 1)
  {
    OneMoreMail(mails, mail);
  }
}
