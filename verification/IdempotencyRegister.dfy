/**
 The abstract object both idempotency strategies implement, one per key: a register that is free,
 running, done, or lapsed (expired, but still refusing claims). A run or a result ends only by a
 cancellation or by its own deadline. `echo` is a result that has lapsed and may still be answered
 for a moment.
 */
module IdempotencyRegister {
  import opened Optional
  import opened IdempotencyErrors
  import opened IdempotencyRepository
  import D = DurableStrategy

  datatype Register =
    | Free
    | Running(hash: Hash, until: Option<int>)
    | Done(hash: Hash, outcome: Outcome, until: Option<int>)
    | Lapsed

  datatype Cell = Cell(register: Register, echo: Option<(Hash, Outcome)>)

  datatype Reply =
    | Replay(outcome: Outcome)
    | BadRequest     // 400: same key, different payload
    | Conflict       // 409: still running
    | Missing        // 500: the claim was refused, but the record is gone on the second look

  datatype Op =
    /** A request moves on, or time passes, without ending anything. */
    | Silent
    /** A request with this hash is told to run the handler; a deadline already past lapses at once. */
    | Begin(hash: Hash, now: int, until: Option<int>)
    | Settle(outcome: Outcome, until: Option<int>)
    /** The claimant gives up; if the sweep had timed its run out meanwhile, that result goes too. */
    | Cancel
    /** The deadline has come; a store that keeps expired records goes on refusing claims. */
    | Elapse(now: int, kept: bool)
    | Purge
    | Answer(hash: Hash, reply: Reply)

  function ReplyOf(a: D.Answer): Option<Reply> {
    match a
    case Replayed(o, _) => Some(Replay(o))
    case PayloadMismatch(_) => Some(BadRequest)
    case AlreadyProcessing => Some(Reply.Conflict)
    case RecordNotFound => Some(Missing)
    case _ => None
  }

  predicate Past(until: Option<int>, now: int) {
    until.Some? && until.value <= now
  }

  predicate Fades(echo: Option<(Hash, Outcome)>, echo': Option<(Hash, Outcome)>) {
    echo' == None || echo' == echo
  }

  predicate Justified(c: Cell, hash: Hash, reply: Reply) {
    match reply
    case Replay(o) => (c.register.Done? && c.register.hash == hash && c.register.outcome == o) || c.echo == Some((hash, o))
    case BadRequest =>
      || ((c.register.Running? || c.register.Done?) && c.register.hash != hash)
      || (c.echo.Some? && c.echo.value.0 != hash)
    case Conflict => c.register.Running? && c.register.hash == hash
    case Missing => c.register.Free? || c.register.Lapsed?
  }

  predicate Step(c: Cell, op: Op, c': Cell) {
    match op
    case Silent => c'.register == c.register && Fades(c.echo, c'.echo)
    case Begin(hash, now, until) =>
      && c.register == Free
      && c' == c.(register := if Past(until, now) then Lapsed else Running(hash, until))
    case Settle(o, until) => c.register.Running? && c' == c.(register := Done(c.register.hash, o, until))
    case Cancel =>
      && (c.register.Running? || (c.register.Done? && c.register.outcome == Error(TIMED_OUT)))
      && c' == c.(register := Free)
    case Elapse(now, kept) =>
      && (c.register.Running? || c.register.Done?) && Past(c.register.until, now)
      && c'.register == (if kept then Lapsed else Free)
      && (Fades(c.echo, c'.echo) || (c.register.Done? && c'.echo == Some((c.register.hash, c.register.outcome))))
    case Purge => c.register == Lapsed && c' == c.(register := Free)
    case Answer(hash, reply) => Justified(c, hash, reply) && c' == c
  }

  const BLANK: Cell := Cell(Free, None)

  /** The register can go through these operations, in this order. */
  ghost predicate Accepts(c: Cell, ops: seq<Op>, c': Cell)
    decreases |ops|
  {
    if ops == [] then c == c'
    else exists mid :: Step(c, ops[0], mid) && Accepts(mid, ops[1..], c')
  }

  // ---- What the register promises its clients ----

  predicate IsOf(r: Register, hash: Hash) {
    (r.Running? || r.Done?) && r.hash == hash
  }

  predicate Outlasts(until: Option<int>, t: int) {
    until.None? || until.value >= t
  }

  /** Nobody cancels, results are kept until `t` at least, and if a deadline comes it comes before `t`. */
  predicate Before(op: Op, t: int) {
    match op
    case Cancel => false
    case Elapse(now, _) => now < t
    case Settle(_, until) => Outlasts(until, t)
    case _ => true
  }

  /**
   One run at a time. Once a run has begun, and up to the earliest deadline unless it is cancelled,
   nobody else is told to run the handler, whatever requests arrive, look and move on meanwhile; a
   result stays the result; and answers come from that run alone, or from the echo of the one before.
   */
  lemma {:induction false} OneRunAtATime(c: Cell, hash: Hash, t: int, ops: seq<Op>, c': Cell)
    requires IsOf(c.register, hash) && Outlasts(c.register.until, t)
    requires Accepts(c, ops, c')
    requires forall op | op in ops :: Before(op, t)
    ensures IsOf(c'.register, hash) && Outlasts(c'.register.until, t)
    ensures c.register.Done? ==> c'.register == c.register
    ensures forall op | op in ops :: !op.Begin? && !op.Elapse? && !op.Purge?
    ensures forall op | op in ops :: op.Answer? && op.reply.Replay? && c.echo.None? ==>
              op.hash == hash && c'.register.Done? && c'.register.outcome == op.reply.outcome
    decreases |ops|
  {
    if ops != [] {
      var mid :| Step(c, ops[0], mid) && Accepts(mid, ops[1..], c');
      assert ops[0] in ops && Before(ops[0], t);
      assert forall op | op in ops :: op == ops[0] || op in ops[1..];
      OneRunAtATime(mid, hash, t, ops[1..], c');
    }
  }

  /** The operations that let another run begin. */
  predicate Frees(op: Op) {
    op.Cancel? || op.Purge? || (op.Elapse? && !op.kept)
  }

  lemma {:induction false} BeginNeedsFreeing(c: Cell, ops: seq<Op>, c': Cell, j: nat) returns (m: nat)
    requires Accepts(c, ops, c') && c.register != Free
    requires j < |ops| && ops[j].Begin?
    ensures m < j && Frees(ops[m])
    decreases |ops|
  {
    var mid :| Step(c, ops[0], mid) && Accepts(mid, ops[1..], c');
    if Frees(ops[0]) {
      m := 0;
    } else {
      var n := BeginNeedsFreeing(mid, ops[1..], c', j - 1);
      m := n + 1;
    }
  }

  /** Between two executions the register was freed: by the claimant giving up, or at the end of its time. */
  lemma {:induction false} RunsAreApart(c: Cell, ops: seq<Op>, c': Cell, i: nat, j: nat) returns (m: nat)
    requires Accepts(c, ops, c') && i < j < |ops| && ops[i].Begin? && ops[j].Begin?
    ensures i < m < j && Frees(ops[m])
    decreases |ops|
  {
    var mid :| Step(c, ops[0], mid) && Accepts(mid, ops[1..], c');
    if i == 0 {
      var n := BeginNeedsFreeing(mid, ops[1..], c', j - 1);
      m := n + 1;
    } else {
      var n := RunsAreApart(mid, ops[1..], c', i - 1, j - 1);
      m := n + 1;
    }
  }
}
