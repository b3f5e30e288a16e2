/** The life of one connection in its slot: handle_client's rounds
    (HttpServer.c:148-279) around handle_timer (ThreadPool.c:242-286). What poll
    reports and how each receive and reply ends are arbitrary inputs. */
module KeepAlive {
  import opened ThreadPool

  datatype TimerEnd = TimerEnd(td: ThreadData, timer: int, polls: nat)

  /** handle_timer; `poll(k)` is what the k-th call of poll reports. */
  function TimerRun(td: ThreadData, poll: nat -> bool, k: nat): TimerEnd
    requires td.timer >= 0
    decreases td.timer
  {
    match Tick(td, poll(k))
    case (td', PollAgain) => TimerRun(td', poll, k + 1)
    case (td', Return(t)) => TimerEnd(td', t, k + 1)
  }

  /** How one round of handle_client ends, before the timer: the reply went out
      (HttpServer.c:249-253), the default branch was taken (263), or the client
      was found gone (229-238, 255-261). */
  datatype Outcome = Replied | OtherStatus | Gone

  /** The slot when the timer is entered after a reply. */
  function AfterReply(td: ThreadData): ThreadData {
    td.(msgReceived := 0)
  }

  /** The slot when the timer is entered. */
  function BeforeTimer(td: ThreadData, outcome: Outcome): ThreadData {
    if outcome == Replied then AfterReply(td) else td
  }

  /** Polls and receive rounds of a connection, up to its closing; `outcome(r)` is how
      round r ends. */
  function Session(td: ThreadData, poll: nat -> bool, outcome: nat -> Outcome, polls: nat, rounds: nat): (nat, nat)
    requires td.timer >= 0 && td.request >= 0
    decreases td.request
  {
    if td.request == 0 || outcome(rounds) == Gone then (polls, rounds + 1)
    else
      var td' := BeforeTimer(td, outcome(rounds));
      var end := TimerRun(td', poll, polls);
      TimerRunMakesProgress(td', poll, polls);
      if end.timer == 0 then (end.polls, rounds + 1)
      else Session(end.td, poll, outcome, end.polls, rounds + 1)
  }

  /** The client is never found gone. */
  ghost predicate Answered(outcome: nat -> Outcome) {
    forall r: nat :: outcome(r) != Gone
  }

  /** The most polls a connection can still make when a request is about to be received. */
  function PollBudget(td: ThreadData): int {
    if td.request == 0 then 0 else 6 * (td.request - 1) + td.timer + 1
  }

  /** Every poll that does not close the connection lowers 6*request + timer,
      and keeps both in their range. A poll that reports a request closes the
      connection all the same exactly when the timer stands at one, because the
      value returned is the timer after it was lowered. */
  lemma TickLowersMeasure(td: ThreadData, ready: bool)
    requires 0 <= td.timer <= TIMER_START && 0 < td.request <= REQUEST_START
    ensures var (td', v) := Tick(td, ready);
            && 0 <= td'.timer <= TIMER_START && 0 <= td'.request <= REQUEST_START
            && (v != Return(0) ==> 6 * td'.request + td'.timer < 6 * td.request + td.timer)
            && (v == PollAgain ==> td'.request == td.request)
            && (ready ==> (v == Return(0) <==> td.timer == 1))
  {
  }

  /** What a whole run of the timer does: it ends, it keeps the slot in range, and
      unless the connection closes it has used up one request and no more than
      its share of the budget. */
  lemma {:induction false} TimerRunMakesProgress(td: ThreadData, poll: nat -> bool, k: nat)
    requires td.timer >= 0
    ensures var end := TimerRun(td, poll, k);
            && end.polls <= k + td.timer + 1
            && end.td.connSd == td.connSd && end.td.used == td.used
            && (end.timer != 0 ==> end.td.request == td.request - 1)
            && 0 <= end.td.timer && (td.timer <= TIMER_START ==> end.td.timer <= TIMER_START)
            && (end.timer != 0 ==> end.polls + end.td.timer <= k + td.timer + 6)
    decreases td.timer
  {
    if td.timer == 0 || poll(k) {
    } else {
      TimerRunMakesProgress(td.(timer := td.timer - 1), poll, k + 1);
    }
  }

  /** handle_timer in terms of the polls alone. After d idle polls, a poll that reports
      a request while the timer still runs returns what the timer is lowered to; at
      zero it starts the timer again; and an idle poll at zero ends the connection. */
  lemma {:induction false} TimerRunExactly(td: ThreadData, poll: nat -> bool, k: nat, d: nat)
    requires 0 <= d <= td.timer && forall i | k <= i < k + d :: !poll(i)
    ensures var left, asked := td.timer - d, td.(msgReceived := 1, request := td.request - 1);
            && (poll(k + d) && left > 0 ==>
                  TimerRun(td, poll, k) == TimerEnd(asked.(timer := left - 1), left - 1, k + d + 1))
            && (poll(k + d) && left == 0 ==> TimerRun(td, poll, k) == TimerEnd(asked.(timer := 5), 1, k + d + 1))
            && (!poll(k + d) && left == 0 ==> TimerRun(td, poll, k) == TimerEnd(td.(timer := 0), 0, k + d + 1))
    decreases d
  {
    if d == 0 {
    } else {
      assert !poll(k);
      TimerRunExactly(td.(timer := td.timer - 1), poll, k + 1, d - 1);
    }
  }

  /** After a reply the flag says whether a request was reported since. */
  lemma {:induction false} FlagSaysRequest(td: ThreadData, poll: nat -> bool, k: nat)
    requires td.timer >= 0 && td.msgReceived != 1
    ensures var end := TimerRun(td, poll, k);
            end.polls > k && (end.td.msgReceived == 1 <==> poll(end.polls - 1))
    decreases td.timer
  {
    if td.timer == 0 || poll(k) {
    } else {
      FlagSaysRequest(td.(timer := td.timer - 1), poll, k + 1);
    }
  }

  lemma ReplyClearsFlag(td: ThreadData, poll: nat -> bool, k: nat)
    requires td.timer >= 0
    ensures var end := TimerRun(BeforeTimer(td, Replied), poll, k);
            end.polls > k && (end.td.msgReceived == 1 <==> poll(end.polls - 1))
  {
    FlagSaysRequest(AfterReply(td), poll, k);
  }

  /** A client whose every poll reports a request: each lowers the timer, so the
      connection ends after as many rounds as the timer had left, or earlier with
      the round in which the client is gone or its requests are used up. */
  lemma {:induction false} EagerSession(td: ThreadData, poll: nat -> bool, outcome: nat -> Outcome,
                                        polls: nat, rounds: nat, g: nat)
    requires 0 < td.timer && 0 <= td.request && g <= td.timer && g <= td.request
    requires forall i | polls <= i < polls + g :: poll(i)
    requires forall r | rounds <= r < rounds + g :: outcome(r) != Gone
    ensures g == td.timer ==> Session(td, poll, outcome, polls, rounds) == (polls + g, rounds + g)
    ensures g < td.timer && (g == td.request || outcome(rounds + g) == Gone)
        ==> Session(td, poll, outcome, polls, rounds) == (polls + g, rounds + g + 1)
    decreases g
  {
    if g == 0 {
    } else {
      assert poll(polls) && outcome(rounds) != Gone;
      var end := TimerRun(BeforeTimer(td, outcome(rounds)), poll, polls);
      if td.timer > 1 {
        EagerSession(end.td, poll, outcome, end.polls, rounds + 1, g - 1);
      }
    }
  }

  /** A round of an open connection stays within the poll budget. */
  lemma RoundStaysInBudget(td: ThreadData, poll: nat -> bool, k: nat)
    requires 0 <= td.timer <= TIMER_START && td.request > 0
    ensures var end := TimerRun(td, poll, k);
            && end.polls <= k + PollBudget(td)
            && 0 <= end.td.timer <= TIMER_START
            && end.td.connSd == td.connSd
            && (end.timer != 0 ==> end.td.request == td.request - 1)
            && (end.timer != 0 ==> end.polls + PollBudget(end.td) <= k + PollBudget(td))
  {
    TimerRunMakesProgress(td, poll, k);
  }

  /** A poll schedule that keeps a connection as long as possible: idle for five
      polls, then a request when the timer is at zero. */
  function LastMoment(k: nat): bool {
    k % 6 == 5
  }

  lemma TimerRunLastMoment(td: ThreadData, m: nat)
    requires td.timer == TIMER_START
    ensures TimerRun(td, LastMoment, 6 * m)
         == TimerEnd(td.(timer := TIMER_START, request := td.request - 1, msgReceived := 1), 1, 6 * m + 6)
  {
    IdleTwice(td, 6 * m);
    IdleTwice(td.(timer := 3), 6 * m + 2);
    assert TimerRun(td.(timer := 1), LastMoment, 6 * m + 4) == TimerRun(td.(timer := 0), LastMoment, 6 * m + 5);
  }

  lemma IdleTwice(td: ThreadData, k: nat)
    requires td.timer >= 2 && k % 6 != 5 && (k + 1) % 6 != 5
    ensures TimerRun(td, LastMoment, k) == TimerRun(td.(timer := td.timer - 2), LastMoment, k + 2)
  {
    var td' := td.(timer := td.timer - 1);
    assert TimerRun(td, LastMoment, k) == TimerRun(td', LastMoment, k + 1);
  }

  /** The budget is reached: with this schedule a slot filled with r requests is
      closed after exactly 6*r polls and r+1 rounds. */
  lemma {:induction false} BudgetIsReached(td: ThreadData, outcome: nat -> Outcome, m: nat, rounds: nat)
    requires td.timer == TIMER_START && td.request >= 0 && Answered(outcome)
    ensures Session(td, LastMoment, outcome, 6 * m, rounds) == (6 * m + PollBudget(td), rounds + td.request + 1)
    decreases td.request
  {
    if td.request == 0 {
    } else {
      var td' := BeforeTimer(td, outcome(rounds));
      TimerRunLastMoment(td', m);
      BudgetIsReached(TimerRun(td', LastMoment, 6 * m).td, outcome, m + 1, rounds + 1);
    }
  }

  /** Whatever poll reports and however the rounds end, a connection is closed within
      its budget of polls, and after at most one round more than the requests it may make. */
  lemma {:induction false} SessionBounded(td: ThreadData, poll: nat -> bool, outcome: nat -> Outcome,
                                          polls: nat, rounds: nat)
    requires 0 <= td.timer <= TIMER_START && td.request >= 0
    ensures var (polls', rounds') := Session(td, poll, outcome, polls, rounds);
            polls' <= polls + PollBudget(td) && rounds < rounds' <= rounds + td.request + 1
    decreases td.request
  {
    if td.request == 0 || outcome(rounds) == Gone {
    } else {
      var td' := BeforeTimer(td, outcome(rounds));
      RoundStaysInBudget(td', poll, polls);
      var end := TimerRun(td', poll, polls);
      if end.timer != 0 {
        SessionBounded(end.td, poll, outcome, end.polls, rounds + 1);
      }
    }
  }

  /** A newly filled slot: at most 6000 polls and 1001 rounds, and both are reached;
      five polls and five rounds when the client always has a request ready. */
  lemma FilledSlotLasts(p: PoolData, n: nat, connSd: int, poll: nat -> bool, outcome: nat -> Outcome)
    requires GoodPool(p, n) && SomeFree(p)
    ensures var td := Assign(p, connSd).arr[Pick(p)];
            && td.connSd == connSd
            && Session(td, poll, outcome, 0, 0).0 <= 6000 && Session(td, poll, outcome, 0, 0).1 <= 1001
            && (Answered(outcome) ==> Session(td, LastMoment, outcome, 0, 0) == (6000, 1001)
                                      && Session(td, _ => true, outcome, 0, 0) == (5, 5))
  {
    var td := Assign(p, connSd).arr[Pick(p)];
    SessionBounded(td, poll, outcome, 0, 0);
    if Answered(outcome) {
      BudgetIsReached(td, outcome, 0, 0);
      EagerSession(td, _ => true, outcome, 0, 0, 5);
    }
  }

  /** What a worker finds when it returns from its wait with its slot free: a slot that
      was closed before has a full budget again, and one that was never filled is
      closed in the first round. */
  lemma FreeSlotLasts(td: ThreadData, poll: nat -> bool, outcome: nat -> Outcome)
    ensures Session(FRESH_SLOT, poll, outcome, 0, 0) == (0, 1)
    ensures Answered(outcome) ==> Session(ClosedSlot(td), LastMoment, outcome, 0, 0) == (6000, 1001)
  {
    if Answered(outcome) {
      BudgetIsReached(ClosedSlot(td), outcome, 0, 0);
    }
  }

  method HandleTimer(pool: Pool, e: nat, poll: nat -> bool, from: nat) returns (timer: int, polls: nat)
    requires pool.Valid() && e < pool.numThreadPool && pool.arr[e].timer >= 0
    modifies pool.arr
    ensures pool.Valid() && pool.arr[..] == old(pool.arr[..])[e := pool.arr[e]]
    ensures TimerEnd(pool.arr[e], timer, polls) == old(TimerRun(pool.arr[e], poll, from))
  {
    polls := from;
    while true
      invariant pool.Valid() && pool.arr[e].timer >= 0
      invariant pool.arr[..] == old(pool.arr[..])[e := pool.arr[e]]
      invariant TimerRun(pool.arr[e], poll, polls) == old(TimerRun(pool.arr[e], poll, from))
      decreases pool.arr[e].timer
    {
      var ready := poll(polls);
      polls := polls + 1;
      if pool.arr[e].timer == 0 {
        if ready {
          pool.arr[e] := pool.arr[e].(msgReceived := 1);
          pool.arr[e] := pool.arr[e].(request := pool.arr[e].request - 1);
          pool.arr[e] := pool.arr[e].(timer := TIMER_START);
          return 1, polls;
        } else {
          return 0, polls;
        }
      } else {
        if ready {
          pool.arr[e] := pool.arr[e].(timer := pool.arr[e].timer - 1);
          pool.arr[e] := pool.arr[e].(msgReceived := 1);
          pool.arr[e] := pool.arr[e].(request := pool.arr[e].request - 1);
          return pool.arr[e].timer, polls;
        }
        pool.arr[e] := pool.arr[e].(timer := pool.arr[e].timer - 1);
      }
    }
  }

  /** One round of handle_client, from the receive on (HttpServer.c:155-279). */
  method Round(pool: Pool, e: nat, poll: nat -> bool, outcome: nat -> Outcome, from: nat, round: nat)
    returns (closed: bool, polls: nat)
    requires pool.Valid() && e < pool.numThreadPool
    requires 0 <= pool.arr[e].timer <= TIMER_START && 0 <= pool.arr[e].request
    modifies pool`counter, pool.arr
    ensures pool.Valid() && pool.E == old(pool.E)
    ensures closed ==> pool.Data() == old(Close(pool.Data(), e)) && polls <= from + old(PollBudget(pool.arr[e]))
    ensures !closed ==>
              && pool.counter == old(pool.counter) && pool.arr[..] == old(pool.arr[..])[e := pool.arr[e]]
              && pool.arr[e].connSd == old(pool.arr[e].connSd)
              && 0 <= pool.arr[e].timer <= TIMER_START && 0 <= pool.arr[e].request == old(pool.arr[e].request) - 1
              && polls + PollBudget(pool.arr[e]) <= from + old(PollBudget(pool.arr[e]))
    ensures old(Session(pool.arr[e], poll, outcome, from, round))
         == if closed then (polls, round + 1) else Session(pool.arr[e], poll, outcome, polls, round + 1)
  {
    var status := if pool.arr[e].request == 0 then Gone else outcome(round);
    polls := from;
    match status {
      case Gone =>
        pool.CloseSlot(e);
        return true, polls;
      case Replied =>
        pool.arr[e] := pool.arr[e].(msgReceived := 0);
      case OtherStatus =>
    }
    RoundStaysInBudget(pool.arr[e], poll, polls);
    var timer;
    timer, polls := HandleTimer(pool, e, poll, polls);
    closed := timer == 0;
    if closed {
      pool.CloseSlot(e);
    }
  }

  /** The rounds of handle_client on a filled slot, up to the closing of the
      connection: it is always reached, whatever poll and the client do. */
  method HandleClient(pool: Pool, e: nat, poll: nat -> bool, outcome: nat -> Outcome)
    returns (polls: nat, rounds: nat)
    requires pool.Valid() && e < pool.numThreadPool
    requires 0 <= pool.arr[e].timer <= TIMER_START && 0 <= pool.arr[e].request <= REQUEST_START
    modifies pool`counter, pool.arr
    ensures pool.Valid() && pool.Data() == old(Close(pool.Data(), e))
    ensures polls <= old(PollBudget(pool.arr[e])) <= 6000
    ensures 1 <= rounds <= old(pool.arr[e].request) + 1
    ensures (polls, rounds) == old(Session(pool.arr[e], poll, outcome, 0, 0))
  {
    polls, rounds := 0, 0;
    var closed := false;
    while !closed
      invariant pool.Valid() && pool.E == old(pool.E)
      invariant closed ==> pool.Data() == old(Close(pool.Data(), e)) && polls <= old(PollBudget(pool.arr[e]))
      invariant closed ==> 1 <= rounds <= old(pool.arr[e].request) + 1
      invariant !closed ==>
                  && pool.counter == old(pool.counter) && pool.arr[..] == old(pool.arr[..])[e := pool.arr[e]]
                  && pool.arr[e].connSd == old(pool.arr[e].connSd)
                  && 0 <= pool.arr[e].timer <= TIMER_START && 0 <= pool.arr[e].request
                  && polls + PollBudget(pool.arr[e]) <= old(PollBudget(pool.arr[e]))
                  && rounds + pool.arr[e].request == old(pool.arr[e].request)
      invariant old(Session(pool.arr[e], poll, outcome, 0, 0))
             == if closed then (polls, rounds) else Session(pool.arr[e], poll, outcome, polls, rounds)
      decreases !closed, pool.arr[e].request
    {
      closed, polls := Round(pool, e, poll, outcome, polls, rounds);
      rounds := rounds + 1;
    }
  }
}
