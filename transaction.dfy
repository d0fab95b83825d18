/**
 * What one call of `comm_call` does, as a function of the replies the
 * stream will give and the retry count (pli.py:102-128).
 *
 * Each attempt writes the frame and reads two bytes. The first reply whose
 * status byte is 0xC8 ends the call with its second byte. A timeout or a
 * wrong status byte is caught: the attempt counter goes up and the client
 * sleeps. A reply too short to index (`r[0]` or `r[1]` on a shorter string)
 * raises an IndexError that the loop does not catch, so it ends the call.
 * When the counter reaches `retries`, the call raises with the wrong status
 * bytes seen, in order; timeouts add no entry.
 */
module Transaction {
  import opened Frame
  import opened Transport

  /** What one attempt makes of its reply. */
  datatype Attempt = Succeeded(value: byte) | TimedOut | BadStatus(status: byte) | ShortRead
  {
    /** The failures the loop catches and retries (pli.py:123). */
    predicate Retried() {
      TimedOut? || BadStatus?
    }
  }

  /** The reply to `comm_read(2)` as the body of the loop reads it (pli.py:118-122). */
  function Classify(reply: ReadResult): (a: Attempt)
    ensures a.Retried() <==> reply.Timeout? || (|reply.bytes| >= 1 && reply.bytes[0] != ResponseSuccess)
    ensures a.Succeeded? <==> reply.Received? && |reply.bytes| >= 2 && reply.bytes[0] == ResponseSuccess
    ensures a.Succeeded? ==> a.value == reply.bytes[1]
    ensures a.BadStatus? <==> reply.Received? && |reply.bytes| >= 1 && reply.bytes[0] != ResponseSuccess
    ensures a.BadStatus? ==> a.status == reply.bytes[0]
  {
    match reply
    case Timeout => TimedOut
    case Received(r) =>
      if |r| == 0 then ShortRead
      else if r[0] != ResponseSuccess then BadStatus(r[0])
      else if |r| == 1 then ShortRead
      else Succeeded(r[1])
  }

  /**
   * The i-th attempt of a call that starts with `script` still to be read:
   * its `comm_read(2)` gets entry i of the script, cut to two bytes, or an
   * empty read once the script has run out.
   */
  function AttemptAt(script: seq<ReadResult>, i: nat): (a: Attempt)
    ensures a.TimedOut? <==> i < |script| && script[i].Timeout?
    ensures a.BadStatus? <==> && i < |script| && script[i].Received?
                              && |script[i].bytes| >= 1 && script[i].bytes[0] != ResponseSuccess
    ensures a.BadStatus? ==> a.status == script[i].bytes[0]
    ensures a.Succeeded? <==> && i < |script| && script[i].Received?
                              && |script[i].bytes| >= 2 && script[i].bytes[0] == ResponseSuccess
    ensures a.Succeeded? ==> a.value == script[i].bytes[1]
    ensures i >= |script| ==> a == ShortRead
  {
    Classify(Truncate(Nth(script, i), 2))
  }

  /** The first n attempts of a call that starts with `script` still to be read. */
  function Attempts(script: seq<ReadResult>, n: nat): seq<Attempt> {
    seq(n, i requires 0 <= i < n => AttemptAt(script, i))
  }

  /**
   * The attempts of a call do not depend on how many it is allowed: a
   * smaller budget allows the first attempts of a larger one.
   */
  lemma AttemptsPrefix(script: seq<ReadResult>, n: nat, m: nat)
    requires m <= n
    ensures Attempts(script, n)[..m] == Attempts(script, m)
  {
  }

  /** How a call ends: a value, the exhausted-retries exception, or an IndexError. */
  datatype Outcome = Returned(value: byte) | Exhausted(statuses: seq<byte>) | ShortReply

  /** How a call ends and how many attempts (writes and reads) it made. */
  datatype Trace = Trace(outcome: Outcome, attempts: nat)

  /** The number of attempts `while tries < self.retries` allows. */
  function Budget(retries: int): (b: nat)
    ensures retries <= b
    ensures b == 0 || b == retries
  {
    if retries > 0 then retries else 0
  }

  /** A caught failure `first`, followed by the rest of the call `t`. */
  function Retry(first: Attempt, t: Trace): (u: Trace)
    requires first.Retried()
    ensures u.attempts == t.attempts + 1
    ensures u.outcome.Exhausted? <==> t.outcome.Exhausted?
    ensures !t.outcome.Exhausted? ==> u.outcome == t.outcome
    ensures t.outcome.Exhausted? ==> u.outcome.statuses == Entry(first) + t.outcome.statuses
  {
    var o := if first.BadStatus? && t.outcome.Exhausted?
             then Exhausted([first.status] + t.outcome.statuses)
             else t.outcome;
    Trace(o, t.attempts + 1)
  }

  /** A call whose allowed attempts would go as `atts`, attempt by attempt. */
  function Decide(atts: seq<Attempt>): (t: Trace)
    ensures t.attempts <= |atts|
    ensures !t.outcome.Exhausted? ==> t.attempts >= 1
    ensures t.outcome.Exhausted? ==> t.attempts == |atts|
  {
    if atts == [] then Trace(Exhausted([]), 0)
    else
      match atts[0]
      case Succeeded(v) => Trace(Returned(v), 1)
      case ShortRead => Trace(ShortReply, 1)
      case _ => Retry(atts[0], Decide(atts[1..]))
  }

  /** The whole call: the attempts the budget allows, decided in turn. */
  function Run(script: seq<ReadResult>, retries: int): (t: Trace)
    ensures t.attempts <= Budget(retries)
  {
    Decide(Attempts(script, Budget(retries)))
  }

  /** The entry a failed attempt adds to `errors`: its status byte, or nothing for a timeout. */
  function Entry(a: Attempt): (e: seq<byte>)
    ensures |e| <= 1
    ensures |e| == 1 <==> a.BadStatus?
    ensures a.BadStatus? ==> e[0] == a.status
  {
    if a.BadStatus? then [a.status] else []
  }

  /** The entries of a list of attempts, collected from first to last. */
  function Statuses(atts: seq<Attempt>): (s: seq<byte>)
    ensures |s| <= |atts|
  {
    if atts == [] then [] else Statuses(atts[..|atts| - 1]) + Entry(atts[|atts| - 1])
  }

  /** How many attempts of a list failed in a way the loop retries. */
  function Failures(atts: seq<Attempt>): (k: nat)
    ensures k <= |atts|
  {
    if atts == [] then 0 else Failures(atts[..|atts| - 1]) + (if atts[|atts| - 1].Retried() then 1 else 0)
  }

  /** The entries of a list are the first attempt's, then those of the rest. */
  lemma {:induction false} StatusesCons(atts: seq<Attempt>)
    requires atts != []
    ensures Statuses(atts) == Entry(atts[0]) + Statuses(atts[1..])
  {
    if |atts| > 1 {
      var init := atts[..|atts| - 1];
      StatusesCons(init);
      assert init[1..] == atts[1..][..|atts| - 2];
      assert init[0] == atts[0];
    } else {
      assert atts[..0] == [];
    }
  }

  /** Every attempt of a call but the last was retried. */
  lemma {:induction false} RetriedBeforeLast(atts: seq<Attempt>)
    ensures forall i :: 0 <= i && i + 1 < Decide(atts).attempts ==> atts[i].Retried()
  {
    if atts != [] && atts[0].Retried() {
      RetriedBeforeLast(atts[1..]);
    }
  }

  /** A call that ran out retried every attempt and recorded exactly their entries. */
  lemma {:induction false} ExhaustedRetriedAll(atts: seq<Attempt>)
    requires Decide(atts).outcome.Exhausted?
    ensures forall i :: 0 <= i < |atts| ==> atts[i].Retried()
    ensures Decide(atts).outcome.statuses == Statuses(atts)
  {
    if atts != [] {
      ExhaustedRetriedAll(atts[1..]);
      StatusesCons(atts);
    }
  }

  /** A call that returned or failed on a short read did so on its last attempt. */
  lemma {:induction false} EndsOnLast(atts: seq<Attempt>)
    ensures var t := Decide(atts);
      && (t.outcome.Returned? ==> atts[t.attempts - 1] == Succeeded(t.outcome.value))
      && (t.outcome.ShortReply? ==> atts[t.attempts - 1] == ShortRead)
  {
    if atts != [] && atts[0].Retried() {
      EndsOnLast(atts[1..]);
    }
  }

  /**
   * The shape of every call: all attempts but the last were retried; a call
   * that ran out used its whole budget, retried every attempt and recorded
   * exactly their entries, in order; a call that returned or failed on a
   * short read did so on its last attempt.
   */
  lemma RunShape(script: seq<ReadResult>, retries: int)
    ensures var t := Run(script, retries);
      && (forall i :: 0 <= i && i + 1 < t.attempts ==> AttemptAt(script, i).Retried())
      && (t.outcome.Exhausted? ==>
            && t.attempts == Budget(retries)
            && (forall i :: 0 <= i < t.attempts ==> AttemptAt(script, i).Retried())
            && t.outcome.statuses == Statuses(Attempts(script, t.attempts)))
      && (t.outcome.Returned? ==> AttemptAt(script, t.attempts - 1) == Succeeded(t.outcome.value))
      && (t.outcome.ShortReply? ==> AttemptAt(script, t.attempts - 1) == ShortRead)
  {
    var atts := Attempts(script, Budget(retries));
    assert forall i :: 0 <= i < |atts| ==> atts[i] == AttemptAt(script, i);
    RetriedBeforeLast(atts);
    EndsOnLast(atts);
    if Decide(atts).outcome.Exhausted? {
      ExhaustedRetriedAll(atts);
    }
  }

  /**
   * Which response wins: when attempt k is the first one the loop does not
   * retry, and the budget reaches it, the call makes exactly k + 1 attempts
   * and ends as attempt k says.
   */
  lemma FirstDecisiveAttemptWins(script: seq<ReadResult>, retries: int, k: nat)
    requires k < retries
    requires forall i :: 0 <= i < k ==> AttemptAt(script, i).Retried()
    requires !AttemptAt(script, k).Retried()
    ensures Run(script, retries).attempts == k + 1
    ensures Run(script, retries).outcome
         == if AttemptAt(script, k).Succeeded? then Returned(AttemptAt(script, k).value) else ShortReply
  {
    RunShape(script, retries);
  }

  /** A call runs out of retries exactly when every attempt its budget allows is retried. */
  lemma ExhaustedIff(script: seq<ReadResult>, retries: int)
    ensures Run(script, retries).outcome.Exhausted?
        <==> forall i :: 0 <= i < retries ==> AttemptAt(script, i).Retried()
  {
    RunShape(script, retries);
  }

  /** With no retries allowed, nothing is written and the call raises at once. */
  lemma NoBudgetNoAttempts(script: seq<ReadResult>, retries: int)
    requires retries <= 0
    ensures Run(script, retries) == Trace(Exhausted([]), 0)
  {
  }

  /** When every attempt of a list is retried, all of them count as failures. */
  lemma {:induction false} AllRetriedFailures(atts: seq<Attempt>)
    requires forall i :: 0 <= i < |atts| ==> atts[i].Retried()
    ensures Failures(atts) == |atts|
  {
    if atts != [] {
      AllRetriedFailures(atts[..|atts| - 1]);
    }
  }

  /**
   * One sleep per caught failure: the failures among the attempts made are
   * all of them when retries ran out, and all but the last otherwise.
   */
  lemma FailuresOfRun(script: seq<ReadResult>, retries: int)
    ensures var t := Run(script, retries);
      Failures(Attempts(script, t.attempts)) == if t.outcome.Exhausted? then t.attempts else t.attempts - 1
  {
    RunShape(script, retries);
    var t := Run(script, retries);
    var made := Attempts(script, t.attempts);
    if t.outcome.Exhausted? {
      AllRetriedFailures(made);
    } else {
      AllRetriedFailures(made[..t.attempts - 1]);
    }
  }

  /** Timeouts add no entry: a list of timeouts records no status. */
  lemma {:induction false} TimeoutsRecordNothing(atts: seq<Attempt>)
    requires forall i :: 0 <= i < |atts| ==> atts[i] == TimedOut
    ensures Statuses(atts) == []
  {
    if atts != [] {
      TimeoutsRecordNothing(atts[..|atts| - 1]);
    }
  }

  /** A stream that only times out exhausts the retries with an empty list. */
  lemma AllTimeouts(script: seq<ReadResult>, retries: int)
    requires forall i :: 0 <= i < retries ==> AttemptAt(script, i) == TimedOut
    ensures Run(script, retries) == Trace(Exhausted([]), Budget(retries))
  {
    ExhaustedIff(script, retries);
    RunShape(script, retries);
    TimeoutsRecordNothing(Attempts(script, Budget(retries)));
  }

  /** A wrong status byte that stands in every reply is recorded once per attempt. */
  lemma {:induction false} RepeatedStatus(atts: seq<Attempt>, b: byte)
    requires forall i :: 0 <= i < |atts| ==> atts[i] == BadStatus(b)
    ensures Statuses(atts) == seq(|atts|, _ => b)
  {
    if atts != [] {
      RepeatedStatus(atts[..|atts| - 1], b);
    }
  }

  /** First reply [0xC8, 0x2A]: the value 0x2A after one attempt. */
  lemma FirstReplySucceeds()
    ensures Run([Received([0xC8, 0x2A])], 3) == Trace(Returned(0x2A), 1)
  {
    FirstDecisiveAttemptWins([Received([0xC8, 0x2A])], 3, 0);
  }

  /** Two timeouts, then [0xC8, 0x05], with three retries: 0x05 after three attempts, two of them failures. */
  lemma SuccessAfterTwoTimeouts()
    ensures var script := [Timeout, Timeout, Received([0xC8, 0x05])];
      && Run(script, 3) == Trace(Returned(0x05), 3)
      && Failures(Attempts(script, 3)) == 2
  {
    var script := [Timeout, Timeout, Received([0xC8, 0x05])];
    assert AttemptAt(script, 0) == TimedOut;
    assert AttemptAt(script, 1) == TimedOut;
    assert AttemptAt(script, 2) == Succeeded(0x05);
    FirstDecisiveAttemptWins(script, 3, 2);
    FailuresOfRun(script, 3);
  }

  /** Replies that always start with 0x00, three retries: three attempts, three entries 0x00. */
  lemma AlwaysWrongStatus()
    ensures var script := [Received([0, 0]), Received([0, 0]), Received([0, 0])];
      Run(script, 3) == Trace(Exhausted([0, 0, 0]), 3)
  {
    var script := [Received([0, 0]), Received([0, 0]), Received([0, 0])];
    forall i | 0 <= i < 3
      ensures AttemptAt(script, i) == BadStatus(0)
    {
    }
    ExhaustedIff(script, 3);
    RunShape(script, 3);
    RepeatedStatus(Attempts(script, 3), 0);
    assert seq(3, _ => 0) == [0, 0, 0];
  }

  // The loop of `comm_call`, described step by step for its proof.

  /** n copies of one frame: what n attempts write. */
  function Frames(frame: seq<byte>, n: nat): (fs: seq<seq<byte>>)
    ensures |fs| == n
  {
    seq(n, _ => frame)
  }

  /**
   * A call that has already made n caught failures, recording `statuses`,
   * and goes on as t.
   */
  function Resume(statuses: seq<byte>, n: nat, t: Trace): Trace {
    var o := if t.outcome.Exhausted? then Exhausted(statuses + t.outcome.statuses) else t.outcome;
    Trace(o, n + t.attempts)
  }

  /**
   * The retry loop after k caught failures that recorded `statuses`, for a
   * call that started with `script0` to read, `written0` written and
   * `sleeps0` sleeps: the whole call is those failures followed by the
   * remaining attempts, and the stream and the sleep count show exactly k
   * attempts and k sleeps.
   */
  ghost predicate Midway(script0: seq<ReadResult>, written0: seq<seq<byte>>, sleeps0: int,
                         frame: seq<byte>, retries: int, k: nat, statuses: seq<byte>,
                         script: seq<ReadResult>, written: seq<seq<byte>>, sleeps: int)
  {
    var atts := Attempts(script0, Budget(retries));
    && k <= |atts|
    && Failures(atts[..k]) == k
    && Decide(atts) == Resume(statuses, k, Decide(atts[k..]))
    && script == Drop(script0, k)
    && written == written0 + Frames(frame, k)
    && sleeps == sleeps0 + k
  }

  /**
   * The stream and the sleep count at the end of a call: one frame written
   * and one reply read per attempt, one sleep per caught failure.
   */
  ghost predicate Finished(script0: seq<ReadResult>, written0: seq<seq<byte>>, sleeps0: int,
                           frame: seq<byte>, retries: int,
                           script: seq<ReadResult>, written: seq<seq<byte>>, sleeps: int)
  {
    var t := Run(script0, retries);
    && written == written0 + Frames(frame, t.attempts)
    && script == Drop(script0, t.attempts)
    && sleeps == sleeps0 + Failures(Attempts(script0, t.attempts))
  }

  /** Before the first attempt nothing has happened. */
  lemma MidwayStart(script0: seq<ReadResult>, written0: seq<seq<byte>>, sleeps0: int,
                    frame: seq<byte>, retries: int)
    ensures Midway(script0, written0, sleeps0, frame, retries, 0, [], script0, written0, sleeps0)
  {
    var atts := Attempts(script0, Budget(retries));
    var t := Decide(atts);
    if t.outcome.Exhausted? {
      assert [] + t.outcome.statuses == t.outcome.statuses;
    }
    assert atts[0..] == atts;
    assert written0 + Frames(frame, 0) == written0;
  }

  /** A caught failure moves from the rest of the call to the failures already made. */
  lemma ResumeStep(atts: seq<Attempt>, k: nat, statuses: seq<byte>)
    requires k < |atts| && atts[k].Retried()
    requires Decide(atts) == Resume(statuses, k, Decide(atts[k..]))
    ensures Decide(atts) == Resume(statuses + Entry(atts[k]), k + 1, Decide(atts[k + 1..]))
  {
    var rest := Decide(atts[k + 1..]);
    assert atts[k..][1..] == atts[k + 1..];
    assert Decide(atts[k..]) == Retry(atts[k], rest);
    if rest.outcome.Exhausted? {
      assert statuses + (Entry(atts[k]) + rest.outcome.statuses)
          == (statuses + Entry(atts[k])) + rest.outcome.statuses;
    }
  }

  /** A caught failure at attempt k becomes the (k + 1)-th, adding its entry and a sleep. */
  lemma AdvanceRetried(script0: seq<ReadResult>, written0: seq<seq<byte>>, sleeps0: int,
                       frame: seq<byte>, retries: int, k: nat, statuses: seq<byte>,
                       script: seq<ReadResult>, written: seq<seq<byte>>, sleeps: int)
    requires k < retries
    requires Midway(script0, written0, sleeps0, frame, retries, k, statuses, script, written, sleeps)
    requires AttemptAt(script0, k).Retried()
    ensures var a := AttemptAt(script0, k);
      && (a.TimedOut? ==>
            Midway(script0, written0, sleeps0, frame, retries, k + 1, statuses,
                   Drop(script, 1), written + [frame], sleeps + 1))
      && (a.BadStatus? ==>
            Midway(script0, written0, sleeps0, frame, retries, k + 1, statuses + [a.status],
                   Drop(script, 1), written + [frame], sleeps + 1))
  {
    var atts := Attempts(script0, Budget(retries));
    DropOneMore(script0, k);
    assert Frames(frame, k + 1) == Frames(frame, k) + [frame];
    assert atts[..k + 1][..k] == atts[..k];
    ResumeStep(atts, k, statuses);
    if atts[k].TimedOut? {
      assert statuses + Entry(atts[k]) == statuses;
    }
  }

  /** An attempt k the loop does not catch ends the call as it says. */
  lemma AdvanceDecided(script0: seq<ReadResult>, written0: seq<seq<byte>>, sleeps0: int,
                       frame: seq<byte>, retries: int, k: nat, statuses: seq<byte>,
                       script: seq<ReadResult>, written: seq<seq<byte>>, sleeps: int)
    requires k < retries
    requires Midway(script0, written0, sleeps0, frame, retries, k, statuses, script, written, sleeps)
    requires !AttemptAt(script0, k).Retried()
    ensures var a := AttemptAt(script0, k);
      && (a.Succeeded? ==> Run(script0, retries).outcome == Returned(a.value))
      && (a.ShortRead? ==> Run(script0, retries).outcome == ShortReply)
      && Finished(script0, written0, sleeps0, frame, retries, Drop(script, 1), written + [frame], sleeps)
  {
    var atts := Attempts(script0, Budget(retries));
    DropOneMore(script0, k);
    assert Frames(frame, k + 1) == Frames(frame, k) + [frame];
    assert atts[..k + 1][..k] == atts[..k];
    AttemptsPrefix(script0, Budget(retries), k + 1);
  }

  /**
   * One turn of the loop: attempt k writes the frame and reads a reply;
   * it either ends the call as it says, or becomes the (k + 1)-th caught
   * failure, adding its entry and a sleep.
   */
  lemma Advance(script0: seq<ReadResult>, written0: seq<seq<byte>>, sleeps0: int,
                frame: seq<byte>, retries: int, k: nat, statuses: seq<byte>,
                script: seq<ReadResult>, written: seq<seq<byte>>, sleeps: int)
    requires k < retries
    requires Midway(script0, written0, sleeps0, frame, retries, k, statuses, script, written, sleeps)
    ensures AttemptAt(script, 0) == AttemptAt(script0, k)
    ensures var a := AttemptAt(script0, k);
      && (a.TimedOut? ==>
            Midway(script0, written0, sleeps0, frame, retries, k + 1, statuses,
                   Drop(script, 1), written + [frame], sleeps + 1))
      && (a.BadStatus? ==>
            Midway(script0, written0, sleeps0, frame, retries, k + 1, statuses + [a.status],
                   Drop(script, 1), written + [frame], sleeps + 1))
      && (a.Succeeded? ==> Run(script0, retries).outcome == Returned(a.value))
      && (a.ShortRead? ==> Run(script0, retries).outcome == ShortReply)
      && (!a.Retried() ==>
            Finished(script0, written0, sleeps0, frame, retries, Drop(script, 1), written + [frame], sleeps))
  {
    NthDrop(script0, k, 0);
    if AttemptAt(script0, k).Retried() {
      AdvanceRetried(script0, written0, sleeps0, frame, retries, k, statuses, script, written, sleeps);
    } else {
      AdvanceDecided(script0, written0, sleeps0, frame, retries, k, statuses, script, written, sleeps);
    }
  }

  /** When the loop condition fails, the call has run out of retries with the statuses recorded. */
  lemma MidwayEnd(script0: seq<ReadResult>, written0: seq<seq<byte>>, sleeps0: int,
                  frame: seq<byte>, retries: int, k: nat, statuses: seq<byte>,
                  script: seq<ReadResult>, written: seq<seq<byte>>, sleeps: int)
    requires retries <= k
    requires Midway(script0, written0, sleeps0, frame, retries, k, statuses, script, written, sleeps)
    ensures Run(script0, retries).outcome == Exhausted(statuses)
    ensures Finished(script0, written0, sleeps0, frame, retries, script, written, sleeps)
  {
    var atts := Attempts(script0, Budget(retries));
    assert atts[k..] == [];
    assert statuses + [] == statuses;
    assert atts[..k] == atts;
  }
}
