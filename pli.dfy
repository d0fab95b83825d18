/**
 * The PLI client (pli.py:37-152): a stream, a retry count, and the calls
 * built on `comm_call`. Sleeping between attempts is counted, not done.
 */
module Pli {
  import opened Frame
  import opened Transport
  import opened Transaction
  import opened Format
  import opened Wrappers

  /** The exceptions that leave the client's methods. */
  datatype Exception =
    | InvalidResponse(message: string)  // InvalidResponseException (pli.py:154-164)
    | SocketTimeout                     // socket.timeout, which loopback_test does not catch
    | IndexError                        // r[0] or r[1] on a reply too short to index

  /** A returned value, or the exception raised instead. */
  datatype Result<T> = Ok(value: T) | Raised(exception: Exception)

  /** What `comm_call` hands its caller when the call ends with outcome o. */
  function Report(o: Outcome): (r: Result<byte>)
    ensures r.Ok? <==> o.Returned?
    ensures o.Returned? ==> r.value == o.value
    ensures o.ShortReply? ==> r == Raised(IndexError)
    ensures o.Exhausted? ==> r.Raised? && r.exception.InvalidResponse?
  {
    match o
    case Returned(v) => Ok(v)
    case Exhausted(statuses) => Raised(InvalidResponse(ExhaustedMessage(HexAll(statuses))))
    case ShortReply => Raised(IndexError)
  }

  /**
   * The exception raised when retries run out carries the expected code 0xC8
   * and exactly the wrong status bytes seen, in order.
   */
  lemma ExhaustedReportNamesStatuses(statuses: seq<byte>)
    ensures Report(Exhausted(statuses)).Raised?
    ensures Report(Exhausted(statuses)).exception.InvalidResponse?
    ensures ParseMessage(Report(Exhausted(statuses)).exception.message) == Some((ResponseSuccess, statuses))
  {
    MessageRoundTrip(statuses);
  }

  /** What `loopback_test` makes of the reply to `comm_read(1)` (pli.py:152). */
  function LoopbackVerdict(reply: ReadResult): (r: Result<bool>)
    ensures r.Ok? <==> reply.Received?
    ensures r.Raised? ==> r.exception == SocketTimeout
    ensures r.Ok? ==> (r.value <==> |reply.bytes| >= 1 && reply.bytes[0] == LoopbackSuccess)
  {
    match Truncate(reply, 1)
    case Timeout => Raised(SocketTimeout)
    case Received(bs) => Ok(bs == [LoopbackSuccess])
  }

  class Client {
    /** The open stream (`self.comm`); opening it is not part of this model. */
    const comm: Link
    /** `self.retries`: how many attempts `comm_call` makes at most. */
    const retries: int
    /** How many times the client has slept for `retry_delay`. */
    var sleeps: int

    /** `PLI(target, retries=3)` once the stream is open (pli.py:39-46). */
    constructor (link: Link, retries: int := 3)
      ensures comm == link && this.retries == retries && sleeps == 0
    {
      comm := link;
      this.retries := retries;
      sleeps := 0;
    }

    /**
     * The effect of one `comm_call(command, address, data)`, as `Run`
     * describes it: the result, one copy of the frame written per attempt,
     * one reply read per attempt, and one sleep per caught failure.
     */
    twostate predicate Called(command: int, address: int, data: int, new r: Result<byte>)
      reads this, comm
    {
      && r == Report(Run(old(comm.script), retries).outcome)
      && Finished(old(comm.script), old(comm.written), old(sleeps), EncodeCommand(command, address, data),
                  retries, comm.script, comm.written, sleeps)
    }

    /**
     * The `try` block of `comm_call` (pli.py:111-122): write the frame, read
     * two bytes and judge the reply. A timeout or a wrong status is what the
     * `except` clause catches; a reply too short to index is the IndexError
     * it lets through.
     */
    method Exchange(frame: seq<byte>) returns (a: Attempt)
      modifies comm
      ensures a == AttemptAt(old(comm.script), 0)
      ensures comm.written == old(comm.written) + [frame]
      ensures comm.script == Drop(old(comm.script), 1)
    {
      comm.Write(frame);
      var reply := comm.Read(2);
      a := Classify(reply);
    }

    /** `comm_call` (pli.py:102-128). */
    method CommCall(command: int, address: int, writeData: int := 0) returns (r: Result<byte>)
      modifies this, comm
      ensures r == Report(Run(old(comm.script), retries).outcome)
      ensures Finished(old(comm.script), old(comm.written), old(sleeps), EncodeCommand(command, address, writeData),
                       retries, comm.script, comm.written, sleeps)
    {
      ghost var s0, w0, z0 := comm.script, comm.written, sleeps;
      ghost var frame := EncodeCommand(command, address, writeData);
      ghost var bad: seq<byte> := [];
      var errors: seq<string> := [];
      var tries := 0;
      MidwayStart(s0, w0, z0, frame, retries);
      while tries < retries
        invariant Midway(s0, w0, z0, frame, retries, tries, bad, comm.script, comm.written, sleeps)
        invariant errors == HexAll(bad)
        decreases retries - tries
      {
        Advance(s0, w0, z0, frame, retries, tries, bad, comm.script, comm.written, sleeps);
        var a := Exchange(EncodeCommand(command, address, writeData));
        if !a.Retried() {
          // `return r[1]`, or the IndexError that indexing a short reply raises
          return if a.Succeeded? then Ok(a.value) else Raised(IndexError);
        }
        if a.BadStatus? {
          HexAllSnoc(bad, a.status);
          errors := errors + [Hex(a.status)];
          bad := bad + [a.status];
        }
        tries := tries + 1;
        sleeps := sleeps + 1;
      }
      MidwayEnd(s0, w0, z0, frame, retries, tries, bad, comm.script, comm.written, sleeps);
      r := Raised(InvalidResponse(ExhaustedMessage(errors)));
    }

    /** `get_value(index)`: read a volatile location (pli.py:130-133). */
    method GetValue(index: int) returns (r: Result<byte>)
      modifies this, comm
      ensures Called(ReadProcessorLocation, index, 0, r)
    {
      r := CommCall(ReadProcessorLocation, index);
    }

    /** `get_eeprom(index)`: read an EEPROM location (pli.py:135-138). */
    method GetEeprom(index: int) returns (r: Result<byte>)
      modifies this, comm
      ensures Called(ReadEepromLocation, index, 0, r)
    {
      r := CommCall(ReadEepromLocation, index);
    }

    /** `set_eeprom(index, value)`: write an EEPROM location, returning the acknowledgement (pli.py:140-143). */
    method SetEeprom(index: int, value: int) returns (r: Result<byte>)
      modifies this, comm
      ensures Called(WriteEepromLocation, index, value, r)
    {
      r := CommCall(WriteEepromLocation, index, value);
    }

    /** `loopback_test()`: one frame, one 1-byte read, no retry and no sleep (pli.py:145-152). */
    method LoopbackTest() returns (r: Result<bool>)
      modifies comm
      ensures comm.written == old(comm.written) + [EncodeCommand(LoopbackCommand, 0, 0)]
      ensures comm.script == Drop(old(comm.script), 1)
      ensures r == LoopbackVerdict(Nth(old(comm.script), 0))
    {
      comm.Write([LoopbackCommand, 0, 0, Mask(Complement(LoopbackCommand))]);
      var reply := comm.Read(1);
      r := LoopbackVerdict(reply);
    }
  }
}
