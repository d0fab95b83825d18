# PLI client transaction layer

A Dafny model of the transaction layer of the PLI client (`pli.py`, class
`PLI`). The client talks to a PLI serial interface adaptor for PL solar
controllers. Each request is a 4-byte command frame: the command code, an
address and a data byte, each masked to one byte, then the ones' complement
of the command code as a check byte. The controller answers with two bytes:
a status byte, which is 0xC8 on success, and the value.

`comm_call` writes the frame and reads two bytes, at most `retries` times.
It returns the value of the first reply whose status byte is 0xC8. A
timeout or a wrong status byte is caught: the counter goes up and the
client sleeps for `retry_delay`. A wrong status byte also adds its
lower-case hexadecimal text to a list of errors. When the attempts run
out, the call raises `InvalidResponseException` with the message
`failed too many times, expected c8 but got: <errors joined by ", ">`.
`get_value`, `get_eeprom` and `set_eeprom` are `comm_call` with a fixed
command code; the model's replies are bytes, so their `ord` is the byte
itself. `loopback_test` writes one loopback frame, reads one byte and
does not retry.

The stream (`self.comm`) is a `Link` object with two parts. `written` logs
the frames written, in order. `script` queues the read results still to
come. Each entry stands for the result of one read: a timeout or the bytes
received. A read of n bytes takes the next entry and keeps at most n of its
bytes. Dropping the extra bytes is a choice of the model; a real `recv(n)`
would leave them for the next read, but any sequence of real read results
is some script. A read past the end of the script returns no bytes, as a
closed stream does. Sleeping is counted in the
client's `sleeps` field, not done.

Files:

- `wrappers.dfy`: `Option`.
- `frame.dfy`: bytes, Python's `& 0xFF` and `~`, the command codes, and the
  frame encoding with a decoder as its inverse.
- `hexfmt.dfy`: Python's `'%x'` on a byte, `', '.join`, and the
  exhausted-retries message, each with a parser that reads it back.
- `transport.dfy`: the scripted `Link`.
- `transaction.dfy`: `Run`, which gives the result of one `comm_call` and
  the attempts it makes, as a function of the script and `retries`. It also
  holds the lemmas about `Run` and the loop-step lemmas used by the
  `CommCall` proof.
- `pli.dfy`: the `Client` class: `CommCall` (the retry loop, proved against
  `Run`), the three wrappers and `LoopbackTest`.

Where a reply is too short to index, the model follows the code. An empty
reply, or a one-byte reply whose byte is 0xC8, makes `r[0]` or `r[1]` raise
an `IndexError`. The `except` clause does not catch it, so the call ends
and is not retried. A one-byte reply with a wrong status byte is an
ordinary bad status and is retried. The client also sleeps after the last
failed attempt, before it raises.

## Model

| member | source | states |
|---|---|---|
| Frame.Mask | pli.py:112-115 | `x & 0xFF` is the byte congruent to x modulo 256, and is x itself when x is already a byte |
| Frame.Complement | pli.py:115 | Python's `~x` adds to x to give -1, and flips every bit of the low byte |
| Frame.CheckByte | pli.py:115 | the check byte `~command & 0xFF` is 255 minus the masked command, for every integer command |
| Frame.CheckByteXor | pli.py:115 | the masked command XOR the check byte is 0xFF for every integer command |
| Frame.XorComplement | pli.py:115 | an n-bit value XOR its n-bit complement has all n bits set |
| Frame.EncodeCommand | pli.py:111-116 | the frame is 4 bytes, and its last byte complements its first |
| Frame.DecodeEncode | pli.py:111-116 | with `DecodeCommand` as the inverse of the encoding, every frame decodes to the command, address and data masked to one byte |
| Frame.EncodeDecode | pli.py:111-116 | every accepted frame is the encoding of what it decodes to |
| Frame.ReadBatteryVoltageFrame | pli.py:111-116 | reading battery voltage (0x14, 0x32, 0) writes 14 32 00 EB |
| Frame.LoopbackFrame | pli.py:146-151 | the loopback frame is BB 00 00 44 |
| Format.HexDigit | pli.py:125 | the digit of a value below 16 is a lower-case hexadecimal digit |
| Format.DigitValue | pli.py:125 | a hexadecimal digit stands for a value from 0 to 15 |
| Format.DigitRoundTrip | pli.py:125 | the digit of d reads back as d |
| Format.DigitCanonical | pli.py:125 | a digit is the digit of its value |
| Format.Hex | pli.py:125 | `'%x'` of a byte is one or two hexadecimal digits, two exactly when the byte is 16 or more |
| Format.HexRoundTrip | pli.py:125 | `'%x'` of a byte reads back as that byte |
| Format.HexCanonical | pli.py:125 | a text that reads back as a byte is exactly `'%x'` of that byte |
| Format.HexAll | pli.py:124-125 | one error entry per bad status byte |
| Format.HexAllSnoc | pli.py:124-125 | appending a status byte appends its text to the error entries |
| Format.Join | pli.py:128 | `', '.join` of some texts starts with the first of them and is as long as all of them plus two characters per separator |
| Format.ExhaustedMessage | pli.py:128 | the message is `failed too many times, expected c8 but got: ` followed by the joined errors |
| Format.IndexOf | pli.py:128 | the position found is the first occurrence of the separator in the text, or its end when there is none |
| Format.HexListWord | pli.py:125-128 | each entry reads back as its byte and holds no comma |
| Format.ListCons | pli.py:128 | one more entry in front of a joined list reads back in front of its bytes |
| Format.ListOne | pli.py:128 | a single entry reads back as a one-byte list |
| Format.JoinHexCons | pli.py:128 | the joined entries of two or more bytes are the first entry, ", ", then the rest joined |
| Format.ListRoundTrip | pli.py:124-128 | the joined error entries read back as the bad status bytes, in their order |
| Format.MessageRoundTrip | pli.py:128 | the exhausted-retries message reads back as the expected code 0xC8 and the bad status bytes, in order |
| Format.MessageInjective | pli.py:128 | two different lists of bad status bytes give two different messages |
| Transport.Truncate | pli.py:93-100 | a read of n bytes yields at most n bytes, a prefix of the reply, and keeps a timeout a timeout |
| Transport.Link.Write | pli.py:84-91 | writing appends exactly the frame to the log and leaves the replies to come alone |
| Transport.Link.Read | pli.py:93-100 | reading consumes exactly the next reply, keeps at most n of its bytes and leaves the log alone |
| Transaction.Classify | pli.py:118-122 | a reply is retried exactly when it is a timeout or its first byte is present and is not 0xC8; it is a bad status, recorded with that first byte, exactly when its first byte is present and is not 0xC8; it succeeds exactly when it has two bytes and the first is 0xC8, with the second as the value |
| Transaction.AttemptAt | pli.py:118-122 | attempt i times out exactly when entry i of the script is a timeout; it is a bad status exactly when entry i has a first byte other than 0xC8, and then records that byte; it succeeds exactly when entry i has two or more bytes starting with 0xC8, and then returns the second; past the end of the script it is a short read |
| Transaction.AttemptsPrefix | pli.py:109-122 | a smaller budget allows the first attempts of a larger one: what each attempt does does not depend on `retries` |
| Transaction.Budget | pli.py:109 | the number of attempts the loop allows is the least natural number at least `retries`: 0 or `retries` |
| Transaction.Entry | pli.py:124-125 | a caught failure adds one entry exactly when it is a bad status, and that entry is its status byte |
| Transaction.Retry | pli.py:123-127 | a caught failure adds one attempt to the rest of the call, leaves its outcome unchanged unless it runs out, and then puts the failure's entry in front of the recorded statuses |
| Transaction.Decide | pli.py:109-128 | a call makes at most its budget of attempts, makes at least one unless it runs out, and uses the whole budget when it runs out |
| Transaction.Run | pli.py:102-128 | the number of attempts (frames written) is at most `retries` |
| Transaction.Statuses | pli.py:124-125 | a list of attempts records at most one entry per attempt |
| Transaction.Failures | pli.py:123-127 | a list of attempts has at most one caught failure per attempt |
| Transaction.StatusesCons | pli.py:124-125 | the entries of a list are those of its first attempt, then those of the rest |
| Transaction.RetriedBeforeLast | pli.py:109-127 | every attempt of a call before its last was a caught failure |
| Transaction.ExhaustedRetriedAll | pli.py:109-128 | a call that ran out caught a failure on every attempt and recorded exactly their status bytes, in order |
| Transaction.EndsOnLast | pli.py:118-122 | a call that returned did so with the value of its last reply, and a call that hit a short reply did so on its last attempt |
| Transaction.RunShape | pli.py:102-128 | the shape of every call: retried attempts, then a deciding last one; or, when it runs out, the whole budget retried with the statuses recorded in order |
| Transaction.FirstDecisiveAttemptWins | pli.py:118-122 | the first reply the loop does not retry decides the call: the value of the first 0xC8 reply, with no write after it, or the IndexError of a short reply |
| Transaction.ExhaustedIff | pli.py:109-128 | a call raises the exhausted-retries exception exactly when every attempt its budget allows is a timeout or a wrong status |
| Transaction.NoBudgetNoAttempts | pli.py:108-128 | with `retries <= 0` nothing is written and the call raises at once with an empty list |
| Transaction.AllRetriedFailures | pli.py:123-127 | when every attempt is retried, every attempt is a caught failure |
| Transaction.FailuresOfRun | pli.py:123-127 | a call sleeps once per caught failure: once per attempt when it runs out, including after the last, and once per attempt but the last otherwise |
| Transaction.TimeoutsRecordNothing | pli.py:123-126 | timeouts add no entry to the errors |
| Transaction.AllTimeouts | pli.py:109-128 | a stream that only times out exhausts the retries with an empty list after `retries` attempts |
| Transaction.RepeatedStatus | pli.py:120-125 | a wrong status byte that comes back every time is recorded once per attempt |
| Transaction.FirstReplySucceeds | pli.py:118-122 | a first reply C8 2A returns 0x2A after one attempt |
| Transaction.SuccessAfterTwoTimeouts | pli.py:118-127 | two timeouts, then C8 05, return 0x05 after three attempts and two sleeps |
| Transaction.AlwaysWrongStatus | pli.py:118-128 | three replies starting with 00 exhaust three retries with the list 0, 0, 0 |
| Transaction.Frames | pli.py:111-116 | n attempts write n frames |
| Transaction.MidwayStart | pli.py:107-109 | before the loop no attempt, no entry and no sleep has happened |
| Transaction.ResumeStep | pli.py:123-127 | a caught failure can be moved from the rest of the call to the failures already made, carrying its entry with it |
| Transaction.AdvanceRetried | pli.py:123-127 | a timeout or wrong status at attempt k leaves the loop after k + 1 failures, with one more frame written, one more reply read, its entry recorded and one more sleep |
| Transaction.AdvanceDecided | pli.py:118-122 | an attempt the loop does not catch ends the call with its value or its IndexError, after one more frame and one more reply and no sleep |
| Transaction.Advance | pli.py:110-127 | one turn of the loop: the attempt ends the call as its reply says, or adds one write, one read, its entry and one sleep |
| Transaction.MidwayEnd | pli.py:109-128 | when the loop condition fails, the call has run out with the recorded statuses |
| Pli.Report | pli.py:122-128 | the call returns a value exactly when it ended with a good reply, and then that value; a short reply raises IndexError; running out raises `InvalidResponseException` |
| Pli.ExhaustedReportNamesStatuses | pli.py:128-164 | running out raises `InvalidResponseException` whose message names the code c8 and exactly the bad status bytes seen, in order |
| Pli.LoopbackVerdict | pli.py:152 | the loopback test raises only on a timeout, and then the propagated `socket.timeout`; otherwise it answers true exactly when the byte read is 0x80 |
| Pli.Client.constructor | pli.py:39-46 | the client keeps the stream and `retries`, which defaults to 3, and has not slept yet |
| Pli.Client.Exchange | pli.py:111-122 | one attempt writes the frame, consumes one reply and is judged on that reply |
| Pli.Client.CommCall | pli.py:102-128 | the result is what `Run` says; the log gains one frame per attempt, the script loses one reply per attempt, and the client sleeps once per caught failure |
| Pli.Client.GetValue | pli.py:130-133 | `comm_call` with code 0x14, the index as address and data 0 |
| Pli.Client.GetEeprom | pli.py:135-138 | `comm_call` with code 0x48, the index as address and data 0 |
| Pli.Client.SetEeprom | pli.py:140-143 | `comm_call` with code 0xCA, the index as address and the value as data |
| Pli.Client.LoopbackTest | pli.py:145-152 | one loopback frame written, one reply consumed, no retry and no sleep, and the verdict on that reply |

## Left out

- Opening the connection in `__init__` (address lookup, connect loop, opening a serial device, setting the timeout, pli.py:48-77): operating-system and network I/O. The client is built on an already open `Link`.
- The socket-or-file dispatch of `comm_write` and `comm_read` (pli.py:84-100): both kinds of stream are the one scripted `Link`.
- `destroy` (pli.py:79-82): it only closes the handle.
- `time.sleep`, `retry_delay` and the `timeout` value: the model counts sleeps and takes timeouts from the script, with no clock.
- A timeout raised by the write (`sendall` inside the `try`, pli.py:110-116): the source catches it at pli.py:123, counts it and sleeps, but no reply is read for it. The model's writes never time out, so `Pli.Client.CommCall`'s promise of one consumed reply per attempt covers only calls without write timeouts.
- Any other `socket.error` from a write or a read: it would propagate out of `comm_call`; the model has no such failures.
- `InvalidResponseException.__str__` (pli.py:163-164): only the message the exception carries is modelled.
- `WRITE_PROCESSOR_LOCATION` (pli.py:25): no operation of the client uses it, so the model does not define it.
- The example constants `BATTERY_TEMP` and `VOLTAGE_SETTING` (pli.py:33-35): they are only used by callers outside the client.
- test.py and enum.py: demonstration scripts that only call the public methods and print.
