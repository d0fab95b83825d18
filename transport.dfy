/**
 * The byte stream under the client (pli.py:84-100), as a scripted stand-in:
 * `comm_write` appends a frame to a log, and `comm_read(n)` takes the next
 * scripted reply. Each entry of the script stands for the result of one
 * read: a timeout (the socket raised `socket.timeout`) or the bytes
 * received. A read of n bytes returns at most n of them; the model drops
 * any extra bytes of that entry, where a real `recv(n)` would leave them
 * for the next read. Any sequence of real read results is some script, so
 * this choice loses no behaviour. A script that has run out reads as the
 * end of the stream, an empty string.
 */
module Transport {
  import opened Frame

  datatype ReadResult = Timeout | Received(bytes: seq<byte>)

  /** The reply to the i-th read from now; past the script, end of stream. */
  function Nth(script: seq<ReadResult>, i: nat): ReadResult {
    if i < |script| then script[i] else Received([])
  }

  /** The script left after k reads. */
  function Drop(script: seq<ReadResult>, k: nat): seq<ReadResult> {
    if k < |script| then script[k..] else []
  }

  /** The i-th reply after k reads is the (k + i)-th reply. */
  lemma NthDrop(script: seq<ReadResult>, k: nat, i: nat)
    ensures Nth(Drop(script, k), i) == Nth(script, k + i)
  {
  }

  /** Reading k replies and then one more is reading k + 1. */
  lemma DropOneMore(script: seq<ReadResult>, k: nat)
    ensures Drop(Drop(script, k), 1) == Drop(script, k + 1)
  {
  }

  /** A read of at most n bytes: a reply is cut to its first n bytes. */
  function Truncate(reply: ReadResult, n: nat): (r: ReadResult)
    ensures r.Timeout? <==> reply.Timeout?
    ensures r.Received? ==> |r.bytes| <= n && r.bytes <= reply.bytes
    ensures r.Received? && |reply.bytes| <= n ==> r == reply
  {
    match reply
    case Timeout => Timeout
    case Received(bs) => if |bs| <= n then reply else Received(bs[..n])
  }

  /** The stream: frames written so far, and the replies still to come. */
  class Link {
    var written: seq<seq<byte>>
    var script: seq<ReadResult>

    constructor (replies: seq<ReadResult>)
      ensures written == [] && script == replies
    {
      written := [];
      script := replies;
    }

    /** `comm_write(data)` (pli.py:84-91). */
    method Write(frame: seq<byte>)
      modifies this
      ensures written == old(written) + [frame]
      ensures script == old(script)
    {
      written := written + [frame];
    }

    /** `comm_read(n)` (pli.py:93-100): consumes one scripted reply. */
    method Read(n: nat) returns (r: ReadResult)
      modifies this
      ensures r == Truncate(Nth(old(script), 0), n)
      ensures script == Drop(old(script), 1)
      ensures written == old(written)
    {
      r := Truncate(Nth(script, 0), n);
      script := Drop(script, 1);
    }
  }
}
