/**
 * Text that comm_call puts into its exception when retries run out
 * (pli.py:124-125, 128): each bad status byte formatted with Python's `'%x'`
 * (lower-case hexadecimal, no leading zeros), joined with ", ", after the
 * fixed words "failed too many times, expected c8 but got: ".
 *
 * Beside the formatter sits a parser for the same text, so that round-trip
 * lemmas can show the message records exactly the statuses seen, in order.
 */
module Format {
  import opened Wrappers
  import opened Frame

  predicate IsHexDigit(c: char) {
    '0' <= c <= '9' || 'a' <= c <= 'f'
  }

  /** One lower-case hexadecimal digit. */
  function HexDigit(d: int): (c: char)
    requires 0 <= d < 16
    ensures IsHexDigit(c)
  {
    if d < 10 then (48 + d) as char else (87 + d) as char
  }

  /** The value of one lower-case hexadecimal digit. */
  function DigitValue(c: char): (d: int)
    requires IsHexDigit(c)
    ensures 0 <= d < 16
  {
    if c <= '9' then c as int - 48 else c as int - 87
  }

  /** Python's `'%x' % b` for a byte. */
  function Hex(b: byte): (s: string)
    ensures 1 <= |s| <= 2
    ensures forall i :: 0 <= i < |s| ==> IsHexDigit(s[i])
    ensures |s| == 2 <==> b >= 16
  {
    if b < 16 then [HexDigit(b)] else [HexDigit(b / 16), HexDigit(b % 16)]
  }

  /** Reads back the text `'%x'` produces; anything else is refused. */
  function ParseHex(s: string): Option<byte> {
    if |s| == 1 && IsHexDigit(s[0]) then
      Some(DigitValue(s[0]))
    else if |s| == 2 && IsHexDigit(s[0]) && IsHexDigit(s[1]) && s[0] != '0' then
      Some(16 * DigitValue(s[0]) + DigitValue(s[1]))
    else
      None
  }

  lemma DigitRoundTrip(d: int)
    requires 0 <= d < 16
    ensures DigitValue(HexDigit(d)) == d
  {
  }

  lemma DigitCanonical(c: char)
    requires IsHexDigit(c)
    ensures HexDigit(DigitValue(c)) == c
  {
  }

  /** `'%x'` loses nothing: its text reads back as the same byte. */
  lemma HexRoundTrip(b: byte)
    ensures ParseHex(Hex(b)) == Some(b)
  {
    if b < 16 {
      DigitRoundTrip(b);
    } else {
      DigitRoundTrip(b / 16);
      DigitRoundTrip(b % 16);
    }
  }

  /** Every text ParseHex accepts is the one `'%x'` prints for its value. */
  lemma HexCanonical(s: string, b: byte)
    requires ParseHex(s) == Some(b)
    ensures Hex(b) == s
  {
    DigitCanonical(s[0]);
    if |s| == 2 {
      DigitCanonical(s[1]);
      assert b / 16 == DigitValue(s[0]) && b % 16 == DigitValue(s[1]);
    }
  }

  /** `'%x' % ord(e.value)` for every recorded status, in order (pli.py:125). */
  function HexAll(bs: seq<byte>): (r: seq<string>)
    ensures |r| == |bs|
  {
    if bs == [] then [] else [Hex(bs[0])] + HexAll(bs[1..])
  }

  lemma {:induction false} HexAllSnoc(bs: seq<byte>, b: byte)
    ensures HexAll(bs + [b]) == HexAll(bs) + [Hex(b)]
  {
    if bs != [] {
      assert (bs + [b])[1..] == bs[1..] + [b];
      HexAllSnoc(bs[1..], b);
    } else {
      assert [] + [b] == [b];
    }
  }

  /** The total length of some texts. */
  function Lengths(parts: seq<string>): nat {
    if parts == [] then 0 else |parts[0]| + Lengths(parts[1..])
  }

  /**
   * Python's `', '.join(parts)`: the parts in order, each but the last
   * followed by the two characters of the separator.
   */
  function Join(parts: seq<string>): (r: string)
    ensures parts == [] ==> r == ""
    ensures parts != [] ==> |r| == Lengths(parts) + 2 * (|parts| - 1)
    ensures parts != [] ==> StartsWith(r, parts[0])
  {
    if |parts| == 0 then ""
    else if |parts| == 1 then parts[0]
    else parts[0] + ", " + Join(parts[1..])
  }

  const ExhaustedPrefix: string := "failed too many times, expected "
  const ExhaustedMiddle: string := " but got: "

  /** The message of the exception raised when retries run out (pli.py:128). */
  function ExhaustedMessage(errors: seq<string>): (m: string)
    ensures m == "failed too many times, expected c8 but got: " + Join(errors)
  {
    ExhaustedPrefix + (Hex(ResponseSuccess) + (ExhaustedMiddle + Join(errors)))
  }

  /** The first position of character c in s, or |s| when there is none. */
  function IndexOf(s: string, c: char): (i: nat)
    ensures i <= |s|
    ensures i < |s| ==> s[i] == c
    ensures forall j :: 0 <= j < i ==> s[j] != c
  {
    if s == [] then 0 else if s[0] == c then 0 else 1 + IndexOf(s[1..], c)
  }

  /** Reads back a ", "-separated list of hexadecimal bytes. */
  function ParseList(s: string): Option<seq<byte>>
    decreases |s|
  {
    if s == [] then Some([])
    else
      var i := IndexOf(s, ',');
      match ParseHex(s[..i])
      case None => None
      case Some(b) =>
        if i == |s| then Some([b])
        else if i + 1 < |s| && s[i + 1] == ' ' then
          match ParseList(s[i + 2..])
          case None => None
          case Some(rest) => Some([b] + rest)
        else None
  }

  predicate StartsWith(s: string, p: string) {
    |p| <= |s| && s[..|p|] == p
  }

  /** Reads back the expected code and the statuses from an exhausted-retries message. */
  function ParseMessage(m: string): Option<(byte, seq<byte>)> {
    if !StartsWith(m, ExhaustedPrefix) then None
    else
      var rest := m[|ExhaustedPrefix|..];
      var i := IndexOf(rest, ' ');
      var tail := rest[i..];
      if !StartsWith(tail, ExhaustedMiddle) then None
      else
        match (ParseHex(rest[..i]), ParseList(tail[|ExhaustedMiddle|..]))
        case (Some(e), Some(bs)) => Some((e, bs))
        case _ => None
  }

  /** A concatenation starts with its first part, and what follows is the second. */
  lemma Split(p: string, q: string)
    ensures StartsWith(p + q, p)
    ensures (p + q)[..|p|] == p
    ensures (p + q)[|p|..] == q
  {
  }

  /** The first c after a word free of c is the one that ends the word. */
  lemma IndexAfterWord(w: string, c: char, tail: string)
    requires forall i :: 0 <= i < |w| ==> w[i] != c
    requires |tail| > 0 && tail[0] == c
    ensures IndexOf(w + tail, c) == |w|
  {
    assert (w + tail)[|w|] == c;
  }

  /** A word that reads back as b and holds no comma: an entry of the list. */
  predicate ListWord(w: string, b: byte) {
    && ParseHex(w) == Some(b)
    && forall i :: 0 <= i < |w| ==> w[i] != ','
  }

  /** The text of every byte is such a word. */
  lemma HexListWord(b: byte)
    ensures ListWord(Hex(b), b)
  {
    HexRoundTrip(b);
  }

  /** One more word in front of a list that reads back as bs. */
  lemma ListCons(w: string, b: byte, rest: string, bs: seq<byte>)
    requires ListWord(w, b)
    requires ParseList(rest) == Some(bs)
    ensures ParseList(w + (", " + rest)) == Some([b] + bs)
  {
    var s := w + (", " + rest);
    IndexAfterWord(w, ',', ", " + rest);
    Split(w, ", " + rest);
    Split(", ", rest);
    assert s[|w| + 2..] == rest;
  }

  /** A single word reads back as a one-byte list. */
  lemma ListOne(w: string, b: byte)
    requires ListWord(w, b)
    ensures ParseList(w) == Some([b])
  {
    assert w != [] by {
      assert ParseHex(w).Some?;
    }
    assert IndexOf(w, ',') == |w|;
    assert w[..|w|] == w;
  }

  /** The joined texts of two or more bytes: the first text, ", ", then the rest joined. */
  lemma JoinHexCons(bs: seq<byte>)
    requires |bs| >= 2
    ensures Join(HexAll(bs)) == Hex(bs[0]) + (", " + Join(HexAll(bs[1..])))
  {
    var parts := HexAll(bs);
    assert parts[0] == Hex(bs[0]);
    assert parts[1..] == HexAll(bs[1..]);
  }

  /** A joined list of `'%x'` texts reads back as the bytes, in their order. */
  lemma {:induction false} ListRoundTrip(bs: seq<byte>)
    ensures ParseList(Join(HexAll(bs))) == Some(bs)
  {
    if |bs| == 1 {
      assert HexAll(bs) == [Hex(bs[0])];
      HexListWord(bs[0]);
      ListOne(Hex(bs[0]), bs[0]);
      assert bs == [bs[0]];
    } else if |bs| > 1 {
      ListRoundTrip(bs[1..]);
      JoinHexCons(bs);
      HexListWord(bs[0]);
      ListCons(Hex(bs[0]), bs[0], Join(HexAll(bs[1..])), bs[1..]);
      assert bs == [bs[0]] + bs[1..];
    }
  }

  /**
   * The exhausted-retries message names the expected code 0xC8 and every
   * bad status byte, in the order seen, and nothing else.
   */
  lemma MessageRoundTrip(statuses: seq<byte>)
    ensures ParseMessage(ExhaustedMessage(HexAll(statuses))) == Some((ResponseSuccess, statuses))
  {
    var list := Join(HexAll(statuses));
    var tail := ExhaustedMiddle + list;
    var expected := Hex(ResponseSuccess);
    Split(ExhaustedPrefix, expected + tail);
    IndexAfterWord(expected, ' ', tail);
    Split(expected, tail);
    Split(ExhaustedMiddle, list);
    HexRoundTrip(ResponseSuccess);
    ListRoundTrip(statuses);
  }

  /** Two runs that saw different statuses raise different messages. */
  lemma MessageInjective(a: seq<byte>, b: seq<byte>)
    requires ExhaustedMessage(HexAll(a)) == ExhaustedMessage(HexAll(b))
    ensures a == b
  {
    MessageRoundTrip(a);
    MessageRoundTrip(b);
  }
}
