/**
 * The 4-byte command frame of the PLI serial protocol (pli.py:23-29, 111-116).
 *
 * The client builds a frame from three Python integers: the command code, the
 * address and the data byte, each cut to its low byte with `& 0xFF`, then a
 * check byte, the ones' complement of the command (`~command & 0xFF`).
 */
module Frame {
  import opened Wrappers

  type byte = x: int | 0 <= x < 256

  // Command and response codes of the controller (pli.py:23-29).
  const ReadProcessorLocation: byte := 0x14
  const ReadEepromLocation: byte := 0x48
  const WriteEepromLocation: byte := 0xCA
  const LoopbackCommand: byte := 0xBB
  const LoopbackSuccess: byte := 0x80
  const ResponseSuccess: byte := 0xC8

  /**
   * Python's `x & 0xFF` on an integer of any sign. Python integers behave as
   * two's complement of unbounded width, so the low byte is the remainder
   * of x modulo 256 that lies in 0..255, which is Dafny's Euclidean `%`.
   */
  function Mask(x: int): (b: byte)
    ensures (x - b) % 256 == 0
    ensures 0 <= x < 256 ==> b == x
  {
    x % 256
  }

  /**
   * Python's `~x` on an integer: the ones' complement. Every bit flips, so
   * the low byte of the result is the low byte of x with every bit flipped.
   */
  function Complement(x: int): (y: int)
    ensures x + y == -1
    ensures Mask(y) == 255 - Mask(x)
  {
    -x - 1
  }

  /** The check byte `~command & 0xFF` (pli.py:115). */
  function CheckByte(command: int): (c: byte)
    ensures c == 255 - Mask(command)
  {
    Mask(Complement(command))
  }

  /** The frame written on each attempt (pli.py:111-116). */
  function EncodeCommand(command: int, address: int, data: int): (f: seq<byte>)
    ensures |f| == 4
    ensures f[3] == 255 - f[0]
  {
    [Mask(command), Mask(address), Mask(data), CheckByte(command)]
  }

  /** A frame as the controller reads it: three payload bytes. */
  datatype Command = Command(code: byte, address: byte, data: byte)

  /**
   * The receiving side of the frame format: a frame is well formed when it is
   * four bytes long and its last byte complements its first.
   */
  function DecodeCommand(f: seq<byte>): Option<Command> {
    if |f| == 4 && f[3] == 255 - f[0] then Some(Command(f[0], f[1], f[2])) else None
  }

  /** 2 to the power n. */
  function Pow2(n: nat): (p: nat)
    ensures p >= 1
  {
    if n == 0 then 1 else 2 * Pow2(n - 1)
  }

  /** Python's `a ^ b` on the low n bits of two non-negative integers, bit by bit. */
  function Xor(a: nat, b: nat, n: nat): (r: nat)
    ensures r < Pow2(n)
  {
    if n == 0 then 0 else 2 * Xor(a / 2, b / 2, n - 1) + (if a % 2 != b % 2 then 1 else 0)
  }

  /** An n-bit number and its n-bit complement differ in every bit. */
  lemma {:induction false} XorComplement(b: nat, n: nat)
    requires b < Pow2(n)
    ensures Xor(b, Pow2(n) - 1 - b, n) == Pow2(n) - 1
  {
    if n > 0 {
      var c := Pow2(n) - 1 - b;
      assert c / 2 == Pow2(n - 1) - 1 - b / 2;
      assert b % 2 != c % 2;
      XorComplement(b / 2, n - 1);
    }
  }

  /** Every integer command's masked value XOR its check byte is 0xFF. */
  lemma CheckByteXor(command: int)
    ensures Xor(Mask(command), CheckByte(command), 8) == 0xFF
  {
    assert Pow2(8) == 256;
    XorComplement(Mask(command), 8);
  }

  /** Decoding an encoded frame gives back the masked arguments. */
  lemma DecodeEncode(command: int, address: int, data: int)
    ensures DecodeCommand(EncodeCommand(command, address, data))
         == Some(Command(Mask(command), Mask(address), Mask(data)))
  {
  }

  /** Every well-formed frame is the encoding of what it decodes to. */
  lemma EncodeDecode(f: seq<byte>)
    requires DecodeCommand(f).Some?
    ensures var c := DecodeCommand(f).value;
            EncodeCommand(c.code, c.address, c.data) == f
  {
  }

  /** The frame of `get_value(0x32)`, reading the battery voltage (pli.py:32). */
  lemma ReadBatteryVoltageFrame()
    ensures EncodeCommand(ReadProcessorLocation, 0x32, 0) == [0x14, 0x32, 0x00, 0xEB]
  {
  }

  /** The loopback frame built by hand in pli.py:146-151 is the standard encoding. */
  lemma LoopbackFrame()
    ensures EncodeCommand(LoopbackCommand, 0, 0) == [0xBB, 0x00, 0x00, 0x44]
  {
  }
}
