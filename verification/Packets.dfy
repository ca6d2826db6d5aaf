/** Packets on the wire, and the messages they stand for. */
module Packets {
  import opened PacketNumbers

  const RFC: byte := 1
  const OPN: byte := 2
  const CLS: byte := 3
  const FWD: byte := 4
  const ANS: byte := 5
  const SNS: byte := 6
  const STS: byte := 7
  const RUT: byte := 8
  const LOS: byte := 9
  const LSN: byte := 10
  const MNT: byte := 11
  const EOF: byte := 12
  const BRD: byte := 14
  const DAT: byte := 128

  const MAX_DATA: int := 488

  /** What a controlled packet carries, apart from its number. */
  datatype Pkt = Pkt(op: byte, data: seq<byte>)

  /** One frame handed to the link layer or received from it, for one connection. */
  datatype Frame = Frame(op: byte, num: u16, ack: u16, data: seq<byte>)

  /** The same with unbounded numbers, as the sender means them. */
  datatype Msg =
    | Controlled(num: int, ack: int, pkt: Pkt)
    | Status(ack: int, receipt: int, window: u16)
    | Sense(ack: int)
    | Close(ack: int, text: seq<byte>)
    | Lost(text: seq<byte>)

  function Put16(v: u16): seq<byte> {
    [v % 0x100, v / 0x100]
  }

  function Get16(data: seq<byte>, at: nat): u16
    requires at + 2 <= |data|
  {
    var low: int, high: int := data[at], data[at + 1];
    low + 0x100 * high
  }

  /** The frame that carries a message.  An RFC is sent with acknowledgement 0. */
  function Wire(m: Msg): Frame {
    match m
    case Controlled(num, ack, pkt) =>
      Frame(pkt.op, Wrap(num), if pkt.op == RFC then 0 else Wrap(ack), pkt.data)
    case Status(ack, receipt, window) =>
      Frame(STS, 0, Wrap(ack), Put16(Wrap(receipt)) + Put16(window))
    case Sense(ack) => Frame(SNS, 0, Wrap(ack), [])
    case Close(ack, text) => Frame(CLS, 0, Wrap(ack), Clip(text))
    case Lost(text) => Frame(LOS, 0, 0, Clip(text))
  }

  /** As much of `data` as fits a packet. */
  function Clip(data: seq<byte>): (d: seq<byte>)
    ensures |d| <= MAX_DATA
  {
    if |data| <= MAX_DATA then data else data[..MAX_DATA]
  }

  function WireAll(ms: seq<Msg>): seq<Frame> {
    seq(|ms|, i requires 0 <= i < |ms| => Wire(ms[i]))
  }

  lemma Get16OfPut16(v: u16, w: u16)
    ensures Get16(Put16(v) + Put16(w), 0) == v
    ensures Get16(Put16(v) + Put16(w), 2) == w
  {}

  lemma WireAllAppend(a: seq<Msg>, b: seq<Msg>)
    ensures WireAll(a + b) == WireAll(a) + WireAll(b)
  {}

  function Ascii(s: string): seq<byte> {
    seq(|s|, i requires 0 <= i < |s| => s[i] as int % 0x100)
  }

  /** Octal digits, as printf's %o writes them. */
  function Octal(n: nat): seq<byte> {
    if n < 8 then [48 + n] else Octal(n / 8) + [48 + n % 8]
  }

  function ForwardText(ack: u16): seq<byte> {
    Ascii("Forwarded to host ") + Octal(ack) + Ascii(" (forwarding is not supported)")
  }
}
