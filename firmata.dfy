/**
 * The three Firmata commands the robot controller sends, their frames as the
 * sent log records them (one integer per byte), and a decoder for them.
 */
module Firmata {
  import opened Wrappers

  const SET_PIN_MODE: int := 0xF4
  const REPORT_ANALOG_PIN: int := 0xC0
  const ANALOG_MESSAGE: int := 0xE0

  /** The pin mode for PWM output. */
  const PWM_MODE: int := 3

  /** A pin that can be folded into the low nibble of a command byte. */
  type Channel = p: int | 0 <= p < 16

  /** A 7-bit data byte. */
  type DataByte = b: int | 0 <= b < 128

  /** The low 7 bits of a value, `value & 0x7F` on a two's-complement int
      (Euclidean remainder agrees with the mask for negative values too). */
  function Lsb(value: int): (b: DataByte) {
    value % 128
  }

  /** The next 7 bits, `(value >> 7) & 0x7F` (the arithmetic shift is floor
      division, as Dafny's division by a positive number is). */
  function Msb(value: int): (b: DataByte) {
    (value / 128) % 128
  }

  /** The value two data bytes carry. */
  function Combine(lsb: DataByte, msb: DataByte): (value: int)
    ensures 0 <= value < 16384
  {
    lsb + 128 * msb
  }

  /** Splitting a 14-bit value and combining the two bytes gives it back. */
  lemma SplitRoundTrip(value: int)
    requires 0 <= value < 16384
    ensures Combine(Lsb(value), Msb(value)) == value
  {
    assert value / 128 < 128;
  }

  /** Combining two data bytes and splitting the result gives them back. */
  lemma CombineRoundTrip(lsb: DataByte, msb: DataByte)
    ensures Lsb(Combine(lsb, msb)) == lsb && Msb(Combine(lsb, msb)) == msb
  {
    var v := lsb + 128 * msb;
    assert v / 128 == msb;
  }

  /** `command | channel`: the pin is OR-ed into the command byte. The two
      commands that carry a channel have a zero low nibble, so the OR adds the
      pin and leaves the command's high nibble intact. */
  function WithChannel(command: int, pin: Channel): (b: int)
    requires command == REPORT_ANALOG_PIN || command == ANALOG_MESSAGE
    ensures 0 <= b < 256
    ensures b == command + pin
    ensures b / 16 == command / 16 && b % 16 == pin
  {
    ((command as bv8) | (pin as bv8)) as int
  }

  /** A command the controller sends. */
  datatype Command =
    | SetPinMode(pin: int, mode: int)
    | ReportAnalogPin(channel: Channel, enable: bool)
    | AnalogMessage(channel: Channel, value: int)

  /** The frame of a command: SET_PIN_MODE is the command byte, the pin and
      the mode; REPORT_ANALOG_PIN carries the channel in its command byte and
      1 or 0 for enable; ANALOG_MESSAGE carries the channel in its command
      byte and the value split into two 7-bit bytes, low first. */
  function Encode(cmd: Command): seq<int> {
    match cmd
    case SetPinMode(pin, mode) => [SET_PIN_MODE, pin, mode]
    case ReportAnalogPin(channel, enable) =>
      [WithChannel(REPORT_ANALOG_PIN, channel), if enable then 1 else 0]
    case AnalogMessage(channel, value) =>
      [WithChannel(ANALOG_MESSAGE, channel), Lsb(value), Msb(value)]
  }

  /** The frames of a sequence of commands, one after the other. */
  function EncodeAll(cmds: seq<Command>): seq<int> {
    if cmds == [] then [] else Encode(cmds[0]) + EncodeAll(cmds[1..])
  }

  /** The frames of two runs of commands are the frames of the first, then
      those of the second. */
  lemma {:induction false} EncodeAllAppend(a: seq<Command>, b: seq<Command>)
    ensures EncodeAll(a + b) == EncodeAll(a) + EncodeAll(b)
  {
    if a == [] {
      assert a + b == b;
    } else {
      assert (a + b)[0] == a[0] && (a + b)[1..] == a[1..] + b;
      EncodeAllAppend(a[1..], b);
      calc {
        EncodeAll(a + b);
        Encode(a[0]) + EncodeAll(a[1..] + b);
        Encode(a[0]) + (EncodeAll(a[1..]) + EncodeAll(b));
        (Encode(a[0]) + EncodeAll(a[1..])) + EncodeAll(b);
      }
    }
  }

  /** A slice lying past the first part of a concatenation is a slice of the
      second part. */
  lemma SliceAfter(h: seq<int>, r: seq<int>, i: nat, j: nat)
    requires |h| <= i <= j <= |h| + |r|
    ensures (h + r)[i..j] == r[i - |h|..j - |h|]
  {
  }

  /** Commands whose frames are all three long: the frame of the k-th sits
      at 3 * k. */
  lemma {:induction false} EncodeAllTriples(cmds: seq<Command>)
    requires forall i :: 0 <= i < |cmds| ==> |Encode(cmds[i])| == 3
    ensures |EncodeAll(cmds)| == 3 * |cmds|
    ensures forall k :: 0 <= k < |cmds| ==> EncodeAll(cmds)[3 * k..3 * k + 3] == Encode(cmds[k])
  {
    if cmds != [] {
      var rest := cmds[1..];
      EncodeAllTriples(rest);
      var h, r := Encode(cmds[0]), EncodeAll(rest);
      forall k | 0 <= k < |cmds| ensures (h + r)[3 * k..3 * k + 3] == Encode(cmds[k]) {
        if k > 0 {
          SliceAfter(h, r, 3 * k, 3 * k + 3);
          assert rest[k - 1] == cmds[k];
        } else {
          assert (h + r)[..3] == h;
        }
      }
    }
  }

  /** Commands whose frames are all two long: the frame of the k-th sits at
      2 * k. */
  lemma {:induction false} EncodeAllPairs(cmds: seq<Command>)
    requires forall i :: 0 <= i < |cmds| ==> |Encode(cmds[i])| == 2
    ensures |EncodeAll(cmds)| == 2 * |cmds|
    ensures forall k :: 0 <= k < |cmds| ==> EncodeAll(cmds)[2 * k..2 * k + 2] == Encode(cmds[k])
  {
    if cmds != [] {
      var rest := cmds[1..];
      EncodeAllPairs(rest);
      var h, r := Encode(cmds[0]), EncodeAll(rest);
      forall k | 0 <= k < |cmds| ensures (h + r)[2 * k..2 * k + 2] == Encode(cmds[k]) {
        if k > 0 {
          SliceAfter(h, r, 2 * k, 2 * k + 2);
          assert rest[k - 1] == cmds[k];
        } else {
          assert (h + r)[..2] == h;
        }
      }
    }
  }

  /** Reads one command off the front of a byte stream, returning it with
      the length of its frame; None when the front is not a whole frame. */
  function DecodeOne(bytes: seq<int>): (r: Option<(Command, nat)>)
    ensures r.Some? ==> 0 < r.value.1 <= |bytes| && bytes[..r.value.1] == Encode(r.value.0)
  {
    if |bytes| == 0 then None
    else if bytes[0] == SET_PIN_MODE then
      if |bytes| < 3 then None else Some((SetPinMode(bytes[1], bytes[2]), 3))
    else if 0 <= bytes[0] < 256 && bytes[0] / 16 == REPORT_ANALOG_PIN / 16 then
      if |bytes| < 2 || !(bytes[1] == 0 || bytes[1] == 1) then None
      else Some((ReportAnalogPin(bytes[0] % 16, bytes[1] == 1), 2))
    else if 0 <= bytes[0] < 256 && bytes[0] / 16 == ANALOG_MESSAGE / 16 then
      if |bytes| < 3 || !(0 <= bytes[1] < 128 && 0 <= bytes[2] < 128) then None
      else
        CombineRoundTrip(bytes[1], bytes[2]);
        Some((AnalogMessage(bytes[0] % 16, Combine(bytes[1], bytes[2])), 3))
    else None
  }

  /** Reads every command off a byte stream; None when it does not split into
      whole frames. */
  function DecodeAll(bytes: seq<int>): Option<seq<Command>>
    decreases |bytes|
  {
    if bytes == [] then Some([])
    else
      match DecodeOne(bytes)
      case None => None
      case Some((cmd, len)) =>
        match DecodeAll(bytes[len..])
        case None => None
        case Some(rest) => Some([cmd] + rest)
  }

  /** A command the decoder reads back: an analog value fits in 14 bits. */
  predicate WellFormed(cmd: Command) {
    cmd.AnalogMessage? ==> 0 <= cmd.value < 16384
  }

  /** Decoding a well-formed command's frame, followed by anything, gives the
      command back with its frame length. */
  lemma DecodeEncode(cmd: Command, tail: seq<int>)
    requires WellFormed(cmd)
    ensures DecodeOne(Encode(cmd) + tail) == Some((cmd, |Encode(cmd)|))
  {
    var bytes := Encode(cmd) + tail;
    match cmd
    case SetPinMode(_, _) =>
    case ReportAnalogPin(channel, _) =>
      assert bytes[0] / 16 == REPORT_ANALOG_PIN / 16 && bytes[0] % 16 == channel;
    case AnalogMessage(channel, value) =>
      assert bytes[0] / 16 == ANALOG_MESSAGE / 16 && bytes[0] % 16 == channel;
      SplitRoundTrip(value);
  }

  /** Decoding the frames of well-formed commands gives the commands back. */
  lemma {:induction false} DecodeEncodeAll(cmds: seq<Command>)
    requires forall i :: 0 <= i < |cmds| ==> WellFormed(cmds[i])
    ensures DecodeAll(EncodeAll(cmds)) == Some(cmds)
  {
    if cmds != [] {
      var head := Encode(cmds[0]);
      var rest := EncodeAll(cmds[1..]);
      DecodeEncode(cmds[0], rest);
      assert (head + rest)[|head|..] == rest;
      DecodeEncodeAll(cmds[1..]);
      assert [cmds[0]] + cmds[1..] == cmds;
    }
  }
}
