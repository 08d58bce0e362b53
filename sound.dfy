/** The PC speaker driver of `sound.rs`: channel 2 of the 8254 programmable
    interval timer is loaded with a divisor of its 1193180 Hz input clock, and
    bits 0 and 1 of the speaker control port gate the timer onto the speaker. */
module Sound {
  import opened Text

  type u16 = n: nat | n < 0x1_0000

  const PitCommandPort: u16 := 0x43
  const PitChannel2Port: u16 := 0x42
  const SpeakerControlPort: u16 := 0x61

  /** The timer's input clock in Hz. */
  const PitInputFrequency: nat := 1193180

  /** The command byte `play_sound` sends, `0b10110110`. */
  const Channel2Command: byte := 0xB6

  /** `1193180 / u32::from(frequency)`: `None` for frequency 0, where the
      division panics; otherwise the quotient of integer division. */
  function Divisor(frequency: u16): (d: Option<nat>)
    ensures d.None? <==> frequency == 0
    ensures d.Some? ==> d.value * frequency <= PitInputFrequency < (d.value + 1) * frequency
  {
    if frequency == 0 then None else Some(PitInputFrequency / frequency)
  }

  /** `(v & 0xFF) as u8`. */
  function LowByte(v: nat): byte {
    v % 256
  }

  /** `(v >> 8) as u8`: bits 8-15, anything above them dropped. */
  function HighByte(v: nat): byte {
    v / 256 % 256
  }

  /** The two bytes as written to the 8-bit port. */
  function LowBits(v: nat): bv8 {
    LowByte(v) as bv8
  }

  function HighBits(v: nat): bv8 {
    HighByte(v) as bv8
  }

  /** Splitting into two bytes loses exactly the bits from 16 upwards. */
  lemma BytesRebuild(v: nat)
    ensures HighByte(v) * 256 + LowByte(v) == v % 0x1_0000
  {
  }

  /** From 19 Hz up the divisor fits in 16 bits, so the two bytes written carry
      it whole. */
  lemma DivisorFits(frequency: u16)
    requires frequency >= 19
    ensures Divisor(frequency).value <= 0xFFFF
    ensures HighByte(Divisor(frequency).value) * 256 + LowByte(Divisor(frequency).value) == Divisor(frequency).value
  {
    var d := Divisor(frequency).value;
    assert d * 19 <= d * frequency;
    BytesRebuild(d);
  }

  /** Below 19 Hz the divisor exceeds 0xFFFF and the timer is loaded with a
      different value: the high byte lost its top bits. */
  lemma DivisorTruncated(frequency: u16)
    requires 0 < frequency < 19
    ensures Divisor(frequency).value > 0xFFFF
    ensures HighByte(Divisor(frequency).value) * 256 + LowByte(Divisor(frequency).value) != Divisor(frequency).value
  {
    BytesRebuild(Divisor(frequency).value);
  }

  /** The fields of an 8254 command byte. */
  datatype PitCommand = PitCommand(channel: nat, access: nat, mode: nat, bcd: nat)

  predicate ValidCommand(c: PitCommand) {
    c.channel < 4 && c.access < 4 && c.mode < 8 && c.bcd < 2
  }

  /** Bits 7-6 select the channel, 5-4 the access mode, 3-1 the operating mode,
      bit 0 binary or BCD counting. */
  function DecodeCommand(b: byte): (c: PitCommand)
    ensures ValidCommand(c)
  {
    PitCommand(b / 64, b / 16 % 4, b / 2 % 8, b % 2)
  }

  function EncodeCommand(c: PitCommand): (b: byte)
    requires ValidCommand(c)
  {
    c.channel * 64 + c.access * 16 + c.mode * 2 + c.bcd
  }

  lemma CommandRoundTrip(b: byte, c: PitCommand)
    requires ValidCommand(c)
    ensures DecodeCommand(EncodeCommand(c)) == c
    ensures EncodeCommand(DecodeCommand(b)) == b
  {
    var e := EncodeCommand(c);
    assert e == (c.channel * 4 + c.access) * 16 + (c.mode * 2 + c.bcd);
    assert e / 16 == c.channel * 4 + c.access;
    assert e % 16 == c.mode * 2 + c.bcd;
    assert e / 64 == (e / 16) / 4;
    assert e / 2 % 8 == (e % 16) / 2;
    assert b == b / 16 * 16 + b % 16;
    assert b / 16 == b / 64 * 4 + b / 16 % 4;
    assert b % 16 == b / 2 % 8 * 2 + b % 2;
  }

  /** The command byte selects channel 2, low byte then high byte, operating
      mode 3 (square-wave generator) and binary counting. */
  lemma Channel2CommandFields()
    ensures DecodeCommand(Channel2Command) == PitCommand(2, 3, 3, 0)
  {
  }

  /** `state | 0b11`: the timer gate and speaker data bits set. */
  function SpeakerOn(state: bv8): bv8 {
    state | 3
  }

  /** `state & !0b11`: both bits cleared. */
  function SpeakerOff(state: bv8): bv8 {
    state & !3
  }

  /** Switching on sets bits 0 and 1 and keeps bits 2-7. */
  lemma SpeakerOnBits(state: bv8)
    ensures SpeakerOn(state) & 3 == 3
    ensures SpeakerOn(state) & !3 == state & !3
  {
  }

  /** Switching off clears bits 0 and 1 and keeps bits 2-7. */
  lemma SpeakerOffBits(state: bv8)
    ensures SpeakerOff(state) & 3 == 0
    ensures SpeakerOff(state) & !3 == state & !3
  {
  }

  /** Stopping after playing leaves the port as stopping alone would: the other
      bits survive both updates. */
  lemma StopAfterPlay(state: bv8)
    ensures SpeakerOff(SpeakerOn(state)) == SpeakerOff(state)
    ensures SpeakerOn(SpeakerOff(state)) == SpeakerOn(state)
  {
    SpeakerOnBits(state);
    SpeakerOffBits(state);
    SpeakerOnBits(SpeakerOff(state));
    SpeakerOffBits(SpeakerOn(state));
  }

  /** The writes `play_sound` makes for a divisor and a speaker port that read
      `state`, in order. */
  function PlayWrites(divisor: nat, state: bv8): (w: seq<(u16, bv8)>)
    ensures |w| == 4 && w[0] == (PitCommandPort, Channel2Command as bv8)
    ensures forall i :: 0 <= i < |w| && w[i].0 == PitChannel2Port ==> i > 0
    ensures w[1] == (PitChannel2Port, LowBits(divisor)) && w[2] == (PitChannel2Port, HighBits(divisor))
    ensures w[3] == (SpeakerControlPort, SpeakerOn(state))
  {
    [(PitCommandPort, Channel2Command as bv8),
     (PitChannel2Port, LowBits(divisor)),
     (PitChannel2Port, HighBits(divisor)),
     (SpeakerControlPort, SpeakerOn(state))]
  }

  /** The I/O ports as a map from port number to the byte it holds (as a bit
      vector, so that the speaker bits can be masked), with a log
      of every write in order. Reading the speaker control port gives the byte
      it holds. */
  class PortBus {
    var ports: map<u16, bv8>
    var writes: seq<(u16, bv8)>

    ghost predicate Valid()
      reads this
    {
      SpeakerControlPort in ports
    }

    constructor(speakerState: bv8)
      ensures Valid()
      ensures ports == map[SpeakerControlPort := speakerState] && writes == []
    {
      ports := map[SpeakerControlPort := speakerState];
      writes := [];
    }

    /** `Port::<u8>::write`. */
    method Write(port: u16, value: bv8)
      modifies this
      ensures ports == old(ports)[port := value]
      ensures writes == old(writes) + [(port, value)]
    {
      ports := ports[port := value];
      writes := writes + [(port, value)];
    }

    /** `Port::<u8>::read`. */
    method Read(port: u16) returns (value: bv8)
      requires port in ports
      ensures value == ports[port]
    {
      value := ports[port];
    }

    /** `play_sound`: fails with the division panic for frequency 0 and writes
        nothing; otherwise makes the four writes of `PlayWrites`. */
    method PlaySound(frequency: u16) returns (r: Result<(), string>)
      requires Valid()
      modifies this
      ensures Valid()
      ensures frequency == 0 ==> r == Err("attempt to divide by zero") && ports == old(ports) && writes == old(writes)
      ensures frequency != 0 ==> r.Ok? && writes == old(writes) + PlayWrites(Divisor(frequency).value, old(ports[SpeakerControlPort]))
      ensures frequency != 0 ==> ports == old(ports)[PitCommandPort := Channel2Command as bv8][PitChannel2Port := HighBits(Divisor(frequency).value)][SpeakerControlPort := SpeakerOn(old(ports[SpeakerControlPort]))]
    {
      if frequency == 0 {
        return Err("attempt to divide by zero");
      }
      var pitValue := PitInputFrequency / frequency;
      Write(PitCommandPort, Channel2Command as bv8);
      Write(PitChannel2Port, LowBits(pitValue));
      Write(PitChannel2Port, HighBits(pitValue));
      var state := Read(SpeakerControlPort);
      Write(SpeakerControlPort, SpeakerOn(state));
      r := Ok(());
    }

    /** `stop_sound`: rewrites the speaker control port with bits 0 and 1
        cleared. */
    method StopSound()
      requires Valid()
      modifies this
      ensures Valid()
      ensures writes == old(writes) + [(SpeakerControlPort, SpeakerOff(old(ports[SpeakerControlPort])))]
      ensures ports == old(ports)[SpeakerControlPort := SpeakerOff(old(ports[SpeakerControlPort]))]
    {
      var state := Read(SpeakerControlPort);
      Write(SpeakerControlPort, SpeakerOff(state));
    }
  }
}
