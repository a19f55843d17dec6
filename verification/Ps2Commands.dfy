/** What the commands of the PS/2 keyboard and its controller do, byte by byte, and
    how a guest gets from power-on to a keyboard it can use. */
module Ps2Commands {
  import opened Common
  import opened ScanCodes
  import opened Ps2
  import opened Ps2Proofs
  import opened KeyProofs

  lemma Run1(p: Pair, a: Event)
    requires Sized(p)
    ensures Run(p, [a]) == Step(p, a).0
  {
    hide Step;
    assert Run(p, [a]) == Run(Step(p, a).0, []);
  }

  lemma Run2(p: Pair, a: Event, b: Event)
    requires Sized(p)
    ensures Run(p, [a, b]) == Step(Step(p, a).0, b).0
  {
    hide Step;
    Run1(Step(p, a).0, b);
    assert [a, b][1..] == [b];
  }

  // ---- The keyboard -------------------------------------------------------------------

  /** The keyboard takes commands: the controller does not wait for a byte of its
      own, nor the keyboard for an argument. */
  predicate Listens(p: Pair) { Sized(p) && !p.writing && p.kbd.state == Normal }

  /** `p` with another keyboard, and the line as it is due then. */
  function WithKeyboard(p: Pair, k: Keyboard): Pair
    requires Sized(p)
  {
    p.(kbd := k, line := p.ram[0] & 0x01 != 0 && (|p.inputBuf| > 0 || |k.out| > 0))
  }

  /** 0xF0 and a number select a scan code set: 1 to 3, anything else is 2. Command
      and argument are each acknowledged with 0xFA. */
  lemma SelectsSet(p: Pair, n: u8)
    requires Listens(p)
    ensures var k := p.kbd;
      Run(p, [WriteData(0xF0), WriteData(n)])
        == WithKeyboard(p, k.(out := k.out + [0xFA, 0xFA],
                              scancodeSet := if n == 1 then 1 else if n == 3 then 3 else 2))
  {
    Run2(p, WriteData(0xF0), WriteData(n));
    assert p.kbd.out + [0xFA] + [0xFA] == p.kbd.out + [0xFA, 0xFA];
    ChosenSet(n);
    hide Run;
  }

  lemma ChosenSet(n: u8)
    ensures (if n < 1 || n > 3 then 2 else n) == if n == 1 then 1 else if n == 3 then 3 else 2
  {
  }

  /** 0xED and a byte set the LEDs. */
  lemma SetsLeds(p: Pair, v: u8)
    requires Listens(p)
    ensures Run(p, [WriteData(0xED), WriteData(v)])
         == WithKeyboard(p, p.kbd.(out := p.kbd.out + [0xFA, 0xFA], led := v))
  {
    Run2(p, WriteData(0xED), WriteData(v));
    assert p.kbd.out + [0xFA] + [0xFA] == p.kbd.out + [0xFA, 0xFA];
  }

  /** 0xF3 and a byte are acknowledged and have no effect. */
  lemma SetsRepeat(p: Pair, v: u8)
    requires Listens(p)
    ensures Run(p, [WriteData(0xF3), WriteData(v)]) == WithKeyboard(p, p.kbd.(out := p.kbd.out + [0xFA, 0xFA]))
  {
    Run2(p, WriteData(0xF3), WriteData(v));
    assert p.kbd.out + [0xFA] + [0xFA] == p.kbd.out + [0xFA, 0xFA];
  }

  /** The commands without an argument: 0xF2 and 0xF4 are acknowledged, 0xF6 also
      switches the LEDs off, 0xFF drops what is queued and resets the keyboard to
      set 1, its self test passed (0xAA). Every other byte is ignored. */
  lemma PlainCommands(p: Pair, v: u8)
    requires Listens(p) && v != 0xED && v != 0xF0 && v != 0xF3
    ensures var k := p.kbd;
      Step(p, WriteData(v)).0 ==
        if v == 0xF2 || v == 0xF4 then WithKeyboard(p, k.(out := k.out + [0xFA]))
        else if v == 0xF6 then WithKeyboard(p, k.(out := k.out + [0xFA], led := 0))
        else if v == 0xFF then WithKeyboard(p, Keyboard(7, 1, Normal, [0xFA, 0xAA]))
        else p
  {
  }

  /** Keys are only sent while set 2 is selected. */
  lemma OtherSetsAreSilent(p: Pair, usb: nat, down: bool)
    requires Sized(p) && p.kbd.scancodeSet != 2
    ensures Step(p, Key(usb, down)).0 == p
  {
  }

  /** Without translation the guest reads what the keyboard queued. */
  lemma RawBytes(p: Pair)
    requires Sized(p) && p.ram[0] & 0x40 == 0 && !p.writing && p.inputBuf == [] && p.kbd.out != []
    ensures Step(p, ReadData) == (WithKeyboard(p, p.kbd.(out := p.kbd.out[1..])), Returns(p.kbd.out[0]))
  {
  }

  /** Responses of the controller are read in the order they were queued, before
      anything of the keyboard; with nothing to read, a read returns 0. A read while
      the controller waits for a byte ends the waiting and returns 0. */
  lemma ReadsInOrder(p: Pair)
    requires Sized(p)
    ensures !p.writing && p.inputBuf != [] ==>
      var r := Step(p, ReadData);
      r.1 == Returns(p.inputBuf[0]) && r.0.inputBuf == p.inputBuf[1..] && r.0.kbd == p.kbd && r.0.ram == p.ram
    ensures !p.writing && p.inputBuf == [] && p.kbd.out == [] ==>
      Step(p, ReadData) == (p.(line := false), Returns(0))
    ensures p.writing ==> Step(p, ReadData) == (p.(writing := false), Returns(0))
  {
  }

  // ---- The controller ---------------------------------------------------------------------

  /** A self test of the controller answers 0x55, of the keyboard port 0x00, of the
      mouse port 0x06; the answer is read before anything the keyboard has queued. */
  lemma SelfTests(p: Pair, v: u8)
    requires Sized(p) && !p.writing && p.inputBuf == [] && (v == 0xAA || v == 0xAB || v == 0xA9)
    ensures Run(p, [Command(v)]).kbd == p.kbd && Run(p, [Command(v)]).ram == p.ram
    ensures Step(Run(p, [Command(v)]), ReadData).1
         == Returns(if v == 0xAA then 0x55 else if v == 0xAB then 0x00 else 0x06)
  {
    Run1(p, Command(v));
  }

  /** 0xAD and 0xAE switch the keyboard port off and on, 0xA7 and 0xA8 the mouse
      port, by bits 4 and 5 of the configuration byte; every other bit stays, and so
      does everything else. */
  lemma PortSwitches(p: Pair, v: u8)
    requires Sized(p) && (v == 0xAD || v == 0xAE || v == 0xA7 || v == 0xA8)
    ensures var r, bit: u8 := Step(p, Command(v)).0, if v == 0xAD || v == 0xAE then 0x10 else 0x20;
      && r == p.(ram := p.ram[0 := r.ram[0]])
      && (r.ram[0] & bit != 0 <==> v == 0xAD || v == 0xA7)
      && r.ram[0] & (0xFF ^ bit) == p.ram[0] & (0xFF ^ bit)
  {
    PortBit(p.ram[0], 0x10);
    PortBit(p.ram[0], 0x20);
  }

  lemma PortBit(c: u8, bit: u8)
    requires bit == 0x10 || bit == 0x20
    ensures (c | bit) & bit != 0 && (c & !bit) & bit == 0
    ensures (c | bit) & (0xFF ^ bit) == c & (0xFF ^ bit) && (c & !bit) & (0xFF ^ bit) == c & (0xFF ^ bit)
  {
  }

  /** Any other command changes nothing but the count of resets. Those from 0x20
      on that read and write the configuration RAM are `ConfigRoundTrip`'s. */
  lemma OtherCommands(p: Pair, v: u8)
    requires Sized(p) && !(0x20 <= v <= 0x3F) && !(0x60 <= v <= 0x7F) && !(0xA7 <= v <= 0xAB) && v != 0xAD && v != 0xAE
    ensures Step(p, Command(v)).0 == p.(resets := Step(p, Command(v)).0.resets)
  {
  }

  // ---- From power-on ------------------------------------------------------------------------

  lemma {:induction false} RunConcat(p: Pair, a: seq<Event>, b: seq<Event>)
    requires Sized(p)
    ensures Run(p, a + b) == Run(Run(p, a), b)
    ensures BytesRead(p, a + b) == BytesRead(p, a) + BytesRead(Run(p, a), b)
    decreases |a|
  {
    hide Step;
    if a == [] {
      assert a + b == b;
      assert BytesRead(p, []) + BytesRead(p, b) == BytesRead(p, b);
    } else {
      var r := Step(p, a[0]);
      RunConcat(r.0, a[1..], b);
      assert (a + b)[1..] == a[1..] + b;
      var now := if a[0].ReadData? && p.kbd.out != [] && r.1.Returns? then [r.1.result] else [];
      assert now + (BytesRead(r.0, a[1..]) + BytesRead(Run(p, a), b))
          == (now + BytesRead(r.0, a[1..])) + BytesRead(Run(p, a), b);
    }
  }

  /** Read the self test's result, then enable interrupts and translation in byte 0
      of the configuration RAM. */
  const CONFIGURE: seq<Event> := [ReadData, Command(0x60), WriteData(0x41)]

  /** Select set 2 and read the two acknowledgements. */
  const SELECT: seq<Event> := [WriteData(0xF0), WriteData(2), ReadData, ReadData]

  lemma Configured()
    ensures var p := Run(PowerOn(), CONFIGURE);
      && Listens(p) && p.ram[0] == 0x41 && p.inputBuf == [] && p.kbd.out == []
    ensures BytesRead(PowerOn(), CONFIGURE) == [0xAA]
  {
    var p0, es := PowerOn(), CONFIGURE;
    var p1 := Step(p0, ReadData).0;
    var p2 := Step(p1, Command(0x60)).0;
    var p3 := Step(p2, WriteData(0x41)).0;
    assert RamIndex(0x60) == 0 by { OffsetOf(0); }
    ThreeSteps(p0, ReadData, Command(0x60), WriteData(0x41));
  }

  lemma ThreeSteps(p: Pair, a: Event, b: Event, c: Event)
    requires Sized(p) && !b.ReadData? && !c.ReadData?
    ensures Run(p, [a, b, c]) == Step(Step(Step(p, a).0, b).0, c).0
    ensures BytesRead(p, [a, b, c])
         == if a.ReadData? && p.kbd.out != [] && Step(p, a).1.Returns? then [Step(p, a).1.result] else []
  {
    hide Step;
    var p1 := Step(p, a).0;
    var p2 := Step(p1, b).0;
    var p3 := Step(p2, c).0;
    assert [a, b, c][1..] == [b, c] && [b, c][1..] == [c] && [c][1..] == [];
    assert Run(p2, [c]) == Run(p3, []) && Run(p1, [b, c]) == Run(p2, [c]);
    assert BytesRead(p3, []) == [] && BytesRead(p2, [c]) == [] + [] && BytesRead(p1, [b, c]) == [] + [];
  }

  lemma Selected(p: Pair)
    requires Listens(p) && p.ram[0] == 0x41 && p.inputBuf == [] && p.kbd.out == []
    ensures Typing(Run(p, SELECT)) && Run(p, SELECT).kbd.out == [] && BytesRead(p, SELECT) == [0xFA, 0xFA]
  {
    hide Step;
    var choose, read := [WriteData(0xF0), WriteData(2)], [ReadData, ReadData];
    assert SELECT == choose + read;
    RunConcat(p, choose, read);
    SelectsSet(p, 2);
    var q := Run(p, choose);
    assert q.kbd.out == [0xFA, 0xFA] && q.kbd.scancodeSet == 2 && q.ram == p.ram && !q.writing && q.inputBuf == [];
    NothingReadBy(p, choose);
    ReadsAcknowledgements(q);
  }

  lemma NothingReadBy(p: Pair, es: seq<Event>)
    requires Sized(p) && |es| == 2 && !es[0].ReadData? && !es[1].ReadData?
    ensures BytesRead(p, es) == []
  {
    hide Step;
    var p1 := Step(p, es[0]).0;
    assert es[1..][1..] == [];
    assert BytesRead(p1, es[1..]) == [];
  }

  lemma ReadsAcknowledgements(p: Pair)
    requires Typing(p) && p.kbd.out == [0xFA, 0xFA]
    ensures var r := Run(p, [ReadData, ReadData]);
      Typing(r) && r.kbd.out == [] && BytesRead(p, [ReadData, ReadData]) == [0xFA, 0xFA]
  {
    hide Set2ToSet1;
    AcknowledgementStays();
    var p1 := Step(p, ReadData).0;
    var p2 := Step(p1, ReadData).0;
    Run2(p, ReadData, ReadData);
    assert [ReadData, ReadData][1..] == [ReadData];
    assert BytesRead(p2, []) == [];
    assert BytesRead(p1, [ReadData]) == [0xFA] + [];
  }

  lemma AcknowledgementStays()
    ensures Set2ToSet1(0xFA) == 0xFA
  {
  }

  /** At power-on the keyboard has passed its self test (0xAA) and sends no keys. A
      guest that brings it up can then type: the reads return 0xAA and twice 0xFA,
      nothing is queued, and `KeysReadAsSet1` and `ReadsAreSet1` apply. */
  lemma BringUp(usb: nat, down: bool)
    ensures Step(PowerOn(), Key(usb, down)).0 == PowerOn()
    ensures var p := Run(PowerOn(), CONFIGURE + SELECT); Typing(p) && p.kbd.out == []
    ensures BytesRead(PowerOn(), CONFIGURE + SELECT) == [0xAA, 0xFA, 0xFA]
  {
    hide CONFIGURE;
    hide SELECT;
    hide BytesRead;
    hide Typing;
    hide Run;
    Configured();
    Selected(Run(PowerOn(), CONFIGURE));
    RunConcat(PowerOn(), CONFIGURE, SELECT);
  }
}
