/** What holds of the keyboard and its controller over every sequence of port
    accesses and key events. */
module Ps2Proofs {
  import opened Common
  import opened ScanCodes
  import opened Ps2

  // ---- The data port never trips its assertion ------------------------------

  /** Every break prefix has the byte it belongs to right behind it. */
  ghost predicate Paired(q: seq<u8>) {
    forall i :: 0 <= i < |q| && q[i] == BREAK_PREFIX ==> i + 1 < |q| && q[i + 1] != BREAK_PREFIX
  }

  lemma PairedConcat(a: seq<u8>, b: seq<u8>)
    requires Paired(a) && Paired(b)
    ensures Paired(a + b)
  {
    var q := a + b;
    forall i | 0 <= i < |q| && q[i] == BREAK_PREFIX ensures i + 1 < |q| && q[i + 1] != BREAK_PREFIX {
      if i < |a| { assert a[i] == BREAK_PREFIX; } else { assert b[i - |a|] == BREAK_PREFIX; }
    }
  }

  lemma PairedTail(q: seq<u8>, n: nat)
    requires Paired(q) && n <= |q|
    ensures Paired(q[n..])
  {
    var t := q[n..];
    forall i | 0 <= i < |t| && t[i] == BREAK_PREFIX ensures i + 1 < |t| && t[i + 1] != BREAK_PREFIX {
      assert q[i + n] == BREAK_PREFIX;
    }
  }

  lemma KeyBytesPaired(k: Keyboard, usb: nat, down: bool)
    ensures KeyBytes(k, usb, down).Some? ==> Paired(KeyBytes(k, usb, down).value)
  {
    UpIsDownWithPrefix(usb);
    hide UsbToSet2;
  }

  lemma KeyboardWritePaired(k: Keyboard, v: u8)
    requires Paired(k.out)
    ensures Paired(KeyboardWrite(k, v).0.out)
  {
    PairedConcat(k.out, [0xFA]);
  }

  lemma StepPaired(p: Pair, e: Event)
    requires Sized(p) && Paired(p.kbd.out)
    ensures Paired(Step(p, e).0.kbd.out) && Step(p, e).1.Returns?
  {
    hide KeyboardWrite;
    hide KeyBytes;
    match e {
      case Key(usb, down) =>
        KeyBytesPaired(p.kbd, usb, down);
        if KeyBytes(p.kbd, usb, down).Some? { PairedConcat(p.kbd.out, KeyBytes(p.kbd, usb, down).value); }
      case ReadData =>
        hide Set2ToSet1;
        var q := p.kbd.out;
        if |q| > 0 { PairedTail(q, 1); }
        if |q| > 1 {
          PairedTail(q, 2);
          assert q[1..][1..] == q[2..];
        }
      case WriteData(v) => KeyboardWritePaired(p.kbd, v);
      case ReadStatus =>
      case Command(v) => hide Respond, PortOrTest, RamIndex; CommandKeepsKeyboard(p, v);
    }
  }

  lemma CommandKeepsKeyboard(p: Pair, v: u8)
    requires Sized(p)
    ensures StepCommand(p, v).kbd == p.kbd
  {
  }

  lemma {:induction false} RunPaired(p: Pair, es: seq<Event>)
    requires Sized(p) && Paired(p.kbd.out)
    ensures Paired(Run(p, es).kbd.out)
    decreases |es|
  {
    if es != [] {
      StepPaired(p, es[0]);
      RunPaired(Step(p, es[0]).0, es[1..]);
    }
  }

  /** From power-on, whatever the guest and the keys do, no access raises. */
  lemma NoAccessRaises(es: seq<Event>, e: Event)
    ensures Step(Run(PowerOn(), es), e).1.Returns?
  {
    RunPaired(PowerOn(), es);
    StepPaired(Run(PowerOn(), es), e);
  }

  // ---- The translated stream --------------------------------------------------

  /** The set 1 reading of queued set 2 bytes. */
  ghost function Translated(q: seq<u8>): seq<u8>
    requires Paired(q)
  {
    if q == [] then []
    else if q[0] == BREAK_PREFIX then PairedTail(q, 2); [WithHighBit(Set2ToSet1(q[1]))] + Translated(q[2..])
    else PairedTail(q, 1); [Set2ToSet1(q[0])] + Translated(q[1..])
  }

  lemma {:induction false} TranslatedConcat(a: seq<u8>, b: seq<u8>)
    requires Paired(a) && Paired(b)
    ensures Paired(a + b) && Translated(a + b) == Translated(a) + Translated(b)
    decreases |a|
  {
    hide Set2ToSet1;
    hide WithHighBit;
    PairedConcat(a, b);
    if a == [] {
      assert a + b == b;
    } else {
      var n := if a[0] == BREAK_PREFIX then 2 else 1;
      PairedTail(a, n);
      TranslatedConcat(a[n..], b);
      assert (a + b)[n..] == a[n..] + b;
      assert (a + b)[0] == a[0] && (n == 2 ==> (a + b)[1] == a[1]);
    }
  }

  /** Translation on (bit 6 of the configuration byte), set 2, nothing but keyboard
      bytes to read. */
  ghost predicate Typing(p: Pair) {
    Sized(p) && p.ram[0] & 0x40 != 0 && p.kbd.scancodeSet == 2 && !p.writing && p.inputBuf == [] && Paired(p.kbd.out)
  }

  /** Key events, and reads of the data and status ports. */
  predicate IsTyping(e: Event) { e.Key? || e.ReadData? || e.ReadStatus? }

  /** The keyboard bytes the reads among the events return. */
  ghost function BytesRead(p: Pair, es: seq<Event>): seq<u8>
    requires Sized(p)
    decreases |es|
  {
    if es == [] then []
    else
      var r := Step(p, es[0]);
      (if es[0].ReadData? && p.kbd.out != [] && r.1.Returns? then [r.1.result] else []) + BytesRead(r.0, es[1..])
  }

  /** What the guest is to see for one key event. */
  ghost function KeyInSet1(usb: nat, down: bool): seq<u8> {
    UpIsDownWithPrefix(usb);
    match UsbToSet2(usb)
    case None => []
    case Some(c) => if down then Translated(c.down) else Translated(c.up)
  }

  ghost function KeysInSet1(es: seq<Event>): seq<u8>
    decreases |es|
  {
    if es == [] then []
    else (if es[0].Key? then KeyInSet1(es[0].usb, es[0].down) else []) + KeysInSet1(es[1..])
  }

  lemma TypingStep(p: Pair, e: Event)
    requires Typing(p) && IsTyping(e)
    ensures Typing(Step(p, e).0)
    ensures var r := Step(p, e);
      (if e.ReadData? && p.kbd.out != [] && r.1.Returns? then [r.1.result] else []) + Translated(r.0.kbd.out)
        == Translated(p.kbd.out) + (if e.Key? then KeyInSet1(e.usb, e.down) else [])
  {
    hide UsbToSet2;
    hide Set2ToSet1;
    hide WithHighBit;
    hide Translated;
    hide KeyInSet1;
    hide KeyBytes;
    hide Paired;
    hide Translating;
    hide WantsIrq;
    StepPaired(p, e);
    StillTyping(p, e);
    if e.Key? {
      KeyStep(p, e.usb, e.down);
    } else if e.ReadData? {
      ReadStep(p);
    }
    assert [] + Translated(p.kbd.out) == Translated(p.kbd.out) + [];
  }

  /** Neither keys nor reads change what makes a pair a typing one. */
  lemma StillTyping(p: Pair, e: Event)
    requires Typing(p) && IsTyping(e)
    ensures var r := Step(p, e).0;
      r.ram[0] & 0x40 != 0 && r.kbd.scancodeSet == 2 && !r.writing && r.inputBuf == []
  {
    hide KeyBytes;
    hide Set2ToSet1;
    hide WithHighBit;
    hide WantsIrq;
  }

  lemma KeyStep(p: Pair, usb: nat, down: bool)
    requires Typing(p)
    ensures Paired(StepKey(p, usb, down).kbd.out)
    ensures Translated(StepKey(p, usb, down).kbd.out) == Translated(p.kbd.out) + KeyInSet1(usb, down)
  {
    hide UsbToSet2;
    UpIsDownWithPrefix(usb);
    KeyBytesPaired(p.kbd, usb, down);
    var b := KeyBytes(p.kbd, usb, down);
    if b.Some? { TranslatedConcat(p.kbd.out, b.value); }
  }

  lemma ReadStep(p: Pair)
    requires Typing(p)
    ensures Paired(StepRead(p).0.kbd.out) && StepRead(p).1.Returns?
    ensures (if p.kbd.out != [] then [StepRead(p).1.result] else []) + Translated(StepRead(p).0.kbd.out)
           == Translated(p.kbd.out)
  {
    hide Set2ToSet1;
    hide WithHighBit;
    StepPaired(p, ReadData);
    var q := p.kbd.out;
    if q != [] && q[0] == BREAK_PREFIX {
      assert q[1..][1..] == q[2..];
    }
  }

  /** For any interleaving of key events and reads, what was read plus what is
      still queued is what was queued plus the keys, translated event by event:
      nothing is lost, duplicated, reordered or torn. */
  lemma {:induction false} StreamIsPerKey(p: Pair, es: seq<Event>)
    requires Typing(p) && forall i :: 0 <= i < |es| ==> IsTyping(es[i])
    ensures Typing(Run(p, es))
    ensures BytesRead(p, es) + Translated(Run(p, es).kbd.out) == Translated(p.kbd.out) + KeysInSet1(es)
    decreases |es|
  {
    if es != [] {
      var e, r := es[0], Step(p, es[0]);
      TypingStep(p, e);
      StreamIsPerKey(r.0, es[1..]);
      hide Step;
      hide Translated;
      hide KeyInSet1;
      var now := if e.ReadData? && p.kbd.out != [] && r.1.Returns? then [r.1.result] else [];
      var key := if e.Key? then KeyInSet1(e.usb, e.down) else [];
      Regroup(now, BytesRead(r.0, es[1..]), Translated(Run(p, es).kbd.out), Translated(r.0.kbd.out),
              KeysInSet1(es[1..]), Translated(p.kbd.out), key);
    } else {
      assert [] + Translated(p.kbd.out) == Translated(p.kbd.out) + [];
    }
  }

  lemma Regroup(now: seq<u8>, read: seq<u8>, left: seq<u8>, mid: seq<u8>, keys: seq<u8>, start: seq<u8>, key: seq<u8>)
    requires read + left == mid + keys && now + mid == start + key
    ensures (now + read) + left == start + (key + keys)
  {
    assert (now + read) + left == now + (mid + keys);
    assert now + (mid + keys) == (now + mid) + keys;
    assert (start + key) + keys == start + (key + keys);
  }

  lemma ExtendedCode(b: u8)
    requires b != BREAK_PREFIX
    ensures Paired([EXTENDED_PREFIX, b]) && Translated([EXTENDED_PREFIX, b]) == [EXTENDED_PREFIX, Set2ToSet1(b)]
    ensures Paired([EXTENDED_PREFIX, BREAK_PREFIX, b])
    ensures Translated([EXTENDED_PREFIX, BREAK_PREFIX, b]) == [EXTENDED_PREFIX, WithHighBit(Set2ToSet1(b))]
  {
    ExtendedStays();
    hide Translated;
    hide Set2ToSet1;
    hide WithHighBit;
    OneCode(b);
    OneCode(EXTENDED_PREFIX);
    TranslatedConcat([EXTENDED_PREFIX], [b]);
    TranslatedConcat([EXTENDED_PREFIX], [BREAK_PREFIX, b]);
    assert [EXTENDED_PREFIX] + [b] == [EXTENDED_PREFIX, b];
    assert [EXTENDED_PREFIX] + [BREAK_PREFIX, b] == [EXTENDED_PREFIX, BREAK_PREFIX, b];
  }

  lemma OneCode(b: u8)
    requires b != BREAK_PREFIX
    ensures Paired([b]) && Translated([b]) == [Set2ToSet1(b)]
    ensures Paired([BREAK_PREFIX, b]) && Translated([BREAK_PREFIX, b]) == [WithHighBit(Set2ToSet1(b))]
  {
    hide Set2ToSet1;
    hide WithHighBit;
    assert [b][1..] == [] && [BREAK_PREFIX, b][2..] == [];
  }

  lemma ExtendedStays()
    ensures Set2ToSet1(EXTENDED_PREFIX) == EXTENDED_PREFIX
  {
    assert EXTENDED_PREFIX as nat == 224;
  }

  // ---- The interrupt line ---------------------------------------------------------

  /** An interrupt is due: bit 0 of the configuration byte enables it, and the
      controller or the keyboard has a byte to read. */
  predicate Due(p: Pair)
    requires Sized(p)
  {
    p.ram[0] & 0x01 != 0 && (|p.inputBuf| > 0 || |p.kbd.out| > 0)
  }

  /** A controller command that queues a response byte. */
  predicate Responds(v: u8) {
    (v >= 0x20 && v <= 0x3F) || v == 0xAA || v == 0xAB || v == 0xA9
  }

  lemma PortBitsApart(c: u8)
    ensures (c | CFG_KEYBOARD_OFF) & CFG_IRQ == c & CFG_IRQ && (c & !CFG_KEYBOARD_OFF) & CFG_IRQ == c & CFG_IRQ
    ensures (c | CFG_MOUSE_OFF) & CFG_IRQ == c & CFG_IRQ && (c & !CFG_MOUSE_OFF) & CFG_IRQ == c & CFG_IRQ
  {
  }

  lemma CommandFacts(p: Pair, v: u8)
    requires Sized(p)
    ensures var r := StepCommand(p, v);
      && r.line == p.line && r.ram[0] & CFG_IRQ == p.ram[0] & CFG_IRQ
      && Pending(r) == (Pending(p) || Responds(v))
  {
    hide RamIndex;
    hide PortOrTest;
    TestFacts(p, v);
  }

  lemma TestFacts(p: Pair, v: u8)
    requires Sized(p)
    ensures var r := PortOrTest(p, v);
      && r.line == p.line && r.ram[0] & CFG_IRQ == p.ram[0] & CFG_IRQ
      && Pending(r) == (Pending(p) || v == 0xAA || v == 0xAB || v == 0xA9)
  {
    PortBitsApart(p.ram[0]);
  }

  /** A line that shows whether an interrupt is due goes on doing so, except
      when a controller command queues its response while nothing else is
      pending and interrupts are enabled: then the line stays down. */
  lemma LineExactIff(p: Pair, e: Event)
    requires Sized(p) && p.line == Due(p)
    ensures var r := Step(p, e).0;
      (r.line == Due(r)) <==>
        !(e.Command? && Responds(e.v) && p.ram[0] & 0x01 != 0 && p.inputBuf == [] && p.kbd.out == [])
  {
    match e {
      case Command(v) => CommandFacts(p, v); hide StepCommand; hide Responds;
      case ReadData => hide Set2ToSet1;
      case Key(usb, down) => hide KeyBytes;
      case WriteData(v) =>
      case ReadStatus =>
    }
  }

  lemma LineStep(p: Pair, e: Event)
    requires Sized(p) && (p.line ==> Due(p))
    ensures var r := Step(p, e).0; r.line ==> Due(r)
  {
    match e {
      case Command(v) => CommandFacts(p, v); hide StepCommand; hide Responds;
      case ReadData => hide Set2ToSet1;
      case Key(usb, down) => hide KeyBytes;
      case WriteData(v) =>
      case ReadStatus =>
    }
  }

  /** From power-on, the line is up only while interrupts are enabled and a byte
      is waiting. */
  lemma {:induction false} LineNeverSpurious(p: Pair, es: seq<Event>)
    requires Sized(p) && (p.line ==> Due(p))
    ensures Run(p, es).line ==> Due(Run(p, es))
    decreases |es|
  {
    if es != [] {
      LineStep(p, es[0]);
      LineNeverSpurious(Step(p, es[0]).0, es[1..]);
    }
  }

  // ---- What the guest sees of the controller ------------------------------------------

  /** The status register says exactly whether a byte can be read, whether the
      system flag is set and whether the controller waits for a byte. */
  lemma StatusBits(p: Pair)
    requires Sized(p)
    ensures Status(p) & 0x01 != 0 <==> |p.inputBuf| > 0 || |p.kbd.out| > 0
    ensures Status(p) & 0x04 != 0 <==> p.ram[0] & 0x04 != 0
    ensures Status(p) & 0x08 != 0 <==> p.writing
    ensures Status(p) & 0xF2 == 0
  {
    var a: u8, b: u8, c: u8 := if Pending(p) then 0x01 else 0, if p.ram[0] & CFG_SYSTEM != 0 then 0x04 else 0,
                               if p.writing then 0x08 else 0;
    FlagsApart(a, b, c);
    assert Status(p) == a | b | c;
  }

  lemma FlagsApart(a: u8, b: u8, c: u8)
    requires (a == 0 || a == 0x01) && (b == 0 || b == 0x04) && (c == 0 || c == 0x08)
    ensures (a | b | c) & 0x01 == a && (a | b | c) & 0x04 == b && (a | b | c) & 0x08 == c && (a | b | c) & 0xF2 == 0
  {
  }

  /** A byte written to the configuration RAM is read back from the data port,
      after the responses that were waiting; no other byte of the RAM changes. */
  lemma ConfigRoundTrip(p: Pair, i: u8, v: u8)
    requires Sized(p) && !p.writing && i < 0x20
    ensures var r := Run(p, [Command(0x60 + i), WriteData(v), Command(0x20 + i)]);
      && r.inputBuf == p.inputBuf + [v] && r.kbd == p.kbd && !r.writing
      && r.ram == p.ram[i as nat := v]
      && (p.inputBuf == [] ==> StepRead(r).1 == Returns(v))
  {
    OffsetOf(i);
    hide RamIndex;
    var es := [Command(0x60 + i), WriteData(v), Command(0x20 + i)];
    var a := StepCommand(p, 0x60 + i);
    assert a == p.(writing := true, offset := RamIndex(0x60 + i));
    var b := StepWrite(a, v);
    assert b.ram == p.ram[RamIndex(i) := v] && b.inputBuf == p.inputBuf && b.kbd == p.kbd && !b.writing;
    var c := StepCommand(b, 0x20 + i);
    assert c == Respond(b, v);
    assert es[1..] == [WriteData(v), Command(0x20 + i)] && es[1..][1..] == [Command(0x20 + i)];
    assert Run(p, es) == Run(a, es[1..]) == Run(b, es[1..][1..]) == Run(c, []);
  }

  lemma OffsetOf(i: u8)
    requires i < 0x20
    ensures RamIndex(0x60 + i) == RamIndex(0x20 + i) == RamIndex(i) == i as nat
    ensures 0x60 <= 0x60 + i <= 0x7F && 0x20 <= 0x20 + i <= 0x3F
  {
    assert (0x60 + i) & 0x1F == i && (0x20 + i) & 0x1F == i && i & 0x1F == i;
  }

  /** The system is reset by exactly the commands 0xF0, 0xF2, ... 0xFE, and by
      nothing else that reaches the controller or the keyboard. */
  lemma ResetsExactlyByPulse(p: Pair, e: Event)
    requires Sized(p)
    ensures Step(p, e).0.resets == p.resets + (if e.Command? && e.v >= 0xF0 && e.v & 0x01 == 0 then 1 else 0)
  {
    match e {
      case Command(v) => PulseCommands(v);
      case ReadData => hide Set2ToSet1;
      case Key(usb, down) => hide KeyBytes;
      case WriteData(v) =>
      case ReadStatus =>
    }
  }

  lemma PulseCommands(v: u8)
    ensures (v & 0xF0 == 0xF0) == (v >= 0xF0)
  {
  }
}
