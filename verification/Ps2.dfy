/** The PS/2 keyboard and its controller (iodev_pc.py, `PS2Keyboard` and
    `PS2Io`): what each port access and key event does to the pair, and the
    classes that do it. */
module Ps2 {
  import opened Common
  import opened ScanCodes

  datatype KeyboardState = Normal | SetScancode | SetRepeat | SetLed

  datatype Keyboard = Keyboard(led: u8, scancodeSet: u8, state: KeyboardState, out: seq<u8>)

  /** Keyboard and controller; `writing` is the state in which the controller
      expects a byte for its configuration RAM, `line` the interrupt line, and
      `resets` how often it has asked for a system reset. */
  datatype Pair = Pair(kbd: Keyboard, inputBuf: seq<u8>, ram: seq<u8>, writing: bool, offset: nat, line: bool,
                       resets: nat)

  const RAM_SIZE: nat := 32
  const CFG_IRQ: u8 := 0x01
  const CFG_SYSTEM: u8 := 0x04
  const CFG_KEYBOARD_OFF: u8 := 0x10
  const CFG_MOUSE_OFF: u8 := 0x20
  const CFG_TRANSLATE: u8 := 0x40

  predicate Sized(p: Pair) { |p.ram| == RAM_SIZE && p.offset < RAM_SIZE }

  predicate Pending(p: Pair) { |p.inputBuf| > 0 || |p.kbd.out| > 0 }

  predicate WantsIrq(p: Pair)
    requires Sized(p)
  {
    p.ram[0] & CFG_IRQ != 0 && Pending(p)
  }

  predicate Translating(p: Pair)
    requires Sized(p)
  {
    p.ram[0] & CFG_TRANSLATE != 0
  }

  function UpdateIntr(p: Pair): (r: Pair)
    requires Sized(p)
  {
    p.(line := WantsIrq(p))
  }

  // ---- The keyboard -----------------------------------------------------------

  function ResetKeyboard(ack: bool): Keyboard {
    Keyboard(7, 1, Normal, if ack then [0xFA, 0xAA] else [0xAA])
  }

  function Queue(k: Keyboard, bytes: seq<u8>): Keyboard { k.(out := k.out + bytes) }

  /** A command or argument byte for the keyboard; the flag says whether the
      controller is notified. */
  function KeyboardWrite(k: Keyboard, v: u8): (Keyboard, bool) {
    match k.state
    case Normal =>
      if v == 0xED then (Queue(k, [0xFA]).(state := SetLed), true)
      else if v == 0xF2 || v == 0xF4 then (Queue(k, [0xFA]), true)
      else if v == 0xF0 then (Queue(k, [0xFA]).(state := SetScancode), true)
      else if v == 0xF3 then (Queue(k, [0xFA]).(state := SetRepeat), true)
      else if v == 0xF6 then (Queue(k, [0xFA]).(led := 0), true)
      else if v == 0xFF then (ResetKeyboard(true), true)
      else (k, false)
    case SetScancode => (Queue(k, [0xFA]).(scancodeSet := if v < 1 || v > 3 then 2 else v, state := Normal), true)
    case SetRepeat => (Queue(k, [0xFA]).(state := Normal), true)
    case SetLed => (Queue(k, [0xFA]).(led := v, state := Normal), true)
  }

  /** Only scancode set 2 has a table. */
  function CodesFor(k: Keyboard, usb: nat): Option<KeyCodes> {
    if k.scancodeSet == 2 then UsbToSet2(usb) else None
  }

  function KeyBytes(k: Keyboard, usb: nat, down: bool): Option<seq<u8>> {
    match CodesFor(k, usb)
    case None => None
    case Some(c) => Some(if down then c.down else c.up)
  }

  // ---- One event --------------------------------------------------------------

  datatype Event =
    | Key(usb: nat, down: bool)
    | ReadData
    | WriteData(v: u8)
    | ReadStatus
    | Command(v: u8)

  /** An event either returns a value or trips the assertion in the data port. */
  function Step(p: Pair, e: Event): (r: (Pair, Outcome<u8>))
    requires Sized(p)
    ensures Sized(r.0)
  {
    match e
    case Key(usb, down) => (StepKey(p, usb, down), Returns(0))
    case ReadData => StepRead(p)
    case WriteData(v) => (StepWrite(p, v), Returns(0))
    case ReadStatus => (p, Returns(Status(p)))
    case Command(v) => (StepCommand(p, v), Returns(0))
  }

  function StepKey(p: Pair, usb: nat, down: bool): (r: Pair)
    requires Sized(p)
    ensures Sized(r)
  {
    var bytes := KeyBytes(p.kbd, usb, down);
    if bytes.None? then p else UpdateIntr(p.(kbd := Queue(p.kbd, bytes.value)))
  }

  /** `_translate`; None stands for a break prefix. */
  function TranslateByte(p: Pair, v: u8): Option<u8>
    requires Sized(p)
  {
    if !Translating(p) then Some(v)
    else if v == BREAK_PREFIX then None
    else Some(Set2ToSet1(v))
  }

  function WithHighBit(v: u8): u8 { v | 0x80 }

  function StepRead(p: Pair): (r: (Pair, Outcome<u8>))
    requires Sized(p)
    ensures Sized(r.0)
  {
    if p.writing then (p.(writing := false), Returns(0))
    else if |p.inputBuf| > 0 then (UpdateIntr(p.(inputBuf := p.inputBuf[1..])), Returns(p.inputBuf[0]))
    else if |p.kbd.out| == 0 then (UpdateIntr(p), Returns(0))
    else
      var p1 := UpdateIntr(p.(kbd := p.kbd.(out := p.kbd.out[1..])));
      var v := TranslateByte(p1, p.kbd.out[0]);
      if v.Some? then (p1, Returns(v.value))
      else if |p1.kbd.out| == 0 then (p1, Raises)
      else
        var p2 := p1.(kbd := p1.kbd.(out := p1.kbd.out[1..]));
        var w := TranslateByte(p2, p1.kbd.out[0]);
        (UpdateIntr(p2), if w.None? then Raises else Returns(WithHighBit(w.value)))
  }

  function StepWrite(p: Pair, v: u8): (r: Pair)
    requires Sized(p)
    ensures Sized(r)
  {
    if p.writing then UpdateIntr(p.(ram := p.ram[p.offset := v])).(writing := false)
    else
      var w := KeyboardWrite(p.kbd, v);
      var p1 := p.(kbd := w.0);
      if w.1 then UpdateIntr(p1) else p1
  }

  function Status(p: Pair): u8
    requires Sized(p)
  {
    (if Pending(p) then 0x01 else 0) | (if p.ram[0] & CFG_SYSTEM != 0 then 0x04 else 0)
      | (if p.writing then 0x08 else 0)
  }

  function RamIndex(v: u8): (i: nat)
    ensures i < RAM_SIZE
  {
    (v & 0x1F) as nat
  }

  function Respond(p: Pair, v: u8): Pair { p.(inputBuf := p.inputBuf + [v]) }

  /** Ports are switched by their bit in the configuration byte. */
  function PortOff(p: Pair, port: u8): (r: Pair)
    requires Sized(p)
    ensures Sized(r)
  {
    p.(ram := p.ram[0 := p.ram[0] | port])
  }

  function PortOn(p: Pair, port: u8): (r: Pair)
    requires Sized(p)
    ensures Sized(r)
  {
    p.(ram := p.ram[0 := p.ram[0] & !port])
  }

  /** The single-byte commands: ports on and off, the self tests, and pulses. */
  function PortOrTest(p: Pair, v: u8): (r: Pair)
    requires Sized(p)
    ensures Sized(r)
  {
    if v == 0xAD then PortOff(p, CFG_KEYBOARD_OFF)
    else if v == 0xAE then PortOn(p, CFG_KEYBOARD_OFF)
    else if v == 0xA7 then PortOff(p, CFG_MOUSE_OFF)
    else if v == 0xA8 then PortOn(p, CFG_MOUSE_OFF)
    else if v == 0xAA then Respond(p, 0x55)
    else if v == 0xAB then Respond(p, 0x00)
    else if v == 0xA9 then Respond(p, 0x06)
    else if v & 0xF0 == 0xF0 then Pulse(p, v)
    else p
  }

  function LineBit(i: nat): u8
    requires i < 4
  {
    if i == 0 then 0x01 else if i == 1 then 0x02 else if i == 2 then 0x04 else 0x08
  }

  /** Output lines are pulsed where `v` has a zero; line 0 resets the system. */
  function Pulse(p: Pair, v: u8): Pair {
    if v & 0x01 == 0 then p.(resets := p.resets + 1) else p
  }

  /** No controller command updates the interrupt line. */
  function StepCommand(p: Pair, v: u8): (r: Pair)
    requires Sized(p)
    ensures Sized(r)
  {
    if v >= 0x20 && v <= 0x3F then Respond(p, p.ram[RamIndex(v)])
    else if v >= 0x60 && v <= 0x7F then p.(writing := true, offset := RamIndex(v))
    else PortOrTest(p, v)
  }

  function PowerOn(): Pair {
    Pair(ResetKeyboard(false), [], seq(RAM_SIZE, _ => 0), false, 0, false, 0)
  }

  /** The state after a sequence of events. */
  function Run(p: Pair, es: seq<Event>): (r: Pair)
    requires Sized(p)
    ensures Sized(r)
    decreases |es|
  {
    if es == [] then p else Run(Step(p, es[0]).0, es[1..])
  }

  // ---- The classes ----------------------------------------------------------------

  class PS2Keyboard {
    var ledState: u8
    var scancodeSetNo: u8
    var state: KeyboardState
    var outputBuf: seq<u8>
    /** Set once the controller has registered its `notifyFunc`. */
    var ctl: PS2Io?

    ghost function View(): Keyboard
      reads this
    {
      Keyboard(ledState, scancodeSetNo, state, outputBuf)
    }

    constructor ()
      ensures View() == ResetKeyboard(false) && ctl == null
    {
      ledState, scancodeSetNo, state, outputBuf, ctl := 7, 1, Normal, [0xAA], null;
    }

    method Read() returns (v: Option<u8>)
      modifies this`outputBuf
      ensures if old(outputBuf) == [] then v == None && outputBuf == []
              else v == Some(old(outputBuf)[0]) && outputBuf == old(outputBuf)[1..]
    {
      if |outputBuf| > 0 {
        v := Some(outputBuf[0]);
        outputBuf := outputBuf[1..];
        return;
      }
      v := None;
    }

    method Notify()
      requires ctl != null ==> ctl.Valid()
      modifies if ctl == null then {} else {ctl}
      ensures ctl != null ==> ctl.Valid() && ctl.View() == UpdateIntr(old(ctl.View()))
    {
      if ctl != null { ctl.UpdateIntrLine(); }
    }

    method Reset(includeAck: bool)
      requires ctl != null && ctl.Valid() && ctl.device == this
      modifies this, ctl
      ensures ctl == old(ctl) && ctl.Valid()
      ensures ctl.View() == UpdateIntr(old(ctl.View()).(kbd := ResetKeyboard(includeAck)))
    {
      ledState, scancodeSetNo, state := 7, 1, Normal;
      outputBuf := if includeAck then [0xFA, 0xAA] else [0xAA];
      Notify();
    }

    method QueueCode(code: seq<u8>)
      requires ctl != null && ctl.Valid() && ctl.device == this
      modifies this, ctl
      ensures ctl == old(ctl) && ctl.Valid()
      ensures ctl.View() == UpdateIntr(old(ctl.View()).(kbd := Queue(old(View()), code)))
    {
      for i := 0 to |code|
        invariant outputBuf == old(outputBuf) + code[..i]
        modifies this`outputBuf
      {
        outputBuf := outputBuf + [code[i]];
      }
      assert code[..|code|] == code;
      Notify();
    }

    method KeyEvent(usb: nat, down: bool)
      requires ctl != null && ctl.Valid() && ctl.device == this
      modifies this, ctl
      ensures ctl == old(ctl) && ctl.Valid() && ctl.View() == StepKey(old(ctl.View()), usb, down)
    {
      if scancodeSetNo != 2 { return; }
      var sc := UsbToSet2(usb);
      if sc.None? { return; }
      QueueCode(if down then sc.value.down else sc.value.up);
    }

    method Write(v: u8)
      requires ctl != null && ctl.Valid() && ctl.device == this
      modifies this, ctl
      ensures ctl == old(ctl) && ctl.Valid()
      ensures var w, p := KeyboardWrite(old(View()), v), old(ctl.View());
        ctl.View() == if w.1 then UpdateIntr(p.(kbd := w.0)) else p.(kbd := w.0)
    {
      match state {
        case Normal =>
          if v == 0xED { state := SetLed; QueueCode([0xFA]); }
          else if v == 0xF2 || v == 0xF4 { QueueCode([0xFA]); }
          else if v == 0xF0 { state := SetScancode; QueueCode([0xFA]); }
          else if v == 0xF3 { state := SetRepeat; QueueCode([0xFA]); }
          else if v == 0xF6 { ledState := 0; QueueCode([0xFA]); }
          else if v == 0xFF { Reset(true); }
        case SetScancode =>
          scancodeSetNo := if v < 1 || v > 3 then 2 else v;
          state := Normal;
          QueueCode([0xFA]);
        case SetRepeat =>
          state := Normal;
          QueueCode([0xFA]);
        case SetLed =>
          ledState := v;
          state := Normal;
          QueueCode([0xFA]);
      }
    }
  }

  class PS2Io {
    const device: PS2Keyboard
    var inputBuf: seq<u8>
    var ctlCfgRam: seq<u8>
    var writing: bool
    var ctlCfgRamOffset: nat
    var irqLine: bool
    /** The calls of `sysResetFunc`. */
    var resets: nat

    ghost predicate Valid()
      reads this, device
    {
      device.ctl == this && |ctlCfgRam| == RAM_SIZE && ctlCfgRamOffset < RAM_SIZE
    }

    ghost function View(): Pair
      reads this, device
    {
      Pair(device.View(), inputBuf, ctlCfgRam, writing, ctlCfgRamOffset, irqLine, resets)
    }

    constructor ()
      ensures Valid() && fresh(device) && View() == PowerOn()
    {
      var kbd := new PS2Keyboard();
      device := kbd;
      inputBuf, ctlCfgRam, writing, ctlCfgRamOffset := [], seq(RAM_SIZE, _ => 0), false, 0;
      irqLine, resets := false, 0;
      new;
      kbd.ctl := this;
    }

    method UpdateIntrLine()
      requires Valid()
      modifies this`irqLine
      ensures Valid() && View() == UpdateIntr(old(View()))
    {
      irqLine := ctlCfgRam[0] & CFG_IRQ != 0 && (|inputBuf| > 0 || |device.outputBuf| > 0);
    }

    function Translate(v: u8): Option<u8>
      requires Valid()
      reads this, device
      ensures Translate(v) == TranslateByte(View(), v)
    {
      if ctlCfgRam[0] & CFG_TRANSLATE == 0 then Some(v)
      else if v == BREAK_PREFIX then None
      else Some(Set2ToSet1(v))
    }

    method ReadData() returns (r: Outcome<u8>)
      requires Valid()
      modifies this, device
      ensures Valid() && (View(), r) == StepRead(old(View()))
    {
      hide TranslateByte;
      hide WithHighBit;
      if writing {
        writing := false;
        return Returns(0);
      }
      if |inputBuf| > 0 {
        r := Returns(inputBuf[0]);
        inputBuf := inputBuf[1..];
        UpdateIntrLine();
        return;
      }
      r := ReadDevice();
    }

    /** A byte from the keyboard, translated together with its break prefix. */
    method ReadDevice() returns (r: Outcome<u8>)
      requires Valid() && !writing && inputBuf == []
      modifies this, device
      ensures Valid() && (View(), r) == StepRead(old(View()))
    {
      hide TranslateByte;
      hide PS2Io.Translate;
      hide WithHighBit;
      hide WantsIrq;
      var v := device.Read();
      UpdateIntrLine();
      if v.None? { return Returns(0); }
      var t := Translate(v.value);
      if t.None? {
        var w := device.Read();
        if w.None? { return Raises; }
        t := Translate(w.value);
        UpdateIntrLine();
        return if t.None? then Raises else Returns(WithHighBit(t.value));
      }
      r := Returns(t.value);
    }

    method WriteData(v: u8)
      requires Valid()
      modifies this, device
      ensures Valid() && View() == StepWrite(old(View()), v)
    {
      if !writing {
        device.Write(v);
      } else {
        ctlCfgRam := ctlCfgRam[ctlCfgRamOffset := v];
        UpdateIntrLine();
        writing := false;
      }
    }

    method ReadStatus() returns (flags: u8)
      requires Valid()
      ensures flags == Status(View())
    {
      flags := 0;
      if |inputBuf| != 0 || |device.outputBuf| > 0 { flags := flags | 0x01; }
      if ctlCfgRam[0] & CFG_SYSTEM != 0 { flags := flags | 0x04; }
      if writing { flags := flags | 0x08; }
    }

    method PushResponse(v: u8)
      requires Valid()
      modifies this`inputBuf
      ensures Valid() && View() == Respond(old(View()), v)
    {
      inputBuf := inputBuf + [v];
    }

    method SwitchOff(port: u8)
      requires Valid()
      modifies this`ctlCfgRam
      ensures Valid() && View() == PortOff(old(View()), port)
    {
      ctlCfgRam := ctlCfgRam[0 := ctlCfgRam[0] | port];
    }

    method SwitchOn(port: u8)
      requires Valid()
      modifies this`ctlCfgRam
      ensures Valid() && View() == PortOn(old(View()), port)
    {
      ctlCfgRam := ctlCfgRam[0 := ctlCfgRam[0] & !port];
    }

    method Command(v: u8)
      requires Valid()
      modifies this
      ensures Valid() && View() == StepCommand(old(View()), v)
    {
      hide RamIndex;
      hide PortOrTest;
      if v >= 0x20 && v <= 0x3F {
        PushResponse(ctlCfgRam[RamIndex(v)]);
      } else if v >= 0x60 && v <= 0x7F {
        writing := true;
        ctlCfgRamOffset := RamIndex(v);
      } else {
        ApplyPortOrTest(v);
      }
    }

    method ApplyPortOrTest(v: u8)
      requires Valid()
      modifies this`inputBuf, this`ctlCfgRam, this`resets
      ensures Valid() && View() == PortOrTest(old(View()), v)
    {
      hide Respond;
      hide PortOff;
      hide PortOn;
      if v == 0xAD { SwitchOff(CFG_KEYBOARD_OFF); }
      else if v == 0xAE { SwitchOn(CFG_KEYBOARD_OFF); }
      else if v == 0xA7 { SwitchOff(CFG_MOUSE_OFF); }
      else if v == 0xA8 { SwitchOn(CFG_MOUSE_OFF); }
      else if v == 0xAA { PushResponse(0x55); }
      else if v == 0xAB { PushResponse(0x00); }
      else if v == 0xA9 { PushResponse(0x06); }
      else if v & 0xF0 == 0xF0 { PulseLines(v); }
    }

    method PulseLines(v: u8)
      requires Valid()
      modifies this`resets
      ensures Valid() && View() == Pulse(old(View()), v)
    {
      var doReset := false;
      for i := 0 to 4
        invariant doReset == (i > 0 && v & 0x01 == 0)
      {
        if v & LineBit(i) == 0 && i == 0 { doReset := true; }
      }
      if doReset { resets := resets + 1; }
    }
  }
}
