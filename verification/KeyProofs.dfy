/** Which bytes the guest reads for which key: scan code set 1 as every PC keyboard
    sends it, written down here without the tables of `ScanCodes`. */
module KeyProofs {
  import opened Common
  import opened ScanCodes
  import opened Ps2
  import opened Ps2Proofs

  // ---- Scan code set 1 ------------------------------------------------------------

  /** The code of a key going down; keys that came with later keyboards have a
      prefix byte 0xE0. */
  datatype Code = Plain(code: u8) | Extended(code: u8)

  /** A to Z. */
  const LETTERS: seq<u8> := [
    0x1E, 0x30, 0x2E, 0x20, 0x12, 0x21, 0x22, 0x23, 0x17, 0x24, 0x25, 0x26, 0x32, 0x31, 0x18, 0x19, 0x10, 0x13, 0x1F,
    0x14, 0x16, 0x2F, 0x11, 0x2D, 0x15, 0x2C
  ]

  /** Return, Esc, Backspace, Tab, Space, - = [ ] \ # ; ' ` , . / and Caps Lock. */
  const OTHERS: seq<u8> := [
    0x1C, 0x01, 0x0E, 0x0F, 0x39, 0x0C, 0x0D, 0x1A, 0x1B, 0x2B, 0x2B, 0x27, 0x28, 0x29, 0x33, 0x34, 0x35, 0x3A
  ]

  /** F1 to F12. */
  const FUNCTIONS: seq<u8> := [0x3B, 0x3C, 0x3D, 0x3E, 0x3F, 0x40, 0x41, 0x42, 0x43, 0x44, 0x57, 0x58]

  /** 1 to 9 and 0. */
  const DIGITS: seq<u8> := [0x02, 0x03, 0x04, 0x05, 0x06, 0x07, 0x08, 0x09, 0x0A, 0x0B]

  /** Right, left, down and up; all of them with the prefix. */
  const ARROWS: seq<u8> := [0x4D, 0x4B, 0x50, 0x48]

  /** Control, Shift, Alt and Gui, on the left and then on the right. */
  const MODIFIERS: seq<Code> := [
    Plain(0x1D), Plain(0x2A), Plain(0x38), Extended(0x5B), Extended(0x1D), Plain(0x36), Extended(0x38), Extended(0x5C)
  ]

  /** The keys a USB keyboard numbers this way. */
  function Set1Code(usb: nat): Option<Code> {
    if 0x04 <= usb <= 0x1D then Some(Plain(LETTERS[usb - 0x04]))
    else if 0x1E <= usb <= 0x27 then Some(Plain(DIGITS[usb - 0x1E]))
    else if 0x28 <= usb <= 0x39 then Some(Plain(OTHERS[usb - 0x28]))
    else if 0x3A <= usb <= 0x45 then Some(Plain(FUNCTIONS[usb - 0x3A]))
    else if 0x4F <= usb <= 0x52 then Some(Extended(ARROWS[usb - 0x4F]))
    else if 0xE0 <= usb <= 0xE7 then Some(MODIFIERS[usb - 0xE0])
    else None
  }

  /** A key coming up sends its code plus 0x80, behind the same prefix. */
  function Set1Bytes(c: Code, down: bool): seq<u8> {
    var b := if down then c.code else c.code + 0x80;
    if c.Plain? then [b] else [0xE0, b]
  }

  // ---- The tables, row by row -------------------------------------------------------

  lemma TopRow1()
    ensures Set2ToSet1(0x15) == 0x10 && Set2ToSet1(0x1D) == 0x11 && Set2ToSet1(0x24) == 0x12 && Set2ToSet1(0x2D) == 0x13
  {
  }

  lemma TopRow2()
    ensures Set2ToSet1(0x2C) == 0x14 && Set2ToSet1(0x35) == 0x15 && Set2ToSet1(0x3C) == 0x16 && Set2ToSet1(0x43) == 0x17
  {
  }

  lemma TopRow3()
    ensures Set2ToSet1(0x44) == 0x18 && Set2ToSet1(0x4D) == 0x19
  {
  }

  lemma HomeRow1()
    ensures Set2ToSet1(0x1C) == 0x1E && Set2ToSet1(0x1B) == 0x1F && Set2ToSet1(0x23) == 0x20
  {
  }

  lemma HomeRow2()
    ensures Set2ToSet1(0x2B) == 0x21 && Set2ToSet1(0x34) == 0x22 && Set2ToSet1(0x33) == 0x23
  {
  }

  lemma HomeRow3()
    ensures Set2ToSet1(0x3B) == 0x24 && Set2ToSet1(0x42) == 0x25 && Set2ToSet1(0x4B) == 0x26
  {
  }

  lemma BottomRow1()
    ensures Set2ToSet1(0x1A) == 0x2C && Set2ToSet1(0x22) == 0x2D && Set2ToSet1(0x21) == 0x2E && Set2ToSet1(0x2A) == 0x2F
  {
  }

  lemma BottomRow2()
    ensures Set2ToSet1(0x32) == 0x30 && Set2ToSet1(0x31) == 0x31 && Set2ToSet1(0x3A) == 0x32
  {
  }

  lemma DigitRow1()
    ensures Set2ToSet1(0x16) == 0x02 && Set2ToSet1(0x1E) == 0x03 && Set2ToSet1(0x26) == 0x04 && Set2ToSet1(0x25) == 0x05
  {
  }

  lemma DigitRow2()
    ensures Set2ToSet1(0x2E) == 0x06 && Set2ToSet1(0x36) == 0x07 && Set2ToSet1(0x3D) == 0x08 && Set2ToSet1(0x3E) == 0x09
  {
  }

  lemma DigitRow3()
    ensures Set2ToSet1(0x46) == 0x0A && Set2ToSet1(0x45) == 0x0B
  {
  }

  lemma ControlKeys1()
    ensures Set2ToSet1(0x5A) == 0x1C && Set2ToSet1(0x76) == 0x01 && Set2ToSet1(0x66) == 0x0E
  {
  }

  lemma ControlKeys2()
    ensures Set2ToSet1(0x0D) == 0x0F && Set2ToSet1(0x29) == 0x39 && Set2ToSet1(0x58) == 0x3A
  {
  }

  lemma Punctuation1()
    ensures Set2ToSet1(0x4E) == 0x0C && Set2ToSet1(0x55) == 0x0D && Set2ToSet1(0x54) == 0x1A && Set2ToSet1(0x5B) == 0x1B
  {
  }

  lemma Punctuation2()
    ensures Set2ToSet1(0x5D) == 0x2B && Set2ToSet1(0x4C) == 0x27 && Set2ToSet1(0x52) == 0x28 && Set2ToSet1(0x0E) == 0x29
  {
  }

  lemma Punctuation3()
    ensures Set2ToSet1(0x41) == 0x33 && Set2ToSet1(0x49) == 0x34 && Set2ToSet1(0x4A) == 0x35
  {
  }

  lemma FunctionKeys1()
    ensures Set2ToSet1(0x05) == 0x3B && Set2ToSet1(0x06) == 0x3C && Set2ToSet1(0x04) == 0x3D && Set2ToSet1(0x0C) == 0x3E
  {
  }

  lemma FunctionKeys2()
    ensures Set2ToSet1(0x03) == 0x3F && Set2ToSet1(0x0B) == 0x40 && Set2ToSet1(0x83) == 0x41 && Set2ToSet1(0x0A) == 0x42
  {
  }

  lemma FunctionKeys3()
    ensures Set2ToSet1(0x01) == 0x43 && Set2ToSet1(0x09) == 0x44 && Set2ToSet1(0x78) == 0x57 && Set2ToSet1(0x07) == 0x58
  {
  }

  lemma ArrowsAndModifiers1()
    ensures Set2ToSet1(0x74) == 0x4D && Set2ToSet1(0x6B) == 0x4B && Set2ToSet1(0x72) == 0x50 && Set2ToSet1(0x75) == 0x48
  {
  }

  lemma ArrowsAndModifiers2()
    ensures Set2ToSet1(0x14) == 0x1D && Set2ToSet1(0x12) == 0x2A && Set2ToSet1(0x11) == 0x38 && Set2ToSet1(0x1F) == 0x5B
  {
  }

  lemma ArrowsAndModifiers3()
    ensures Set2ToSet1(0x59) == 0x36 && Set2ToSet1(0x27) == 0x5C
  {
  }

  /** The key's set 2 code is the one that translates to `c`. */
  ghost predicate Matches(k: Option<KeyCodes>, c: Code) {
    && k.Some? && |k.value.down| == (if c.Plain? then 1 else 2)
    && c.code < 0x80 && Set2ToSet1(k.value.down[|k.value.down| - 1]) == c.code
  }

  lemma FirstLetters(usb: nat)
    requires 0x04 <= usb <= 0x10
    ensures Matches(Letter(usb), Plain(LETTERS[usb - 0x04]))
  {
    hide Set2ToSet1;
    TopRow1();
    TopRow2();
    TopRow3();
    HomeRow1();
    HomeRow2();
    HomeRow3();
    BottomRow1();
    BottomRow2();
  }

  lemma LastLetters(usb: nat)
    requires 0x11 <= usb <= 0x1D
    ensures Matches(Letter(usb), Plain(LETTERS[usb - 0x04]))
  {
    hide Set2ToSet1;
    TopRow1();
    TopRow2();
    TopRow3();
    HomeRow1();
    HomeRow2();
    HomeRow3();
    BottomRow1();
    BottomRow2();
  }

  lemma Digits(usb: nat)
    requires 0x1E <= usb <= 0x27
    ensures Matches(DigitOrControl(usb), Plain(DIGITS[usb - 0x1E]))
  {
    hide Set2ToSet1;
    DigitRow1();
    DigitRow2();
    DigitRow3();
  }

  lemma Controls(usb: nat)
    requires 0x28 <= usb <= 0x2C
    ensures Matches(DigitOrControl(usb), Plain(OTHERS[usb - 0x28]))
  {
    hide Set2ToSet1;
    ControlKeys1();
    ControlKeys2();
  }

  lemma Punctuations(usb: nat)
    requires 0x2D <= usb <= 0x39
    ensures Matches(PunctuationOrFunction(usb), Plain(OTHERS[usb - 0x28]))
  {
    hide Set2ToSet1;
    ControlKeys1();
    ControlKeys2();
    Punctuation1();
    Punctuation2();
    Punctuation3();
  }

  lemma Functions(usb: nat)
    requires 0x3A <= usb <= 0x45
    ensures Matches(PunctuationOrFunction(usb), Plain(FUNCTIONS[usb - 0x3A]))
  {
    hide Set2ToSet1;
    FunctionKeys1();
    FunctionKeys2();
    FunctionKeys3();
  }

  lemma Arrows(usb: nat)
    requires 0x4F <= usb <= 0x52
    ensures Matches(ArrowOrModifier(usb), Extended(ARROWS[usb - 0x4F]))
  {
    hide Set2ToSet1;
    ArrowsAndModifiers1();
    ArrowsAndModifiers2();
    ArrowsAndModifiers3();
  }

  lemma Modifiers(usb: nat)
    requires 0xE0 <= usb <= 0xE7
    ensures Matches(ArrowOrModifier(usb), MODIFIERS[usb - 0xE0])
  {
    hide Set2ToSet1;
    ArrowsAndModifiers1();
    ArrowsAndModifiers2();
    ArrowsAndModifiers3();
  }

  /** The keyboard knows exactly these keys. */
  lemma KnownKeys(usb: nat)
    ensures UsbToSet2(usb).Some? <==> Set1Code(usb).Some?
    ensures Set1Code(usb).Some? ==> Matches(UsbToSet2(usb), Set1Code(usb).value)
  {
    hide Matches;
    hide Set2ToSet1;
    hide Letter;
    hide DigitOrControl;
    hide PunctuationOrFunction;
    hide ArrowOrModifier;
    hide LETTERS, DIGITS, OTHERS, FUNCTIONS, ARROWS, MODIFIERS;
    if Set1Code(usb).Some? {
      if usb <= 0x10 { FirstLetters(usb); } else if usb <= 0x1D { LastLetters(usb); }
      else if usb <= 0x27 { Digits(usb); } else if usb <= 0x2C { Controls(usb); }
      else if usb <= 0x39 { Punctuations(usb); } else if usb <= 0x45 { Functions(usb); }
      else if usb <= 0x52 { Arrows(usb); } else { Modifiers(usb); }
      MatchedIsSome(usb);
    } else {
      OtherKeys(usb);
    }
  }

  lemma MatchedIsSome(usb: nat)
    requires Set1Code(usb).Some? && Matches(UsbToSet2(usb), Set1Code(usb).value)
    ensures UsbToSet2(usb).Some?
  {
    hide UsbToSet2;
  }

  lemma OtherKeys(usb: nat)
    requires Set1Code(usb).None?
    ensures UsbToSet2(usb).None?
  {
  }

  // ---- What the guest reads -----------------------------------------------------------

  /** A code below 0x80 has its high bit set by adding 0x80. */
  lemma HighBitAdds(b: u8)
    requires b < 0x80
    ensures WithHighBit(b) == b + 0x80 && (b + 0x80) as nat == b as nat + 0x80
  {
  }

  lemma KeyIsSet1(usb: nat, down: bool)
    requires Set1Code(usb).Some?
    ensures KeyInSet1(usb, down) == Set1Bytes(Set1Code(usb).value, down)
  {
    hide UsbToSet2;
    hide Translated;
    hide Set2ToSet1;
    hide WithHighBit;
    hide Set1Code;
    KnownKeys(usb);
    UpIsDownWithPrefix(usb);
    var k := UsbToSet2(usb).value;
    var last := k.down[|k.down| - 1];
    HighBitAdds(Set1Code(usb).value.code);
    if |k.down| == 2 {
      assert k.down == [EXTENDED_PREFIX, last] && k.up == [EXTENDED_PREFIX, BREAK_PREFIX, last];
      ExtendedCode(last);
    } else {
      assert k.down == [last] && k.up == [BREAK_PREFIX, last];
      OneCode(last);
    }
  }

  lemma SomethingTranslated(q: seq<u8>)
    requires Paired(q)
    ensures q != [] <==> |Translated(q)| > 0
  {
  }

  lemma AtMostTwo(usb: nat, down: bool)
    ensures |KeyInSet1(usb, down)| <= 2
  {
    hide UsbToSet2;
    hide Translated;
    KnownKeys(usb);
    if Set1Code(usb).Some? { KeyIsSet1(usb, down); }
  }

  /** What two reads of the data port return after a key event. */
  ghost function ReadsAfterKey(p: Pair, usb: nat, down: bool): seq<u8>
    requires Sized(p)
  {
    BytesRead(p, [Key(usb, down), ReadData, ReadData])
  }

  /** With nothing in front, they return all of the key's bytes. */
  lemma KeyIsRead(p: Pair, usb: nat, down: bool)
    requires Typing(p) && p.kbd.out == []
    ensures ReadsAfterKey(p, usb, down) == KeyInSet1(usb, down)
    ensures Run(p, [Key(usb, down), ReadData, ReadData]).kbd.out == []
  {
    hide StepKey;
    hide StepRead;
    hide Translated;
    hide KeyInSet1;
    hide Translating;
    hide Paired;
    var p1 := StepKey(p, usb, down);
    KeyStep(p, usb, down);
    StillTyping(p, Key(usb, down));
    var r1 := StepRead(p1);
    ReadStep(p1);
    StillTyping(p1, ReadData);
    var r2 := StepRead(r1.0);
    ReadStep(r1.0);
    SomethingTranslated(p.kbd.out);
    SomethingTranslated(p1.kbd.out);
    SomethingTranslated(r1.0.kbd.out);
    SomethingTranslated(r2.0.kbd.out);
    AtMostTwo(usb, down);
    Unrolled(p, usb, down);
    var s, t := Translated(p1.kbd.out), Translated(r1.0.kbd.out);
    assert s == KeyInSet1(usb, down);
    assert |Translated(r2.0.kbd.out)| == 0;
    assert t + [] == t;
  }

  lemma Unrolled(p: Pair, usb: nat, down: bool)
    requires Sized(p)
    ensures var p1 := StepKey(p, usb, down);
      var r1 := StepRead(p1);
      var r2 := StepRead(r1.0);
      && Run(p, [Key(usb, down), ReadData, ReadData]) == r2.0
      && ReadsAfterKey(p, usb, down)
         == (if p1.kbd.out != [] && r1.1.Returns? then [r1.1.result] else [])
              + (if r1.0.kbd.out != [] && r2.1.Returns? then [r2.1.result] else [])
  {
    hide StepKey;
    hide StepRead;
    var es := [Key(usb, down), ReadData, ReadData];
    var p1 := StepKey(p, usb, down);
    var r1 := StepRead(p1);
    var r2 := StepRead(r1.0);
    assert es[1..] == [ReadData, ReadData] && es[1..][1..] == [ReadData];
    assert Run(r1.0, [ReadData]) == Run(r2.0, []);
    assert BytesRead(r2.0, []) == [];
    var first := if p1.kbd.out != [] && r1.1.Returns? then [r1.1.result] else [];
    var second := if r1.0.kbd.out != [] && r2.1.Returns? then [r2.1.result] else [];
    assert BytesRead(r1.0, [ReadData]) == second + [];
    assert BytesRead(p1, [ReadData, ReadData]) == first + (second + []);
    assert BytesRead(p, es) == [] + (first + (second + []));
  }

  /** For every key: with translation on and set 2 selected, the guest reads the
      key's set 1 code, plus 0x80 when it comes up; of a key that has no code, it
      reads nothing. */
  lemma KeysReadAsSet1(p: Pair, usb: nat, down: bool)
    requires Typing(p) && p.kbd.out == []
    ensures ReadsAfterKey(p, usb, down)
         == match Set1Code(usb) case None => [] case Some(c) => Set1Bytes(c, down)
  {
    hide ReadsAfterKey;
    hide Set1Code;
    hide Set1Bytes;
    hide UsbToSet2;
    KeyIsRead(p, usb, down);
    KnownKeys(usb);
    if Set1Code(usb).Some? { KeyIsSet1(usb, down); }
  }

  function Set1Stream(es: seq<Event>): seq<u8>
    decreases |es|
  {
    if es == [] then []
    else
      (if es[0].Key? && Set1Code(es[0].usb).Some? then Set1Bytes(Set1Code(es[0].usb).value, es[0].down) else [])
        + Set1Stream(es[1..])
  }

  lemma {:induction false} StreamIsSet1(es: seq<Event>)
    ensures KeysInSet1(es) == Set1Stream(es)
    decreases |es|
  {
    hide Set1Code;
    hide Set1Bytes;
    hide UsbToSet2;
    hide Translated;
    if es != [] {
      if es[0].Key? {
        KnownKeys(es[0].usb);
        if Set1Code(es[0].usb).Some? { KeyIsSet1(es[0].usb, es[0].down); }
      }
      StreamIsSet1(es[1..]);
    }
  }

  /** For any interleaving of key events and reads that starts and ends with
      nothing queued, the guest has read the set 1 codes of the keys, event by
      event. */
  lemma ReadsAreSet1(p: Pair, es: seq<Event>)
    requires Typing(p) && p.kbd.out == [] && forall i :: 0 <= i < |es| ==> IsTyping(es[i])
    ensures Run(p, es).kbd.out == [] ==> BytesRead(p, es) == Set1Stream(es)
  {
    hide Step;
    hide Set1Stream;
    hide Set1Code;
    StreamIsPerKey(p, es);
    StreamIsSet1(es);
    SomethingTranslated(Run(p, es).kbd.out);
    SomethingTranslated([]);
    var read, left := BytesRead(p, es), Translated(Run(p, es).kbd.out);
    assert [] + Set1Stream(es) == Set1Stream(es) && (left == [] ==> read + left == read);
  }

  /** For every key with a code, the last bytes read for its going down and its
      coming up are numbers that differ by 128, the first below 128; an 0xE0 in
      front stays. */
  lemma UpIsDownWithHighBit(p: Pair, usb: nat)
    requires Typing(p) && p.kbd.out == [] && UsbToSet2(usb).Some?
    ensures var d, u := ReadsAfterKey(p, usb, true), ReadsAfterKey(p, usb, false);
      && 1 <= |d| == |u| <= 2
      && d[|d| - 1] as nat < 128 && u[|u| - 1] as nat == d[|d| - 1] as nat + 128
      && (|d| == 2 ==> d[0] == u[0] == 0xE0)
  {
    hide ReadsAfterKey;
    hide Set1Code;
    hide UsbToSet2;
    hide Matches;
    KeysReadAsSet1(p, usb, true);
    KeysReadAsSet1(p, usb, false);
    KnownKeys(usb);
    CodeIsSmall(usb);
    HighBitAdds(Set1Code(usb).value.code);
  }

  lemma CodeIsSmall(usb: nat)
    requires Set1Code(usb).Some?
    ensures Set1Code(usb).value.code < 0x80 && Set1Code(usb).value.code as nat < 128
  {
    hide Set2ToSet1;
    hide UsbToSet2;
    hide Set1Code;
    KnownKeys(usb);
  }
}
