/** The key code tables of the PS/2 keyboard and controller (iodev_pc.py). */
module ScanCodes {
  import opened Common

  type u8 = bv8

  const BREAK_PREFIX: u8 := 0xF0
  const EXTENDED_PREFIX: u8 := 0xE0

  /** What a key sends when it goes down and when it comes up. */
  datatype KeyCodes = KeyCodes(down: seq<u8>, up: seq<u8>)

  /** Letters. */
  function Letter(usb: nat): Option<KeyCodes> {
    match usb
    case 0x04 => Some(KeyCodes([0x1C], [0xF0, 0x1C]))
    case 0x05 => Some(KeyCodes([0x32], [0xF0, 0x32]))
    case 0x06 => Some(KeyCodes([0x21], [0xF0, 0x21]))
    case 0x07 => Some(KeyCodes([0x23], [0xF0, 0x23]))
    case 0x08 => Some(KeyCodes([0x24], [0xF0, 0x24]))
    case 0x09 => Some(KeyCodes([0x2B], [0xF0, 0x2B]))
    case 0x0A => Some(KeyCodes([0x34], [0xF0, 0x34]))
    case 0x0B => Some(KeyCodes([0x33], [0xF0, 0x33]))
    case 0x0C => Some(KeyCodes([0x43], [0xF0, 0x43]))
    case 0x0D => Some(KeyCodes([0x3B], [0xF0, 0x3B]))
    case 0x0E => Some(KeyCodes([0x42], [0xF0, 0x42]))
    case 0x0F => Some(KeyCodes([0x4B], [0xF0, 0x4B]))
    case 0x10 => Some(KeyCodes([0x3A], [0xF0, 0x3A]))
    case 0x11 => Some(KeyCodes([0x31], [0xF0, 0x31]))
    case 0x12 => Some(KeyCodes([0x44], [0xF0, 0x44]))
    case 0x13 => Some(KeyCodes([0x4D], [0xF0, 0x4D]))
    case 0x14 => Some(KeyCodes([0x15], [0xF0, 0x15]))
    case 0x15 => Some(KeyCodes([0x2D], [0xF0, 0x2D]))
    case 0x16 => Some(KeyCodes([0x1B], [0xF0, 0x1B]))
    case 0x17 => Some(KeyCodes([0x2C], [0xF0, 0x2C]))
    case 0x18 => Some(KeyCodes([0x3C], [0xF0, 0x3C]))
    case 0x19 => Some(KeyCodes([0x2A], [0xF0, 0x2A]))
    case 0x1A => Some(KeyCodes([0x1D], [0xF0, 0x1D]))
    case 0x1B => Some(KeyCodes([0x22], [0xF0, 0x22]))
    case 0x1C => Some(KeyCodes([0x35], [0xF0, 0x35]))
    case 0x1D => Some(KeyCodes([0x1A], [0xF0, 0x1A]))
    case _ => None
  }

  /** Digits, Return, Esc, Backspace, Tab and Space. */
  function DigitOrControl(usb: nat): Option<KeyCodes> {
    match usb
    case 0x1E => Some(KeyCodes([0x16], [0xF0, 0x16]))
    case 0x1F => Some(KeyCodes([0x1E], [0xF0, 0x1E]))
    case 0x20 => Some(KeyCodes([0x26], [0xF0, 0x26]))
    case 0x21 => Some(KeyCodes([0x25], [0xF0, 0x25]))
    case 0x22 => Some(KeyCodes([0x2E], [0xF0, 0x2E]))
    case 0x23 => Some(KeyCodes([0x36], [0xF0, 0x36]))
    case 0x24 => Some(KeyCodes([0x3D], [0xF0, 0x3D]))
    case 0x25 => Some(KeyCodes([0x3E], [0xF0, 0x3E]))
    case 0x26 => Some(KeyCodes([0x46], [0xF0, 0x46]))
    case 0x27 => Some(KeyCodes([0x45], [0xF0, 0x45]))
    case 0x28 => Some(KeyCodes([0x5A], [0xF0, 0x5A]))
    case 0x29 => Some(KeyCodes([0x76], [0xF0, 0x76]))
    case 0x2A => Some(KeyCodes([0x66], [0xF0, 0x66]))
    case 0x2B => Some(KeyCodes([0x0D], [0xF0, 0x0D]))
    case 0x2C => Some(KeyCodes([0x29], [0xF0, 0x29]))
    case _ => None
  }

  /** Punctuation, Caps Lock and function keys. */
  function PunctuationOrFunction(usb: nat): Option<KeyCodes> {
    match usb
    case 0x2D => Some(KeyCodes([0x4E], [0xF0, 0x4E]))
    case 0x2E => Some(KeyCodes([0x55], [0xF0, 0x55]))
    case 0x2F => Some(KeyCodes([0x54], [0xF0, 0x54]))
    case 0x30 => Some(KeyCodes([0x5B], [0xF0, 0x5B]))
    case 0x31 => Some(KeyCodes([0x5D], [0xF0, 0x5D]))
    case 0x32 => Some(KeyCodes([0x5D], [0xF0, 0x5D]))
    case 0x33 => Some(KeyCodes([0x4C], [0xF0, 0x4C]))
    case 0x34 => Some(KeyCodes([0x52], [0xF0, 0x52]))
    case 0x35 => Some(KeyCodes([0x0E], [0xF0, 0x0E]))
    case 0x36 => Some(KeyCodes([0x41], [0xF0, 0x41]))
    case 0x37 => Some(KeyCodes([0x49], [0xF0, 0x49]))
    case 0x38 => Some(KeyCodes([0x4A], [0xF0, 0x4A]))
    case 0x39 => Some(KeyCodes([0x58], [0xF0, 0x58]))
    case 0x3A => Some(KeyCodes([0x05], [0xF0, 0x05]))
    case 0x3B => Some(KeyCodes([0x06], [0xF0, 0x06]))
    case 0x3C => Some(KeyCodes([0x04], [0xF0, 0x04]))
    case 0x3D => Some(KeyCodes([0x0C], [0xF0, 0x0C]))
    case 0x3E => Some(KeyCodes([0x03], [0xF0, 0x03]))
    case 0x3F => Some(KeyCodes([0x0B], [0xF0, 0x0B]))
    case 0x40 => Some(KeyCodes([0x83], [0xF0, 0x83]))
    case 0x41 => Some(KeyCodes([0x0A], [0xF0, 0x0A]))
    case 0x42 => Some(KeyCodes([0x01], [0xF0, 0x01]))
    case 0x43 => Some(KeyCodes([0x09], [0xF0, 0x09]))
    case 0x44 => Some(KeyCodes([0x78], [0xF0, 0x78]))
    case 0x45 => Some(KeyCodes([0x07], [0xF0, 0x07]))
    case _ => None
  }

  /** Arrows and modifiers. */
  function ArrowOrModifier(usb: nat): Option<KeyCodes> {
    match usb
    case 0x4F => Some(KeyCodes([0xE0, 0x74], [0xE0, 0xF0, 0x74]))
    case 0x50 => Some(KeyCodes([0xE0, 0x6B], [0xE0, 0xF0, 0x6B]))
    case 0x51 => Some(KeyCodes([0xE0, 0x72], [0xE0, 0xF0, 0x72]))
    case 0x52 => Some(KeyCodes([0xE0, 0x75], [0xE0, 0xF0, 0x75]))
    case 0xE0 => Some(KeyCodes([0x14], [0xF0, 0x14]))
    case 0xE1 => Some(KeyCodes([0x12], [0xF0, 0x12]))
    case 0xE2 => Some(KeyCodes([0x11], [0xF0, 0x11]))
    case 0xE3 => Some(KeyCodes([0xE0, 0x1F], [0xE0, 0xF0, 0x1F]))
    case 0xE4 => Some(KeyCodes([0xE0, 0x14], [0xE0, 0xF0, 0x14]))
    case 0xE5 => Some(KeyCodes([0x59], [0xF0, 0x59]))
    case 0xE6 => Some(KeyCodes([0xE0, 0x11], [0xE0, 0xF0, 0x11]))
    case 0xE7 => Some(KeyCodes([0xE0, 0x27], [0xE0, 0xF0, 0x27]))
    case _ => None
  }

  /** USB key code to scancode set 2. */
  function UsbToSet2(usb: nat): Option<KeyCodes> {
    if usb <= 0x1D then Letter(usb)
    else if usb <= 0x2C then DigitOrControl(usb)
    else if usb <= 0x45 then PunctuationOrFunction(usb)
    else ArrowOrModifier(usb)
  }

  /** Set 2 to set 1, one row of the table for each high nibble; the entry for
      0xF0 stands for the missing one and is never used. */
  function TableRow(high: nat): (row: seq<u8>)
    requires high < 16
    ensures |row| == 16
  {
    match high
    case 0 => [0xFF, 0x43, 0x41, 0x3F, 0x3D, 0x3B, 0x3C, 0x58, 0x64, 0x44, 0x42, 0x40, 0x3E, 0x0F, 0x29, 0x59]
    case 1 => [0x65, 0x38, 0x2A, 0x70, 0x1D, 0x10, 0x02, 0x5A, 0x66, 0x71, 0x2C, 0x1F, 0x1E, 0x11, 0x03, 0x5B]
    case 2 => [0x67, 0x2E, 0x2D, 0x20, 0x12, 0x05, 0x04, 0x5C, 0x68, 0x39, 0x2F, 0x21, 0x14, 0x13, 0x06, 0x5D]
    case 3 => [0x69, 0x31, 0x30, 0x23, 0x22, 0x15, 0x07, 0x5E, 0x6A, 0x72, 0x32, 0x24, 0x16, 0x08, 0x09, 0x5F]
    case 4 => [0x6B, 0x33, 0x25, 0x17, 0x18, 0x0B, 0x0A, 0x60, 0x6C, 0x34, 0x35, 0x26, 0x27, 0x19, 0x0C, 0x61]
    case 5 => [0x6D, 0x73, 0x28, 0x74, 0x1A, 0x0D, 0x62, 0x6E, 0x3A, 0x36, 0x1C, 0x1B, 0x75, 0x2B, 0x63, 0x76]
    case 6 => [0x55, 0x56, 0x77, 0x78, 0x79, 0x7A, 0x0E, 0x7B, 0x7C, 0x4F, 0x7D, 0x4B, 0x47, 0x7E, 0x7F, 0x6F]
    case 7 => [0x52, 0x53, 0x50, 0x4C, 0x4D, 0x48, 0x01, 0x45, 0x57, 0x4E, 0x51, 0x4A, 0x37, 0x49, 0x46, 0x54]
    case 8 => [0x80, 0x81, 0x82, 0x41, 0x54, 0x85, 0x86, 0x87, 0x88, 0x89, 0x8A, 0x8B, 0x8C, 0x8D, 0x8E, 0x8F]
    case 9 => [0x90, 0x91, 0x92, 0x93, 0x94, 0x95, 0x96, 0x97, 0x98, 0x99, 0x9A, 0x9B, 0x9C, 0x9D, 0x9E, 0x9F]
    case 10 => [0xA0, 0xA1, 0xA2, 0xA3, 0xA4, 0xA5, 0xA6, 0xA7, 0xA8, 0xA9, 0xAA, 0xAB, 0xAC, 0xAD, 0xAE, 0xAF]
    case 11 => [0xB0, 0xB1, 0xB2, 0xB3, 0xB4, 0xB5, 0xB6, 0xB7, 0xB8, 0xB9, 0xBA, 0xBB, 0xBC, 0xBD, 0xBE, 0xBF]
    case 12 => [0xC0, 0xC1, 0xC2, 0xC3, 0xC4, 0xC5, 0xC6, 0xC7, 0xC8, 0xC9, 0xCA, 0xCB, 0xCC, 0xCD, 0xCE, 0xCF]
    case 13 => [0xD0, 0xD1, 0xD2, 0xD3, 0xD4, 0xD5, 0xD6, 0xD7, 0xD8, 0xD9, 0xDA, 0xDB, 0xDC, 0xDD, 0xDE, 0xDF]
    case 14 => [0xE0, 0xE1, 0xE2, 0xE3, 0xE4, 0xE5, 0xE6, 0xE7, 0xE8, 0xE9, 0xEA, 0xEB, 0xEC, 0xEE, 0xEE, 0xEF]
    case _ => [0x00, 0xF1, 0xF2, 0xF3, 0xF4, 0xF5, 0xF6, 0xF7, 0xF8, 0xF9, 0xFA, 0xFB, 0xFC, 0xFF, 0xFE, 0xFF]
  }

  function Set2ToSet1(v: u8): u8 {
    TableRow(v as nat / 16)[v as nat % 16]
  }

  predicate WellFormedKey(k: KeyCodes) {
    && 1 <= |k.down| <= 2
    && k.down[|k.down| - 1] != BREAK_PREFIX
    && (|k.down| == 2 ==> k.down[0] == EXTENDED_PREFIX)
    && k.up == k.down[..|k.down| - 1] + [BREAK_PREFIX, k.down[|k.down| - 1]]
  }

  lemma LetterCodes(usb: nat)
    ensures Letter(usb).Some? ==> WellFormedKey(Letter(usb).value)
  {
  }

  lemma DigitOrControlCodes(usb: nat)
    ensures DigitOrControl(usb).Some? ==> WellFormedKey(DigitOrControl(usb).value)
  {
  }

  lemma PunctuationOrFunctionCodes(usb: nat)
    ensures PunctuationOrFunction(usb).Some? ==> WellFormedKey(PunctuationOrFunction(usb).value)
  {
  }

  lemma ArrowOrModifierCodes(usb: nat)
    ensures ArrowOrModifier(usb).Some? ==> WellFormedKey(ArrowOrModifier(usb).value)
  {
  }

  /** Every key: the code for coming up is the code for going down with 0xF0
      before its last byte, and only 0xE0 stands before that byte. */
  lemma UpIsDownWithPrefix(usb: nat)
    ensures UsbToSet2(usb).Some? ==> WellFormedKey(UsbToSet2(usb).value)
  {
    hide WellFormedKey;
    LetterCodes(usb);
    DigitOrControlCodes(usb);
    PunctuationOrFunctionCodes(usb);
    ArrowOrModifierCodes(usb);
  }
}
