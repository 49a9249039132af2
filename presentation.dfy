/** `AppDelegate` of main.swift, reduced to what carries logic: the 32-bit
    hotkey signature folded from the bytes of "loaf", and the hotkey handler
    that toggles the window between its configured opacity and transparent. */
module Presentation {
  import opened Wrappers

  type Byte = b: int | 0 <= b < 0x100

  const UInt32Modulus: nat := 0x1_0000_0000
  type UInt32 = n: int | 0 <= n < 0x1_0000_0000

  /** UTF-8 of text that is all ASCII: one byte per character. */
  function AsciiBytes(s: string): (bytes: seq<Byte>)
    requires forall i :: 0 <= i < |s| ==> s[i] as int < 0x80
    ensures |bytes| == |s| && forall i :: 0 <= i < |s| ==> bytes[i] == s[i] as int
  {
    seq(|s|, i requires 0 <= i < |s| => s[i] as int)
  }

  /** Division by 2^32 has a unique remainder. */
  lemma ModUnique(x: int, q: int, r: int)
    requires 0 <= r < UInt32Modulus && x == q * UInt32Modulus + r
    ensures x % UInt32Modulus == r
  {
  }

  /** One step `($0 << 8) + UInt32($1)`: the shift of a `UInt32` discards the
      bits shifted out; the addition would trap on overflow (None), which the
      contract shows never happens. */
  function FoldStep(acc: UInt32, byte: Byte): (r: Option<int>)
    ensures r == Some((acc * 0x100 + byte) % UInt32Modulus)
  {
    // acc = high * 2^24 + low, so the shift keeps low * 2^8 and leaves room for a byte
    var high, low := acc / 0x100_0000, acc % 0x100_0000;
    ModUnique(acc * 0x100, high, low * 0x100);
    ModUnique(acc * 0x100 + byte, high, low * 0x100 + byte);
    var shifted := (acc * 0x100) % UInt32Modulus;
    if shifted + byte < UInt32Modulus then Some(shifted + byte) else None
  }

  /** `bytes.reduce(UInt32(0), FoldStep)`, a left fold; None when a step traps. */
  function PackSignature(bytes: seq<Byte>): (r: Option<int>)
    ensures r.Some? && 0 <= r.value < UInt32Modulus
  {
    if bytes == [] then Some(0)
    else
      match PackSignature(bytes[..|bytes| - 1])
      case None => None
      case Some(acc) => FoldStep(acc, bytes[|bytes| - 1])
  }

  /** Reference meaning: the bytes read as one big-endian number. */
  function BigEndian(bytes: seq<Byte>): nat {
    if bytes == [] then 0 else BigEndian(bytes[..|bytes| - 1]) * 0x100 + bytes[|bytes| - 1]
  }

  function Pow256(n: nat): (p: nat)
    ensures p > 0
  {
    if n == 0 then 1 else 0x100 * Pow256(n - 1)
  }

  /** `n` bytes read big-endian are below 256^n. */
  lemma {:induction false} BigEndianBound(bytes: seq<Byte>)
    ensures BigEndian(bytes) < Pow256(|bytes|)
  {
    if bytes != [] {
      var prefix := bytes[..|bytes| - 1];
      BigEndianBound(prefix);
      assert BigEndian(prefix) + 1 <= Pow256(|prefix|);
      assert (BigEndian(prefix) + 1) * 0x100 <= Pow256(|prefix|) * 0x100;
    }
  }

  /** The fold never traps, whatever the length, and yields the big-endian value
      modulo 2^32: the bits of earlier bytes shifted out are lost. */
  lemma {:induction false} PackSignatureIsBigEndian(bytes: seq<Byte>)
    ensures PackSignature(bytes) == Some(BigEndian(bytes) % UInt32Modulus)
  {
    if bytes != [] {
      var prefix, last := bytes[..|bytes| - 1], bytes[|bytes| - 1];
      PackSignatureIsBigEndian(prefix);
      var v := BigEndian(prefix);
      var acc := v % UInt32Modulus;
      // v = a * 2^32 + acc, so v * 256 + last = (a * 256) * 2^32 + (acc * 256 + last),
      // and both sides leave the same remainder
      var a := v / UInt32Modulus;
      var r := (acc * 0x100 + last) % UInt32Modulus;
      ModUnique(v * 0x100 + last, a * 0x100 + (acc * 0x100 + last) / UInt32Modulus, r);
    }
  }

  /** Up to four bytes fit in 32 bits: the fold is exactly the big-endian value. */
  lemma PackSignatureFits(bytes: seq<Byte>)
    requires |bytes| <= 4
    ensures PackSignature(bytes) == Some(BigEndian(bytes))
  {
    PackSignatureIsBigEndian(bytes);
    BigEndianBound(bytes);
    assert Pow256(1) == 0x100 && Pow256(2) == 0x1_0000;
    assert Pow256(3) == 0x100_0000 && Pow256(4) == UInt32Modulus;
    assert BigEndian(bytes) < UInt32Modulus;
    ModUnique(BigEndian(bytes), 0, BigEndian(bytes));
  }

  /** Folding "loaf" gives 'l' 'o' 'a' 'f' packed big-endian: 0x6C6F6166. */
  lemma LoafPacksBigEndian()
    ensures PackSignature(AsciiBytes("loaf")) ==
              Some(((('l' as int * 0x100 + 'o' as int) * 0x100 + 'a' as int) * 0x100) + 'f' as int)
    ensures PackSignature(AsciiBytes("loaf")) == Some(0x6C6F_6166)
  {
    var bytes := AsciiBytes("loaf");
    PackSignatureFits(bytes);
    assert 'l' as int == 0x6C && 'o' as int == 0x6F && 'a' as int == 0x61 && 'f' as int == 0x66;
    assert bytes == [0x6C, 0x6F, 0x61, 0x66];
    var b1, b2, b3 := bytes[..1], bytes[..2], bytes[..3];
    assert b1[..0] == [] && b2[..1] == b1 && b3[..2] == b2 && bytes[..3] == b3;
    assert BigEndian(b1) == 0x6C;
    assert BigEndian(b2) == 0x6C * 0x100 + 0x6F;
    assert BigEndian(b3) == (0x6C * 0x100 + 0x6F) * 0x100 + 0x61;
  }

  /** The hotkey's `EventHotKeyID.signature`. */
  function Signature(): (signature: UInt32)
    ensures signature == ((('l' as int * 0x100 + 'o' as int) * 0x100 + 'a' as int) * 0x100) + 'f' as int
    ensures signature == 0x6C6F_6166
  {
    LoafPacksBigEndian();
    PackSignature(AsciiBytes("loaf")).value
  }

  // ---------------------------------------------------------------------------
  // The opacity toggle

  /** The opacity after one hotkey press: back to the configured opacity unless
      the window already shows it, in which case fully transparent. */
  function Toggled(current: real, configured: real): (next: real)
    ensures next == configured || next == 0.0
    ensures configured != 0.0 ==> (next == configured <==> current != configured)
  {
    if current != configured then configured else 0.0
  }

  /** Two presses from Visible return exactly to the configured opacity. */
  lemma TwoPressesFromVisible(configured: real)
    ensures Toggled(Toggled(configured, configured), configured) == configured
  {
  }

  /** On the two states a press is its own inverse. */
  lemma ToggledIsInvolution(current: real, configured: real)
    requires current == configured || current == 0.0
    ensures Toggled(Toggled(current, configured), configured) == current
  {
  }

  /** The `NSWindow` fields the handler touches. */
  class Window {
    var alphaValue: real
    var ignoresMouseEvents: bool

    /** The lazy `window`: created showing the configured opacity; mouse events
        are delivered (AppKit's default). */
    constructor (alpha: real)
      ensures alphaValue == alpha && !ignoresMouseEvents
    {
      alphaValue := alpha;
      ignoresMouseEvents := false;
    }
  }

  class AppDelegate {
    /** `config.alpha`, the Visible opacity. */
    const alpha: real
    const window: Window

    /** The window shows one of the two toggle states, Visible or Hidden: a
        property the constructor and every press establish, not a precondition. */
    ghost predicate ShowsToggleState()
      reads this, window
    {
      window.alphaValue == alpha || window.alphaValue == 0.0
    }

    constructor (alpha: real)
      ensures this.alpha == alpha && fresh(window)
      ensures window.alphaValue == alpha && !window.ignoresMouseEvents
      ensures ShowsToggleState()
    {
      this.alpha := alpha;
      window := new Window(alpha);
    }

    /** `handleHotkey`: stop taking mouse events and toggle the opacity; nothing
        else of the window or the delegate changes. */
    method HandleHotkey()
      modifies window
      ensures window.ignoresMouseEvents
      ensures window.alphaValue == Toggled(old(window.alphaValue), alpha)
      ensures ShowsToggleState()
    {
      window.ignoresMouseEvents := true;
      window.alphaValue := if window.alphaValue != alpha then alpha else 0.0;
    }
  }
}
