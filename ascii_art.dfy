/** `ascii_art::scale`: brightness to a character of a 65-entry ramp. */
module AsciiArt {
  import opened Wire

  /** `ASCII_BRIGHTNESS`, darkest first, written in five pieces of 13 characters. */
  const AsciiBrightness: string :=
    "`^\",:;Il!i~+_" + "-?][}{1)(|\\/t" + "fjrxnuvczXYUJ" + "CLQ0OZmwqpdbk" + "hao*#MW&8%B@$"

  /** `L`: the last index of the ramp. */
  const Last: nat := |AsciiBrightness| - 1

  /** `(L * bright) / 255`: the position in the ramp a brightness maps to. */
  function Index(bright: u8): (k: nat)
    ensures k <= Last
    ensures bright == 0 ==> k == 0
    ensures bright == 255 ==> k == Last
  {
    assert |AsciiBrightness| == 65;
    (Last * bright as nat) / 255
  }

  /** `scale`: `chars().nth(index).unwrap()`, which never fails since the index is in range. */
  function Scale(bright: u8): (c: char)
    ensures c in AsciiBrightness
  {
    AsciiBrightness[Index(bright)]
  }

  /** The two ends of the ramp. */
  lemma ScaleEnds()
    ensures Scale(0) == '`'
    ensures Scale(255) == '$'
  {
  }

  /** Brighter pixels never map further down the ramp. */
  lemma IndexMonotone(a: u8, b: u8)
    requires a <= b
    ensures Index(a) <= Index(b)
  {
    assert |AsciiBrightness| == 65;
  }

  /** Every ramp entry is the image of some brightness. */
  lemma IndexOnto(k: nat)
    requires k <= Last
    ensures exists b: u8 :: Index(b) == k
  {
    assert |AsciiBrightness| == 65;
    var n := (255 * k + 63) / 64;
    assert 64 * n <= 255 * k + 63 < 64 * n + 64;
    var b := n as u8;
    assert 255 * k <= 64 * n < 255 * k + 255;
    assert (64 * n) / 255 == k;
    assert Index(b) == k;
  }
}
