/** Device numbers: two 32-bit words laid out in one of 64 bits. */
module DevNumber {

  type Dev = bv64

  function Truncate(x: bv64): bv32 {
    (x & 0xFFFF_FFFF) as bv32
  }

  function Major(dev: Dev): bv32 {
    Truncate((dev >> 8) & 0xFFF) | (Truncate(dev >> 32) & 0xFFFF_F000)
  }

  function Minor(dev: Dev): bv32 {
    Truncate(dev & 0xFF) | (Truncate(dev >> 12) & 0xFFFF_FF00)
  }

  function MakeDev(major: bv32, minor: bv32): Dev {
    ((minor & 0xFF) | ((major & 0xFFF) << 8)) as bv64 |
    (((minor & 0xFFFF_FF00) as bv64) << 12) |
    (((major & 0xFFFF_F000) as bv64) << 32)
  }

  lemma PartsOfMade(major: bv32, minor: bv32)
    ensures Major(MakeDev(major, minor)) == major
    ensures Minor(MakeDev(major, minor)) == minor
  {
  }

  lemma MadeOfParts(dev: Dev)
    ensures MakeDev(Major(dev), Minor(dev)) == dev
  {
  }

  /** Every device number is made from exactly one pair. */
  lemma MakeDevIsBijective(dev: Dev, major: bv32, minor: bv32)
    ensures MakeDev(major, minor) == dev <==> major == Major(dev) && minor == Minor(dev)
  {
    if MakeDev(major, minor) == dev {
      PartsOfMade(major, minor);
    } else {
      MadeOfParts(dev);
    }
  }

  /** Where the digits of both words go. */
  lemma Layout()
    ensures MakeDev(0x12345678, 0x9ABCDEF0) == 0x123459ABCDE678F0
    ensures MakeDev(0xFFFF_FFFF, 0) == 0xFFFFF000000FFF00 && MakeDev(0, 0xFFFF_FFFF) == 0x00000FFFFFF000FF
  {
  }

  /** Each part is laid out on its own, so that the words with a single bit fix the layout. */
  lemma PartsAreSeparate(major: bv32, minor: bv32)
    ensures MakeDev(major, minor) == MakeDev(major, 0) | MakeDev(0, minor)
  {
  }

  /** Device numbers that fit the traditional sixteen bits keep their value. */
  lemma Traditional(major: bv32, minor: bv32)
    requires major < 0x100 && minor < 0x100
    ensures MakeDev(major, minor) == ((major as bv64) << 8) | (minor as bv64)
  {
  }
}
