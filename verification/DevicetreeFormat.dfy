/** The constants of the devicetree format, as section 5 of the Devicetree Specification writes them. */
module DevicetreeFormat {
  import opened Common
  import opened Devicetree
  import opened DevicetreeParser

  /** The bytes of a string of ASCII characters. */
  function Ascii(s: string): (b: Bytes)
    requires forall i :: 0 <= i < |s| ==> s[i] as nat < 128
    ensures |b| == |s|
  {
    seq(|s|, i requires 0 <= i < |s| => s[i] as nat)
  }

  /** The two properties that the parser looks for. */
  lemma CellNames()
    ensures SIZE_CELLS == Ascii("#size-cells")
    ensures ADDRESS_CELLS == Ascii("#address-cells")
  {
  }

  /** Four bytes, the upper byte first, are a number to the base 256. */
  lemma WordMeans(b0: Byte, b1: Byte, b2: Byte, b3: Byte)
    ensures U32([b0, b1, b2, b3], 0) == Some(((b0 * 256 + b1) * 256 + b2) * 256 + b3)
  {
  }

  lemma Tokens()
    ensures U32([0, 0, 0, 1], 0) == Some(BEGIN_NODE) && U32([0, 0, 0, 2], 0) == Some(END_NODE)
    ensures U32([0, 0, 0, 3], 0) == Some(PROP) && U32([0, 0, 0, 4], 0) == Some(NOP)
    ensures MAGIC == [0xd0, 0x0d, 0xfe, 0xed]
  {
    WordMeans(0, 0, 0, 1);
    WordMeans(0, 0, 0, 2);
    WordMeans(0, 0, 0, 3);
    WordMeans(0, 0, 0, 4);
  }

  /** The padding up to the next multiple of 4: of a name with at least its NUL, and of a value. */
  lemma Padding(n: nat)
    ensures 1 <= NamePadding(n) <= 4 && (n + NamePadding(n)) % 4 == 0
    ensures 0 <= ValuePadding(n) < 4 && (n + ValuePadding(n)) % 4 == 0
  {
  }
}
