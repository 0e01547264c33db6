/** EBCDIC translation over an arbitrary code page whose control range is blank. */
module Ebcdic {
  import opened Bytes

  const BLANK: byte := 0x40

  /** A code page: one character per byte value, with nothing printable up to 0x40. */
  type Table = t: seq<char> | |t| == 256 && (forall i :: 0 <= i <= 0x40 ==> t[i] == ' ')
    witness seq(256, _ => ' ')

  function ToAscii(t: Table, b: byte): char
  {
    t[b]
  }

  /** The first entry of the table, from index `i` on, that holds `c`. */
  function FindFrom(t: Table, c: char, i: nat): byte
    requires i <= 256
    decreases 256 - i
  {
    if i == 256 then BLANK else if t[i] == c then i else FindFrom(t, c, i + 1)
  }

  function ToEbcdic(t: Table, c: char): byte
  {
    if c == ' ' then BLANK else FindFrom(t, c, 0)
  }

  /** What a character looks like after the trip through the code page. */
  function Displayed(t: Table, c: char): char
  {
    if c in t then c else ' '
  }

  lemma {:induction false} FindFromFinds(t: Table, c: char, i: nat)
    requires i <= 256
    ensures t[FindFrom(t, c, i)] == if c in t[i..] then c else ' '
    ensures c !in t[i..] ==> FindFrom(t, c, i) == BLANK
    decreases 256 - i
  {
    if i < 256 {
      assert t[i..] == [t[i]] + t[i + 1..];
      FindFromFinds(t, c, i + 1);
    }
  }

  /** Translating there and back shows the character itself if the code page has it and a
      blank otherwise; and the byte in between is never one of the order codes. */
  lemma ToEbcdicRoundTrip(t: Table, c: char)
    ensures ToAscii(t, ToEbcdic(t, c)) == Displayed(t, c)
    ensures ToEbcdic(t, c) >= BLANK
  {
    assert t[0x40] == ' ';
    FindFromFinds(t, c, 0);
    assert t[0..] == t;
  }

  lemma {:induction false} FindFromFirst(t: Table, c: char, i: nat, j: nat)
    requires i <= j < 256 && t[j] == c
    ensures FindFrom(t, c, i) <= j
    decreases j - i
  {
    if t[i] != c {
      FindFromFirst(t, c, i + 1, j);
    }
  }

  /** Of several codes for a character the smallest is used, and the blank is always 0x40. */
  lemma ToEbcdicIsFirst(t: Table, c: char, j: byte)
    requires t[j] == c
    ensures c != ' ' ==> ToEbcdic(t, c) <= j && t[ToEbcdic(t, c)] == c
    ensures c == ' ' ==> ToEbcdic(t, c) == 0x40
  {
    FindFromFirst(t, c, 0, j);
    ToEbcdicRoundTrip(t, c);
    assert c in t;
  }

  /** `IbmiEmulator::asciiToEbcdic`. */
  method AsciiToEbcdic(t: Table, ascii: char) returns (b: byte)
    ensures b == ToEbcdic(t, ascii)
  {
    if ascii == ' ' {
      return BLANK;
    }
    for i := 0 to 256
      invariant FindFrom(t, ascii, i) == ToEbcdic(t, ascii)
    {
      if t[i] == ascii {
        return i;
      }
    }
    return BLANK;
  }
}
