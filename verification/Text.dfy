/** The bytes of text: every character takes one to four of them. */
module Text {

  function Utf8Length(c: char): nat {
    if c as int < 0x80 then 1 else if c as int < 0x800 then 2 else if c as int < 0x1_0000 then 3 else 4
  }
}
