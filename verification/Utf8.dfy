/** UTF-8 as RFC 3629 section 4 defines it: which byte strings are valid, and what they decode to. */
module Utf8 {
  type byte = b: int | 0 <= b < 256

  predicate IsTail(b: byte) {
    0x80 <= b < 0xC0
  }

  /** The length of the character that starts s, 0 when none does. */
  function CharLength(s: seq<byte>): (n: nat)
    ensures n <= 4 && n <= |s|
  {
    if s == [] then 0
    else if s[0] < 0x80 then 1
    else if |s| < 2 || !IsTail(s[1]) then 0
    else if 0xC2 <= s[0] < 0xE0 then 2
    else if |s| < 3 || !IsTail(s[2]) then 0
    else if 0xE0 <= s[0] < 0xF0 then
      if (s[0] == 0xE0 && s[1] < 0xA0) || (s[0] == 0xED && s[1] >= 0xA0) then 0 else 3
    else if |s| < 4 || !IsTail(s[3]) then 0
    else if 0xF0 <= s[0] < 0xF5 then
      if (s[0] == 0xF0 && s[1] < 0x90) || (s[0] == 0xF4 && s[1] >= 0x90) then 0 else 4
    else 0
  }

  /** std::str::from_utf8 succeeds. */
  predicate Valid(s: seq<byte>)
    decreases |s|
  {
    s == [] || (CharLength(s) > 0 && Valid(s[CharLength(s)..]))
  }

  predicate Ascii(s: seq<byte>) {
    forall i | 0 <= i < |s| :: s[i] < 0x80
  }

  function Code(s: seq<byte>): (r: int)
    requires CharLength(s) > 0
    ensures 0 <= r < 0xD800 || 0xE000 <= r < 0x11_0000
  {
    var n := CharLength(s);
    var a: int := s[0];
    var b: int := if n > 1 then s[1] - 0x80 else 0;
    var c: int := if n > 2 then s[2] - 0x80 else 0;
    var d: int := if n > 3 then s[3] - 0x80 else 0;
    if n == 1 then a
    else if n == 2 then (a - 0xC0) * 0x40 + b
    else if n == 3 then (a - 0xE0) * 0x1000 + b * 0x40 + c
    else (a - 0xF0) * 0x4_0000 + b * 0x1000 + c * 0x40 + d
  }

  function Decode(s: seq<byte>): string
    requires Valid(s)
    decreases |s|
  {
    if s == [] then "" else [Code(s) as char] + Decode(s[CharLength(s)..])
  }

  /** Where one character ends does not depend on what follows it. */
  lemma CharLengthLocal(a: seq<byte>, b: seq<byte>)
    requires CharLength(a) > 0
    ensures CharLength(a + b) == CharLength(a)
    ensures Code(a + b) == Code(a)
  {
  }

  /** A valid string ends at a character boundary: what follows is judged and decoded on its own. */
  lemma {:induction false} ValidConcat(a: seq<byte>, b: seq<byte>)
    requires Valid(a)
    ensures Valid(a + b) <==> Valid(b)
    ensures Valid(b) ==> Decode(a + b) == Decode(a) + Decode(b)
    decreases |a|
  {
    if a == [] {
      assert a + b == b;
    } else {
      var n := CharLength(a);
      CharLengthLocal(a, b);
      assert (a + b)[n..] == a[n..] + b;
      ValidConcat(a[n..], b);
    }
  }

  lemma {:induction false} AsciiValid(s: seq<byte>)
    requires Ascii(s)
    ensures Valid(s) && |Decode(s)| == |s|
    ensures forall i | 0 <= i < |s| :: Decode(s)[i] == s[i] as char
  {
    if s != [] { AsciiValid(s[1..]); }
  }

  /** Adding bytes after an ASCII byte cannot repair what is broken before it. */
  lemma {:induction false} InvalidStays(a: seq<byte>, b: seq<byte>)
    requires a != [] && a[|a| - 1] < 0x80 && !Valid(a)
    ensures !Valid(a + b)
    decreases |a|
  {
    var n := CharLength(a);
    if n == 0 {
      BrokenStays(a, b);
    } else {
      CharLengthLocal(a, b);
      assert (a + b)[n..] == a[n..] + b;
      InvalidStays(a[n..], b);
    }
  }

  lemma BrokenStays(a: seq<byte>, b: seq<byte>)
    requires a != [] && a[|a| - 1] < 0x80 && CharLength(a) == 0
    ensures CharLength(a + b) == 0
  {
  }

  /** A string that stops just after a byte that starts a longer character is not valid. */
  lemma StopsInsideCharacter(a: seq<byte>, lead: byte)
    requires Valid(a) && lead >= 0x80
    ensures !Valid(a + [lead])
  {
    ValidConcat(a, [lead]);
  }
}
