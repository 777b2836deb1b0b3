/** Bytes as text: read strictly, or with what is no text replaced. */
module Utf8 {
  import opened Wrappers

  newtype byte = i: int | 0 <= i < 256

  type Bytes = seq<byte>

  const REPLACEMENT: char := '\U{FFFD}'

  // ---- Reading ----------------------------------------------------------------------------

  /** What some bytes begin with: a character, or a front that no character goes on
      from; either way with its length. */
  datatype Start = Scalar(c: char, n: nat) | Stray(n: nat)

  predicate Trails(b: Bytes, i: nat) { i < |b| && 0x80 <= b[i] < 0xC0 }

  function Low(b: byte): (x: int)
    requires 0x80 <= b < 0xC0
    ensures 0 <= x < 64
  {
    b as int - 0x80
  }

  /** The second byte a lead of three or four may go on with. */
  predicate Follows(lead: byte, next: byte) {
    if lead == 0xE0 then 0xA0 <= next < 0xC0
    else if lead == 0xED then 0x80 <= next < 0xA0
    else if lead == 0xF0 then 0x90 <= next < 0xC0
    else if lead == 0xF4 then 0x80 <= next < 0x90
    else 0x80 <= next < 0xC0
  }

  function StartOf(b: Bytes): (f: Start)
    requires b != []
    ensures 0 < f.n <= |b|
  {
    if b[0] < 0x80 then Scalar(b[0] as char, 1)
    else if 0xC2 <= b[0] < 0xE0 then
      if Trails(b, 1) then Scalar(((b[0] as int - 0xC0) * 64 + Low(b[1])) as char, 2) else Stray(1)
    else if 0xE0 <= b[0] < 0xF0 then
      if !(|b| > 1 && Follows(b[0], b[1])) then Stray(1)
      else if !Trails(b, 2) then Stray(2)
      else Scalar(((b[0] as int - 0xE0) * 4096 + Low(b[1]) * 64 + Low(b[2])) as char, 3)
    else if 0xF0 <= b[0] < 0xF5 then
      if !(|b| > 1 && Follows(b[0], b[1])) then Stray(1)
      else if !Trails(b, 2) then Stray(2)
      else if !Trails(b, 3) then Stray(3)
      else
        Scalar(((b[0] as int - 0xF0) * 262144 + Low(b[1]) * 4096 + Low(b[2]) * 64 + Low(b[3])) as char, 4)
    else Stray(1)
  }

  /** `str::from_utf8`. */
  function Strict(b: Bytes): Option<string>
    decreases |b|
  {
    if b == [] then Some("")
    else
      match StartOf(b)
      case Stray(_) => None
      case Scalar(c, n) =>
        match Strict(b[n..])
        case None => None
        case Some(rest) => Some([c] + rest)
  }

  /** `String::from_utf8_lossy`. */
  function Lossy(b: Bytes): string
    decreases |b|
  {
    if b == [] then ""
    else
      match StartOf(b)
      case Stray(n) => [REPLACEMENT] + Lossy(b[n..])
      case Scalar(c, n) => [c] + Lossy(b[n..])
  }

  /** What is text is read as it is. */
  lemma {:induction false} TextIsKept(b: Bytes)
    ensures Strict(b).Some? ==> Strict(b).value == Lossy(b)
    decreases |b|
  {
    if b != [] && StartOf(b).Scalar? { TextIsKept(b[StartOf(b).n..]); }
  }

  // ---- Writing ----------------------------------------------------------------------------

  function Trail(x: int): (b: byte)
    requires 0 <= x < 64
    ensures 0x80 <= b < 0xC0 && Low(b) == x
  {
    (0x80 + x) as byte
  }

  function BytesOf(c: char): (b: Bytes)
    ensures 0 < |b| <= 4
  {
    var x := c as int;
    if x < 0x80 then [x as byte]
    else if x < 0x800 then [(0xC0 + x / 64) as byte, Trail(x % 64)]
    else if x < 0x10000 then [(0xE0 + x / 4096) as byte, Trail(x / 64 % 64), Trail(x % 64)]
    else [(0xF0 + x / 262144) as byte, Trail(x / 4096 % 64), Trail(x / 64 % 64), Trail(x % 64)]
  }

  function Encoded(s: string): Bytes {
    if s == "" then [] else BytesOf(s[0]) + Encoded(s[1..])
  }

  lemma OneIsRead(c: char, rest: Bytes)
    ensures StartOf(BytesOf(c) + rest) == Scalar(c, |BytesOf(c)|)
  {
    var x := c as int;
    if 0x800 <= x < 0x10000 {
      ThreeAreRead(c, rest);
    } else if 0x10000 <= x {
      FourAreRead(c, rest);
    }
  }

  /** The digits of a number to base 64. */
  lemma SixBits(x: int)
    requires 0 <= x
    ensures x == x / 64 * 64 + x % 64
    ensures x / 64 == x / 4096 * 64 + x / 64 % 64
    ensures x / 4096 == x / 262144 * 64 + x / 4096 % 64
  {
  }

  lemma ThreeAreRead(c: char, rest: Bytes)
    requires 0x800 <= c as int < 0x10000
    ensures StartOf(BytesOf(c) + rest) == Scalar(c, 3)
  {
    var b, x := BytesOf(c) + rest, c as int;
    SixBits(x);
    var lead, high, low := x / 4096, x / 64 % 64, x % 64;
    assert b[0] as int == 0xE0 + lead && b[1] == Trail(high) && b[2] == Trail(low);
    assert lead * 4096 + high * 64 + low == x;
    assert Follows(b[0], b[1]);
  }

  lemma FourAreRead(c: char, rest: Bytes)
    requires 0x10000 <= c as int
    ensures StartOf(BytesOf(c) + rest) == Scalar(c, 4)
  {
    var b, x := BytesOf(c) + rest, c as int;
    SixBits(x);
    var lead, top, high, low := x / 262144, x / 4096 % 64, x / 64 % 64, x % 64;
    assert b[0] as int == 0xF0 + lead && b[1] == Trail(top) && b[2] == Trail(high) && b[3] == Trail(low);
    assert lead * 262144 + top * 4096 + high * 64 + low == x;
    assert Follows(b[0], b[1]);
  }

  /** A byte that no character holds is replaced, and nothing it follows is text. */
  lemma {:induction false} StrayIsReplaced(s: string)
    ensures Strict(Encoded(s) + [0xFF]).None?
    ensures Lossy(Encoded(s) + [0xFF]) == s + [REPLACEMENT]
  {
    var b := Encoded(s) + [0xFF];
    if s == "" {
      assert b == [0xFF] && StartOf(b) == Stray(1) && b[1..] == [];
    } else {
      var n, rest := |BytesOf(s[0])|, Encoded(s[1..]) + [0xFF];
      StrayIsReplaced(s[1..]);
      OneIsRead(s[0], rest);
      assert b == BytesOf(s[0]) + rest && b[n..] == rest;
      assert s + [REPLACEMENT] == [s[0]] + (s[1..] + [REPLACEMENT]);
    }
  }

  /** Every text is read back from its bytes. */
  lemma {:induction false} WrittenIsRead(s: string)
    ensures Strict(Encoded(s)) == Some(s)
  {
    if s != "" {
      var rest := Encoded(s[1..]);
      WrittenIsRead(s[1..]);
      OneIsRead(s[0], rest);
      assert (BytesOf(s[0]) + rest)[|BytesOf(s[0])|..] == rest;
      assert s == [s[0]] + s[1..];
    }
  }
}
