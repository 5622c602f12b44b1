// Go strings and byte slices as sequences of bytes, with the few library
// searches and trims the modelled files call.
module ByteStrings {
  newtype byte = x: int | 0 <= x < 256
  type Bytes = seq<byte>

  // m occurs in s at position i.
  predicate At<T(==)>(s: seq<T>, m: seq<T>, i: int) {
    0 <= i <= |s| - |m| && s[i..i + |m|] == m
  }

  predicate Contains<T(==)>(s: seq<T>, m: seq<T>) {
    IndexOf(s, m) >= 0
  }

  // strings.Index
  function IndexOf<T(==)>(s: seq<T>, m: seq<T>): (r: int)
    ensures -1 <= r && (r >= 0 ==> At(s, m, r))
    ensures forall j :: At(s, m, j) ==> 0 <= r <= j
  {
    IndexFrom(s, m, 0)
  }

  function IndexFrom<T(==)>(s: seq<T>, m: seq<T>, from: nat): (r: int)
    ensures -1 <= r && (r >= 0 ==> from <= r && At(s, m, r))
    ensures forall j :: from <= j && At(s, m, j) ==> 0 <= r <= j
    decreases |s| - from
  {
    if |s| < from + |m| then -1
    else if At(s, m, from) then from
    else if |s| == from then -1
    else IndexFrom(s, m, from + 1)
  }

  // bytes.LastIndex
  function LastIndexOf<T(==)>(s: seq<T>, m: seq<T>): (r: int)
    ensures -1 <= r && (r >= 0 ==> At(s, m, r))
    ensures forall j :: At(s, m, j) ==> j <= r
  {
    LastIndexBelow(s, m, |s|)
  }

  function LastIndexBelow<T(==)>(s: seq<T>, m: seq<T>, upto: nat): (r: int)
    ensures -1 <= r <= upto && (r >= 0 ==> At(s, m, r))
    ensures forall j :: j <= upto && At(s, m, j) ==> j <= r
  {
    if At(s, m, upto) then upto
    else if upto == 0 then -1
    else LastIndexBelow(s, m, upto - 1)
  }

  // All chunks of a stream, in order.
  function Concat(chunks: seq<Bytes>): Bytes {
    if chunks == [] then [] else Concat(chunks[..|chunks| - 1]) + chunks[|chunks| - 1]
  }

  function TakeLast<T>(s: seq<T>, n: nat): seq<T> {
    if |s| <= n then s else s[|s| - n..]
  }

  // Keeping the last n elements as one goes keeps the last n of everything.
  lemma TakeLastAppend<T>(s: seq<T>, t: seq<T>, n: nat)
    ensures TakeLast(TakeLast(s, n) + t, n) == TakeLast(s + t, n)
  {
  }

  // The length of the UTF-8 encoded white space that s begins with, if any
  // (unicode.IsSpace).
  function SpaceAtFront(s: Bytes): (n: nat)
    ensures n <= |s|
  {
    if |s| >= 1 && IsSpace1(s[0]) then 1
    else if |s| >= 2 && IsSpace2(s[0], s[1]) then 2
    else if |s| >= 3 && IsSpace3(s[0], s[1], s[2]) then 3
    else 0
  }

  function SpaceAtBack(s: Bytes): (n: nat)
    ensures n <= |s|
  {
    if |s| >= 1 && IsSpace1(s[|s| - 1]) then 1
    else if |s| >= 2 && IsSpace2(s[|s| - 2], s[|s| - 1]) then 2
    else if |s| >= 3 && IsSpace3(s[|s| - 3], s[|s| - 2], s[|s| - 1]) then 3
    else 0
  }

  predicate IsSpace1(a: byte) {
    9 <= a <= 13 || a == 32
  }

  predicate IsSpace2(a: byte, b: byte) {
    a == 0xC2 && (b == 0x85 || b == 0xA0)
  }

  predicate IsSpace3(a: byte, b: byte, c: byte) {
    || (a == 0xE1 && b == 0x9A && c == 0x80)
    || (a == 0xE2 && b == 0x80 && (0x80 <= c <= 0x8A || c == 0xA8 || c == 0xA9 || c == 0xAF))
    || (a == 0xE2 && b == 0x81 && c == 0x9F)
    || (a == 0xE3 && b == 0x80 && c == 0x80)
  }

  function TrimLeft(s: Bytes): (r: Bytes)
    ensures |r| <= |s| && SpaceAtFront(r) == 0
    ensures SpaceAtFront(s) == 0 ==> r == s
    decreases |s|
  {
    if SpaceAtFront(s) == 0 then s else TrimLeft(s[SpaceAtFront(s)..])
  }

  function TrimRight(s: Bytes): (r: Bytes)
    ensures |r| <= |s| && r <= s && SpaceAtBack(r) == 0
    decreases |s|
  {
    if SpaceAtBack(s) == 0 then s else TrimRight(s[..|s| - SpaceAtBack(s)])
  }

  // strings.TrimSpace
  function TrimSpace(s: Bytes): (r: Bytes)
    ensures |r| <= |s|
  {
    TrimRight(TrimLeft(s))
  }

  const LF: byte := 10
  const CR: byte := 13

  predicate HasNewline(s: Bytes) {
    LF in s || CR in s
  }
}
