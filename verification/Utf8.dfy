/** UTF-8 as RFC 3629 defines it and as Go's utf8.DecodeRune reads it. One char stands for one byte. */
module UTF8 {

  // ---------- Encoding ----------

  // Section 3: the code points that have an encoding; surrogates have none.
  predicate IsScalar(r: int) {
    0 <= r < 0xD800 || 0xE000 <= r < 0x11_0000
  }

  function Tail(n: int): (c: char)
    ensures 0x80 <= c as int < 0xC0
  {
    (0x80 + n % 64) as char
  }

  function Encode(r: int): (s: string)
    requires IsScalar(r)
    ensures 1 <= |s| <= 4
  {
    if r < 0x80 then [r as char]
    else if r < 0x800 then [(0xC0 + r / 64) as char, Tail(r)]
    else if r < 0x1_0000 then [(0xE0 + r / 4096) as char, Tail(r / 64), Tail(r)]
    else [(0xF0 + r / 262144) as char, Tail(r / 4096), Tail(r / 64), Tail(r)]
  }

  function EncodeAll(rs: seq<int>): string
    requires forall r <- rs :: IsScalar(r)
  {
    if rs == [] then "" else Encode(rs[0]) + EncodeAll(rs[1..])
  }

  // ---------- Decoding ----------

  predicate IsTail(c: char) {
    0x80 <= c as int < 0xC0
  }

  // How many bytes the rune at the front has: by its first byte, and by what the second may be after that.
  function RuneSize(s: string): (n: nat)
    requires s != ""
    ensures n <= 4 && n <= |s|
  {
    var b := s[0] as int;
    if b < 0x80 then 1
    else if b < 0xC2 || 0xF5 <= b || |s| < 2 || !IsTail(s[1]) then 0
    else if b < 0xE0 then 2
    else if |s| < 3 || !IsTail(s[2]) || (b == 0xE0 && s[1] as int < 0xA0) || (b == 0xED && s[1] as int >= 0xA0) then 0
    else if b < 0xF0 then 3
    else if |s| < 4 || !IsTail(s[3]) || (b == 0xF0 && s[1] as int < 0x90) || (b == 0xF4 && s[1] as int >= 0x90) then 0
    else 4
  }

  function Bits(c: char): int {
    c as int % 64
  }

  function DecodeRune(s: string): int
    requires s != "" && RuneSize(s) > 0
  {
    var n, b := RuneSize(s), s[0] as int;
    if n == 1 then b
    else if n == 2 then (b - 0xC0) * 64 + Bits(s[1])
    else if n == 3 then (b - 0xE0) * 4096 + Bits(s[1]) * 64 + Bits(s[2])
    else (b - 0xF0) * 262144 + Bits(s[1]) * 4096 + Bits(s[2]) * 64 + Bits(s[3])
  }

  // The arithmetic of two, three and four bytes.
  lemma SplitTwo(a: int, x: int)
    requires 0 <= x < 64
    ensures (a * 64 + x) / 64 == a && (a * 64 + x) % 64 == x
  {}

  lemma TailOf(c: char, n: int)
    requires IsTail(c) && n % 64 == Bits(c)
    ensures Tail(n) == c
  {}

  lemma DecodeTwo(s: string)
    requires s != "" && RuneSize(s) == 2
    ensures IsScalar(DecodeRune(s)) && s[..2] == Encode(DecodeRune(s))
  {
    var r := DecodeRune(s);
    SplitTwo(s[0] as int - 0xC0, Bits(s[1]));
    TailOf(s[1], r);
    assert 0x80 <= r < 0x800;
    assert (0xC0 + r / 64) as char == s[0];
  }

  lemma DecodeThree(s: string)
    requires s != "" && RuneSize(s) == 3
    ensures IsScalar(DecodeRune(s)) && s[..3] == Encode(DecodeRune(s))
  {
    var r, q := DecodeRune(s), (s[0] as int - 0xE0) * 64 + Bits(s[1]);
    SplitTwo(q, Bits(s[2]));
    SplitTwo(s[0] as int - 0xE0, Bits(s[1]));
    TailOf(s[2], r);
    TailOf(s[1], r / 64);
    assert r / 4096 == q / 64;
    assert 0x800 <= r < 0x1_0000 && IsScalar(r);
    assert (0xE0 + r / 4096) as char == s[0];
  }

  lemma DecodeFour(s: string)
    requires s != "" && RuneSize(s) == 4
    ensures IsScalar(DecodeRune(s)) && s[..4] == Encode(DecodeRune(s))
  {
    var r, p := DecodeRune(s), (s[0] as int - 0xF0) * 64 + Bits(s[1]);
    var q := p * 64 + Bits(s[2]);
    SplitTwo(q, Bits(s[3]));
    SplitTwo(p, Bits(s[2]));
    SplitTwo(s[0] as int - 0xF0, Bits(s[1]));
    TailOf(s[3], r);
    TailOf(s[2], r / 64);
    assert r / 4096 == p;
    TailOf(s[1], r / 4096);
    assert r / 262144 == p / 64;
    assert 0x1_0000 <= r < 0x11_0000;
    assert (0xF0 + r / 262144) as char == s[0];
  }

  /** What is decoded is the code point with that encoding. */
  lemma DecodeEncodes(s: string)
    requires s != "" && RuneSize(s) > 0
    ensures IsScalar(DecodeRune(s)) && s[..RuneSize(s)] == Encode(DecodeRune(s))
  {
    var n := RuneSize(s);
    if n == 1 {
      assert s[..1] == [s[0]];
    } else if n == 2 {
      DecodeTwo(s);
    } else if n == 3 {
      DecodeThree(s);
    } else {
      DecodeFour(s);
    }
  }

  lemma BitsOfTail(n: int)
    ensures Bits(Tail(n)) == n % 64
  {}

  lemma EncodeOne(r: int, rest: string)
    requires 0 <= r < 0x800
    ensures RuneSize(Encode(r) + rest) == |Encode(r)| && DecodeRune(Encode(r) + rest) == r
  {
    BitsOfTail(r);
  }

  lemma EncodeThree(r: int, rest: string)
    requires IsScalar(r) && 0x800 <= r < 0x1_0000
    ensures RuneSize(Encode(r) + rest) == 3 && DecodeRune(Encode(r) + rest) == r
  {
    var s := Encode(r) + rest;
    assert s[0] as int == 0xE0 + r / 4096 && s[1] == Tail(r / 64) && s[2] == Tail(r);
    BitsOfTail(r);
    BitsOfTail(r / 64);
    assert r == r / 64 * 64 + r % 64 && r / 64 == r / 4096 * 64 + r / 64 % 64;
  }

  lemma EncodeFour(r: int, rest: string)
    requires 0x1_0000 <= r < 0x11_0000
    ensures RuneSize(Encode(r) + rest) == 4 && DecodeRune(Encode(r) + rest) == r
  {
    var s := Encode(r) + rest;
    assert s[0] as int == 0xF0 + r / 262144;
    assert s[1] == Tail(r / 4096) && s[2] == Tail(r / 64) && s[3] == Tail(r);
    BitsOfTail(r);
    BitsOfTail(r / 64);
    BitsOfTail(r / 4096);
    assert r == r / 64 * 64 + r % 64 && r / 64 == r / 4096 * 64 + r / 64 % 64;
    assert r / 4096 == r / 262144 * 64 + r / 4096 % 64;
  }

  /** And an encoding is decoded, whatever follows it. */
  lemma EncodeDecodes(r: int, rest: string)
    requires IsScalar(r)
    ensures RuneSize(Encode(r) + rest) == |Encode(r)| && DecodeRune(Encode(r) + rest) == r
  {
    if r < 0x800 {
      EncodeOne(r, rest);
    } else if r < 0x1_0000 {
      EncodeThree(r, rest);
    } else {
      EncodeFour(r, rest);
    }
  }

  // ---------- Well-formed strings ----------

  predicate WellFormed(s: string) {
    s == "" || (RuneSize(s) > 0 && WellFormed(s[RuneSize(s)..]))
  }

  lemma {:induction false} EncodedWellFormed(rs: seq<int>)
    requires forall r <- rs :: IsScalar(r)
    ensures WellFormed(EncodeAll(rs))
  {
    if rs != [] {
      var rest := EncodeAll(rs[1..]);
      EncodeDecodes(rs[0], rest);
      assert (Encode(rs[0]) + rest)[|Encode(rs[0])|..] == rest;
      EncodedWellFormed(rs[1..]);
    }
  }

  lemma {:induction false} Runes(s: string) returns (rs: seq<int>)
    requires WellFormed(s)
    ensures (forall r <- rs :: IsScalar(r)) && EncodeAll(rs) == s
    decreases |s|
  {
    if s == "" {
      rs := [];
    } else {
      DecodeEncodes(s);
      var n := RuneSize(s);
      var rest := Runes(s[n..]);
      rs := [DecodeRune(s)] + rest;
      assert rs[1..] == rest && s == s[..n] + s[n..];
    }
  }

  /** The byte tables accept exactly the encodings of code points. */
  lemma WellFormedExact(s: string)
    ensures WellFormed(s) <==> exists rs: seq<int> :: (forall r <- rs :: IsScalar(r)) && EncodeAll(rs) == s
  {
    if WellFormed(s) {
      var rs := Runes(s);
    }
    forall rs: seq<int> | (forall r <- rs :: IsScalar(r)) && EncodeAll(rs) == s ensures WellFormed(s) {
      EncodedWellFormed(rs);
    }
  }

  /** One code point of each length, and the bytes that RFC 3629 gives for it. */
  lemma EncodingExamples()
    ensures Encode(0x41) == "A"
    ensures Encode(0xE9) == "\U{C3}\U{A9}"
    ensures Encode(0x20AC) == "\U{E2}\U{82}\U{AC}"
    ensures Encode(0x1F600) == "\U{F0}\U{9F}\U{98}\U{80}"
  {}
}
