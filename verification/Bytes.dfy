/** Raw memory contents: bytes, C strings, zero padding and fixed-width integers. */
module Bytes {

  type byte = x: int | 0 <= x < 256

  /** A run of bytes as the C string functions read it: everything before the first NUL. */
  function CStr(s: seq<byte>): (r: seq<byte>)
    ensures |r| <= |s| && r == s[..|r|]
    ensures 0 !in r
    ensures |r| < |s| ==> s[|r|] == 0
  {
    if s == [] || s[0] == 0 then [] else [s[0]] + CStr(s[1..])
  }

  /** `s` is what stands in `block` from place `at` on, up to the first NUL or the end of `len` bytes. */
  predicate IsString(s: seq<byte>, block: seq<byte>, at: nat, len: nat)
    requires at + len <= |block|
  {
    && |s| <= len && 0 !in s
    && (forall k :: 0 <= k < |s| ==> s[k] == block[at + k])
    && (|s| < len ==> block[at + |s|] == 0)
  }

  lemma CStrIsString(block: seq<byte>, at: nat, len: nat)
    requires at + len <= |block|
    ensures IsString(CStr(block[at..at + len]), block, at, len)
  {
  }

  function Zeros(n: nat): (r: seq<byte>)
    ensures |r| == n
  {
    seq(n, _ => 0)
  }

  /** A NUL-free string is read back whatever follows its terminator. */
  lemma {:induction false} CStrReadsBack(s: seq<byte>, rest: seq<byte>)
    requires 0 !in s
    ensures CStr(s + rest) == s <==> (rest == [] || rest[0] == 0)
    ensures rest != [] && rest[0] != 0 ==> |CStr(s + rest)| > |s|
  {
    if s == [] {
      assert s + rest == rest;
    } else {
      assert (s + rest)[1..] == s[1..] + rest;
      CStrReadsBack(s[1..], rest);
      assert s == [s[0]] + s[1..];
    }
  }

  lemma TerminatedReadsBack(id: seq<byte>, rest: seq<byte>)
    requires 0 !in id
    ensures CStr(id + [0] + rest) == id
  {
    CStrReadsBack(id, [0] + rest);
    assert id + [0] + rest == id + ([0] + rest);
  }

  /** What a block of memory holds after `x` is copied over it from offset `at`. */
  function Splice(s: seq<byte>, at: nat, x: seq<byte>): (r: seq<byte>)
    requires at + |x| <= |s|
    ensures |r| == |s|
  {
    s[..at] + x + s[at + |x|..]
  }

  /** Overwriting one stretch of a block leaves what is before and behind it. */
  lemma SpliceMiddle(a: seq<byte>, b: seq<byte>, c: seq<byte>, x: seq<byte>)
    requires |x| == |b|
    ensures Splice(a + b + c, |a|, x) == a + x + c
  {
    var s := a + b + c;
    assert s[..|a|] == a;
    assert s[|a| + |x|..] == c;
  }

  lemma ZerosSplit(n: nat, m: nat)
    ensures Zeros(n + m) == Zeros(n) + Zeros(m)
  {
  }

  /** memcpy into an array. */
  method Memcpy(dst: array<byte>, at: nat, x: seq<byte>)
    requires at + |x| <= dst.Length
    modifies dst
    ensures dst[..] == Splice(old(dst[..]), at, x)
  {
    ghost var was := dst[..];
    for i := 0 to |x|
      invariant forall k :: 0 <= k < dst.Length ==>
        dst[k] == if at <= k < at + i then x[k - at] else was[k]
    {
      dst[at + i] := x[i];
    }
    assert dst[..] == Splice(was, at, x);
  }

  /** memset to zero of the first `n` bytes. */
  method Clear(dst: array<byte>, n: nat)
    requires n <= dst.Length
    modifies dst
    ensures dst[..] == Zeros(n) + old(dst[n..])
  {
    Memcpy(dst, 0, Zeros(n));
  }

  // ---- integers on the wire ----

  const U16 := 0x1_0000
  const U32 := 0x1_0000_0000

  /** Network (big-endian) order, as written by htons/htonl. */
  function Be16(n: nat): (r: seq<byte>)
    requires n < U16
    ensures |r| == 2
  {
    [n / 256, n % 256]
  }

  function FromBe16(b: seq<byte>): (n: nat)
    requires |b| == 2
    ensures n < U16
  {
    (b[0] as int) * 256 + b[1] as int
  }

  function Be32(n: nat): (r: seq<byte>)
    requires n < U32
    ensures |r| == 4
  {
    Be16(n / U16) + Be16(n % U16)
  }

  function FromBe32(b: seq<byte>): (n: nat)
    requires |b| == 4
    ensures n < U32
  {
    FromBe16(b[..2]) * U16 + FromBe16(b[2..])
  }

  lemma Be16RoundTrip(n: nat)
    requires n < U16
    ensures FromBe16(Be16(n)) == n
  {
  }

  lemma Be32RoundTrip(n: nat)
    requires n < U32
    ensures FromBe32(Be32(n)) == n
  {
    assert Be32(n)[..2] == Be16(n / U16);
    assert Be32(n)[2..] == Be16(n % U16);
    Be16RoundTrip(n / U16);
    Be16RoundTrip(n % U16);
  }

  function Le16(n: nat): (r: seq<byte>)
    requires n < U16
    ensures |r| == 2
  {
    [n % 256, n / 256]
  }

  function FromLe16(b: seq<byte>): (n: nat)
    requires |b| == 2
    ensures n < U16
  {
    b[0] as int + 256 * (b[1] as int)
  }

  /** A C `int` stored with memcpy on the little-endian machines both programs run on. */
  function HostInt(v: int): (r: seq<byte>)
    requires -0x8000_0000 <= v < 0x8000_0000
    ensures |r| == 4
  {
    var n := v % U32;
    Le16(n % U16) + Le16(n / U16)
  }

  function FromHostInt(b: seq<byte>): (v: int)
    requires |b| == 4
    ensures -0x8000_0000 <= v < 0x8000_0000
  {
    AsInt(FromLe16(b[..2]) + U16 * FromLe16(b[2..]))
  }

  /** The conversion from uint32_t to int. */
  function AsInt(n: nat): (v: int)
    requires n < U32
    ensures -0x8000_0000 <= v < 0x8000_0000
    ensures v % U32 == n
  {
    if n < 0x8000_0000 then n else n - U32
  }

  lemma HostIntRoundTrip(v: int)
    requires -0x8000_0000 <= v < 0x8000_0000
    ensures FromHostInt(HostInt(v)) == v
  {
    var n := v % U32;
    assert HostInt(v)[..2] == Le16(n % U16);
    assert HostInt(v)[2..] == Le16(n / U16);
    Le16RoundTrip(n % U16);
    Le16RoundTrip(n / U16);
  }

  /** Four digits to the base 256. */
  function Base256(a: int, b: int, c: int, d: int): int {
    16777216 * a + 65536 * b + 256 * c + d
  }

  lemma ShortOrder(b: seq<byte>)
    requires |b| == 2
    ensures FromBe16(b) == Base256(0, 0, b[0], b[1])
  {
  }

  /** On the wire the most significant byte comes first, */
  lemma NetworkOrder(b: seq<byte>, n: nat)
    requires |b| == 4 && n < U32
    ensures FromBe32(b) == Base256(b[0], b[1], b[2], b[3])
    ensures Base256(Be32(n)[0], Be32(n)[1], Be32(n)[2], Be32(n)[3]) == n
    ensures n < U16 ==> Base256(0, 0, Be16(n)[0], Be16(n)[1]) == n
  {
  }

  /** and in memory the least significant one. */
  lemma HostOrder(b: seq<byte>, v: int)
    requires |b| == 4 && -0x8000_0000 <= v < 0x8000_0000
    ensures FromHostInt(b) % 0x1_0000_0000 == Base256(b[3], b[2], b[1], b[0])
    ensures var h := HostInt(v); Base256(h[3], h[2], h[1], h[0]) == v % 0x1_0000_0000
  {
  }

  lemma Le16RoundTrip(n: nat)
    requires n < U16
    ensures FromLe16(Le16(n)) == n
  {
  }
}
