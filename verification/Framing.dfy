// Little-endian integers, length-prefixed frames, and SHA-256 as a function
// that is trusted only on a finite set of preimages.

module Framing {
  import opened Strings

  const TWO64: nat := 0x1_0000_0000_0000_0000

  function Pow256(w: nat): (p: nat)
    ensures p > 0
  {
    if w == 0 then 1 else 256 * Pow256(w - 1)
  }

  /** binary.LittleEndian.PutUint{8*w}: the low `w` bytes of n, lowest first. */
  function Le(n: nat, w: nat): (r: seq<byte>)
    ensures |r| == w
  {
    seq(w, i requires i >= 0 => Digit(n, i))
  }

  /** The byte of n at place i. */
  function Digit(n: nat, i: nat): byte
  {
    if i == 0 then (n % 256) as char else Digit(n / 256, i - 1)
  }

  lemma LeLowFirst(n: nat, w: nat)
    requires w > 0
    ensures Le(n, w) == [(n % 256) as char] + Le(n / 256, w - 1)
  {
  }

  /** Byte i counts the 256^i's. */
  lemma {:induction false} DigitMeaning(n: nat, i: nat)
    ensures Digit(n, i) as int == n / Pow256(i) % 256
  {
    if i > 0 {
      DigitMeaning(n / 256, i - 1);
      DivDiv(n, Pow256(i - 1));
    }
  }

  lemma DivDiv(n: nat, m: nat)
    requires m > 0
    ensures 256 * m > 0 && n / 256 / m == n / (256 * m)
  {
    var q, r := n / 256, n % 256;
    var a, b := q / m, q % m;
    assert n == 256 * q + r && q == m * a + b;
    assert n == 256 * m * a + (256 * b + r) by {
      assert 256 * (m * a) == 256 * m * a;
    }
    assert 0 <= 256 * b + r < 256 * m;
    DivUnique(n, 256 * m, a, 256 * b + r);
  }

  lemma DivUnique(n: nat, d: nat, q: nat, r: nat)
    requires d > 0 && n == d * q + r && r < d
    ensures n / d == q
  {
    NextMultiple(d, n / d, q);
    NextMultiple(d, q, n / d);
  }

  lemma {:induction false} NextMultiple(d: nat, a: nat, b: nat)
    ensures a < b ==> d * a + d <= d * b
  {
    if a + 1 < b {
      NextMultiple(d, a, b - 1);
      assert d * b == d * (b - 1) + d;
    }
  }

  /** The length prefix of a frame is the length, lowest byte first, in eight bytes; then comes the part itself. */
  lemma FrameLayout(s: string, i: nat)
    requires i < 8
    ensures |Frame(s)| == 8 + |s| && Frame(s)[8..] == s && Frame(s)[i] as int == |s| / Pow256(i) % 256
  {
    DigitMeaning(|s|, i);
  }

  function FromLe(s: seq<byte>): (n: nat)
    ensures n < Pow256(|s|)
  {
    if s == [] then 0 else s[0] as int + 256 * FromLe(s[1..])
  }

  /** The bytes determine the number as long as it fits in them. */
  lemma {:induction false} LeRoundTrip(n: nat, w: nat)
    requires n < Pow256(w)
    ensures FromLe(Le(n, w)) == n
  {
    if w != 0 {
      LeRoundTrip(n / 256, w - 1);
      LeLowFirst(n, w);
      assert Le(n, w)[1..] == Le(n / 256, w - 1);
    }
  }

  lemma {:induction false} FromLeRoundTrip(s: seq<byte>)
    ensures Le(FromLe(s), |s|) == s
  {
    if s != [] {
      FromLeRoundTrip(s[1..]);
      DivMod256(s[0] as int, FromLe(s[1..]));
      LeLowFirst(FromLe(s), |s|);
      assert s == [s[0]] + s[1..];
    }
  }

  lemma DivMod256(low: nat, high: nat)
    requires low < 256
    ensures (low + 256 * high) % 256 == low && (low + 256 * high) / 256 == high
  {
  }

  lemma Pow256Of4()
    ensures Pow256(4) == 0x1_0000_0000
  {
    assert Pow256(2) == 65536;
  }

  lemma Pow256Of8()
    ensures Pow256(8) == TWO64
  {
    Pow256Of4();
    assert Pow256(6) == 65536 * Pow256(4);
  }

  // ---- frames ----

  /** One part, prefixed by its length as a uint64. */
  function Frame(s: string): string
  {
    Le(|s|, 8) + s
  }

  function Frames(parts: seq<string>): string
  {
    if parts == [] then "" else Frame(parts[0]) + Frames(parts[1..])
  }

  /** A frame is self-delimiting, whatever follows it. */
  lemma FramePrefix(a: string, x: string, b: string, y: string)
    requires Frame(a) + x == Frame(b) + y
    requires |Frame(a) + x| < TWO64
    ensures a == b && x == y
  {
    var l, r := Frame(a) + x, Frame(b) + y;
    assert l[..8] == Le(|a|, 8) && r[..8] == Le(|b|, 8);
    assert |a| == |b| by {
      Pow256Of8();
      LeRoundTrip(|a|, 8);
      LeRoundTrip(|b|, 8);
    }
    assert l[8..] == a + x && r[8..] == b + y;
    assert l[8..][..|a|] == a && r[8..][..|b|] == b;
    assert l[8..][|a|..] == x && r[8..][|b|..] == y;
  }

  lemma {:induction false} FramesInjective(a: seq<string>, b: seq<string>)
    requires Frames(a) == Frames(b) && |Frames(a)| < TWO64
    ensures a == b
  {
    if a != [] && b != [] {
      FramePrefix(a[0], Frames(a[1..]), b[0], Frames(b[1..]));
      FramesInjective(a[1..], b[1..]);
      assert a == [a[0]] + a[1..] && b == [b[0]] + b[1..];
    }
  }

  lemma {:induction false} FramesAppend(a: seq<string>, p: string)
    ensures Frames(a + [p]) == Frames(a) + Frame(p)
  {
    if a == [] {
      assert a + [p] == [p];
      assert Frames([p]) == Frame(p) + Frames([]);
    } else {
      assert (a + [p])[1..] == a[1..] + [p];
      FramesAppend(a[1..], p);
    }
  }

  // ---- hashing ----

  type Digest = d: string | |d| == 32 witness seq(32, i => 'a')

  function Zeros(n: nat): (r: string)
    ensures |r| == n
  {
    if n == 0 then "" else [0 as char] + Zeros(n - 1)
  }

  const ZERO_DIGEST: Digest := Zeros(32)

  type Sha = string -> Digest

  /**
   * SHA-256 is trusted on the finite set `u` of preimages that are actually
   * hashed: none of them is as long as 2^64 bytes, no two of them collide, and
   * none of them hits the all-zero digest the code uses for "absent".
   */
  ghost predicate CollisionFree(sha: Sha, u: set<string>)
  {
    && (forall x :: x in u ==> |x| < TWO64 && sha(x) != ZERO_DIGEST)
    && (forall x, y :: x in u && y in u && sha(x) == sha(y) ==> x == y)
  }

  lemma SameHash(sha: Sha, u: set<string>, x: string, y: string)
    requires CollisionFree(sha, u) && x in u && y in u && sha(x) == sha(y)
    ensures x == y && |x| < TWO64
  {
  }

  /** cache.NewActionID: feeds each part, length-prefixed, to one hasher. */
  method NewActionID(sha: Sha, parts: seq<string>) returns (id: Digest)
    ensures id == sha(Frames(parts))
  {
    var fed := "";
    for i := 0 to |parts|
      invariant fed == Frames(parts[..i])
    {
      fed := fed + Le(|parts[i]|, 8);
      fed := fed + parts[i];
      FramesAppend(parts[..i], parts[i]);
      assert parts[..i] + [parts[i]] == parts[..i + 1];
      assert Frames(parts[..i]) + Le(|parts[i]|, 8) + parts[i] == Frames(parts[..i]) + Frame(parts[i]);
    }
    assert parts[..|parts|] == parts;
    id := sha(fed);
  }
}
