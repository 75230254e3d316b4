/** Bytes, digests and the fixed-width and length-prefixed encodings every canonical
    digest of the ledger is assembled from (writeBE32, writeBE64, writeLenPrefixed). */
module ByteCodes {
  import opened Options

  type Byte = b: int | 0 <= b < 256
  type Bytes = seq<Byte>

  /** A SHA-256 output. */
  type Digest = d: Bytes | |d| == 32 witness Zeros(32)

  /** SHA-256 itself stays abstract: every theorem holds for every function into digests. */
  type HashFn = Bytes -> Digest

  const TWO_32: int := 0x1_0000_0000
  const TWO_64: int := 0x1_0000_0000_0000_0000

  type Int64 = x: int | -0x8000_0000_0000_0000 <= x < 0x8000_0000_0000_0000

  function Zeros(n: nat): (z: Bytes)
    ensures |z| == n
  {
    seq(n, _ => 0)
  }

  /** Two hashed strings that differ and share a hash, one from each side. */
  ghost predicate Collides(sha: HashFn, p: set<Bytes>, q: set<Bytes>) {
    exists x, y :: x in p && y in q && x != y && sha(x) == sha(y)
  }

  lemma CollidesWith(sha: HashFn, p: set<Bytes>, q: set<Bytes>, x: Bytes, y: Bytes)
    requires x in p && y in q && x != y && sha(x) == sha(y)
    ensures Collides(sha, p, q)
  {
  }

  lemma CollidesWiden(sha: HashFn, p: set<Bytes>, q: set<Bytes>, p': set<Bytes>, q': set<Bytes>)
    requires Collides(sha, p, q) && p <= p' && q <= q'
    ensures Collides(sha, p', q')
  {
    var x, y :| x in p && y in q && x != y && sha(x) == sha(y);
    CollidesWith(sha, p', q', x, y);
  }

  // ---------------------------------------------------------------- big endian

  function Pow256(w: nat): (p: nat)
    ensures p > 0
  {
    if w == 0 then 1 else 256 * Pow256(w - 1)
  }

  /** The low `w` bytes of `n`, most significant first. */
  function BigEndian(n: nat, w: nat): (b: Bytes)
    ensures |b| == w
  {
    if w == 0 then [] else BigEndian(n / 256, w - 1) + [n % 256]
  }

  function FromBigEndian(b: Bytes): (n: nat)
    ensures n < Pow256(|b|)
  {
    if b == [] then 0 else FromBigEndian(b[..|b| - 1]) * 256 + b[|b| - 1]
  }

  lemma {:induction false} LastByte(b: Bytes, x: Byte)
    ensures FromBigEndian(b + [x]) == FromBigEndian(b) * 256 + x
  {
    assert (b + [x])[..|b|] == b;
  }

  lemma HighPart(n: nat, p: nat)
    requires n < 256 * p
    ensures n / 256 < p && n / 256 * 256 + n % 256 == n
  {
  }

  lemma {:induction false} FromBigEndianInverts(n: nat, w: nat)
    requires n < Pow256(w)
    ensures FromBigEndian(BigEndian(n, w)) == n
  {
    if w > 0 {
      HighPart(n, Pow256(w - 1));
      FromBigEndianInverts(n / 256, w - 1);
      LastByte(BigEndian(n / 256, w - 1), n % 256);
    }
  }

  lemma OneMore(n: int, q: int, b: int)
    requires n > q && b > 0
    ensures n * b >= q * b + b
  {
    assert n * b == q * b + b + (n - q - 1) * b;
    assert (n - q - 1) * b >= 0;
  }

  /** Division with remainder has one answer. */
  lemma DivisionUnique(n: int, m: nat, c: int, r: nat)
    requires r < m && n == c * m + r
    ensures n / m == c && n % m == r
  {
    var q, s := n / m, n % m;
    assert q * m + s == n;
    if c > q {
      OneMore(c, q, m);
    } else if c < q {
      OneMore(q, c, m);
    }
  }

  lemma QuotientTwice(n: nat, p: nat)
    requires p > 0
    ensures n / 256 / p == n / (256 * p)
  {
    var a := n / 256;
    Regrouped(a / p, p, a % p, n % 256);
    DivisionUnique(n, 256 * p, a / p, 256 * (a % p) + n % 256);
  }

  lemma Regrouped(c: nat, p: nat, d: nat, b: nat)
    ensures 256 * (c * p + d) + b == c * (256 * p) + (256 * d + b)
  {
  }

  /** Byte i carries the weight 256^(w - 1 - i). */
  lemma {:induction false} BigEndianDigit(n: nat, w: nat, i: nat)
    requires i < w
    ensures BigEndian(n, w)[i] == n / Pow256(w - 1 - i) % 256
  {
    if i < w - 1 {
      BigEndianDigit(n / 256, w - 1, i);
      QuotientTwice(n, Pow256(w - 2 - i));
    }
  }

  lemma BigEndianInjective(m: nat, n: nat, w: nat)
    requires m < Pow256(w) && n < Pow256(w)
    requires BigEndian(m, w) == BigEndian(n, w)
    ensures m == n
  {
    FromBigEndianInverts(m, w);
    FromBigEndianInverts(n, w);
  }

  lemma Pow256Values()
    ensures Pow256(4) == TWO_32
    ensures Pow256(8) == TWO_64
    ensures Pow256(16) == TWO_64 * TWO_64
  {
    assert Pow256(2) == 0x1_0000;
    assert Pow256(4) == 0x1_0000_0000;
    assert Pow256(6) == 0x1_0000_0000_0000;
    assert Pow256(8) == TWO_64;
    assert Pow256(10) == 0x1_0000 * TWO_64;
    assert Pow256(12) == 0x1_0000_0000 * TWO_64;
    assert Pow256(14) == 0x1_0000_0000_0000 * TWO_64;
  }

  /** writeBE32 on a uint32 conversion: lengths of 2^32 and more wrap. */
  function BE32(n: nat): (b: Bytes)
    ensures |b| == 4
  {
    BigEndian(n % TWO_32, 4)
  }

  /** writeBE64 on the bit pattern of an int64. */
  function BE64(x: int): (b: Bytes)
    ensures |b| == 8
  {
    BigEndian(x % TWO_64, 8)
  }

  /** writeLenPrefixed. */
  function LP(s: Bytes): (b: Bytes)
    ensures |b| == 4 + |s|
  {
    BE32(|s|) + s
  }

  /** The strings writeLenPrefixed frames without its length wrapping. */
  ghost predicate Short(s: Bytes) {
    |s| < TWO_32
  }

  /** writeBE64 byte for byte. */
  lemma BE64Bytes(x: int)
    ensures var n := x % 0x1_0000_0000_0000_0000;
            BE64(x) == [n / 0x100_0000_0000_0000 % 256, n / 0x1_0000_0000_0000 % 256, n / 0x100_0000_0000 % 256,
                        n / 0x1_0000_0000 % 256, n / 0x100_0000 % 256, n / 0x1_0000 % 256, n / 0x100 % 256, n % 256]
  {
    Pow256Values();
    forall i | 0 <= i < 8 ensures BE64(x)[i] == x % TWO_64 / Pow256(7 - i) % 256 {
      BigEndianDigit(x % TWO_64, 8, i);
    }
  }

  /** writeLenPrefixed byte for byte. */
  lemma LPBytes(s: Bytes)
    ensures var n := |s| % 0x1_0000_0000;
            LP(s) == [n / 0x100_0000 % 256, n / 0x1_0000 % 256, n / 0x100 % 256, n % 256] + s
  {
    var n := |s| % TWO_32;
    forall i | 0 <= i < 4 ensures BE32(|s|)[i] == n / Pow256(3 - i) % 256 {
      BigEndianDigit(n, 4, i);
    }
  }

  // ---------------------------------------------------------------- peeling

  lemma PeelFixed(a: Bytes, b: Bytes, r: Bytes, s: Bytes)
    requires |a| == |b| && a + r == b + s
    ensures a == b && r == s
  {
    assert a == (a + r)[..|a|];
    assert b == (b + s)[..|b|];
    assert r == (a + r)[|a|..];
    assert s == (b + s)[|b|..];
  }

  lemma PeelBE64(a: Int64, b: Int64, r: Bytes, s: Bytes)
    requires BE64(a) + r == BE64(b) + s
    ensures a == b && r == s
  {
    PeelFixed(BE64(a), BE64(b), r, s);
    Pow256Values();
    BigEndianInjective(a % TWO_64, b % TWO_64, 8);
  }

  lemma BE32Injective(m: nat, n: nat)
    requires m < TWO_32 && n < TWO_32
    requires BE32(m) == BE32(n)
    ensures m == n
  {
    Pow256Values();
    BigEndianInjective(m % TWO_32, n % TWO_32, 4);
  }

  lemma PeelLP(a: Bytes, b: Bytes, r: Bytes, s: Bytes)
    requires Short(a) && Short(b)
    requires LP(a) + r == LP(b) + s
    ensures a == b && r == s
  {
    assert LP(a) + r == BE32(|a|) + (a + r);
    assert LP(b) + s == BE32(|b|) + (b + s);
    PeelFixed(BE32(|a|), BE32(|b|), a + r, b + s);
    BE32Injective(|a|, |b|);
    PeelFixed(a, b, r, s);
  }

  // ---------------------------------------------------------------- writing lists

  /** The encodings of a list's items, one after the other. */
  function Concat<T>(encode: T -> Result<Bytes>, items: seq<T>): Bytes {
    if |items| == 0 then []
    else (match encode(items[0]) case Ok(b) => b case Err => []) + Concat(encode, items[1..])
  }

  lemma {:induction false} ConcatAppend<T>(encode: T -> Result<Bytes>, items: seq<T>, x: T)
    requires encode(x).Ok?
    ensures Concat(encode, items + [x]) == Concat(encode, items) + encode(x).value
  {
    if |items| == 0 {
      assert items + [x] == [x];
    } else {
      assert (items + [x])[1..] == items[1..] + [x];
      ConcatAppend(encode, items[1..], x);
    }
  }

  /** The loop every list digest runs: append each item's encoding, stop at the first that has none. */
  method WriteAll<T>(encode: T -> Result<Bytes>, head: Bytes, items: seq<T>) returns (r: Result<Bytes>)
    ensures r.Ok? <==> forall i :: 0 <= i < |items| ==> encode(items[i]).Ok?
    ensures r.Ok? ==> r.value == head + Concat(encode, items)
  {
    var buf := head;
    for i := 0 to |items|
      invariant buf == head + Concat(encode, items[..i])
      invariant forall j :: 0 <= j < i ==> encode(items[j]).Ok?
    {
      match encode(items[i]) {
        case Err => return Err;
        case Ok(b) =>
          assert items[..i + 1] == items[..i] + [items[i]];
          ConcatAppend(encode, items[..i], items[i]);
          buf := buf + b;
      }
    }
    assert items[..|items|] == items;
    r := Ok(buf);
  }

  // ---------------------------------------------------------------- byte order

  /** Go's `<` on strings. */
  predicate LexLess(a: Bytes, b: Bytes) {
    if b == [] then false
    else if a == [] then true
    else if a[0] != b[0] then a[0] < b[0]
    else LexLess(a[1..], b[1..])
  }

  /** The strings agree up to some place, where the first one ends or has the smaller byte. */
  ghost predicate DiffersAt(a: Bytes, b: Bytes, k: nat) {
    k <= |a| && k < |b| && a[..k] == b[..k] && (k < |a| ==> a[k] < b[k])
  }

  lemma {:induction false} LexExact(a: Bytes, b: Bytes)
    ensures LexLess(a, b) <==> exists k: nat :: DiffersAt(a, b, k)
  {
    if a == [] || b == [] || a[0] != b[0] {
      if LexLess(a, b) { assert DiffersAt(a, b, 0); }
    } else {
      LexExact(a[1..], b[1..]);
      if LexLess(a, b) {
        var k: nat :| DiffersAt(a[1..], b[1..], k);
        assert a[..k + 1] == [a[0]] + a[1..][..k] && b[..k + 1] == [b[0]] + b[1..][..k];
        assert DiffersAt(a, b, k + 1);
      }
      if k: nat :| DiffersAt(a, b, k) {
        assert a[1..][..k - 1] == a[..k][1..] && b[1..][..k - 1] == b[..k][1..];
        assert DiffersAt(a[1..], b[1..], k - 1);
      }
    }
  }

  lemma {:induction false} LexTotal(a: Bytes, b: Bytes)
    ensures a == b || LexLess(a, b) || LexLess(b, a)
  {
    if a != [] && b != [] && a[0] == b[0] {
      LexTotal(a[1..], b[1..]);
      assert a == [a[0]] + a[1..] && b == [b[0]] + b[1..];
    }
  }

  lemma {:induction false} LexAsymmetric(a: Bytes, b: Bytes)
    requires LexLess(a, b)
    ensures !LexLess(b, a) && a != b
  {
    if a != [] && a[0] == b[0] {
      LexAsymmetric(a[1..], b[1..]);
    }
  }

  lemma {:induction false} LexTransitive(a: Bytes, b: Bytes, c: Bytes)
    requires LexLess(a, b) && LexLess(b, c)
    ensures LexLess(a, c)
  {
    if a != [] && a[0] == b[0] && b[0] == c[0] {
      LexTransitive(a[1..], b[1..], c[1..]);
    }
  }
}
