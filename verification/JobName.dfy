// Eight bits as a number.
module Bits {
  lemma BitsOfByte(x: int)
    requires 0 <= x < 0x100
    ensures (x as bv8) as int == x
  {
  }
}

// Bytes and their exclusive or.
module Bytes {
  import opened Bits

  type Byte = b: nat | b < 0x100

  function XorBytes(x: Byte, y: Byte): Byte {
    ((x as bv8) ^ (y as bv8)) as nat
  }

  lemma ByteOfBits(x: bv8)
    ensures (x as nat) as bv8 == x
  {
  }

  lemma BitsCancel(x: bv8, y: bv8, z: bv8)
    ensures x ^ y == x ^ z ==> y == z
    ensures y ^ x == z ^ x ==> y == z
  {
  }

  lemma XorBytesInjective(w: Byte, x: Byte, y: Byte, z: Byte)
    requires XorBytes(w, y) == XorBytes(x, z)
    ensures (w == x) <==> (y == z)
  {
    ByteOfBits((w as bv8) ^ (y as bv8));
    ByteOfBits((x as bv8) ^ (z as bv8));
    BitsOfByte(w);
    BitsOfByte(x);
    BitsOfByte(y);
    BitsOfByte(z);
    BitsCancel(w as bv8, y as bv8, z as bv8);
    BitsCancel(y as bv8, w as bv8, x as bv8);
  }
}

// Names of collection Jobs: a sanitized, length-bounded prefix and the FNV-1a hash of the repository.
module JobName {

  import opened Bytes

  type Uint32 = n: nat | n < 0x1_0000_0000

  // ----- Exclusive or of a word and a byte -----

  // A byte only reaches the low byte.
  function Xor(h: Uint32, b: Byte): Uint32 {
    Word(h / 0x100, XorBytes(h % 0x100, b))
  }

  function Word(high: nat, low: Byte): Uint32
    requires high < 0x100_0000
  {
    0x100 * high + low
  }

  lemma XorInjective(g: Uint32, h: Uint32, b: Byte, c: Byte)
    requires Xor(g, b) == Xor(h, c)
    ensures (g == h) <==> (b == c)
  {
    hide XorBytes;
    assert g / 0x100 == h / 0x100 && XorBytes(g % 0x100, b) == XorBytes(h % 0x100, c);
    XorBytesInjective(g % 0x100, h % 0x100, b, c);
  }

  // ----- FNV-1a, 32 bits -----

  const FNV_OFFSET: Uint32 := 2166136261
  const FNV_PRIME: nat := 16777619

  // Xor the byte in, then multiply modulo 2^32.
  function FnvStep(h: Uint32, b: Byte): Uint32 {
    Xor(h, b) * FNV_PRIME % 0x1_0000_0000
  }

  function FnvFrom(h: Uint32, bytes: seq<Byte>): Uint32
    decreases |bytes|
  {
    if bytes == [] then h else FnvFrom(FnvStep(h, bytes[0]), bytes[1..])
  }

  function Fnv1a(bytes: seq<Byte>): Uint32 {
    FnvFrom(FNV_OFFSET, bytes)
  }

  // Multiplication by the prime is invertible modulo 2^32: its product with 899433627 is one more
  // than a multiple of 2^32.
  lemma NoMultipleInRange(d: int, q: int)
    requires -0x1_0000_0000 < d < 0x1_0000_0000
    requires d * 16777619 == q * 0x1_0000_0000
    ensures d == 0
  {
    var t := q * 899433627 - 3513497 * d;
    assert d == 0x1_0000_0000 * t;
  }

  lemma MultiplyInjective(x: Uint32, y: Uint32)
    requires x * FNV_PRIME % 0x1_0000_0000 == y * FNV_PRIME % 0x1_0000_0000
    ensures x == y
  {
    var p, q := x * 16777619, y * 16777619;
    DivisionSplits(p);
    DivisionSplits(q);
    NoMultipleInRange(x - y, p / 0x1_0000_0000 - q / 0x1_0000_0000);
  }

  lemma DivisionSplits(n: nat)
    ensures n == n / 0x1_0000_0000 * 0x1_0000_0000 + n % 0x1_0000_0000
  {
  }

  // One step loses nothing: neither the state (for a known byte) nor the byte (for a known state).
  lemma FnvStepInjective(g: Uint32, h: Uint32, b: Byte, c: Byte)
    requires FnvStep(g, b) == FnvStep(h, c)
    ensures (g == h) <==> (b == c)
  {
    hide Xor;
    MultiplyInjective(Xor(g, b), Xor(h, c));
    XorInjective(g, h, b, c);
  }

  // Different states stay different whatever bytes follow.
  lemma {:induction false} FnvTailInjective(g: Uint32, h: Uint32, bytes: seq<Byte>)
    requires FnvFrom(g, bytes) == FnvFrom(h, bytes)
    ensures g == h
    decreases |bytes|
  {
    hide FnvStep;
    if bytes != [] {
      FnvTailInjective(FnvStep(g, bytes[0]), FnvStep(h, bytes[0]), bytes[1..]);
      FnvStepInjective(g, h, bytes[0], bytes[0]);
    }
  }

  ghost predicate DifferInOneByte(a: seq<Byte>, b: seq<Byte>) {
    |a| == |b| && exists i :: 0 <= i < |a| && a[i] != b[i] && a[..i] == b[..i] && a[i + 1..] == b[i + 1..]
  }

  lemma {:induction false} OneByteChangesHash(h: Uint32, a: seq<Byte>, b: seq<Byte>, i: nat)
    requires |a| == |b| && i < |a|
    requires a[i] != b[i] && a[..i] == b[..i] && a[i + 1..] == b[i + 1..]
    ensures FnvFrom(h, a) != FnvFrom(h, b)
    decreases |a|
  {
    hide FnvStep;
    if i == 0 {
      if FnvFrom(h, a) == FnvFrom(h, b) {
        FnvTailInjective(FnvStep(h, a[0]), FnvStep(h, b[0]), a[1..]);
        FnvStepInjective(h, h, a[0], b[0]);
      }
    } else {
      assert a[0] == a[..i][0] && b[0] == b[..i][0];
      assert a[1..][..i - 1] == a[..i][1..] && b[1..][..i - 1] == b[..i][1..];
      assert a[1..][i..] == a[i + 1..] && b[1..][i..] == b[i + 1..];
      OneByteChangesHash(FnvStep(h, a[0]), a[1..], b[1..], i - 1);
    }
  }

  // ----- %08x -----

  function HexChar(d: nat): (c: char)
    requires d < 16
    ensures IsAlphanumeric(c)
  {
    if d < 10 then '0' + d as char else 'a' + (d - 10) as char
  }

  // The lowest k hexadecimal digits of n, padded with zeros.
  function Hex(n: nat, k: nat): (s: string)
    ensures |s| == k && forall i :: 0 <= i < k ==> IsAlphanumeric(s[i])
  {
    if k == 0 then "" else Hex(n / 16, k - 1) + [HexChar(n % 16)]
  }

  function Hex8(h: Uint32): (s: string)
    ensures |s| == 8 && forall i :: 0 <= i < 8 ==> IsAlphanumeric(s[i])
  {
    Hex(h, 8)
  }

  function Power16(k: nat): nat { if k == 0 then 1 else 16 * Power16(k - 1) }

  lemma {:induction false} HexInjective(m: nat, n: nat, k: nat)
    requires m < Power16(k) && n < Power16(k) && Hex(m, k) == Hex(n, k)
    ensures m == n
  {
    if k > 0 {
      assert Hex(m, k)[k - 1] == Hex(n, k)[k - 1];
      assert Hex(m, k)[..k - 1] == Hex(m / 16, k - 1) && Hex(n, k)[..k - 1] == Hex(n / 16, k - 1);
      HexInjective(m / 16, n / 16, k - 1);
    }
  }

  lemma Hex8Injective(g: Uint32, h: Uint32)
    requires Hex8(g) == Hex8(h)
    ensures g == h
  {
    assert Power16(8) == 0x1_0000_0000;
    HexInjective(g, h, 8);
  }

  // ----- sanitizeName -----

  predicate IsLowerLetter(c: char) { 'a' <= c <= 'z' }

  predicate IsAlphanumeric(c: char) { 'a' <= c <= 'z' || '0' <= c <= '9' }

  function CleanChar(c: char): (r: char)
    ensures IsAlphanumeric(r) || r == '-'
  {
    if IsAlphanumeric(c) || c == '-' then c else '-'
  }

  // lower stands for the Unicode lower-case mapping of one character; nothing is assumed of it.
  function Cleaned(s: string, lower: char -> char): (r: string)
    ensures |r| == |s| && forall i :: 0 <= i < |r| ==> IsAlphanumeric(r[i]) || r[i] == '-'
  {
    if s == [] then [] else Cleaned(s[..|s| - 1], lower) + [CleanChar(lower(s[|s| - 1]))]
  }

  function TrimLeft(s: string): (r: string)
    ensures r != [] ==> r[0] != '-'
    ensures |r| <= |s| && r == s[|s| - |r|..]
  {
    if s != [] && s[0] == '-' then TrimLeft(s[1..]) else s
  }

  function TrimRight(s: string): (r: string)
    ensures r != [] ==> r[|r| - 1] != '-'
    ensures |r| <= |s| && r == s[..|r|]
  {
    if s != [] && s[|s| - 1] == '-' then TrimRight(s[..|s| - 1]) else s
  }

  function Sanitized(s: string, lower: char -> char): (r: string)
    ensures r != [] && IsAlphanumeric(r[0]) && IsAlphanumeric(r[|r| - 1])
    ensures forall i :: 0 <= i < |r| ==> IsAlphanumeric(r[i]) || r[i] == '-'
  {
    var out := TrimRight(TrimLeft(Cleaned(s, lower)));
    if out == "" then "repo" else out
  }

  method SanitizeName(s: string, lower: char -> char) returns (out: string)
    ensures out == Sanitized(s, lower)
  {
    var b := "";
    for i := 0 to |s|
      invariant b == Cleaned(s[..i], lower)
    {
      var r := lower(s[i]);
      assert s[..i + 1][..i] == s[..i];
      if IsLowerLetter(r) || '0' <= r <= '9' || r == '-' {
        b := b + [r];
      } else {
        b := b + ['-'];
      }
    }
    assert s[..|s|] == s;
    out := TrimRight(TrimLeft(b));
    if out == "" {
      out := "repo";
    }
  }

  // ----- jobName -----

  // The UTF-8 bytes of a string, which is what the hash reads.
  function Utf8(s: string): seq<Byte> {
    if s == [] then [] else Utf8Char(s[0] as int) + Utf8(s[1..])
  }

  function Utf8Char(c: nat): seq<Byte>
    requires c < 0x11_0000
  {
    if c < 0x80 then [c]
    else if c < 0x800 then [0xC0 + c / 0x40, 0x80 + c % 0x40]
    else if c < 0x1_0000 then
      [0xE0 + c / 0x1000, 0x80 + c / 0x40 % 0x40, 0x80 + c % 0x40]
    else
      [0xF0 + c / 0x4_0000, 0x80 + c / 0x1000 % 0x40,
       0x80 + c / 0x40 % 0x40, 0x80 + c % 0x40]
  }

  // Room for '-' and eight digits within the 63 characters of a label.
  const MAX_BASE := 63 - 9

  function Base(cr: string, repo: string, lower: char -> char): string {
    var base := Sanitized(cr + "-" + repo, lower);
    if |base| > MAX_BASE then base[..MAX_BASE] else base
  }

  function NameOf(cr: string, repo: string, lower: char -> char): string {
    Base(cr, repo, lower) + "-" + Hex8(Fnv1a(Utf8(repo)))
  }

  // fnv.New32a and one Write.
  method WriteHash(bytes: seq<Byte>) returns (h: Uint32)
    ensures h == Fnv1a(bytes)
  {
    hide FnvStep;
    h := FNV_OFFSET;
    for i := 0 to |bytes|
      invariant FnvFrom(h, bytes[i..]) == Fnv1a(bytes)
    {
      assert bytes[i..][1..] == bytes[i + 1..];
      h := FnvStep(h, bytes[i]);
    }
  }

  method ComputeJobName(cr: string, repo: string, lower: char -> char) returns (name: string)
    ensures name == NameOf(cr, repo, lower)
  {
    hide Utf8, Hex8, Sanitized;
    var h := WriteHash(Utf8(repo));
    var suffix := Hex8(h);
    var base := SanitizeName(cr + "-" + repo, lower);
    if |base| > MAX_BASE {
      base := base[..MAX_BASE];
    }
    name := base + "-" + suffix;
  }

  // A label in the sense of section 2.1 of RFC 1123.
  ghost predicate IsDnsLabel(s: string) {
    && 1 <= |s| <= 63
    && (forall i :: 0 <= i < |s| ==> IsAlphanumeric(s[i]) || s[i] == '-')
    && IsAlphanumeric(s[0]) && IsAlphanumeric(s[|s| - 1])
  }

  // Every name is a valid label, also when the cut lands on a hyphen or nothing is left to sanitize.
  lemma JobNameIsDnsLabel(cr: string, repo: string, lower: char -> char)
    ensures IsDnsLabel(NameOf(cr, repo, lower))
  {
    var base, suffix := Sanitized(cr + "-" + repo, lower), Hex8(Fnv1a(Utf8(repo)));
    hide Hex8, Fnv1a, Utf8, Sanitized, IsAlphanumeric;
    var cut := Base(cr, repo, lower);
    assert cut == base[..|cut|] && 0 < |cut| <= 54;
    hide Base;
    var name := NameOf(cr, repo, lower);
    assert name == cut + "-" + suffix;
    forall i | 0 <= i < |name| ensures IsAlphanumeric(name[i]) || name[i] == '-' {
      assert i > |cut| ==> name[i] == suffix[i - |cut| - 1];
    }
  }

  // Two names agree exactly when both the cut prefixes and the hashes agree.
  lemma JobNamesCollideIff(cr: string, r: string, cr': string, r': string, lower: char -> char)
    ensures NameOf(cr, r, lower) == NameOf(cr', r', lower) <==>
            Base(cr, r, lower) == Base(cr', r', lower) && Fnv1a(Utf8(r)) == Fnv1a(Utf8(r'))
  {
    hide Base, Fnv1a, Utf8, Hex8;
    var a, b := NameOf(cr, r, lower), NameOf(cr', r', lower);
    if a == b {
      var n := |a| - 8;
      assert a[n..] == Hex8(Fnv1a(Utf8(r))) && b[n..] == Hex8(Fnv1a(Utf8(r')));
      assert a[..n - 1] == Base(cr, r, lower) && b[..n - 1] == Base(cr', r', lower);
      Hex8Injective(Fnv1a(Utf8(r)), Fnv1a(Utf8(r')));
    }
  }

  lemma {:induction false} CleanedConcat(a: string, b: string, lower: char -> char)
    ensures Cleaned(a + b, lower) == Cleaned(a, lower) + Cleaned(b, lower)
  {
    if b == [] {
      assert a + b == a;
    } else {
      var n := |b| - 1;
      CleanedConcat(a, b[..n], lower);
      assert (a + b)[..|a + b| - 1] == a + b[..n];
    }
  }

  lemma {:induction false} TrimRightConcat(a: string, x: string)
    ensures TrimRight(a + x) == if TrimRight(x) == "" then TrimRight(a) else a + TrimRight(x)
  {
    if x == "" {
      assert a + x == a;
    } else {
      var n := |x| - 1;
      assert (a + x)[..|a + x| - 1] == a + x[..n];
      if x[n] == '-' { TrimRightConcat(a, x[..n]); }
    }
  }

  function Cut(s: string, n: nat): string { if |s| > n then s[..n] else s }

  // The part of a Job name that stems from the repository's name, before it is cut.
  function RepoPart(repo: string, lower: char -> char): string { TrimRight(Cleaned(repo, lower)) }

  // A resource's name that cleaning leaves with a letter or digit at both ends, as every Kubernetes name.
  predicate ProperName(cr: string, lower: char -> char) {
    var c := Cleaned(cr, lower);
    c != "" && IsAlphanumeric(c[0]) && IsAlphanumeric(c[|c| - 1])
  }

  function Dashed(part: string): string { if part == "" then "" else "-" + part }

  lemma CleanedOf(cr: string, repo: string, lower: char -> char)
    requires lower('-') == '-'
    ensures Cleaned(cr + "-" + repo, lower) == Cleaned(cr, lower) + "-" + Cleaned(repo, lower)
  {
    CleanedConcat(cr + "-", repo, lower);
    CleanedConcat(cr, "-", lower);
    assert Cleaned("-", lower) == "-" by { assert "-"[..0] == "" && Cleaned("", lower) == ""; }
  }

  lemma TrimmedOf(c: string, x: string)
    requires c != "" && c[0] != '-' && c[|c| - 1] != '-'
    ensures TrimRight(TrimLeft(c + "-" + x)) == c + Dashed(TrimRight(x))
  {
    var all := c + "-" + x;
    assert all[0] == c[0] && TrimLeft(all) == all;
    TrimRightConcat(c + "-", x);
    assert TrimRight(c + "-") == c by {
      assert (c + "-")[|c|] == '-' && (c + "-")[..|c|] == c && TrimRight(c) == c;
    }
    if TrimRight(x) != "" { assert c + "-" + TrimRight(x) == c + ("-" + TrimRight(x)); }
  }

  lemma BaseOf(cr: string, repo: string, lower: char -> char)
    requires lower('-') == '-' && ProperName(cr, lower)
    ensures Base(cr, repo, lower) == Cut(Cleaned(cr, lower) + Dashed(RepoPart(repo, lower)), MAX_BASE)
  {
    hide TrimLeft, TrimRight, Cleaned, Dashed;
    CleanedOf(cr, repo, lower);
    TrimmedOf(Cleaned(cr, lower), Cleaned(repo, lower));
  }

  lemma CutPrefix(c: string, u: string, v: string, n: nat)
    requires |c| <= n
    ensures Cut(c + u, n) == Cut(c + v, n) <==> Cut(u, n - |c|) == Cut(v, n - |c|)
  {
    assert Cut(c + u, n) == c + Cut(u, n - |c|) && Cut(c + v, n) == c + Cut(v, n - |c|);
    assert (c + Cut(u, n - |c|))[|c|..] == Cut(u, n - |c|);
    assert (c + Cut(v, n - |c|))[|c|..] == Cut(v, n - |c|);
  }

  lemma CutDashed(p: string, q: string, n: nat)
    requires n >= 1
    ensures Cut(Dashed(p), n) == Cut(Dashed(q), n) <==> (p == "" <==> q == "") && Cut(p, n - 1) == Cut(q, n - 1)
  {
    if p != "" && q != "" {
      CutPrefix("-", p, q, n);
    } else {
      assert p != "" ==> Cut(Dashed(p), n) != "";
      assert q != "" ==> Cut(Dashed(q), n) != "";
    }
  }

  lemma LongPrefix(c: string, u: string, n: nat)
    requires |c| >= n
    ensures Cut(c + u, n) == c[..n]
  {
  }

  // The cleaned texts of two repositories agree as far as the name of the resource leaves room.
  predicate SameParts(cr: string, p: string, q: string) {
    || |cr| >= MAX_BASE
    || ((p == "" <==> q == "") && Cut(p, MAX_BASE - 1 - |cr|) == Cut(q, MAX_BASE - 1 - |cr|))
  }

  // Two repositories of one resource share a Job name if and only if their names have the same hash and,
  // as far as the name of the resource leaves room, the same cleaned text.
  lemma RepositoriesCollideIff(cr: string, r: string, r': string, lower: char -> char)
    requires lower('-') == '-' && ProperName(cr, lower)
    ensures NameOf(cr, r, lower) == NameOf(cr, r', lower) <==>
            && Fnv1a(Utf8(r)) == Fnv1a(Utf8(r'))
            && SameParts(cr, RepoPart(r, lower), RepoPart(r', lower))
  {
    hide Base, NameOf, Fnv1a, Utf8, RepoPart, Cleaned, Dashed, Cut;
    var c, p, q := Cleaned(cr, lower), RepoPart(r, lower), RepoPart(r', lower);
    BaseOf(cr, r, lower);
    BaseOf(cr, r', lower);
    JobNamesCollideIff(cr, r, cr, r', lower);
    if |c| < MAX_BASE {
      CutPrefix(c, Dashed(p), Dashed(q), MAX_BASE);
      CutDashed(p, q, MAX_BASE - |c|);
    } else {
      LongPrefix(c, Dashed(p), MAX_BASE);
      LongPrefix(c, Dashed(q), MAX_BASE);
    }
  }

  // Repositories whose names differ in exactly one byte never share a Job name.
  lemma OneByteApartNeverCollide(cr: string, r: string, cr': string, r': string, lower: char -> char)
    requires DifferInOneByte(Utf8(r), Utf8(r'))
    ensures NameOf(cr, r, lower) != NameOf(cr', r', lower)
  {
    hide Utf8, FnvStep, Base, NameOf;
    var a, b := Utf8(r), Utf8(r');
    var i :| 0 <= i < |a| && a[i] != b[i] && a[..i] == b[..i] && a[i + 1..] == b[i + 1..];
    OneByteChangesHash(FNV_OFFSET, a, b, i);
    JobNamesCollideIff(cr, r, cr', r', lower);
  }

  // The hash does not make names unique per repository: here are two repositories, 'a' and 'b' with
  // eleven hyphens, dots and underscores between them, that share a Job name under every CR.
  const COLLIDING := "a_..---_--..b"
  const COLLIDING' := "a...._.___.-b"

  lemma {:induction false} FnvConcat(h: Uint32, a: seq<Byte>, b: seq<Byte>)
    ensures FnvFrom(h, a + b) == FnvFrom(FnvFrom(h, a), b)
    decreases |a|
  {
    hide FnvStep;
    if a == [] {
      assert a + b == b;
    } else {
      assert (a + b)[1..] == a[1..] + b;
      FnvConcat(FnvStep(h, a[0]), a[1..], b);
    }
  }

  // One step on a word 256 * high + low, spelled out: x is the low byte after the exclusive or, and
  // the product is q * 2^32 + r.
  lemma StepIs(high: nat, low: Byte, b: Byte, x: Byte, q: nat, r: Uint32)
    requires 0x100 * high + low < 0x1_0000_0000 && XorBytes(low, b) == x
    requires (0x100 * high + x) * 16777619 == q * 0x1_0000_0000 + r
    ensures FnvStep(0x100 * high + low, b) == r
  {
    hide XorBytes;
    assert (0x100 * high + low) / 0x100 == high && (0x100 * high + low) % 0x100 == low;
    assert Xor(0x100 * high + low, b) == 0x100 * high + x;
    hide Xor;
    RemainderIs((0x100 * high + x) * 16777619, q, r);
  }

  lemma RemainderIs(n: nat, q: nat, r: Uint32)
    requires n == q * 0x1_0000_0000 + r
    ensures n % 0x1_0000_0000 == r
  {
  }

  lemma HashOfFirst1()
    ensures FnvFrom(2166136261, [97, 95, 46, 46]) == 3257384209
  {
    hide FnvStep;
    StepIs(8461469, 197, 97, 164, 8461672, 3826002220);
    StepIs(14945321, 44, 95, 115, 14945680, 1915043849);
    StepIs(7480640, 9, 46, 39, 7480819, 3617848677);
    StepIs(14132221, 101, 46, 75, 14132560, 3257384209);
    assert [97, 95, 46, 46][1..] == [95, 46, 46];
    assert [95, 46, 46][1..] == [46, 46];
    assert [46, 46][1..] == [46];
  }

  lemma HashOfFirst2()
    ensures FnvFrom(3257384209, [45, 45, 45, 95]) == 2910053479
  {
    hide FnvStep;
    StepIs(12724157, 17, 45, 60, 12724462, 3767461236);
    StepIs(14716645, 116, 45, 89, 14716998, 3656583963);
    StepIs(14283531, 27, 45, 54, 14283874, 1335535106);
    StepIs(5216934, 2, 95, 93, 5217059, 2910053479);
    assert [45, 45, 45, 95][1..] == [45, 45, 95];
    assert [45, 45, 95][1..] == [45, 95];
    assert [45, 95][1..] == [95];
  }

  lemma HashOfFirst3()
    ensures FnvFrom(2910053479, [45, 45, 46, 46, 98]) == 1613325225
  {
    hide FnvStep;
    StepIs(11367396, 103, 45, 74, 11367669, 1466982526);
    StepIs(5730400, 126, 45, 83, 5730537, 4175930025);
    StepIs(16312226, 169, 46, 135, 16312618, 1537530501);
    StepIs(6005978, 133, 46, 171, 6006122, 4018420529);
    StepIs(15696955, 49, 98, 83, 15697332, 1613325225);
    assert [45, 45, 46, 46, 98][1..] == [45, 46, 46, 98];
    assert [45, 46, 46, 98][1..] == [46, 46, 98];
    assert [46, 46, 98][1..] == [46, 98];
    assert [46, 98][1..] == [98];
  }

  lemma HashOfFirst()
    ensures Fnv1a([97, 95, 46, 46, 45, 45, 45, 95, 45, 45, 46, 46, 98]) == 1613325225
  {
    hide FnvFrom;
    HashOfFirst1();
    HashOfFirst2();
    HashOfFirst3();
    FnvConcat(FNV_OFFSET, [97, 95, 46, 46], [45, 45, 45, 95]);
    FnvConcat(FNV_OFFSET, [97, 95, 46, 46] + [45, 45, 45, 95], [45, 45, 46, 46, 98]);
    assert [97, 95, 46, 46] + [45, 45, 45, 95] + [45, 45, 46, 46, 98]
        == [97, 95, 46, 46, 45, 45, 45, 95, 45, 45, 46, 46, 98];
  }

  lemma HashOfSecond1()
    ensures FnvFrom(2166136261, [97, 46, 46, 46]) == 1304313986
  {
    hide FnvStep;
    StepIs(8461469, 197, 97, 164, 8461672, 3826002220);
    StepIs(14945321, 44, 46, 2, 14945680, 19172902);
    StepIs(74894, 38, 46, 8, 74895, 3565917848);
    StepIs(13929366, 152, 46, 182, 13929701, 1304313986);
    assert [97, 46, 46, 46][1..] == [46, 46, 46];
    assert [46, 46, 46][1..] == [46, 46];
    assert [46, 46][1..] == [46];
  }

  lemma HashOfSecond2()
    ensures FnvFrom(1304313986, [46, 95, 46, 95]) == 1067145222
  {
    hide FnvStep;
    StepIs(5094976, 130, 46, 172, 5095099, 243257028);
    StepIs(950222, 196, 95, 155, 950245, 1848786433);
    StepIs(7221822, 1, 46, 47, 7221995, 2820137981);
    StepIs(11016163, 253, 95, 162, 11016428, 1067145222);
    assert [46, 95, 46, 95][1..] == [95, 46, 95];
    assert [95, 46, 95][1..] == [46, 95];
    assert [46, 95][1..] == [95];
  }

  lemma HashOfSecond3()
    ensures FnvFrom(1067145222, [95, 95, 46, 45, 98]) == 1613325225
  {
    hide FnvStep;
    StepIs(4168536, 6, 95, 89, 4168636, 2056000539);
    StepIs(8031252, 27, 95, 68, 8031445, 780396300);
    StepIs(3048423, 12, 46, 34, 3048496, 1537530502);
    StepIs(6005978, 134, 45, 171, 6006122, 4018420529);
    StepIs(15696955, 49, 98, 83, 15697332, 1613325225);
    assert [95, 95, 46, 45, 98][1..] == [95, 46, 45, 98];
    assert [95, 46, 45, 98][1..] == [46, 45, 98];
    assert [46, 45, 98][1..] == [45, 98];
    assert [45, 98][1..] == [98];
  }

  lemma HashOfSecond()
    ensures Fnv1a([97, 46, 46, 46, 46, 95, 46, 95, 95, 95, 46, 45, 98]) == 1613325225
  {
    hide FnvFrom;
    HashOfSecond1();
    HashOfSecond2();
    HashOfSecond3();
    FnvConcat(FNV_OFFSET, [97, 46, 46, 46], [46, 95, 46, 95]);
    FnvConcat(FNV_OFFSET, [97, 46, 46, 46] + [46, 95, 46, 95], [95, 95, 46, 45, 98]);
    assert [97, 46, 46, 46] + [46, 95, 46, 95] + [95, 95, 46, 45, 98]
        == [97, 46, 46, 46, 46, 95, 46, 95, 95, 95, 46, 45, 98];
  }

  lemma HashesCollide()
    ensures COLLIDING != COLLIDING' && Fnv1a(Utf8(COLLIDING)) == Fnv1a(Utf8(COLLIDING'))
  {
    hide Fnv1a;
    assert COLLIDING[1] != COLLIDING'[1];
    BytesOf();
    hide Utf8;
    HashOfFirst();
    HashOfSecond();
  }

  lemma {:induction false} Utf8Ascii(s: string)
    requires forall i :: 0 <= i < |s| ==> s[i] as int < 0x80
    ensures |Utf8(s)| == |s| && forall i :: 0 <= i < |s| ==> Utf8(s)[i] == s[i] as int
  {
    if s != [] { Utf8Ascii(s[1..]); }
  }

  lemma BytesOf()
    ensures Utf8(COLLIDING) == [97, 95, 46, 46, 45, 45, 45, 95, 45, 45, 46, 46, 98]
    ensures Utf8(COLLIDING') == [97, 46, 46, 46, 46, 95, 46, 95, 95, 95, 46, 45, 98]
  {
    hide Utf8;
    Utf8Ascii(COLLIDING);
    Utf8Ascii(COLLIDING');
  }

  lemma SameLetters(lower: char -> char)
    requires forall c :: c in "ab-._" ==> lower(c) == c
    ensures Cleaned(COLLIDING, lower) == Cleaned(COLLIDING', lower)
  {
    forall i | 0 <= i < 13 ensures Cleaned(COLLIDING, lower)[i] == Cleaned(COLLIDING', lower)[i] {
      CleanedAt(COLLIDING, lower, i);
      CleanedAt(COLLIDING', lower, i);
      assert COLLIDING[i] in "ab-._" && COLLIDING'[i] in "ab-._";
    }
  }

  lemma {:induction false} CleanedAt(s: string, lower: char -> char, i: nat)
    requires i < |s|
    ensures Cleaned(s, lower)[i] == CleanChar(lower(s[i]))
  {
    if i < |s| - 1 { CleanedAt(s[..|s| - 1], lower, i); }
  }

  lemma SamePrefix(cr: string, r: string, r': string, lower: char -> char)
    requires Cleaned(cr + "-" + r, lower) == Cleaned(cr + "-" + r', lower)
    ensures Base(cr, r, lower) == Base(cr, r', lower)
  {
  }

  lemma JobNamesDoCollide(cr: string, lower: char -> char)
    requires forall c :: c in "ab-._" ==> lower(c) == c
    ensures COLLIDING != COLLIDING' && NameOf(cr, COLLIDING, lower) == NameOf(cr, COLLIDING', lower)
  {
    hide *;
    HashesCollide();
    SameLetters(lower);
    CleanedConcat(cr + "-", COLLIDING, lower);
    CleanedConcat(cr + "-", COLLIDING', lower);
    SamePrefix(cr, COLLIDING, COLLIDING', lower);
    JobNamesCollideIff(cr, COLLIDING, cr, COLLIDING', lower);
  }

  // ----- The name, said of the characters of its parts -----

  const HEX_DIGITS := "0123456789abcdef"

  // t is s without the hyphens around it.
  ghost predicate Stripped(s: string, t: string) {
    exists i: nat, j: nat :: StrippedAt(s, t, i, j)
  }

  ghost predicate StrippedAt(s: string, t: string, i: nat, j: nat) {
    && i <= j <= |s| && t == s[i..j] && (t == "" || (t[0] != '-' && t[|t| - 1] != '-'))
    && forall k :: 0 <= k < i || j <= k < |s| ==> s[k] == '-'
  }

  lemma {:induction false} TrimLeftDrops(s: string)
    ensures forall k :: 0 <= k < |s| - |TrimLeft(s)| ==> s[k] == '-'
  {
    if s != [] && s[0] == '-' {
      TrimLeftDrops(s[1..]);
      forall k | 0 <= k < |s| - |TrimLeft(s)| ensures s[k] == '-' {
        if k > 0 { assert s[k] == s[1..][k - 1]; }
      }
    }
  }

  lemma {:induction false} TrimRightDrops(s: string)
    ensures forall k :: |TrimRight(s)| <= k < |s| ==> s[k] == '-'
  {
    if s != [] && s[|s| - 1] == '-' { TrimRightDrops(s[..|s| - 1]); }
  }

  lemma TrimStrips(s: string)
    ensures Stripped(s, TrimRight(TrimLeft(s)))
  {
    var l := TrimLeft(s);
    var t := TrimRight(l);
    TrimLeftDrops(s);
    TrimRightDrops(l);
    var i := |s| - |l|;
    forall k | i + |t| <= k < |s| ensures s[k] == '-' { assert s[k] == l[k - i]; }
    assert StrippedAt(s, t, i, i + |t|);
  }

  // The number that hexadecimal digits stand for, the most significant first.
  function HexValue(s: string): nat
    requires forall c :: c in s ==> c in HEX_DIGITS
  {
    if s == [] then 0
    else
      assert forall c :: c in s[..|s| - 1] ==> c in s;
      16 * HexValue(s[..|s| - 1]) + DigitOf(s[|s| - 1])
  }

  function DigitOf(c: char): (d: nat)
    requires c in HEX_DIGITS
    ensures d < 16 && HEX_DIGITS[d] == c
  {
    var d :| 0 <= d < 16 && HEX_DIGITS[d] == c;
    d
  }

  lemma HexCharIs(d: nat)
    requires d < 16
    ensures HexChar(d) == HEX_DIGITS[d] && HexChar(d) in HEX_DIGITS && DigitOf(HexChar(d)) == d
  {
    assert HexChar(d) == HEX_DIGITS[d];
  }

  lemma {:induction false} HexIs(n: nat, k: nat)
    requires n < Power16(k)
    ensures (forall c :: c in Hex(n, k) ==> c in HEX_DIGITS) && HexValue(Hex(n, k)) == n
  {
    if k > 0 {
      HexIs(n / 16, k - 1);
      HexCharIs(n % 16);
      assert Hex(n, k)[..k - 1] == Hex(n / 16, k - 1);
      hide HexChar, DigitOf;
    }
  }

  // A character that a label may hold stands for itself, any other for a hyphen.
  ghost predicate IsCleaned(s: string, lower: char -> char, t: string) {
    && |t| == |s|
    && forall i :: 0 <= i < |s| ==>
         var c := lower(s[i]);
         t[i] == if 'a' <= c <= 'z' || '0' <= c <= '9' || c == '-' then c else '-'
  }

  // The name in full: the lower-case text of both parts with a hyphen for every character that a label
  // cannot hold, without hyphens around it ("repo" if nothing is left), cut at 54 characters; a hyphen; and
  // eight hexadecimal digits for the hash of the repository.
  lemma JobNameIs(cr: string, repo: string, lower: char -> char) returns (clean: string, core: string)
    ensures IsCleaned(cr + "-" + repo, lower, clean) && Stripped(clean, core)
    ensures var text := if core == "" then "repo" else core;
      var suffix := Hex8(Fnv1a(Utf8(repo)));
      && NameOf(cr, repo, lower) == (if |text| > 54 then text[..54] else text) + "-" + suffix
      && (forall c :: c in suffix ==> c in HEX_DIGITS) && HexValue(suffix) == Fnv1a(Utf8(repo))
  {
    hide Fnv1a, Utf8, Hex, HexValue, TrimLeft, TrimRight, Stripped;
    var s := cr + "-" + repo;
    clean := Cleaned(s, lower);
    core := TrimRight(TrimLeft(clean));
    TrimStrips(clean);
    forall i | 0 <= i < |s| ensures clean[i] == CleanChar(lower(s[i])) { CleanedAt(s, lower, i); }
    assert Power16(8) == 0x1_0000_0000;
    HexIs(Fnv1a(Utf8(repo)), 8);
  }

  // Any byte but the first of a character.
  predicate IsContinuation(b: Byte) { 0x80 <= b < 0xC0 }

  // What is left of a byte without its mark.
  function Payload(b: Byte, mark: nat): int { b as int - mark }

  // The bytes of a character as section 3 of RFC 3629 has them: the first one tells their number, and their
  // free bits, put together, are the character.
  lemma Utf8CharIs(c: nat)
    requires c < 0x11_0000
    ensures var bs := Utf8Char(c);
      match |bs|
      case 1 => bs[0] < 0x80 && c == bs[0] as int
      case 2 =>
        && c >= 0x80 && 0xC0 <= bs[0] < 0xE0 && IsContinuation(bs[1])
        && c == Payload(bs[0], 0xC0) * 0x40 + Payload(bs[1], 0x80)
      case 3 =>
        && c >= 0x800 && 0xE0 <= bs[0] < 0xF0 && IsContinuation(bs[1]) && IsContinuation(bs[2])
        && c == Payload(bs[0], 0xE0) * 0x1000 + Payload(bs[1], 0x80) * 0x40 + Payload(bs[2], 0x80)
      case 4 =>
        && c >= 0x1_0000 && 0xF0 <= bs[0] < 0xF8
        && IsContinuation(bs[1]) && IsContinuation(bs[2]) && IsContinuation(bs[3])
        && c == Payload(bs[0], 0xF0) * 0x4_0000 + Payload(bs[1], 0x80) * 0x1000
                + Payload(bs[2], 0x80) * 0x40 + Payload(bs[3], 0x80)
      case _ => false
  {
    var low, mid := c / 0x40, c / 0x1000;
    assert mid == low / 0x40 && c / 0x4_0000 == mid / 0x40;
  }
}
