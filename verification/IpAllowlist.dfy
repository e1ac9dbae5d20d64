/**
 * The IP allow-list of apps/api/src/common/guards/ip-allowlist.guard.ts: dotted quads as 32-bit
 * words and CIDR prefixes (section 3.1 of RFC 4632).
 */
module IpAllowlist {
  import opened Wrappers
  import opened Arithmetic
  import opened JsNumbers
  import opened JsText

  // ---------------------------------------------------------------- reading addresses

  /** The number a part is read as, unless it is no octet. */
  function Octet(part: string): (r: Option<int>)
    ensures r.Some? ==> 0 <= r.value <= 255
  {
    var num := ParseInt(part);
    if num.None? || num.value < 0 || num.value > 255 then None else num
  }

  predicate AllOctets(parts: seq<string>) {
    forall i :: 0 <= i < |parts| ==> Octet(parts[i]).Some?
  }

  /** The octets read as digits of base 256. */
  function Word(parts: seq<string>): nat
    requires AllOctets(parts)
  {
    if parts == [] then 0
    else
      var init, last := parts[..|parts| - 1], parts[|parts| - 1];
      Word(init) * 256 + Octet(last).value
  }

  function IpNumber(ip: string): Option<nat> {
    var parts := Split(ip, '.');
    if |parts| == 4 && AllOctets(parts) then Some(Word(parts)) else None
  }

  lemma Pow2Values()
    ensures Pow2(8) == 256 && Pow2(24) == 0x100_0000 && Pow2(31) == 0x8000_0000 && Pow2(32) == 0x1_0000_0000
  {
    Pow2Sum(8, 8);
    Pow2Sum(8, 16);
    Pow2Sum(8, 24);
    assert Pow2(32) == 2 * Pow2(31);
  }

  lemma ShiftOctet(result: int, w: nat)
    requires w < 0x100_0000 && ToUint32(result) == w
    ensures ToUint32(ShiftLeft(result, 8)) == w * 256
  {
    Pow2Values();
    ShiftedWord(result, w);
    Uint32OfInt32Any(result * 256);
  }

  lemma ShiftedWord(result: int, w: nat)
    requires w < 0x100_0000 && ToUint32(result) == w
    ensures ToUint32(result * 256) == w * 256
  {
    var q := result / 0x1_0000_0000;
    assert result == 0x1_0000_0000 * q + w;
    assert result * 256 == 0x1_0000_0000 * (q * 256) + w * 256;
    DivUnique(result * 256, 0x1_0000_0000, q * 256, w * 256);
  }

  /** `(result << 8) | num` appends an octet, as long as the word stays below 32 bits. */
  lemma AppendOctet(result: int, w: nat, num: int)
    requires w < 0x100_0000 && ToUint32(result) == w && 0 <= num <= 255
    ensures ToUint32(BitOr(ShiftLeft(result, 8), num)) == w * 256 + num
  {
    Pow2Values();
    ShiftOctet(result, w);
    BitOrDisjoint(ShiftLeft(result, 8), w * 256, num, 32, 8);
  }

  lemma AppendPart(parts: seq<string>, i: nat)
    requires i < |parts| && AllOctets(parts[..i]) && Octet(parts[i]).Some?
    ensures AllOctets(parts[..i + 1]) && Word(parts[..i + 1]) == Word(parts[..i]) * 256 + Octet(parts[i]).value
  {
    assert parts[..i + 1][..i] == parts[..i];
  }

  method IpToNumber(ip: string) returns (r: Option<nat>)
    ensures r == IpNumber(ip)
  {
    var parts := Split(ip, '.');
    if |parts| != 4 {
      return None;
    }
    var result := 0;
    for i := 0 to 4
      invariant AllOctets(parts[..i])
      invariant ToUint32(result) == Word(parts[..i])
    {
      var num := Octet(parts[i]);
      if num.None? {
        return None;
      }
      AppendPart(parts, i);
      WordBelow(parts[..i]);
      AppendOctet(result, Word(parts[..i]), num.value);
      result := BitOr(ShiftLeft(result, 8), num.value);
    }
    assert parts[..4] == parts;
    return Some(ToUint32(result));
  }

  const BOUNDS: seq<nat> := [1, 0x100, 0x1_0000, 0x100_0000, 0x1_0000_0000]

  lemma {:induction false} WordBelow(parts: seq<string>)
    requires AllOctets(parts) && |parts| <= 4
    ensures Word(parts) < BOUNDS[|parts|]
  {
    if parts != [] {
      WordBelow(parts[..|parts| - 1]);
    }
  }

  // ---------------------------------------------------------------- matching

  /** The mask of a prefix length as the code computes it. */
  function Mask(p: nat): nat
    requires p <= 32
  {
    if p == 0 then 0 else ToUint32(ShiftLeft(-1, 32 - p))
  }

  /** Two addresses agree under the mask. */
  predicate WordsMatch(x: nat, y: nat, p: nat)
    requires p <= 32
  {
    BitAnd(x, Mask(p)) == BitAnd(y, Mask(p))
  }

  /** Whether `ip` is in `cidr`; text the code cannot read matches nothing. */
  predicate Matches(ip: string, cidr: string) {
    var parts := Split(cidr, '/');
    var p := if |parts| > 1 then ParseInt(parts[1]) else None;
    && p.Some? && 0 <= p.value <= 32
    && IpNumber(ip).Some? && IpNumber(parts[0]).Some?
    && WordsMatch(IpNumber(ip).value, IpNumber(parts[0]).value, p.value)
  }

  method MatchCidr(ip: string, cidr: string) returns (r: bool)
    ensures r == Matches(ip, cidr)
  {
    var parts := Split(cidr, '/');
    var prefixLength := if |parts| > 1 then ParseInt(parts[1]) else None;
    if prefixLength.None? || prefixLength.value < 0 || prefixLength.value > 32 {
      return false;
    }
    var ipNum := IpToNumber(ip);
    var subnetNum := IpToNumber(parts[0]);
    if ipNum.None? || subnetNum.None? {
      return false;
    }
    return WordsMatch(ipNum.value, subnetNum.value, prefixLength.value);
  }

  predicate Allows(entry: string, ip: string) {
    if '/' in entry then Matches(ip, entry) else ip == entry
  }

  /** `canActivate` for a tenant with the given list; None stands for no tenant or no list. */
  method CanActivate(allowlist: Option<seq<string>>, clientIp: string) returns (allowed: bool)
    ensures allowed <==>
      allowlist.None? || allowlist.value == [] || exists entry <- allowlist.value :: Allows(entry, clientIp)
  {
    if allowlist.None? || allowlist.value == [] {
      return true;
    }
    for i := 0 to |allowlist.value|
      invariant forall j :: 0 <= j < i ==> !Allows(allowlist.value[j], clientIp)
    {
      var entry := allowlist.value[i];
      var hit := clientIp == entry;
      if '/' in entry {
        hit := MatchCidr(clientIp, entry);
      }
      if hit {
        assert entry in allowlist.value;
        return true;
      }
    }
    return false;
  }

  // ---------------------------------------------------------------- what matching means

  lemma MaskValue(p: nat)
    requires p <= 32
    ensures Pow2(32 - p) <= 0x1_0000_0000 && Mask(p) == 0x1_0000_0000 - Pow2(32 - p)
  {
    Pow2Values();
    if p > 0 {
      Pow2Mono(32 - p, 31);
      OnesShifted(32 - p);
    }
  }

  lemma BaseBelow(x: nat, p: nat)
    requires p <= 32
    ensures 0 <= Base(x, p) <= x
  {
    SameQuotientIff(x, x, Pow2(32 - p));
  }

  lemma MaskedWord(x: nat, p: nat)
    requires x < 0x1_0000_0000 && p <= 32
    ensures BitAnd(x, Mask(p)) == ToInt32(Base(x, p))
  {
    MaskValue(p);
    Pow2Values();
    BitAndMask(x, Mask(p), 32, 32 - p);
  }

  /** The start of the aligned block of `y`. */
  function Base(y: nat, p: nat): int
    requires p <= 32
  {
    y - y % Pow2(32 - p)
  }

  lemma SameBase(x: nat, y: nat, p: nat)
    requires x < 0x1_0000_0000 && y < 0x1_0000_0000 && p <= 32
    ensures WordsMatch(x, y, p) <==> Base(x, p) == Base(y, p)
  {
    MaskedWord(x, p);
    MaskedWord(y, p);
    BaseBelow(x, p);
    BaseBelow(y, p);
    SmallSameInt32(Base(x, p), Base(y, p));
  }

  /** Two words match when clearing the low 32 - p bits leaves the same. */
  lemma MatchIffSameBlock(x: nat, y: nat, p: nat)
    requires x < 0x1_0000_0000 && y < 0x1_0000_0000 && p <= 32
    ensures WordsMatch(x, y, p) <==> x / Pow2(32 - p) == y / Pow2(32 - p)
  {
    SameBase(x, y, p);
    SameQuotientIff(x, y, Pow2(32 - p));
  }

  function Bit(x: nat, i: nat): nat {
    x / Pow2(i) % 2
  }

  lemma {:induction false} SameHighBits(x: nat, y: nat, k: nat, n: nat)
    requires k <= n && x < Pow2(n) && y < Pow2(n)
    ensures x / Pow2(k) == y / Pow2(k) <==> forall i: nat :: k <= i < n ==> Bit(x, i) == Bit(y, i)
    decreases n - k
  {
    if k == n {
      DivUnique(x, Pow2(n), 0, x);
      DivUnique(y, Pow2(n), 0, y);
    } else {
      var a, b := x / Pow2(k), y / Pow2(k);
      HalfQuotient(x, k);
      HalfQuotient(y, k);
      SameHighBits(x, y, k + 1, n);
      assert Bit(x, k) == a % 2 && Bit(y, k) == b % 2;
    }
  }

  lemma {:induction false} HalfQuotient(x: nat, k: nat)
    ensures x / Pow2(k + 1) == x / Pow2(k) / 2
  {
    var d := Pow2(k);
    var q, r := x / d, x % d;
    assert x == d * q + r;
    assert d * q == 2 * d * (q / 2) + d * (q % 2) by {
      assert q == 2 * (q / 2) + q % 2;
      assert d * (2 * (q / 2) + q % 2) == d * (2 * (q / 2)) + d * (q % 2);
    }
    DivUnique(x, 2 * d, q / 2, d * (q % 2) + r);
  }

  /** A prefix matches exactly when the top p bits agree. */
  lemma MatchIffTopBitsAgree(x: nat, y: nat, p: nat)
    requires x < 0x1_0000_0000 && y < 0x1_0000_0000 && p <= 32
    ensures WordsMatch(x, y, p) <==> forall i: nat :: 32 - p <= i < 32 ==> Bit(x, i) == Bit(y, i)
  {
    Pow2Values();
    MatchIffSameBlock(x, y, p);
    SameHighBits(x, y, 32 - p, 32);
  }

  /** The matched set is the aligned interval of 2^(32 - p) addresses that contains the subnet. */
  lemma MatchedSetIsAlignedInterval(x: nat, y: nat, p: nat)
    requires x < 0x1_0000_0000 && y < 0x1_0000_0000 && p <= 32
    ensures WordsMatch(x, y, p) <==> Base(y, p) <= x < Base(y, p) + Pow2(32 - p)
    ensures Base(y, p) % Pow2(32 - p) == 0 && 0 <= Base(y, p) <= 0x1_0000_0000 - Pow2(32 - p)
  {
    MatchIffSameBlock(x, y, p);
    SameBlockIff(x, y, Pow2(32 - p));
    Pow2Values();
    Pow2Sum(32 - p, p);
    BlockEnds(y, Pow2(32 - p), Pow2(p));
  }

  /** Blocks are nested as the prefix grows. */
  lemma {:induction false} LongerPrefixIsNested(x: nat, y: nat, p: nat, q: nat)
    requires x < 0x1_0000_0000 && y < 0x1_0000_0000 && p <= q <= 32
    requires WordsMatch(x, y, q)
    ensures WordsMatch(x, y, p)
  {
    MatchIffTopBitsAgree(x, y, p);
    MatchIffTopBitsAgree(x, y, q);
  }

  /** Two blocks are nested or disjoint: if they share an address, the longer prefix lies in the shorter. */
  lemma BlocksNestOrDisjoint(x: nat, z: nat, y1: nat, p: nat, y2: nat, q: nat)
    requires x < 0x1_0000_0000 && z < 0x1_0000_0000 && y1 < 0x1_0000_0000 && y2 < 0x1_0000_0000
    requires p <= q <= 32
    requires WordsMatch(z, y1, p) && WordsMatch(z, y2, q)
    ensures WordsMatch(x, y2, q) ==> WordsMatch(x, y1, p)
  {
    if WordsMatch(x, y2, q) {
      LongerPrefixIsNested(z, y2, p, q);
      LongerPrefixIsNested(x, y2, p, q);
    }
  }

  // ---------------------------------------------------------------- from text to words

  predicate IsOctetText(s: string) {
    AllDigits(s) && DigitsValue(s) <= 255
  }

  function Quad(a: string, b: string, c: string, d: string): string {
    a + "." + b + "." + c + "." + d
  }

  lemma QuadSplits(a: string, b: string, c: string, d: string)
    requires IsOctetText(a) && IsOctetText(b) && IsOctetText(c) && IsOctetText(d)
    ensures Split(Quad(a, b, c, d), '.') == [a, b, c, d]
  {
    assert Quad(a, b, c, d) == a + ['.'] + (b + ['.'] + (c + ['.'] + d));
    SplitFirst(a, '.', b + ['.'] + (c + ['.'] + d));
    SplitFirst(b, '.', c + ['.'] + d);
    SplitFirst(c, '.', d);
    SplitNone(d, '.');
  }

  lemma WordAppend(parts: seq<string>, s: string)
    requires AllOctets(parts) && IsOctetText(s)
    ensures AllOctets(parts + [s]) && Word(parts + [s]) == Word(parts) * 256 + DigitsValue(s)
  {
    ParseDigits(s);
    assert (parts + [s])[..|parts|] == parts;
    AppendPart(parts + [s], |parts|);
    assert (parts + [s])[..|parts| + 1] == parts + [s];
  }

  function QuadValue(a: string, b: string, c: string, d: string): nat
    requires IsOctetText(a) && IsOctetText(b) && IsOctetText(c) && IsOctetText(d)
  {
    DigitsValue(a) * 0x100_0000 + DigitsValue(b) * 0x1_0000 + DigitsValue(c) * 0x100 + DigitsValue(d)
  }

  /** A dotted quad of decimal octets is read as its big-endian word. */
  lemma QuadReads(a: string, b: string, c: string, d: string)
    requires IsOctetText(a) && IsOctetText(b) && IsOctetText(c) && IsOctetText(d)
    ensures IpNumber(Quad(a, b, c, d)) == Some(QuadValue(a, b, c, d))
    ensures QuadValue(a, b, c, d) < 0x1_0000_0000
  {
    QuadSplits(a, b, c, d);
    assert [] + [a] == [a] && [a] + [b] == [a, b];
    assert [a, b] + [c] == [a, b, c] && [a, b, c] + [d] == [a, b, c, d];
    WordAppend([], a);
    WordAppend([a], b);
    WordAppend([a, b], c);
    WordAppend([a, b, c], d);
    QuadWord(a, b, c, d);
  }

  lemma QuadWord(a: string, b: string, c: string, d: string)
    requires IsOctetText(a) && IsOctetText(b) && IsOctetText(c) && IsOctetText(d)
    requires AllOctets([a]) && AllOctets([a, b]) && AllOctets([a, b, c]) && AllOctets([a, b, c, d])
    requires Word([a]) == DigitsValue(a) && Word([a, b]) == Word([a]) * 256 + DigitsValue(b)
    requires Word([a, b, c]) == Word([a, b]) * 256 + DigitsValue(c)
    requires Word([a, b, c, d]) == Word([a, b, c]) * 256 + DigitsValue(d)
    ensures Word([a, b, c, d]) == QuadValue(a, b, c, d) < 0x1_0000_0000
  {
  }

  lemma CidrSplits(e: string, f: string, g: string, h: string, p: string)
    requires IsOctetText(e) && IsOctetText(f) && IsOctetText(g) && IsOctetText(h) && AllDigits(p)
    ensures Split(Quad(e, f, g, h) + "/" + p, '/') == [Quad(e, f, g, h), p]
  {
    var subnet := Quad(e, f, g, h);
    assert forall x <- subnet :: IsDigit(x) || x == '.';
    SplitFirst(subnet, '/', p);
    assert subnet + "/" + p == subnet + ['/'] + p;
    SplitNone(p, '/');
  }

  /** For written addresses and prefix lengths, the guard decides membership in the block. */
  lemma CidrTextMatches(a: string, b: string, c: string, d: string,
    e: string, f: string, g: string, h: string, p: string)
    requires IsOctetText(a) && IsOctetText(b) && IsOctetText(c) && IsOctetText(d)
    requires IsOctetText(e) && IsOctetText(f) && IsOctetText(g) && IsOctetText(h)
    requires AllDigits(p)
    ensures var (ip, subnet) := (Quad(a, b, c, d), Quad(e, f, g, h));
      Matches(ip, subnet + "/" + p) <==>
        && DigitsValue(p) <= 32
        && var x, y := QuadValue(a, b, c, d), QuadValue(e, f, g, h);
           Base(y, DigitsValue(p)) <= x < Base(y, DigitsValue(p)) + Pow2(32 - DigitsValue(p))
  {
    QuadReads(a, b, c, d);
    QuadReads(e, f, g, h);
    CidrSplits(e, f, g, h, p);
    ParseDigits(p);
    if DigitsValue(p) <= 32 {
      MatchedSetIsAlignedInterval(QuadValue(a, b, c, d), QuadValue(e, f, g, h), DigitsValue(p));
    }
  }

  // ---------------------------------------------------------------- entries without a prefix length

  /** Decimal text without needless zeros. */
  predicate Canonical(s: string) {
    IsOctetText(s) && (|s| > 1 ==> s[0] != '0')
  }

  lemma {:induction false} LeadingDigit(s: string)
    requires AllDigits(s) && s[0] != '0'
    ensures DigitsValue(s) >= 1
  {
    assert s[0] in s;
    if |s| > 1 {
      var init := s[..|s| - 1];
      assert forall c <- init :: c in s;
      assert s[|s| - 1] in s;
      LeadingDigit(init);
    }
  }

  lemma {:induction false} CanonicalDigits(s: string, t: string)
    requires AllDigits(s) && AllDigits(t) && DigitsValue(s) == DigitsValue(t)
    requires (|s| > 1 ==> s[0] != '0') && (|t| > 1 ==> t[0] != '0')
    ensures s == t
    decreases |s|
  {
    var m, n := |s| - 1, |t| - 1;
    var x, y := s[..m], t[..n];
    assert s[m] in s && t[n] in t;
    assert (forall c <- x :: c in s) && (forall c <- y :: c in t);
    if m > 0 {
      LeadingDigit(x);
    }
    if n > 0 {
      LeadingDigit(y);
    }
    assert s == x + [s[m]] && t == y + [t[n]];
    if m > 0 && n > 0 {
      CanonicalDigits(x, y);
    }
  }

  lemma QuadsDiffer(a: string, b: string, c: string, d: string, e: string, f: string, g: string, h: string)
    requires Canonical(a) && Canonical(b) && Canonical(c) && Canonical(d)
    requires Canonical(e) && Canonical(f) && Canonical(g) && Canonical(h)
    ensures Quad(a, b, c, d) == Quad(e, f, g, h) <==> QuadValue(a, b, c, d) == QuadValue(e, f, g, h)
  {
    if Quad(a, b, c, d) == Quad(e, f, g, h) {
      QuadSplits(a, b, c, d);
      QuadSplits(e, f, g, h);
      assert [a, b, c, d] == [e, f, g, h];
      assert [a, b, c, d][0] == e && [a, b, c, d][1] == f && [a, b, c, d][2] == g && [a, b, c, d][3] == h;
    }
    if QuadValue(a, b, c, d) == QuadValue(e, f, g, h) {
      CanonicalDigits(a, e);
      CanonicalDigits(b, f);
      CanonicalDigits(c, g);
      CanonicalDigits(d, h);
    }
  }

  /** An entry without a prefix length allows its own address and no other: it is a block of length 32. */
  lemma PlainEntryIsOneAddress(a: string, b: string, c: string, d: string,
    e: string, f: string, g: string, h: string)
    requires Canonical(a) && Canonical(b) && Canonical(c) && Canonical(d)
    requires Canonical(e) && Canonical(f) && Canonical(g) && Canonical(h)
    ensures var (ip, entry) := (Quad(a, b, c, d), Quad(e, f, g, h));
      && (Allows(entry, ip) <==> QuadValue(a, b, c, d) == QuadValue(e, f, g, h))
      && (Allows(entry, ip) <==> Allows(entry + "/32", ip))
  {
    var ip, entry := Quad(a, b, c, d), Quad(e, f, g, h);
    assert forall x <- entry :: IsDigit(x) || x == '.';
    assert '/' in entry + "/32" by {
      assert (entry + "/32")[|entry|] == '/';
    }
    QuadsDiffer(a, b, c, d, e, f, g, h);
    assert entry + "/32" == entry + "/" + "32";
    CidrTextMatches(a, b, c, d, e, f, g, h, "32");
    assert DigitsValue("32") == 32 by {
      assert "32"[..1] == "3" && "3"[..0] == "";
    }
    assert Pow2(0) == 1;
  }
}
