/** IP addresses as byte strings and the bit-level CIDR match of the SPF
    evaluator. */
module Cidr {
  import opened Text
  import opened Wrappers

  type IP = seq<bv8>

  /** The ten zero and two all-one bytes in front of an IPv4 address. */
  predicate V4Mapped(ip: IP) {
    |ip| == 16 && (forall i :: 0 <= i < 10 ==> ip[i] == 0) && ip[10] == 0xff && ip[11] == 0xff
  }

  function To4(ip: IP): Option<IP> {
    if |ip| == 4 then Some(ip) else if V4Mapped(ip) then Some(ip[12..]) else None
  }

  /** Address equality: the 4-byte and 16-byte forms of an IPv4 address agree. */
  predicate Equal(a: IP, b: IP) {
    if |a| == |b| then a == b
    else if |a| == 4 && |b| == 16 then V4Mapped(b) && b[12..] == a
    else |a| == 16 && |b| == 4 && V4Mapped(a) && a[12..] == b
  }

  /** A byte with its `k` leading bits set. */
  function MaskByte(k: int): bv8 {
    if k <= 0 then 0x00 else if k == 1 then 0x80 else if k == 2 then 0xc0 else if k == 3 then 0xe0
        else if k == 4 then 0xf0
    else if k == 5 then 0xf8 else if k == 6 then 0xfc else if k == 7 then 0xfe else 0xff
  }

  function CidrMask(ones: nat, bits: nat): IP {
    seq(bits / 8, i requires 0 <= i < bits / 8 => MaskByte(ones - 8 * i))
  }

  function Masked(ip: IP, mask: IP): IP {
    if |ip| != |mask| then [] else seq(|ip|, i requires 0 <= i < |ip| => ip[i] & mask[i])
  }

  // ---- parsing the prefix length ----

  predicate IsDigits(s: string) {
    s != "" && forall i :: 0 <= i < |s| ==> '0' <= s[i] <= '9'
  }

  function DigitsValue(s: string): nat
    requires forall i :: 0 <= i < |s| ==> '0' <= s[i] <= '9'
  {
    if s == "" then 0 else 10 * DigitsValue(s[..|s| - 1]) + (s[|s| - 1] as int - '0' as int)
  }

  function Atoi(s: string): Option<int> {
    var digits := if s != "" && (s[0] == '+' || s[0] == '-') then s[1..] else s;
    if !IsDigits(digits) then None
    else
      var value: int := DigitsValue(digits);
      Some(if s[0] == '-' then -value else value)
  }

  function SplitCidr(arg: string): (r: (string, string))
    ensures arg == r.0 + (if r.0 == arg then "" else "/" + r.1)
    ensures '/' !in r.0
  {
    if arg == "" then ("", "")
    else if arg[0] == '/' then ("", arg[1..])
    else var (spec, cidr) := SplitCidr(arg[1..]); ([arg[0]] + spec, cidr)
  }

  // ---- matching ----

  predicate IpMatchBits(a: IP, b: IP, cidr: string, bits: nat)
    requires bits == 32 ==> To4(a).Some? && To4(b).Some?
  {
    match Atoi(cidr)
    case None => false
    case Some(ones) =>
      if ones < 0 || ones > bits then false
      else if bits == 32 then Equal(Masked(To4(a).value, CidrMask(ones, 32)), Masked(To4(b).value, CidrMask(ones, 32)))
      else Equal(Masked(a, CidrMask(ones, bits)), Masked(b, CidrMask(ones, bits)))
  }

  /** An ip4 or ip6 argument against the peer; `parse` reads an address. */
  predicate IpMatch(parse: string -> Option<IP>, arg: string, peer: string, bits: nat) {
    var (spec, cidr) := SplitCidr(arg);
    match (parse(spec), parse(peer))
    case (Some(ip), Some(addr)) =>
      if bits == 32 && (To4(ip).None? || To4(addr).None?) then false
      else if bits != 32 && (To4(ip).Some? || To4(addr).Some?) then false
      else if cidr == "" then Equal(ip, addr)
      else IpMatchBits(ip, addr, cidr, bits)
    case _ => false
  }

  predicate IpMatchNetwork(addr: IP, peer: IP, cidr: string) {
    if cidr == "" then Equal(addr, peer)
    else if To4(addr).Some? && To4(peer).Some? then IpMatchBits(addr, peer, cidr, 32)
    else if To4(addr).Some? || To4(peer).Some? then false
    else IpMatchBits(addr, peer, cidr, 128)
  }

  // ---- the bits of an address ----

  function BitMask(j: int): bv8 {
    if j == 0 then 0x80 else if j == 1 then 0x40 else if j == 2 then 0x20 else if j == 3 then 0x10
    else if j == 4 then 0x08 else if j == 5 then 0x04 else if j == 6 then 0x02 else 0x01
  }

  /** Bit `i` of the address, the most significant first. */
  predicate Bit(ip: IP, i: nat)
    requires i < 8 * |ip|
  {
    ip[i / 8] & BitMask(i % 8) != 0
  }

  ghost predicate LeadingBitsAgree(a: IP, b: IP, n: nat)
    requires |a| == |b| && n <= 8 * |a|
  {
    forall i :: 0 <= i < n ==> Bit(a, i) == Bit(b, i)
  }

  predicate BitAgrees(x: bv8, y: bv8, j: int) {
    (x & BitMask(j) != 0) == (y & BitMask(j) != 0)
  }

  predicate MaskAgrees(x: bv8, y: bv8, k: int) {
    x & MaskByte(k) == y & MaskByte(k)
  }

  ghost predicate ByteBitsAgree(x: bv8, y: bv8, k: int) {
    forall j :: 0 <= j < k && j < 8 ==> BitAgrees(x, y, j)
  }

  /** One more leading bit in the mask is one more bit compared. */
  lemma MaskTable(x: bv8, y: bv8)
    ensures x & 0x80 == y & 0x80 <==> (x & 0x80 != 0) == (y & 0x80 != 0)
    ensures x & 0xc0 == y & 0xc0 <==> (x & 0x80 == y & 0x80) && (x & 0x40 != 0) == (y & 0x40 != 0)
    ensures x & 0xe0 == y & 0xe0 <==> (x & 0xc0 == y & 0xc0) && (x & 0x20 != 0) == (y & 0x20 != 0)
    ensures x & 0xf0 == y & 0xf0 <==> (x & 0xe0 == y & 0xe0) && (x & 0x10 != 0) == (y & 0x10 != 0)
    ensures x & 0xf8 == y & 0xf8 <==> (x & 0xf0 == y & 0xf0) && (x & 0x08 != 0) == (y & 0x08 != 0)
    ensures x & 0xfc == y & 0xfc <==> (x & 0xf8 == y & 0xf8) && (x & 0x04 != 0) == (y & 0x04 != 0)
    ensures x & 0xfe == y & 0xfe <==> (x & 0xfc == y & 0xfc) && (x & 0x02 != 0) == (y & 0x02 != 0)
    ensures x & 0xff == y & 0xff <==> (x & 0xfe == y & 0xfe) && (x & 0x01 != 0) == (y & 0x01 != 0)
  {
  }

  lemma HighMasks(x: bv8, y: bv8, k: int)
    requires 1 <= k <= 4
    ensures MaskAgrees(x, y, k) <==> MaskAgrees(x, y, k - 1) && BitAgrees(x, y, k - 1)
  {
    MaskTable(x, y);
    assert x & 0 == y & 0;
  }

  lemma LowMasks(x: bv8, y: bv8, k: int)
    requires 5 <= k <= 8
    ensures MaskAgrees(x, y, k) <==> MaskAgrees(x, y, k - 1) && BitAgrees(x, y, k - 1)
  {
    MaskTable(x, y);
  }

  lemma MaskStep(x: bv8, y: bv8, k: int)
    requires 1 <= k <= 8
    ensures MaskAgrees(x, y, k) <==> MaskAgrees(x, y, k - 1) && BitAgrees(x, y, k - 1)
  {
    hide MaskAgrees, BitAgrees;
    if k <= 4 {
      HighMasks(x, y, k);
    } else {
      LowMasks(x, y, k);
    }
  }

  lemma MaskEnds(x: bv8, y: bv8, k: int)
    ensures k <= 0 ==> MaskAgrees(x, y, k)
    ensures k > 8 ==> MaskAgrees(x, y, k) == MaskAgrees(x, y, 8)
  {
    assert x & 0 == y & 0;
  }

  lemma {:induction false} MaskedByteIsBits(x: bv8, y: bv8, k: int)
    ensures MaskAgrees(x, y, k) <==> ByteBitsAgree(x, y, k)
    decreases k
  {
    hide MaskAgrees, BitAgrees;
    MaskEnds(x, y, k);
    if k > 8 {
      MaskedByteIsBits(x, y, 8);
    } else if k > 0 {
      MaskStep(x, y, k);
      MaskedByteIsBits(x, y, k - 1);
    }
  }

  lemma MaskedBytes(a: IP, b: IP, n: nat, bits: nat)
    requires bits % 8 == 0 && |a| == |b| == bits / 8 && n <= bits
    ensures Masked(a, CidrMask(n, bits)) == Masked(b, CidrMask(n, bits)) <==>
              forall i :: 0 <= i < |a| ==> MaskAgrees(a[i], b[i], n - 8 * i)
  {
    hide MaskByte;
    var ma, mb := Masked(a, CidrMask(n, bits)), Masked(b, CidrMask(n, bits));
    forall i | 0 <= i < |a|
      ensures ma[i] == mb[i] <==> MaskAgrees(a[i], b[i], n - 8 * i)
    {
    }
    assert ma == mb <==> forall i :: 0 <= i < |a| ==> ma[i] == mb[i];
  }

  lemma MaskedIsLeadingBits(a: IP, b: IP, n: nat, bits: nat)
    requires bits % 8 == 0 && |a| == |b| == bits / 8 && n <= bits
    ensures Masked(a, CidrMask(n, bits)) == Masked(b, CidrMask(n, bits)) <==> LeadingBitsAgree(a, b, n)
  {
    hide MaskAgrees, ByteBitsAgree, LeadingBitsAgree, Masked, CidrMask;
    MaskedBytes(a, b, n, bits);
    BytesToBits(a, b, n);
    forall i | 0 <= i < |a|
      ensures MaskAgrees(a[i], b[i], n - 8 * i) <==> ByteBitsAgree(a[i], b[i], n - 8 * i)
    {
      MaskedByteIsBits(a[i], b[i], n - 8 * i);
    }
  }

  lemma BitsInByte(a: IP, b: IP, i: nat, j: nat)
    requires |a| == |b| && i < |a| && j < 8
    ensures Bit(a, 8 * i + j) == Bit(b, 8 * i + j) <==> BitAgrees(a[i], b[i], j)
  {
    hide BitMask;
    assert (8 * i + j) / 8 == i && (8 * i + j) % 8 == j;
  }

  lemma BytesToBits(a: IP, b: IP, n: nat)
    requires |a| == |b| && n <= 8 * |a|
    ensures LeadingBitsAgree(a, b, n) <==> forall i :: 0 <= i < |a| ==> ByteBitsAgree(a[i], b[i], n - 8 * i)
  {
    hide BitAgrees, Bit;
    if LeadingBitsAgree(a, b, n) {
      forall i, j | 0 <= i < |a| && 0 <= j < n - 8 * i && j < 8
        ensures BitAgrees(a[i], b[i], j)
      {
        BitsInByte(a, b, i, j);
      }
    }
    if forall i :: 0 <= i < |a| ==> ByteBitsAgree(a[i], b[i], n - 8 * i) {
      forall i | 0 <= i < n
        ensures Bit(a, i) == Bit(b, i)
      {
        assert ByteBitsAgree(a[i / 8], b[i / 8], n - 8 * (i / 8));
        BitsInByte(a, b, i / 8, i % 8);
      }
    }
  }

  /** The address as its family sees it. */
  function Family(ip: IP, bits: nat): IP {
    if bits == 32 && To4(ip).Some? then To4(ip).value else ip
  }

  ghost predicate OfFamily(ip: IP, bits: nat) {
    if bits == 32 then To4(ip).Some? else bits == 128 && |ip| == 16
  }

  /** The match is exactly the coincidence of the leading bits. */
  lemma MatchIsPrefixEquality(a: IP, b: IP, cidr: string, bits: nat)
    requires OfFamily(a, bits) && OfFamily(b, bits)
    ensures IpMatchBits(a, b, cidr, bits) <==>
              Atoi(cidr).Some? && 0 <= Atoi(cidr).value <= bits
              && LeadingBitsAgree(Family(a, bits), Family(b, bits), Atoi(cidr).value)
  {
    if Atoi(cidr).Some? && 0 <= Atoi(cidr).value <= bits {
      MaskedIsLeadingBits(Family(a, bits), Family(b, bits), Atoi(cidr).value, bits);
    }
  }

  /** For each prefix length the match is an equivalence relation. */
  lemma MatchIsEquivalence(a: IP, b: IP, c: IP, cidr: string, bits: nat)
    requires OfFamily(a, bits) && OfFamily(b, bits) && OfFamily(c, bits)
    requires Atoi(cidr).Some? && 0 <= Atoi(cidr).value <= bits
    ensures IpMatchBits(a, a, cidr, bits)
    ensures IpMatchBits(a, b, cidr, bits) ==> IpMatchBits(b, a, cidr, bits)
    ensures IpMatchBits(a, b, cidr, bits) && IpMatchBits(b, c, cidr, bits) ==> IpMatchBits(a, c, cidr, bits)
  {
  }

  /** A match at one prefix length implies a match at every shorter one. */
  lemma MatchIsMonotone(a: IP, b: IP, long: string, short: string, bits: nat)
    requires OfFamily(a, bits) && OfFamily(b, bits) && IpMatchBits(a, b, long, bits)
    requires Atoi(short).Some? && 0 <= Atoi(short).value <= Atoi(long).value
    ensures IpMatchBits(a, b, short, bits)
  {
    MatchIsPrefixEquality(a, b, long, bits);
    MatchIsPrefixEquality(a, b, short, bits);
  }

  lemma WholeByte(x: bv8, y: bv8)
    requires MaskAgrees(x, y, 8)
    ensures x == y
  {
    assert x & 0xff == x && y & 0xff == y;
  }

  lemma AllBitsAgree(a: IP, b: IP)
    requires |a| == |b| && LeadingBitsAgree(a, b, 8 * |a|)
    ensures a == b
  {
    hide MaskAgrees, BitAgrees, LeadingBitsAgree;
    BytesToBits(a, b, 8 * |a|);
    forall i | 0 <= i < |a|
      ensures a[i] == b[i]
    {
      assert ByteBitsAgree(a[i], b[i], 8 * |a| - 8 * i);
      MaskedByteIsBits(a[i], b[i], 8);
      WholeByte(a[i], b[i]);
    }
  }

  lemma V4Unique(a: IP, b: IP)
    requires To4(a).Some? && To4(b).Some?
    ensures To4(a).value == To4(b).value <==> Equal(a, b)
  {
    if |a| == 16 && |b| == 16 && a[12..] == b[12..] {
      assert a == a[..12] + a[12..] && b == b[..12] + b[12..];
      assert a[..12] == b[..12];
    }
  }

  /** At full width the match is address equality. */
  lemma FullWidthIsEquality(a: IP, b: IP, cidr: string, bits: nat)
    requires OfFamily(a, bits) && OfFamily(b, bits) && Atoi(cidr) == Some(bits as int)
    ensures IpMatchBits(a, b, cidr, bits) <==> Equal(a, b)
  {
    MatchIsPrefixEquality(a, b, cidr, bits);
    var fa, fb := Family(a, bits), Family(b, bits);
    if LeadingBitsAgree(fa, fb, bits) {
      AllBitsAgree(fa, fb);
    }
    if bits == 32 {
      V4Unique(a, b);
    }
  }

  /** A bare argument matches like one with the full prefix length. */
  lemma BareNetworkIsFullWidth(addr: IP, peer: IP, cidr: string)
    requires |addr| == 4 || |addr| == 16
    requires |peer| == 4 || |peer| == 16
    requires cidr != "" && Atoi(cidr) == Some(if To4(addr).Some? then 32 else 128)
    ensures IpMatchNetwork(addr, peer, cidr) == IpMatchNetwork(addr, peer, "")
  {
    if To4(addr).Some? == To4(peer).Some? {
      FullWidthIsEquality(addr, peer, cidr, if To4(addr).Some? then 32 else 128);
    }
  }

  // ---- what an argument names ----

  lemma {:induction false} NumeralValue(n: nat)
    ensures IsDigits(Decimal(n)) && DigitsValue(Decimal(n)) == n
  {
    var s := Decimal(n);
    if n >= 10 {
      NumeralValue(n / 10);
      assert s[..|s| - 1] == Decimal(n / 10);
    }
  }

  lemma UnsignedValue(s: string)
    requires IsDigits(s)
    ensures Atoi(s) == Some(DigitsValue(s) as int)
  {
    hide DigitsValue;
  }

  lemma SignedValue(sign: char, s: string)
    requires IsDigits(s) && (sign == '-' || sign == '+')
    ensures Atoi([sign] + s) == Some(if sign == '-' then -(DigitsValue(s) as int) else DigitsValue(s) as int)
  {
    hide DigitsValue;
    assert ([sign] + s)[1..] == s;
  }

  /** A decimal numeral is read as its number, negated after a minus sign. */
  lemma AtoiReadsNumerals(n: nat)
    ensures Atoi(Decimal(n)) == Some(n as int)
    ensures Atoi("-" + Decimal(n)) == Some(-(n as int)) && Atoi("+" + Decimal(n)) == Some(n as int)
  {
    hide Atoi, DigitsValue, IsDigits;
    NumeralValue(n);
    UnsignedValue(Decimal(n));
    SignedValue('-', Decimal(n));
    SignedValue('+', Decimal(n));
  }

  /** Only digits, after at most one sign, are read as a number. */
  lemma AtoiRefuses(s: string)
    ensures Atoi(s).Some? <==> IsDigits(s) || (s != "" && s[0] in "+-" && IsDigits(s[1..]))
  {
    hide DigitsValue;
    if s != "" && s[0] in "+-" {
      assert !IsDigits(s);
    }
  }

  function Mapped(v4: IP): IP {
    [0, 0, 0, 0, 0, 0, 0, 0, 0, 0, 0xff, 0xff] + v4
  }

  /** An IPv4 address has two forms, the bare one and the IPv4-mapped one. */
  lemma V4Forms(ip: IP, v4: IP)
    requires |v4| == 4
    ensures To4(ip) == Some(v4) <==> ip == v4 || ip == Mapped(v4)
  {
    if V4Mapped(ip) {
      assert ip == ip[..12] + ip[12..];
    }
  }

  /** The address belongs to the family of 32 or of 128 bits. */
  predicate InFamily(ip: IP, bits: nat) {
    if bits == 32 then To4(ip).Some? else bits == 128 && |ip| == 16 && To4(ip).None?
  }

  /** The two addresses are of the family and share its leading bits: as many as
      the prefix says, all of them when there is none. */
  ghost predicate SameNetwork(a: IP, b: IP, cidr: string, bits: nat) {
    && InFamily(a, bits) && InFamily(b, bits)
    && (cidr == "" || Atoi(cidr).Some?)
    && var n := if cidr == "" then bits as int else Atoi(cidr).value;
       0 <= n <= bits && LeadingBitsAgree(Family(a, bits), Family(b, bits), n)
  }

  predicate IsAddress(ip: IP) {
    |ip| == 4 || |ip| == 16
  }

  /** What every reader of addresses returns: 4 or 16 bytes. */
  ghost predicate ReadsAddresses(parse: string -> Option<IP>) {
    forall s :: parse(s).Some? ==> IsAddress(parse(s).value)
  }

  lemma EqualIsAllBits(a: IP, b: IP, bits: nat)
    requires (bits == 32 || bits == 128) && InFamily(a, bits) && InFamily(b, bits)
    ensures Equal(a, b) <==> SameNetwork(a, b, "", bits)
  {
    hide Equal, LeadingBitsAgree, DigitsValue, V4Mapped;
    AtoiReadsNumerals(bits);
    FullWidthIsEquality(a, b, Decimal(bits), bits);
    MatchIsPrefixEquality(a, b, Decimal(bits), bits);
  }

  lemma MatchBitsIsNetwork(a: IP, b: IP, cidr: string, bits: nat)
    requires (bits == 32 || bits == 128) && InFamily(a, bits) && InFamily(b, bits) && cidr != ""
    ensures IpMatchBits(a, b, cidr, bits) <==> SameNetwork(a, b, cidr, bits)
  {
    hide IpMatchBits, LeadingBitsAgree, Atoi, V4Mapped;
    MatchIsPrefixEquality(a, b, cidr, bits);
  }

  lemma {:induction false} SplitAtSlash(spec: string, rest: string)
    requires '/' !in spec
    ensures SplitCidr(spec) == (spec, "") && SplitCidr(spec + "/" + rest) == (spec, rest)
  {
    var arg := spec + "/" + rest;
    if spec == "" {
      assert arg[1..] == rest;
    } else {
      SplitAtSlash(spec[1..], rest);
      assert arg[1..] == spec[1..] + "/" + rest && arg[0] == spec[0];
      assert spec == [spec[0]] + spec[1..];
    }
  }

  /** The argument that names the network: the address, then a slash and the
      prefix length unless it is left out. */
  function Argument(spec: string, cidr: Option<string>): string {
    match cidr
    case None => spec
    case Some(length) => spec + "/" + length
  }

  function PrefixOf(cidr: Option<string>): string {
    match cidr
    case None => ""
    case Some(length) => length
  }

  lemma ArgumentSplits(spec: string, cidr: Option<string>)
    requires '/' !in spec
    ensures SplitCidr(Argument(spec, cidr)) == (spec, PrefixOf(cidr))
  {
    SplitAtSlash(spec, PrefixOf(cidr));
  }

  /** An ip4 or ip6 argument matches exactly the peers of its network. */
  lemma IpMatchIsNetwork(parse: string -> Option<IP>, spec: string, cidr: Option<string>, peer: string, bits: nat)
    requires '/' !in spec && ReadsAddresses(parse) && (bits == 32 || bits == 128)
    ensures IpMatch(parse, Argument(spec, cidr), peer, bits) <==>
              && parse(spec).Some? && parse(peer).Some?
              && SameNetwork(parse(spec).value, parse(peer).value, PrefixOf(cidr), bits)
  {
    hide SplitCidr, Equal, IpMatchBits, LeadingBitsAgree, Atoi, V4Mapped, Argument, SameNetwork;
    ArgumentSplits(spec, cidr);
    if parse(spec).Some? && parse(peer).Some? {
      PairIsNetwork(parse(spec).value, parse(peer).value, PrefixOf(cidr), bits);
    }
  }

  lemma PairIsNetwork(a: IP, b: IP, cidr: string, bits: nat)
    requires IsAddress(a) && IsAddress(b) && (bits == 32 || bits == 128)
    ensures SameNetwork(a, b, cidr, bits) ==> InFamily(a, bits) && InFamily(b, bits)
    ensures InFamily(a, bits) && InFamily(b, bits) ==>
              (SameNetwork(a, b, cidr, bits) <==> if cidr == "" then Equal(a, b) else IpMatchBits(a, b, cidr, bits))
  {
    hide Equal, IpMatchBits, LeadingBitsAgree, Atoi, V4Mapped;
    if InFamily(a, bits) && InFamily(b, bits) {
      if cidr == "" {
        EqualIsAllBits(a, b, bits);
      } else {
        MatchBitsIsNetwork(a, b, cidr, bits);
      }
    }
  }

  lemma MixedFamiliesDiffer(a: IP, b: IP)
    requires IsAddress(a) && IsAddress(b) && To4(a).Some? != To4(b).Some?
    ensures !Equal(a, b)
  {
  }

  /** An address of an `a` or `mx` host matches exactly the peers of its network. */
  lemma NetworkMatchIsNetwork(a: IP, b: IP, cidr: string)
    requires IsAddress(a) && IsAddress(b)
    ensures IpMatchNetwork(a, b, cidr) <==> SameNetwork(a, b, cidr, 32) || SameNetwork(a, b, cidr, 128)
  {
    hide Equal, IpMatchBits, LeadingBitsAgree, Atoi, V4Mapped, SameNetwork;
    PairIsNetwork(a, b, cidr, 32);
    PairIsNetwork(a, b, cidr, 128);
    if To4(a).Some? != To4(b).Some? {
      MixedFamiliesDiffer(a, b);
    }
  }
}
