/** The net-rule vocabulary shared by the appliers: protocols, IPv4 and port ranges, their
 *  firewall-rule renderings, and the split of an IPv4 range into aligned CIDR blocks
 *  (CIDR notation as in section 3.1 of RFC 4632). */
module NetRules {
  import opened Text

  /** `netrules.Protocol`, a `uint8`; the four named values are an `iota` enumeration. */
  type Protocol = p: int | 0 <= p < 256
  const PROTOCOL_ALL: Protocol := 0
  const PROTOCOL_TCP: Protocol := 1
  const PROTOCOL_UDP: Protocol := 2
  const PROTOCOL_ICMP: Protocol := 3

  type Byte = b: int | 0 <= b < 256
  type Uint16 = x: int | 0 <= x < 0x1_0000
  type Uint32 = x: int | 0 <= x < 0x1_0000_0000

  const MAX_ADDRESS: Uint32 := 0xFFFF_FFFF

  /** An IPv4 address (`net.IP` holding four octets). */
  datatype IPv4 = IPv4(a: Byte, b: Byte, c: Byte, d: Byte)

  datatype IPRange = IPRange(start: IPv4, end: IPv4)
  datatype PortRange = PortRange(start: Uint16, end: Uint16)

  datatype NetIn = NetIn(hostPort: Uint32, containerPort: Uint32)
  datatype NetOut = NetOut(protocol: Protocol, networks: seq<IPRange>, ports: seq<PortRange>)
  datatype PortMapping = PortMapping(hostPort: Uint32, containerPort: Uint32)

  /** `ipToUint`: the octets read big-endian. */
  function IpToUint(ip: IPv4): (x: Uint32)
  {
    ((ip.a * 0x100 + ip.b) * 0x100 + ip.c) * 0x100 + ip.d
  }

  /** The octets of a 32-bit value, most significant first, as `cidrFromIntMask` extracts them. */
  function Octets(x: Uint32): IPv4
  {
    var d := x % 0x100;
    var x1 := x / 0x100;
    var c := x1 % 0x100;
    var x2 := x1 / 0x100;
    IPv4(x2 / 0x100, x2 % 0x100, c, d)
  }

  lemma DivMod256(q: nat, r: nat)
    requires r < 0x100
    ensures (q * 0x100 + r) / 0x100 == q && (q * 0x100 + r) % 0x100 == r
  {
  }

  lemma Recompose256(x: nat)
    ensures (x / 0x100) * 0x100 + x % 0x100 == x
  {
  }

  /** Reading an address big-endian and splitting it back into octets are inverse. */
  lemma OctetsRoundTrip(ip: IPv4, x: Uint32)
    ensures Octets(IpToUint(ip)) == ip
    ensures IpToUint(Octets(x)) == x
  {
    var ab := ip.a * 0x100 + ip.b;
    var abc := ab * 0x100 + ip.c;
    DivMod256(abc, ip.d);
    DivMod256(ab, ip.c);
    DivMod256(ip.a, ip.b);
    var x1 := x / 0x100;
    var x2 := x1 / 0x100;
    Recompose256(x);
    Recompose256(x1);
    Recompose256(x2);
    assert x2 < 0x1_0000 && x2 / 0x100 < 0x100;
  }

  /** `net.IP.String` of an IPv4 address: dotted decimal. */
  function IPString(ip: IPv4): (s: string)
    ensures StartsWith(s, Decimal(ip.a) + ".")
  {
    Decimal(ip.a) + "." + Decimal(ip.b) + "." + Decimal(ip.c) + "." + Decimal(ip.d)
  }

  /** `IPRange.String` / `PortRange.String`: "<start>-<end>". */
  function IPRangeString(r: IPRange): string
  {
    IPString(r.start) + "-" + IPString(r.end)
  }

  function PortRangeString(r: PortRange): string
  {
    Decimal(r.start) + "-" + Decimal(r.end)
  }

  /** A port range renders as its two bounds around one '-', and so a single port p reads "p-p". */
  lemma PortRangeRendering(r: PortRange)
    ensures Split(PortRangeString(r), '-') == [Decimal(r.start), Decimal(r.end)]
    ensures r.start == r.end ==> PortRangeString(r) == Decimal(r.start) + "-" + Decimal(r.start)
  {
    var s := Decimal(r.start);
    var e := Decimal(r.end);
    NoDash(s);
    NoDash(e);
    assert PortRangeString(r) == s + "-" + e;
    assert '-' in s + "-" + e by { assert (s + "-" + e)[|s|] == '-'; }
    assert (s + "-" + e)[..|s|] == s;
    IndexOfAfterPrefix(s, e);
    assert (s + "-" + e)[|s| + 1..] == e;
  }

  lemma NoDash(s: string)
    requires AllDigits(s)
    ensures '-' !in s
  {
    forall i | 0 <= i < |s|
      ensures s[i] != '-'
    {
      assert IsDigit(s[i]);
    }
  }

  lemma IndexOfAfterPrefix(s: string, e: string)
    requires '-' !in s
    ensures '-' in s + "-" + e && IndexOf(s + "-" + e, '-') == |s|
    decreases |s|
  {
    assert (s + "-" + e)[|s|] == '-';
    if |s| > 0 {
      assert (s + "-" + e)[1..] == s[1..] + "-" + e;
      IndexOfAfterPrefix(s[1..], e);
    }
  }

  /** `firewallRuleIPRange` / `firewallRulePortRange`: the element strings joined by ",", in order. */
  function FirewallRuleIPRange(networks: seq<IPRange>): (s: string)
    ensures |networks| == 0 ==> s == ""
    ensures |networks| == 1 ==> s == IPRangeString(networks[0])
  {
    Join(seq(|networks|, i requires 0 <= i < |networks| => IPRangeString(networks[i])), ",")
  }

  function FirewallRulePortRange(ports: seq<PortRange>): (s: string)
    ensures |ports| == 0 ==> s == ""
    ensures |ports| == 1 ==> s == PortRangeString(ports[0])
  {
    Join(seq(|ports|, i requires 0 <= i < |ports| => PortRangeString(ports[i])), ",")
  }

  /** Adding a range appends "," and its rendering: input order is kept. */
  lemma PortRangeListAppend(ports: seq<PortRange>, p: PortRange)
    requires |ports| >= 1
    ensures FirewallRulePortRange(ports + [p]) == FirewallRulePortRange(ports) + "," + PortRangeString(p)
  {
    var strs := seq(|ports|, i requires 0 <= i < |ports| => PortRangeString(ports[i]));
    assert seq(|ports + [p]|, i requires 0 <= i < |ports + [p]| => PortRangeString((ports + [p])[i])) == strs + [PortRangeString(p)];
    JoinSnoc(strs, PortRangeString(p), ",");
  }

  lemma IPRangeListAppend(networks: seq<IPRange>, n: IPRange)
    requires |networks| >= 1
    ensures FirewallRuleIPRange(networks + [n]) == FirewallRuleIPRange(networks) + "," + IPRangeString(n)
  {
    var strs := seq(|networks|, i requires 0 <= i < |networks| => IPRangeString(networks[i]));
    assert seq(|networks + [n]|, i requires 0 <= i < |networks + [n]| => IPRangeString((networks + [n])[i])) == strs + [IPRangeString(n)];
    JoinSnoc(strs, IPRangeString(n), ",");
  }

  // ---------------------------------------------------------------------------------------
  // CIDR blocks. `bitMask(len)` is `0xffffffff << (32 - len)` on a uint32, so its value is
  // 2^32 - 2^(32 - len) (a shift by 32 gives 0). `x & bitMask(len)` clears the low 32 - len
  // bits and `| ^bitMask(len)` sets them; the model computes those values bit by bit.
  // ---------------------------------------------------------------------------------------

  function Pow2(n: nat): (r: nat)
    ensures r >= 1
  {
    if n == 0 then 1 else 2 * Pow2(n - 1)
  }

  /** A prefix length: the `maskLen` of `IPRangeToCIDRs`, between 0 and 32. */
  type PrefixLen = l: int | 0 <= l <= 32

  /** The number of addresses in a block with prefix `len`. */
  function Size(len: PrefixLen): (n: nat)
    ensures 1 <= n <= 0x1_0000_0000
    ensures len < 32 ==> n >= 2
    ensures len == 0 ==> n == 0x1_0000_0000
  {
    Pow2Of32();
    Pow2Monotone(32 - len, 32);
    Pow2Monotone(if len < 32 then 1 else 0, 32 - len);
    Pow2(32 - len)
  }

  /** The uint32 value of `bitMask(len)`. */
  function BitMask(len: PrefixLen): (m: nat)
    ensures m < 0x1_0000_0000
    ensures len == 0 ==> m == 0
  {
    0x1_0000_0000 - Size(len)
  }

  lemma Pow2Of32()
    ensures Pow2(32) == 0x1_0000_0000
  {
    assert Pow2(8) == 256;
    assert Pow2(16) == 256 * 256 by { Pow2Add(8, 8); }
    Pow2Add(16, 16);
  }

  lemma {:induction false} Pow2Add(a: nat, b: nat)
    ensures Pow2(a + b) == Pow2(a) * Pow2(b)
    decreases a
  {
    if a > 0 {
      Pow2Add(a - 1, b);
    }
  }

  lemma {:induction false} Pow2Monotone(a: nat, b: nat)
    requires a <= b
    ensures Pow2(a) <= Pow2(b)
    decreases b
  {
    if a < b {
      Pow2Monotone(a, b - 1);
    }
  }

  /** For every prefix length, `BitMask` is the uint32 value of `0xffffffff << (32 - len)`, and that
   *  value is `len` one bits followed by `32 - len` zero bits. */
  lemma BitMaskShape(len: PrefixLen)
    ensures BitMask(len) == (0xFFFF_FFFF * Pow2(32 - len)) % 0x1_0000_0000
    ensures BitMask(len) == (Pow2(len) - 1) * Pow2(32 - len)
  {
    var p := Pow2(32 - len);
    assert Size(len) == p;
    ModWord(p - 1, 0x1_0000_0000 - p);
    Pow2Of32();
    Pow2Add(len, 32 - len);
    MulPred(Pow2(len), p);
  }

  /** Adding a multiple of 2^32 does not change the remainder modulo 2^32. */
  lemma ModWord(q: nat, r: nat)
    requires r < 0x1_0000_0000
    ensures (0x1_0000_0000 * q + r) % 0x1_0000_0000 == r
    ensures 0xFFFF_FFFF * (q + 1) == 0x1_0000_0000 * q + (0x1_0000_0000 - q - 1)
  {
  }

  lemma MulPred(a: nat, b: nat)
    requires a >= 1
    ensures (a - 1) * b == a * b - b
  {
  }

  /** `first(start, len)`: start with its low 32 - len bits cleared. */
  function First(start: nat, len: PrefixLen): (f: nat)
    ensures f <= start && start - f < Size(len)
    decreases 32 - len
  {
    if len == 32 then start else 2 * First(start / 2, len + 1)
  }

  /** `last(start, len)`: start with its low 32 - len bits set. */
  function Last(start: nat, len: PrefixLen): (l: nat)
    ensures First(start, len) <= start <= l
    ensures l - First(start, len) == Size(len) - 1
  {
    First(start, len) + Size(len) - 1
  }

  /** A block `base/len`: the addresses base .. base + 2^(32-len) - 1. */
  datatype Block = Block(base: nat, len: PrefixLen)

  /** The last address of the block: for an aligned block this is `last(base, len)`. */
  function BlockLast(b: Block): (l: nat)
    ensures b.base <= l
  {
    b.base + Size(b.len) - 1
  }

  /** The block is aligned: its base is the first address of the `len` block that holds it. */
  predicate Aligned(b: Block)
  {
    b.base == First(b.base, b.len)
  }

  /** No wider aligned block starting at the same base fits before `end`. */
  predicate Largest(b: Block, end: nat)
  {
    b.len == 0 || b.base != First(b.base, b.len - 1) || end < Last(b.base, b.len - 1)
  }

  /** The block is aligned, ends by `end`, and is the largest such block at its base. */
  predicate Fits(b: Block, end: nat)
  {
    Aligned(b) && BlockLast(b) <= end && Largest(b, end)
  }

  /** Each block starts right after the previous one ends. */
  predicate Contiguous(r: seq<Block>)
  {
    |r| <= 1 || (BlockLast(r[0]) + 1 == r[1].base && Contiguous(r[1..]))
  }

  /** Every block fits before `end`. */
  predicate AllFit(r: seq<Block>, end: nat)
  {
    |r| == 0 || (Fits(r[0], end) && AllFit(r[1..], end))
  }

  lemma {:induction false} AllFitAt(r: seq<Block>, end: nat, i: nat)
    requires AllFit(r, end) && i < |r|
    ensures Fits(r[i], end)
    decreases i
  {
    if i > 0 {
      AllFitAt(r[1..], end, i - 1);
    }
  }

  /** The inner loop of `IPRangeToCIDRs`: shrink the prefix from `m` while the block one bit
   *  wider is still aligned at `start` and ends by `end`. */
  function MaskLen(start: nat, end: nat, m: PrefixLen): (ml: PrefixLen)
    ensures ml <= m
    decreases m
  {
    if m == 0 then 0
    else if start != First(start, m - 1) || end < Last(start, m - 1) then m
    else MaskLen(start, end, m - 1)
  }

  /** Started from an aligned block that fits, the inner loop stops at an aligned block that
   *  fits and that cannot be widened. */
  lemma {:induction false} MaskLenFits(start: nat, end: nat, m: PrefixLen)
    requires start == First(start, m) && Last(start, m) <= end
    ensures var ml := MaskLen(start, end, m);
            Aligned(Block(start, ml)) && Last(start, ml) <= end && Largest(Block(start, ml), end)
    decreases m
  {
    if m > 0 && start == First(start, m - 1) && Last(start, m - 1) <= end {
      MaskLenFits(start, end, m - 1);
    }
  }

  /** The 32-bit block at `start` is always aligned: the inner loop's starting point. */
  lemma HostBlock(start: nat)
    ensures First(start, 32) == start && Last(start, 32) == start
  {
    assert Size(32) == 1;
  }

  /** One pass of the inner loop of `IPRangeToCIDRs`: the block it emits at `start`. */
  function NextBlock(start: nat, end: nat): (b: Block)
    requires start <= end
    ensures b.base == start && BlockLast(b) <= end
    ensures BlockLast(b) == Last(start, b.len)
  {
    HostBlock(start);
    MaskLenFits(start, end, 32);
    Block(start, MaskLen(start, end, 32))
  }

  /** The block emitted at `start` is aligned, ends by `end`, and no wider one would. */
  lemma NextBlockFits(start: nat, end: nat)
    requires start <= end
    ensures Fits(NextBlock(start, end), end)
  {
    HostBlock(start);
    MaskLenFits(start, end, 32);
  }

  /** A rule choosing the block to emit at each `start`. */
  type Chooser = (nat, nat) -> Block

  /** The chooser emits, for `start <= end`, a block that begins at `start` and ends by `end`. */
  ghost predicate Chooses(next: Chooser)
  {
    forall s: nat, e: nat {:trigger next(s, e)} :: s <= e ==> next(s, e).base == s && BlockLast(next(s, e)) <= e
  }

  /** The chooser's blocks also fit: aligned and as large as possible. */
  ghost predicate ChoosesFitting(next: Chooser)
  {
    forall s: nat, e: nat {:trigger next(s, e)} :: s <= e ==> Fits(next(s, e), e)
  }

  /** The outer loop of `IPRangeToCIDRs`: emit the chosen block at `start`, then continue after
   *  it, stopping once a block reaches 0xffffffff. */
  function Chain(start: Uint32, end: Uint32, next: Chooser): (r: seq<Block>)
    requires Chooses(next)
    ensures start > end <==> |r| == 0
    ensures |r| > 0 ==> r[0] == next(start, end)
    decreases 0x1_0000_0000 - start
  {
    if start > end then []
    else
      var b := next(start, end);
      if BlockLast(b) == MAX_ADDRESS then [b]
      else [b] + Chain(BlockLast(b) + 1, end, next)
  }

  /** The block `IPRangeToCIDRs` emits at `start` (the `if` only makes the chooser total). */
  function LargestBlock(start: nat, end: nat): Block
  {
    if start <= end then NextBlock(start, end) else Block(start, 32)
  }

  lemma LargestBlockChooses()
    ensures Chooses(LargestBlock) && ChoosesFitting(LargestBlock)
  {
    forall s: nat, e: nat | s <= e
      ensures Fits(LargestBlock(s, e), e)
    {
      NextBlockFits(s, e);
    }
  }

  /** `IPRangeToCIDRs` on the numeric addresses. */
  function Cidrs(start: Uint32, end: Uint32): (r: seq<Block>)
    ensures start > end <==> |r| == 0
    ensures |r| > 0 ==> r[0].base == start
  {
    LargestBlockChooses();
    Chain(start, end, LargestBlock)
  }

  /** The last of the blocks ends at `end` (vacuous for no blocks). */
  predicate EndsAt(r: seq<Block>, end: nat)
  {
    |r| > 0 ==> BlockLast(r[|r| - 1]) == end
  }

  /** The last block of the chain ends exactly at `end`. */
  lemma {:induction false} ChainEnd(start: Uint32, end: Uint32, next: Chooser)
    requires Chooses(next)
    ensures EndsAt(Chain(start, end, next), end)
    decreases 0x1_0000_0000 - start
  {
    var r := Chain(start, end, next);
    if start <= end {
      var b := next(start, end);
      var l := BlockLast(b);
      if l != MAX_ADDRESS {
        var rest := Chain(l + 1, end, next);
        ChainEnd(l + 1, end, next);
        assert r == [b] + rest;
        if |rest| > 0 {
          assert r[|r| - 1] == rest[|rest| - 1];
        } else {
          assert r == [b] && l == end;
        }
      } else {
        assert r == [b] && l == end;
      }
    } else {
      assert r == [];
    }
  }

  /** Each block of the chain starts right after the previous one. */
  lemma {:induction false} ChainContiguous(start: Uint32, end: Uint32, next: Chooser)
    requires Chooses(next)
    ensures Contiguous(Chain(start, end, next))
    decreases 0x1_0000_0000 - start
  {
    var r := Chain(start, end, next);
    if start <= end {
      var b := next(start, end);
      var l := BlockLast(b);
      if l != MAX_ADDRESS {
        var rest := Chain(l + 1, end, next);
        ChainContiguous(l + 1, end, next);
        assert r[1..] == rest;
      }
    }
  }

  /** With a fitting chooser, every block of the chain fits. */
  lemma {:induction false} ChainFit(start: Uint32, end: Uint32, next: Chooser)
    requires Chooses(next) && ChoosesFitting(next)
    ensures AllFit(Chain(start, end, next), end)
    decreases 0x1_0000_0000 - start
  {
    if start <= end {
      var b := next(start, end);
      var l := BlockLast(b);
      assert Fits(b, end);
      if l != MAX_ADDRESS {
        ChainFit(l + 1, end, next);
        AllFitCons(b, Chain(l + 1, end, next), end);
      } else {
        AllFitCons(b, [], end);
      }
    } else {
      assert Chain(start, end, next) == [];
    }
  }

  lemma AllFitCons(b: Block, rest: seq<Block>, end: nat)
    requires Fits(b, end) && AllFit(rest, end)
    ensures AllFit([b] + rest, end)
  {
    assert ([b] + rest)[1..] == rest;
  }

  /** Every block `IPRangeToCIDRs` emits is aligned, ends by `end`, and is the largest such block
   *  at its base. */
  lemma CidrsFit(start: Uint32, end: Uint32)
    ensures AllFit(Cidrs(start, end), end)
  {
    LargestBlockChooses();
    ChainFit(start, end, LargestBlock);
  }

  /** `x` lies in one of the blocks. */
  predicate Covered(blocks: seq<Block>, x: nat)
  {
    |blocks| > 0 && (blocks[0].base <= x <= BlockLast(blocks[0]) || Covered(blocks[1..], x))
  }

  /** Contiguous blocks from `start` to `end` cover exactly [start, end]. */
  lemma {:induction false} ChainCovers(r: seq<Block>, start: nat, end: nat, x: nat)
    requires |r| > 0 && r[0].base == start && EndsAt(r, end)
    requires Contiguous(r)
    ensures start <= end
    ensures Covered(r, x) <==> start <= x <= end
    decreases |r|
  {
    if |r| == 1 {
      assert !Covered(r[1..], x);
    } else {
      var tail := r[1..];
      assert tail[|tail| - 1] == r[|r| - 1];
      ChainCovers(tail, r[1].base, end, x);
    }
  }

  /** Contiguous blocks are strictly ascending, so no two overlap. */
  lemma {:induction false} ChainAscends(r: seq<Block>, i: nat, j: nat)
    requires Contiguous(r)
    requires i < j < |r|
    ensures BlockLast(r[i]) < r[j].base
    decreases |r|
  {
    var tail := r[1..];
    if i > 0 {
      ChainAscends(tail, i - 1, j - 1);
    } else if j > 1 {
      ChainAscends(tail, 0, j - 1);
    }
  }

  /** The blocks cover exactly [start, end], and each address of it lies in only one block. */
  lemma CidrsCoverExactly(start: Uint32, end: Uint32, x: nat)
    ensures Covered(Cidrs(start, end), x) <==> start <= x <= end
    ensures forall i, j :: 0 <= i < j < |Cidrs(start, end)| ==>
              BlockLast(Cidrs(start, end)[i]) < Cidrs(start, end)[j].base
  {
    var r := Cidrs(start, end);
    LargestBlockChooses();
    ChainContiguous(start, end, LargestBlock);
    ChainEnd(start, end, LargestBlock);
    if |r| > 0 {
      ChainCovers(r, start, end, x);
    }
    forall i, j | 0 <= i < j < |r|
      ensures BlockLast(r[i]) < r[j].base
    {
      ChainAscends(r, i, j);
    }
  }

  /** A single address is one /32. */
  lemma CidrsSingle(x: Uint32)
    ensures Cidrs(x, x) == [Block(x, 32)]
  {
    LargestBlockChooses();
    var b := LargestBlock(x, x);
    assert b.len == 32;
    if BlockLast(b) != MAX_ADDRESS {
      assert Chain(x + 1, x, LargestBlock) == [];
    }
  }

  /** The whole address space is the one block 0.0.0.0/0. */
  lemma CidrsWholeSpace(start: Uint32, end: Uint32)
    requires start == 0 && end == MAX_ADDRESS
    ensures Cidrs(start, end) == [Block(0, 0)]
  {
    LargestBlockChooses();
    var b := LargestBlock(start, end);
    assert Fits(b, end);
    LargestAtZero(b);
    TopBlockLast(b);
  }

  lemma TopBlockLast(b: Block)
    requires b == Block(0, 0)
    ensures BlockLast(b) == MAX_ADDRESS
  {
  }

  /** At address 0 every block is aligned and fits below 2^32, so the largest one is /0. */
  lemma LargestAtZero(b: Block)
    requires b.base == 0 && Largest(b, MAX_ADDRESS)
    ensures b.len == 0
  {
  }

  /** `cidrFromIntMask`: "a.b.c.d/len". */
  function CidrString(b: Block): string
    requires b.base < 0x1_0000_0000
  {
    IPString(Octets(b.base)) + "/" + Decimal(b.len)
  }

  /** The strings of the blocks, in order. */
  function CidrStrings(blocks: seq<Block>, end: Uint32): (s: seq<string>)
    requires AllFit(blocks, end)
    ensures |s| == |blocks|
    ensures forall i :: 0 <= i < |blocks| ==> blocks[i].base < 0x1_0000_0000 && s[i] == CidrString(blocks[i])
  {
    if |blocks| == 0 then [] else [CidrString(blocks[0])] + CidrStrings(blocks[1..], end)
  }

  /** `IPRangeToCIDRs`. */
  function IPRangeToCIDRs(r: IPRange): (cidrs: seq<string>)
    ensures |cidrs| == |Cidrs(IpToUint(r.start), IpToUint(r.end))|
    ensures IpToUint(r.start) > IpToUint(r.end) ==> cidrs == []
    ensures forall i :: 0 <= i < |cidrs| ==>
              var b := Cidrs(IpToUint(r.start), IpToUint(r.end))[i];
              b.base < 0x1_0000_0000 && cidrs[i] == IPString(Octets(b.base)) + "/" + Decimal(b.len)
  {
    CidrsFit(IpToUint(r.start), IpToUint(r.end));
    CidrStrings(Cidrs(IpToUint(r.start), IpToUint(r.end)), IpToUint(r.end))
  }
}
