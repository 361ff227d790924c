/**
 Matching an address against a deny list, `isDeniedIP`: prefix comparison on 32-bit and 128-bit
 addresses, with IPv4-mapped IPv6 addresses (section 2.5.5.2 of RFC 4291) turned into IPv4 on both sides.
 */
module AddressDenyList {

  function Pow2(n: nat): (p: nat)
    ensures p > 0
  {
    if n == 0 then 1 else 2 * Pow2(n - 1)
  }

  const V4_SIZE: nat := 0x1_0000_0000

  type Number32 = n: nat | n < V4_SIZE

  type Number128 = n: nat | n < V4_SIZE * V4_SIZE * V4_SIZE * V4_SIZE

  datatype Address = V4(v4: Number32) | V6(v6: Number128) {
    /** An IPv6 address of the form ::ffff:a.b.c.d. */
    predicate IsMapped() { V6? && v6 / V4_SIZE == 0xFFFF }

    function Normalised(): Address {
      if IsMapped() then V4(v6 % V4_SIZE) else this
    }

    function Width(): nat { if V4? then 32 else 128 }

    function Number(): nat { if V4? then v4 else v6 }
  }

  /** A deny list entry after parsing: a range with its prefix length, one address, or text that is neither. */
  datatype Entry =
    | Cidr(range: Address, prefix: nat)
    | BadCidr
    | Single(address: Address)
    | Name(text: string)
  {
    /** The CIDR parser accepts no prefix longer than the address. */
    predicate WellFormed() { Cidr? ==> prefix <= range.Width() }
  }

  /** An entry as the parsers deliver it. */
  type Rule = e: Entry | e.WellFormed() witness BadCidr

  /** A CIDR entry as the parser delivers it. */
  type CidrRule = e: Entry | e.Cidr? && e.WellFormed() witness Cidr(V4(0), 0)

  type Positive = n: nat | 0 < n witness 1

  /** The first `prefix` bits of two addresses of `width` bits agree. */
  predicate SamePrefix(a: nat, b: nat, width: nat, prefix: nat)
    requires prefix <= width
  {
    a / Pow2(width - prefix) == b / Pow2(width - prefix)
  }

  datatype Verdict = Allowed | Denied | Failed

  /** The verdict of one entry on a normalised address. */
  function Judge(ip: Address, e: Rule): Verdict
  {
    match e
    case Cidr(range, prefix) =>
      if range.IsMapped() && prefix < 96 then Allowed
      else
        var r, k := range.Normalised(), if range.IsMapped() then prefix - 96 else prefix;
        if ip.V4? == r.V4? && SamePrefix(ip.Number(), r.Number(), ip.Width(), k) then Denied else Allowed
    case BadCidr => Failed
    case Single(address) => if ip == address.Normalised() then Denied else Allowed
    case Name(_) => Allowed   // the text of an address is never the text of a name
  }

  /** The first entry that does not let the address pass decides. */
  function JudgeAll(ip: Address, entries: seq<Rule>): Verdict
  {
    if entries == [] then Allowed
    else if Judge(ip, entries[0]) != Allowed then Judge(ip, entries[0])
    else JudgeAll(ip, entries[1..])
  }

  method IsDeniedIP(ip: Address, denyList: seq<Rule>) returns (verdict: Verdict)
    ensures verdict == JudgeAll(ip.Normalised(), denyList)
  {
    var parsedIp := ip;
    if parsedIp.V6? && parsedIp.IsMapped() {
      parsedIp := V4(parsedIp.v6 % V4_SIZE);
    }
    for i := 0 to |denyList|
      invariant JudgeAll(parsedIp, denyList[i..]) == JudgeAll(ip.Normalised(), denyList)
    {
      assert denyList[i..][0] == denyList[i] && denyList[i..][1..] == denyList[i + 1..];
      match denyList[i]
      case BadCidr => return Failed;
      case Cidr(rangeAddr, mask) =>
        var parsedRange, adjustedMask := rangeAddr, mask;
        if parsedRange.V6? && parsedRange.IsMapped() {
          if mask < 96 { continue; }
          parsedRange := V4(parsedRange.v6 % V4_SIZE);
          adjustedMask := adjustedMask - 96;
        }
        if parsedIp.V4? == parsedRange.V4? {
          if SamePrefix(parsedIp.Number(), parsedRange.Number(), parsedIp.Width(), adjustedMask) { return Denied; }
        }
      case Single(address) =>
        var parsedEntry := address;
        if parsedEntry.V6? && parsedEntry.IsMapped() {
          parsedEntry := V4(parsedEntry.v6 % V4_SIZE);
        }
        if parsedIp == parsedEntry { return Denied; }
      case Name(_) =>
    }
    verdict := Allowed;
  }

  // ---------------------------------------------------------------- one number line

  /** The address as a 128-bit number; IPv4 takes the place of its mapped form. */
  function Embedded(a: Address): nat {
    match a
    case V4(n) => 0xFFFF * V4_SIZE + n
    case V6(n) => n
  }

  function EmbeddedPrefix(range: Address, prefix: nat): nat { if range.V4? then 96 + prefix else prefix }

  lemma {:induction false} Pow2Add(a: nat, b: nat)
    ensures Pow2(a + b) == Pow2(a) * Pow2(b)
    decreases a
  {
    if a > 0 {
      Pow2Add(a - 1, b);
      assert Pow2(a + b) == 2 * Pow2((a - 1) + b);
      assert 2 * (Pow2(a - 1) * Pow2(b)) == (2 * Pow2(a - 1)) * Pow2(b);
    }
  }

  lemma Pow2Of32()
    ensures Pow2(32) == V4_SIZE
  {
    assert Pow2(8) == 256;
    Pow2Add(8, 8);
    Pow2Add(16, 16);
  }

  lemma MulAway(x: int, p: int)
    requires p >= 0
    ensures x >= 1 ==> x * p >= p
    ensures x <= -1 ==> x * p <= -p
  {
    assert x >= 1 ==> (x - 1) * p >= 0;
    assert x <= -1 ==> (-x - 1) * p >= 0;
  }

  lemma DivIs(a: nat, p: Positive, q: nat)
    ensures a / p == q <==> q * p <= a < q * p + p
  {
    var d, m := a / p, a % p;
    assert a == d * p + m && 0 <= m < p;
    assert (d - q) * p == d * p - q * p;
    MulAway(d - q, p);
  }

  lemma SameQuotient(a: nat, b: nat, size: Positive)
    ensures
      var low := b / size * size;
      low <= b < low + size && (a / size == b / size <==> low <= a < low + size)
  {
    DivIs(a, size, b / size);
    DivIs(b, size, b / size);
  }

  /** A prefix picks out one interval of numbers: the addresses that agree with it in their first bits. */
  lemma PrefixIsInterval(a: nat, b: nat, width: nat, prefix: nat)
    requires prefix <= width
    ensures
      var size := Pow2(width - prefix);
      var low := b / size * size;
      low <= b < low + size && (SamePrefix(a, b, width, prefix) <==> low <= a < low + size)
  {
    SameQuotient(a, b, Pow2(width - prefix));
  }

  lemma DivShift(c: nat, p: Positive, n: nat)
    ensures (c * p + n) / p == c + n / p
  {
    DivIs(n, p, n / p);
    assert (c + n / p) * p == c * p + n / p * p;
    DivIs(c * p + n, p, c + n / p);
  }

  lemma ShiftedQuotients(c: nat, p: nat, top: nat, a: nat, b: nat)
    requires p > 0 && top == c * p
    ensures a / p == b / p <==> (top + a) / p == (top + b) / p
  {
    DivShift(c, p, a);
    DivShift(c, p, b);
  }

  lemma TopSplits(k: nat)
    requires k <= 32
    ensures 0xFFFF * V4_SIZE == (0xFFFF * Pow2(k)) * Pow2(32 - k)
  {
    Pow2Of32();
    Pow2Add(k, 32 - k);
    Associate(0xFFFF, Pow2(k), Pow2(32 - k));
  }

  lemma Associate(x: nat, y: nat, z: nat)
    ensures x * (y * z) == (x * y) * z
  {
  }

  /** Comparing `k` bits of two IPv4 addresses is comparing `96 + k` bits of their mapped forms. */
  lemma MappedPrefix(a: Number32, b: Number32, k: nat)
    requires k <= 32
    ensures SamePrefix(a, b, 32, k) <==> SamePrefix(Embedded(V4(a)), Embedded(V4(b)), 128, 96 + k)
  {
    TopSplits(k);
    ShiftedQuotients(0xFFFF * Pow2(k), Pow2(32 - k), 0xFFFF * V4_SIZE, a, b);
    assert 128 - (96 + k) == 32 - k;
  }

  /** The interval of an entry: all 128-bit numbers that agree with the range in the first bits. */
  predicate InInterval(n: nat, e: CidrRule)
  {
    SamePrefix(n, Embedded(e.range), 128, EmbeddedPrefix(e.range, e.prefix))
  }

  predicate InMappedBlock(n: nat) { n / V4_SIZE == 0xFFFF }

  lemma NormalisedEmbeds(a: Address)
    ensures Embedded(a.Normalised()) == Embedded(a)
    ensures a.Normalised().V4? <==> InMappedBlock(Embedded(a))
  {
    if a.V4? {
      DivShift(0xFFFF, V4_SIZE, a.v4);
      assert a.v4 / V4_SIZE == 0;
    } else {
      assert a.v6 == a.v6 / V4_SIZE * V4_SIZE + a.v6 % V4_SIZE;
    }
  }

  /** Exactly what a CIDR entry denies, as numbers: its interval, on its own side of the mapped block. */
  lemma CidrDenies(ip: Address, e: CidrRule)
    ensures
      Judge(ip.Normalised(), e) == Denied <==>
        InInterval(Embedded(ip), e) && InMappedBlock(Embedded(ip)) == InMappedBlock(Embedded(e.range)) &&
        !(e.range.IsMapped() && e.prefix < 96)
  {
    NormalisedEmbeds(ip);
    NormalisedEmbeds(e.range);
    var a, r := ip.Normalised(), e.range.Normalised();
    if !(e.range.IsMapped() && e.prefix < 96) && a.V4? && r.V4? {
      MappedPrefix(a.v4, r.v4, if e.range.IsMapped() then e.prefix - 96 else e.prefix);
    }
  }

  /** The entry's interval holds the whole block of mapped addresses and more. */
  predicate CoversMapped(e: CidrRule)
  {
    EmbeddedPrefix(e.range, e.prefix) < 96 && InInterval(0xFFFF * V4_SIZE, e)
  }

  lemma {:induction false} ShorterPrefix(a: nat, b: nat, j: nat, k: nat)
    requires j <= k <= 128 && SamePrefix(a, b, 128, k)
    ensures SamePrefix(a, b, 128, j)
  {
    var p, q := Pow2(128 - k), Pow2(k - j);
    Pow2Add(128 - k, k - j);
    DivDiv(a, p, q);
    DivDiv(b, p, q);
  }

  lemma MulLe(x: int, y: int, p: nat)
    requires x <= y
    ensures x * p <= y * p
  {
    assert (y - x) * p >= 0;
    assert (y - x) * p == y * p - x * p;
  }

  lemma Distribute(x: int, y: int, p: int)
    ensures (x + y) * p == x * p + y * p
  {
  }

  lemma DivDiv(a: nat, p: nat, q: nat)
    requires p > 0 && q > 0
    ensures p * q > 0 && a / (p * q) == a / p / q
  {
    var x := a / p;
    var y := x / q;
    DivIs(a, p, x);
    DivIs(x, q, y);
    MulLe(y * q, x, p);
    MulLe(x + 1, y * q + q, p);
    Distribute(x, 1, p);
    Distribute(y * q, q, p);
    Associate(y, q, p);
    MulAway(q, p);
    assert q * p == p * q;
    DivIs(a, p * q, y);
  }

  lemma MappedBlockIsPrefix(n: nat)
    ensures InMappedBlock(n) <==> SamePrefix(n, 0xFFFF * V4_SIZE, 128, 96)
  {
    Pow2Of32();
    DivShift(0xFFFF, V4_SIZE, 0);
  }

  /** With a prefix of at least 96 an interval lies on one side of the mapped block. */
  lemma LongPrefixOneSide(n: nat, e: CidrRule)
    requires EmbeddedPrefix(e.range, e.prefix) >= 96 && InInterval(n, e)
    ensures InMappedBlock(n) == InMappedBlock(Embedded(e.range))
  {
    ShorterPrefix(n, Embedded(e.range), 96, EmbeddedPrefix(e.range, e.prefix));
    MappedBlockIsPrefix(n);
    MappedBlockIsPrefix(Embedded(e.range));
  }

  lemma MappedAllOrNone(n: nat, e: CidrRule)
    requires EmbeddedPrefix(e.range, e.prefix) < 96 && InMappedBlock(n)
    ensures InInterval(n, e) <==> InInterval(0xFFFF * V4_SIZE, e)
  {
    MappedBlockIsPrefix(n);
    ShorterPrefix(n, 0xFFFF * V4_SIZE, EmbeddedPrefix(e.range, e.prefix), 96);
  }

  /**
   A CIDR entry denies exactly the addresses of its interval (section 3.1 of RFC 4632) if and only if
   the interval does not cover the mapped block: such an entry is not applied to mapped addresses.
   */
  lemma CidrIsInterval(e: CidrRule)
    ensures
      (forall ip: Address :: Judge(ip.Normalised(), e) == Denied <==> InInterval(Embedded(ip), e)) <==> !CoversMapped(e)
  {
    if CoversMapped(e) {
      var ip := V4(0);
      CidrDenies(ip, e);
      NormalisedEmbeds(ip);
      assert !(Judge(ip.Normalised(), e) == Denied <==> InInterval(Embedded(ip), e)) by {
        if InMappedBlock(Embedded(e.range)) { CoveringMappedRange(e); }
      }
    } else {
      forall ip: Address ensures Judge(ip.Normalised(), e) == Denied <==> InInterval(Embedded(ip), e) {
        CidrDenies(ip, e);
        if InInterval(Embedded(ip), e) { IntervalOnOneSide(Embedded(ip), e); }
      }
    }
  }

  /** The entry ::/0 covers every address and denies no IPv4 one. */
  lemma EverythingEntryPassesIPv4(n: Number32)
    ensures
      var all := Cidr(V6(0), 0);
      CoversMapped(all) && InInterval(Embedded(V4(n)), all) && Judge(V4(n), all) == Allowed && Judge(V6(n), all) == Denied
  {
    Pow2Of128();
    DivIs(Embedded(V4(n)), Pow2(128), 0);
    DivIs(n, Pow2(128), 0);
    DivIs(0xFFFF * V4_SIZE, Pow2(128), 0);
  }

  lemma Pow2Of128()
    ensures Pow2(128) == V4_SIZE * V4_SIZE * V4_SIZE * V4_SIZE
  {
    Pow2Of32();
    Pow2Add(32, 32);
    Pow2Add(64, 64);
  }

  lemma CoveringMappedRange(e: CidrRule)
    requires EmbeddedPrefix(e.range, e.prefix) < 96 && InMappedBlock(Embedded(e.range))
    ensures e.range.IsMapped() && e.prefix < 96
  {
  }

  lemma IntervalOnOneSide(n: nat, e: CidrRule)
    requires !CoversMapped(e) && InInterval(n, e)
    ensures InMappedBlock(n) == InMappedBlock(Embedded(e.range)) && !(e.range.IsMapped() && e.prefix < 96)
  {
    if EmbeddedPrefix(e.range, e.prefix) >= 96 {
      LongPrefixOneSide(n, e);
    } else {
      if InMappedBlock(n) { MappedAllOrNone(n, e); }
      if InMappedBlock(Embedded(e.range)) { MappedAllOrNone(Embedded(e.range), e); }
    }
  }

  // ---------------------------------------------------------------- mapped and plain forms

  /** The IPv4 form of a mapped entry: prefix `96 + k` becomes `k`. */
  function PlainForm(e: Rule): Rule {
    match e
    case Cidr(range, prefix) => if range.IsMapped() && prefix >= 96 then Cidr(range.Normalised(), prefix - 96) else e
    case Single(address) => Single(address.Normalised())
    case _ => e
  }

  function PlainForms(entries: seq<Rule>): seq<Rule> {
    if entries == [] then [] else [PlainForm(entries[0])] + PlainForms(entries[1..])
  }

  /** Writing addresses or entries in mapped form changes no verdict, for any list. */
  lemma {:induction false} MappedFormsAgree(a: Address, b: Address, entries: seq<Rule>)
    requires Embedded(a) == Embedded(b)
    ensures JudgeAll(a.Normalised(), entries) == JudgeAll(b.Normalised(), PlainForms(entries))
    decreases |entries|
  {
    SameNormal(a, b);
    if entries != [] {
      MappedFormsAgree(a, b, entries[1..]);
      assert PlainForms(entries)[1..] == PlainForms(entries[1..]);
      assert Judge(a.Normalised(), entries[0]) == Judge(b.Normalised(), PlainForm(entries[0]));
    }
  }

  lemma SameNormal(a: Address, b: Address)
    requires Embedded(a) == Embedded(b)
    ensures a.Normalised() == b.Normalised()
  {
    NormalisedEmbeds(a);
    NormalisedEmbeds(b);
  }

  /** An address passes exactly when every entry lets it pass. */
  lemma {:induction false} AllowedByAll(ip: Address, entries: seq<Rule>)
    ensures JudgeAll(ip, entries) == Allowed <==> forall e :: e in entries ==> Judge(ip, e) == Allowed
    decreases |entries|
  {
    if entries != [] {
      AllowedByAll(ip, entries[1..]);
      assert entries == [entries[0]] + entries[1..];
    }
  }

  // ---------------------------------------------------------------- the whole list

  /** What an entry lets pass, on the number line. */
  predicate Passes(n: nat, e: Rule) {
    match e
    case Cidr(range, prefix) =>
      !InInterval(n, e) || InMappedBlock(n) != InMappedBlock(Embedded(range)) || (range.IsMapped() && prefix < 96)
    case Single(address) => n != Embedded(address)
    case BadCidr => false
    case Name(_) => true
  }

  lemma JudgeIs(ip: Address, e: Rule)
    ensures Judge(ip.Normalised(), e) == if Passes(Embedded(ip), e) then Allowed else if e.BadCidr? then Failed else Denied
  {
    if e.Cidr? {
      CidrDenies(ip, e);
    } else if e.Single? {
      NormalisedEmbeds(ip);
      NormalisedEmbeds(e.address);
      if Embedded(ip) == Embedded(e.address) { SameNormal(ip, e.address); }
    }
  }

  /** The first entry that does not let the number pass. */
  predicate Stops(n: nat, entries: seq<Rule>, i: nat) {
    i < |entries| && !Passes(n, entries[i]) && forall k :: 0 <= k < i ==> Passes(n, entries[k])
  }

  lemma {:induction false} FirstStop(ip: Address, entries: seq<Rule>, i: nat)
    requires Stops(Embedded(ip), entries, i)
    ensures JudgeAll(ip.Normalised(), entries) == if entries[i].BadCidr? then Failed else Denied
    decreases i
  {
    JudgeIs(ip, entries[0]);
    if i > 0 { FirstStop(ip, entries[1..], i - 1); }
  }

  lemma {:induction false} NoStop(ip: Address, entries: seq<Rule>)
    requires forall k :: 0 <= k < |entries| ==> Passes(Embedded(ip), entries[k])
    ensures JudgeAll(ip.Normalised(), entries) == Allowed
    decreases |entries|
  {
    if entries != [] {
      JudgeIs(ip, entries[0]);
      NoStop(ip, entries[1..]);
    }
  }

  lemma {:induction false} FindStop(n: nat, entries: seq<Rule>) returns (i: nat)
    ensures i <= |entries| && forall k :: 0 <= k < i ==> Passes(n, entries[k])
    ensures i < |entries| ==> Stops(n, entries, i)
    decreases |entries|
  {
    if entries == [] || !Passes(n, entries[0]) {
      i := 0;
    } else {
      var m := FindStop(n, entries[1..]);
      i := m + 1;
      forall k | 0 < k < i ensures Passes(n, entries[k]) { assert entries[k] == entries[1..][k - 1]; }
    }
  }

  /** The verdict on any address and list: the first entry that covers the address denies it, unless it does not parse. */
  lemma FirstEntryDecides(ip: Address, entries: seq<Rule>)
    ensures
      var n, verdict := Embedded(ip), JudgeAll(ip.Normalised(), entries);
      (verdict == Denied <==> exists i: nat :: Stops(n, entries, i) && !entries[i].BadCidr?) &&
      (verdict == Failed <==> exists i: nat :: Stops(n, entries, i) && entries[i].BadCidr?) &&
      (verdict == Allowed <==> forall e :: e in entries ==> Passes(n, e))
  {
    var n := Embedded(ip);
    var i := FindStop(n, entries);
    if i < |entries| {
      FirstStop(ip, entries, i);
      assert entries[i] in entries;
    } else {
      NoStop(ip, entries);
    }
  }
}
