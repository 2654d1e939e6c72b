/** IPv4 addresses and CIDR ranges, backend/lib/cidr.js, on 32-bit words. */
module Cidr {
  import opened Wrappers

  // ---- Dotted form ----

  function Digit(c: char): (r: Option<bv32>)
    ensures r.Some? <==> '0' <= c <= '9'
    ensures r.Some? ==> r.value < 10
  {
    match c
    case '0' => Some(0) case '1' => Some(1) case '2' => Some(2) case '3' => Some(3) case '4' => Some(4)
    case '5' => Some(5) case '6' => Some(6) case '7' => Some(7) case '8' => Some(8) case '9' => Some(9)
    case _ => None
  }

  /** One to three digits as a number. */
  function Octet(s: string): Option<bv32> {
    if |s| == 0 || |s| > 3 || exists i :: 0 <= i < |s| && Digit(s[i]).None? then None
    else if |s| == 1 then Digit(s[0])
    else if |s| == 2 then Some(10 * Digit(s[0]).value + Digit(s[1]).value)
    else Some(100 * Digit(s[0]).value + 10 * Digit(s[1]).value + Digit(s[2]).value)
  }

  function Split(s: string, at: char): (r: seq<string>)
    ensures r != []
  {
    if s == "" then [""]
    else
      var rest := Split(s[1..], at);
      if s[0] == at then [""] + rest else [[s[0]] + rest[0]] + rest[1..]
  }

  function Pack(a: bv32, b: bv32, c: bv32, d: bv32): bv32 {
    (a << 24) | (b << 16) | (c << 8) | d
  }

  function FromOctets(a: Option<bv32>, b: Option<bv32>, c: Option<bv32>, d: Option<bv32>): Option<bv32> {
    if a.None? || b.None? || c.None? || d.None? then None
    else if a.value > 255 || b.value > 255 || c.value > 255 || d.value > 255 then None
    else Some(Pack(a.value, b.value, c.value, d.value))
  }

  function Ipv4ToInt(ip: string): Option<bv32> {
    var parts := Split(ip, '.');
    if |parts| != 4 then None else FromOctets(Octet(parts[0]), Octet(parts[1]), Octet(parts[2]), Octet(parts[3]))
  }

  function DigitChar(d: bv32): (c: char)
    ensures '0' <= c <= '9'
  {
    if d == 0 then '0' else if d == 1 then '1' else if d == 2 then '2' else if d == 3 then '3' else if d == 4 then '4'
    else if d == 5 then '5' else if d == 6 then '6' else if d == 7 then '7' else if d == 8 then '8' else '9'
  }

  function OctetText(o: bv32): (r: string)
    ensures |r| >= 1 && forall i :: 0 <= i < |r| ==> '0' <= r[i] <= '9'
  {
    if o < 10 then [DigitChar(o)]
    else if o < 100 then [DigitChar(o / 10), DigitChar(o % 10)]
    else [DigitChar(o / 100), DigitChar(o / 10 % 10), DigitChar(o % 10)]
  }

  function DottedParts(a: string, b: string, c: string, d: string): string {
    a + "." + (b + "." + (c + "." + d))
  }

  /** The dotted form of a 32-bit number. */
  function Dotted(n: bv32): string {
    DottedParts(OctetText(n >> 24), OctetText((n >> 16) & 0xFF), OctetText((n >> 8) & 0xFF), OctetText(n & 0xFF))
  }

  lemma DigitRoundTrip(d: bv32)
    requires d < 10
    ensures Digit(DigitChar(d)) == Some(d)
  {
  }

  lemma DecimalParts(o: bv32)
    requires o < 256
    ensures o / 100 < 10 && o / 10 % 10 < 10 && o % 10 < 10 && (o < 100 ==> o / 10 < 10)
    ensures o < 100 ==> 10 * (o / 10) + o % 10 == o
    ensures 100 * (o / 100) + 10 * (o / 10 % 10) + o % 10 == o
  {
  }

  lemma OneDigit(a: bv32)
    requires a < 10
    ensures Octet([DigitChar(a)]) == Some(a)
  {
    DigitRoundTrip(a);
  }

  lemma TwoDigits(a: bv32, b: bv32)
    requires a < 10 && b < 10
    ensures Octet([DigitChar(a), DigitChar(b)]) == Some(10 * a + b)
  {
    DigitRoundTrip(a);
    DigitRoundTrip(b);
  }

  lemma ThreeDigits(a: bv32, b: bv32, c: bv32)
    requires a < 10 && b < 10 && c < 10
    ensures Octet([DigitChar(a), DigitChar(b), DigitChar(c)]) == Some(100 * a + 10 * b + c)
  {
    DigitRoundTrip(a);
    DigitRoundTrip(b);
    DigitRoundTrip(c);
  }

  lemma OctetRoundTrip(o: bv32)
    requires o < 256
    ensures Octet(OctetText(o)) == Some(o)
  {
    DecimalParts(o);
    if o < 10 {
      OneDigit(o);
    } else if o < 100 {
      TwoDigits(o / 10, o % 10);
    } else {
      ThreeDigits(o / 100, o / 10 % 10, o % 10);
    }
  }

  lemma {:induction false} SplitAtFirst(s: string, rest: string, at: char)
    requires at !in s
    ensures Split(s + [at] + rest, at) == [s] + Split(rest, at)
    ensures Split(s, at) == [s]
  {
    if s == "" {
      assert ([at] + rest)[1..] == rest;
      assert s + [at] + rest == [at] + rest;
    } else {
      SplitAtFirst(s[1..], rest, at);
      assert (s + [at] + rest)[1..] == s[1..] + [at] + rest;
      assert [s[0]] + s[1..] == s;
    }
  }

  lemma Bytes(n: bv32)
    ensures n >> 24 < 256 && (n >> 16) & 0xFF < 256 && (n >> 8) & 0xFF < 256 && n & 0xFF < 256
    ensures Pack(n >> 24, (n >> 16) & 0xFF, (n >> 8) & 0xFF, n & 0xFF) == n
  {
  }

  // ---- Blocks ----

  function Mask(prefix: bv32): bv32
    requires prefix <= 32
  {
    if prefix == 32 then 0xFFFF_FFFF else !(0xFFFF_FFFF >> prefix)
  }

  /** The first address of the block of the given prefix length that holds an address. */
  function First(address: bv32, prefix: bv32): bv32
    requires prefix <= 32
  {
    address & Mask(prefix)
  }

  predicate InBlock(ip: bv32, address: bv32, prefix: bv32)
    requires prefix <= 32
  {
    prefix == 0 || First(ip, prefix) == First(address, prefix)
  }

  /** Two addresses of one block agree in their first `prefix` bits, the ones left when the host bits are
      shifted out. */
  lemma BlockToPrefix(x: bv32, y: bv32, prefix: bv32)
    requires 1 <= prefix <= 32 && x & Mask(prefix) == y & Mask(prefix)
    ensures x >> (32 - prefix) == y >> (32 - prefix)
  {
  }

  /** Two addresses that agree in those bits are in one block. */
  lemma PrefixToBlock(x: bv32, y: bv32, prefix: bv32)
    requires 1 <= prefix <= 32 && x >> (32 - prefix) == y >> (32 - prefix)
    ensures InBlock(x, y, prefix)
  {
  }

  lemma HostBits(prefix: bv32)
    requires prefix <= 32
    ensures !Mask(prefix) & (!Mask(prefix) + 1) == 0
    ensures (!Mask(prefix)) as bv33 + 1 == (1 as bv33) << (32 - prefix)
  {
  }

  lemma LastAddress(host: bv32, first: bv32)
    requires first & host == 0
    ensures first <= first + host
  {
  }

  lemma MaskedIsAligned(address: bv32, mask: bv32)
    ensures (address & mask) & !mask == 0
  {
  }

  /** Every address lies in the unsigned interval that starts at its block's first address. */
  lemma AddressInInterval(ip: bv32, prefix: bv32)
    requires prefix <= 32
    ensures First(ip, prefix) <= ip && ip - First(ip, prefix) <= !Mask(prefix)
  {
  }

  /** Every address of the interval that starts at a block's first address is in the block. */
  lemma IntervalInBlock(ip: bv32, address: bv32, prefix: bv32)
    requires prefix <= 32 && First(address, prefix) <= ip && ip - First(address, prefix) <= !Mask(prefix)
    ensures InBlock(ip, address, prefix) && First(ip, prefix) == First(address, prefix)
  {
  }

  /** The interval does not wrap around and holds exactly 2^(32 - prefix) addresses. */
  lemma BlockSize(address: bv32, prefix: bv32)
    requires prefix <= 32
    ensures First(address, prefix) <= First(address, prefix) + !Mask(prefix)
    ensures (!Mask(prefix)) as bv33 + 1 == (1 as bv33) << (32 - prefix)
  {
    HostBits(prefix);
    MaskedIsAligned(address, Mask(prefix));
    LastAddress(!Mask(prefix), First(address, prefix));
  }

  lemma LongerMaskCovers(p: bv32, q: bv32)
    requires p <= q <= 32
    ensures Mask(p) & Mask(q) == Mask(p)
  {
  }

  lemma CoarserAgrees(x: bv32, y: bv32, coarse: bv32, fine: bv32)
    ensures coarse & fine == coarse && x & fine == y & fine ==> x & coarse == y & coarse
  {
  }

  lemma CoarserBlock(x: bv32, y: bv32, p: bv32, q: bv32)
    requires p <= q <= 32
    ensures First(x, q) == First(y, q) ==> First(x, p) == First(y, p)
  {
    LongerMaskCovers(p, q);
    CoarserAgrees(x, y, Mask(p), Mask(q));
  }

  /** Two blocks that share an address are nested. */
  lemma NestedOrDisjoint(a: bv32, p: bv32, b: bv32, q: bv32, shared: bv32, ip: bv32)
    requires p <= q <= 32 && InBlock(shared, a, p) && InBlock(shared, b, q)
    ensures InBlock(ip, b, q) ==> InBlock(ip, a, p)
  {
    CoarserBlock(ip, shared, p, q);
  }

  // ---- Allow-lists ----

  /** Node writes an IPv4 client as an IPv4-mapped IPv6 address. */
  function NormalizeIp(ip: string): string {
    if "::ffff:" <= ip then ip[7..] else ip
  }

  function PrefixLength(text: string): Option<bv32> {
    if |text| > 2 then None
    else match Octet(text) case None => None case Some(p) => if p > 32 then None else Some(p)
  }

  /** A bare address or an address and a prefix length; anything after a second slash is ignored. */
  predicate IsValidCidr(value: string) {
    var parts := Split(value, '/');
    Ipv4ToInt(parts[0]).Some? && (|parts| > 1 ==> PrefixLength(parts[1]).Some?)
  }

  predicate IsIpInCidr(ip: string, cidr: string)
    requires IsValidCidr(cidr)
  {
    var parts := Split(cidr, '/');
    var prefix := if |parts| > 1 then PrefixLength(parts[1]).value else 32;
    match Ipv4ToInt(NormalizeIp(ip))
    case None => false
    case Some(n) => InBlock(n, Ipv4ToInt(parts[0]).value, prefix)
  }

  predicate IsIpAllowed(ip: string, allowed: seq<string>)
    requires forall i :: 0 <= i < |allowed| ==> IsValidCidr(allowed[i])
  {
    allowed == [] || exists i :: 0 <= i < |allowed| && IsIpInCidr(ip, allowed[i])
  }

  // ---- Which texts are addresses ----

  predicate AllDigits(s: string) {
    forall i :: 0 <= i < |s| ==> '0' <= s[i] <= '9'
  }

  /** An octet is one to three digits, leading zeros allowed. */
  lemma OctetIff(s: string)
    ensures Octet(s).Some? <==> 1 <= |s| <= 3 && AllDigits(s)
  {
    if 1 <= |s| <= 3 && !AllDigits(s) {
      var i :| 0 <= i < |s| && !('0' <= s[i] <= '9');
      assert Digit(s[i]).None?;
    }
  }

  /** Four octets of at most 255 with single dots between them, and the number they pack into. */
  ghost predicate SpellsAddress(text: string, n: bv32) {
    exists a, b, c, d :: SpelledBy(text, n, a, b, c, d)
  }

  ghost predicate SpelledBy(text: string, n: bv32, a: string, b: string, c: string, d: string) {
    text == DottedParts(a, b, c, d) && FromOctets(Octet(a), Octet(b), Octet(c), Octet(d)) == Some(n)
  }

  /** The pieces joined again. */
  function Joined(parts: seq<string>, at: char): string
    requires parts != []
  {
    if |parts| == 1 then parts[0] else parts[0] + [at] + Joined(parts[1..], at)
  }

  lemma {:induction false} JoinSplit(s: string, at: char)
    ensures Joined(Split(s, at), at) == s
  {
    if s != "" {
      var rest := Split(s[1..], at);
      JoinSplit(s[1..], at);
      assert s == [s[0]] + s[1..];
      if s[0] == at {
        assert ([""] + rest)[1..] == rest;
        assert "" + [at] + s[1..] == s;
      } else {
        var parts := [[s[0]] + rest[0]] + rest[1..];
        assert parts[1..] == rest[1..];
        if |rest| > 1 {
          JoinMore(s[0], rest[0], [at], Joined(rest[1..], at));
        }
      }
    }
  }

  lemma JoinMore(x: char, first: string, at: string, rest: string)
    ensures ([x] + first) + at + rest == [x] + (first + at + rest)
  {
  }

  lemma FourJoined(parts: seq<string>)
    requires |parts| == 4
    ensures Joined(parts, '.') == DottedParts(parts[0], parts[1], parts[2], parts[3])
  {
    assert parts[1..][1..] == parts[2..] && parts[2..][1..] == parts[3..];
    assert Joined(parts[3..], '.') == parts[3];
    assert Joined(parts[2..], '.') == parts[2] + "." + parts[3];
  }

  lemma DigitsHaveNoMarks(s: string)
    requires AllDigits(s)
    ensures '.' !in s && '/' !in s && ':' !in s
  {
  }

  lemma SplitInFour(a: string, b: string, c: string, d: string)
    requires '.' !in a && '.' !in b && '.' !in c && '.' !in d
    ensures Split(a + "." + (b + "." + (c + "." + d)), '.') == [a, b, c, d]
  {
    SplitAtFirst(a, b + "." + (c + "." + d), '.');
    SplitAtFirst(b, c + "." + d, '.');
    SplitAtFirst(c, d, '.');
    SplitAtFirst(d, "", '.');
  }

  lemma OctetHasNoMarks(s: string)
    requires Octet(s).Some?
    ensures '.' !in s && '/' !in s && ':' !in s
  {
    OctetIff(s);
    DigitsHaveNoMarks(s);
  }

  lemma SpelledWithoutMarks(text: string, n: bv32, a: string, b: string, c: string, d: string)
    requires SpelledBy(text, n, a, b, c, d)
    ensures '.' !in a && '.' !in b && '.' !in c && '.' !in d && '/' !in text && ':' !in text
  {
    OctetHasNoMarks(a);
    OctetHasNoMarks(b);
    OctetHasNoMarks(c);
    OctetHasNoMarks(d);
  }

  lemma SplitSpells(text: string, n: bv32, parts: seq<string>)
    requires parts == Split(text, '.') && |parts| == 4 && Ipv4ToInt(text) == Some(n)
    ensures SpelledBy(text, n, parts[0], parts[1], parts[2], parts[3])
  {
    JoinSplit(text, '.');
    FourJoined(parts);
  }

  /** A text parses as an address exactly when it is four octets, each at most 255, with single dots
      between them, and the number is those octets packed. */
  lemma AddressTextIff(text: string, n: bv32)
    ensures Ipv4ToInt(text) == Some(n) <==> SpellsAddress(text, n)
  {
    if SpellsAddress(text, n) {
      var a, b, c, d :| SpelledBy(text, n, a, b, c, d);
      SpelledWithoutMarks(text, n, a, b, c, d);
      SplitInFour(a, b, c, d);
    }
    if Ipv4ToInt(text) == Some(n) {
      SplitSpells(text, n, Split(text, '.'));
    }
  }

  /** Parsing the dotted form of any 32-bit number returns that number. */
  lemma DottedRoundTrip(n: bv32)
    ensures SpellsAddress(Dotted(n), n) && Ipv4ToInt(Dotted(n)) == Some(n)
  {
    var a, b, c, d := n >> 24, (n >> 16) & 0xFF, (n >> 8) & 0xFF, n & 0xFF;
    Bytes(n);
    OctetRoundTrip(a);
    OctetRoundTrip(b);
    OctetRoundTrip(c);
    OctetRoundTrip(d);
    assert SpelledBy(Dotted(n), n, OctetText(a), OctetText(b), OctetText(c), OctetText(d));
    AddressTextIff(Dotted(n), n);
  }

  lemma AddressHasNoMarks(text: string, n: bv32)
    requires SpellsAddress(text, n)
    ensures '/' !in text && ':' !in text
  {
    var a, b, c, d :| SpelledBy(text, n, a, b, c, d);
    SpelledWithoutMarks(text, n, a, b, c, d);
  }

  lemma MappedAddress(text: string)
    requires ':' !in text
    ensures NormalizeIp(text) == text && NormalizeIp("::ffff:" + text) == text
  {
    assert "::ffff:"[0] == ':';
    assert ("::ffff:" + text)[7..] == text;
  }

  lemma PrefixHasNoMarks(s: string)
    requires PrefixLength(s).Some?
    ensures '/' !in s
  {
    OctetHasNoMarks(s);
  }

  lemma RangeParts(text: string, suffix: string, ignored: string)
    requires '/' !in text && '/' !in suffix
    ensures Split(text, '/') == [text] && Split(text + "/" + suffix, '/') == [text, suffix]
    ensures Split(text + "/" + (suffix + "/" + ignored), '/') == [text] + ([suffix] + Split(ignored, '/'))
  {
    SplitAtFirst(text, suffix, '/');
    SplitAtFirst(suffix, ignored, '/');
    SplitAtFirst(text, suffix + "/" + ignored, '/');
  }

  lemma InRange(ip: string, n: bv32, cidr: string, text: string, suffix: string, address: bv32, prefix: bv32)
    requires Ipv4ToInt(NormalizeIp(ip)) == Some(n)
    requires |Split(cidr, '/')| >= 2 && Split(cidr, '/')[0] == text && Split(cidr, '/')[1] == suffix
    requires Ipv4ToInt(text) == Some(address) && PrefixLength(suffix) == Some(prefix)
    ensures prefix <= 32 && IsValidCidr(cidr) && (IsIpInCidr(ip, cidr) <==> InBlock(n, address, prefix))
  {
  }

  lemma IsHost(ip: string, n: bv32, text: string, address: bv32)
    requires Ipv4ToInt(NormalizeIp(ip)) == Some(n)
    requires Split(text, '/') == [text] && Ipv4ToInt(text) == Some(address)
    ensures IsValidCidr(text) && (IsIpInCidr(ip, text) <==> n == address)
  {
    HostAddress(n);
    HostAddress(address);
  }

  /** An entry of an allow-list: an address alone, or with a prefix length, after which a second slash
      and anything may follow. */
  datatype Spelling =
    | Bare(text: string)
    | Prefixed(text: string, suffix: string)
    | Trailing(text: string, suffix: string, ignored: string)
  {
    function Text(): string {
      match this
      case Bare(text) => text
      case Prefixed(text, suffix) => text + "/" + suffix
      case Trailing(text, suffix, ignored) => text + "/" + (suffix + "/" + ignored)
    }

    ghost predicate Spells(address: bv32, prefix: bv32) {
      SpellsAddress(text, address) && if Bare? then prefix == 32 else PrefixLength(suffix) == Some(prefix)
    }
  }

  lemma SpelledRange(ip: string, n: bv32, r: Spelling, address: bv32, prefix: bv32)
    requires Ipv4ToInt(NormalizeIp(ip)) == Some(n) && r.Spells(address, prefix)
    ensures prefix <= 32 && IsValidCidr(r.Text()) && (IsIpInCidr(ip, r.Text()) <==> InBlock(n, address, prefix))
  {
    AddressTextIff(r.text, address);
    AddressHasNoMarks(r.text, address);
    match r
    case Bare(text) =>
      RangeParts(text, "", "");
      IsHost(ip, n, text, address);
      HostBlock(n, address);
    case Prefixed(text, suffix) =>
      PrefixHasNoMarks(suffix);
      RangeParts(text, suffix, "");
      InRange(ip, n, r.Text(), text, suffix, address, prefix);
    case Trailing(text, suffix, ignored) =>
      PrefixHasNoMarks(suffix);
      RangeParts(text, suffix, ignored);
      InRange(ip, n, r.Text(), text, suffix, address, prefix);
  }

  lemma HostBlock(n: bv32, address: bv32)
    ensures InBlock(n, address, 32) <==> n == address
  {
    HostAddress(n);
    HostAddress(address);
  }

  /** However address and range are spelled, and with the client's address IPv4-mapped or not, the check is
      block membership; an address alone is a block of one. */
  lemma TextMeansBlock(ip: string, n: bv32, r: Spelling, address: bv32, prefix: bv32)
    requires SpellsAddress(ip, n) && r.Spells(address, prefix)
    ensures prefix <= 32 && IsValidCidr(r.Text())
    ensures IsIpInCidr(ip, r.Text()) <==> InBlock(n, address, prefix)
    ensures IsIpInCidr("::ffff:" + ip, r.Text()) <==> InBlock(n, address, prefix)
  {
    AddressTextIff(ip, n);
    AddressHasNoMarks(ip, n);
    MappedAddress(ip);
    SpelledRange(ip, n, r, address, prefix);
    SpelledRange("::ffff:" + ip, n, r, address, prefix);
  }

  lemma HostAddress(ip: bv32)
    ensures ip & Mask(32) == ip
  {
  }

  // ---- Lists ----

  datatype Range = Range(spelling: Spelling, address: bv32, prefix: bv32)

  /** An allow-list admits exactly the union of its blocks, or everything when it is empty. */
  lemma AllowListMeansUnion(ip: string, n: bv32, ranges: seq<Range>, texts: seq<string>)
    requires SpellsAddress(ip, n) && |texts| == |ranges|
    requires forall i :: 0 <= i < |ranges| ==>
               ranges[i].spelling.Spells(ranges[i].address, ranges[i].prefix) && texts[i] == ranges[i].spelling.Text()
    ensures forall i :: 0 <= i < |texts| ==> ranges[i].prefix <= 32 && IsValidCidr(texts[i])
    ensures IsIpAllowed(ip, texts) <==>
            ranges == [] || exists i :: 0 <= i < |ranges| && InBlock(n, ranges[i].address, ranges[i].prefix)
  {
    forall i | 0 <= i < |texts|
      ensures ranges[i].prefix <= 32 && IsValidCidr(texts[i])
      ensures IsIpInCidr(ip, texts[i]) <==> InBlock(n, ranges[i].address, ranges[i].prefix)
    {
      TextMeansBlock(ip, n, ranges[i].spelling, ranges[i].address, ranges[i].prefix);
    }
  }

  // ---- What is refused ----

  lemma PackedOctets(a: bv32, b: bv32, c: bv32, d: bv32)
    ensures a < 256 && b < 256 && c < 256 && d < 256 ==>
              var n := Pack(a, b, c, d);
              n >> 24 == a && (n >> 16) & 0xFF == b && (n >> 8) & 0xFF == c && n & 0xFF == d
  {
  }

  /** Four numbers are an address exactly when none is above 255, and then they are its bytes, first to last. */
  lemma OctetsMakeAddress(a: bv32, b: bv32, c: bv32, d: bv32)
    ensures var r := FromOctets(Some(a), Some(b), Some(c), Some(d));
            if a > 255 || b > 255 || c > 255 || d > 255 then r == None
            else r.Some? && r.value >> 24 == a && (r.value >> 16) & 0xFF == b && (r.value >> 8) & 0xFF == c
                 && r.value & 0xFF == d
  {
    PackedOctets(a, b, c, d);
  }

  /** A prefix length of one or two digits is at most 32. */
  lemma PrefixTextIff(p: bv32)
    requires p < 100
    ensures PrefixLength(OctetText(p)) == if p <= 32 then Some(p) else None
  {
    OctetRoundTrip(p);
  }

  lemma ManyJoined(parts: seq<string>, at: char)
    requires |parts| >= 3
    ensures Joined(parts, at) == parts[0] + [at] + (parts[1] + [at] + Joined(parts[2..], at))
  {
    assert parts[1..][1..] == parts[2..];
  }

  /** An entry of an allow-list is valid exactly when it is an address alone, or an address, a slash and a prefix
      length of at most 32, whatever follows a second slash. */
  lemma ValidIffSpelled(value: string)
    ensures IsValidCidr(value) <==>
              exists r: Spelling, address: bv32, prefix: bv32 :: r.Spells(address, prefix) && r.Text() == value
  {
    var parts := Split(value, '/');
    JoinSplit(value, '/');
    if IsValidCidr(value) {
      var r := SpellingOf(value, parts);
    }
    if r: Spelling, address: bv32, prefix: bv32 :| r.Spells(address, prefix) && r.Text() == value {
      TextMeansBlock(Dotted(0), 0, r, address, prefix) by {
        DottedRoundTrip(0);
      }
    }
  }

  lemma SpellingOf(value: string, parts: seq<string>) returns (r: Spelling)
    requires parts == Split(value, '/') && Joined(parts, '/') == value && IsValidCidr(value)
    ensures r.Text() == value
    ensures exists address: bv32, prefix: bv32 :: r.Spells(address, prefix)
  {
    var address := Ipv4ToInt(parts[0]).value;
    AddressTextIff(parts[0], address);
    if |parts| == 1 {
      r := Bare(parts[0]);
      assert r.Spells(address, 32);
    } else {
      var prefix := PrefixLength(parts[1]).value;
      if |parts| == 2 {
        r := Prefixed(parts[0], parts[1]);
      } else {
        ManyJoined(parts, '/');
        r := Trailing(parts[0], parts[1], Joined(parts[2..], '/'));
      }
      assert r.Spells(address, prefix);
    }
  }

  /** A client address that cannot be read is in no range, so only an empty list admits it. */
  lemma UnreadableIsRefused(ip: string, allowed: seq<string>)
    requires Ipv4ToInt(NormalizeIp(ip)) == None && forall i :: 0 <= i < |allowed| ==> IsValidCidr(allowed[i])
    ensures IsIpAllowed(ip, allowed) <==> allowed == []
  {
  }
}
