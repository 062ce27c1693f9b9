/** apps/central/src/proxy-trust.js: which peers may set the client address.  Node's `net.isIP`
    and `Number` are parameters; IPv6 text follows RFC 4291 section 2.2. */
module TrustedProxy {
  import opened Optional
  import opened Text
  import opened Prefixes
  import opened Numerals

  // `family` is net.isIP (4, 6 or 0); `integer` is Number(text) when that is an integer.
  datatype Host = Host(family: string -> nat, integer: string -> Option<int>)

  datatype Address = Address(family: nat, bits: nat, value: nat)

  datatype Range = Range(family: nat, bits: nat, prefix: nat, network: nat)

  // ---------------------------------------------------------------- reading an address

  // The octets as base-256 digits: for octets below 256, which net.isIP grants, the source's
  // (value << 8) | octet is value * 256 + octet.
  function Ipv4Value(ip: string): nat { Fold(Numbers(Split(ip, '.'), 10), 256) }

  // \d+\.\d+\.\d+\.\d+ and nothing else.
  predicate Dotted(s: string) {
    var p := Split(s, '.');
    |p| == 4 && forall k :: 0 <= k < 4 ==> p[k] != "" && forall c :: c in p[k] ==> IsDigit(c)
  }

  // The leftmost place from which the rest of the text is dotted.
  function DottedAt(s: string): (n: nat)
    ensures n <= |s|
  {
    if s == [] || Dotted(s) then 0 else 1 + DottedAt(s[1..])
  }

  // A dotted tail is replaced by the two groups it stands for.
  function Undotted(ip: string): string {
    var n := DottedAt(ip);
    if n == |ip| then ip
    else var v := Ipv4Value(ip[n..]);
         ip[..n] + Hex(v / 0x1_0000 % 0x1_0000) + ":" + Hex(v % 0x1_0000)
  }

  // String.prototype.split on "::".
  function Halves(s: string): (r: seq<string>)
    ensures r != []
  {
    if |s| < 2 then [s]
    else if s[0] == ':' && s[1] == ':' then [""] + Halves(s[2..])
    else var r := Halves(s[1..]); [[s[0]] + r[0]] + r[1..]
  }

  function Groups(half: string): seq<string> { if half == "" then [] else Split(half, ':') }

  predicate IsGroup(s: string) { 1 <= |s| <= 4 && forall c :: c in s ==> IsHex(c) }

  function Zeros(n: nat): (r: seq<string>)
    ensures |r| == n && forall k :: 0 <= k < n ==> r[k] == "0"
  {
    seq(n, _ => "0")
  }

  function FromGroups(parts: seq<string>): Option<nat> {
    if |parts| == 8 && forall k :: 0 <= k < 8 ==> IsGroup(parts[k])
    then Some(Fold(Numbers(parts, 16), 0x1_0000))
    else None
  }

  function Filled(left: seq<string>, right: seq<string>, compressed: bool): Option<nat> {
    var missing := 8 - |left| - |right|;
    if missing < 0 || (!compressed && missing != 0) then None
    else FromGroups(left + Zeros(missing) + right)
  }

  function FromHalves(halves: seq<string>): Option<nat>
    requires halves != []
  {
    if |halves| > 2 then None
    else Filled(Groups(halves[0]), if |halves| == 2 then Groups(halves[1]) else [], |halves| == 2)
  }

  function Ipv6Read(text: string): Option<nat> { FromHalves(Halves(Undotted(text))) }

  // None is the error that the source throws.
  function Ipv6Value(input: string): Option<nat> { Ipv6Read(Lower(input)) }

  // ---------------------------------------------------------------- IPv4 text means its four octets

  lemma Ipv4Reads(o: seq<nat>)
    requires |o| == 4
    ensures Dotted(Join(Decimals(o), '.')) && Ipv4Value(Join(Decimals(o), '.')) == Fold(o, 256)
  {
    forall k | 0 <= k < 4 ensures '.' !in Decimals(o)[k] && forall c :: c in Decimals(o)[k] ==> IsDigit(c) {}
    SplitJoin(Decimals(o), '.');
    DecimalsRead(o);
  }

  // ---------------------------------------------------------------- IPv6 text means its eight groups

  // One to four hexadecimal digits in each.
  ghost predicate AllGroups(parts: seq<string>) {
    forall k :: 0 <= k < |parts| ==> 1 <= |parts[k]| <= 4 && forall c :: c in parts[k] ==> IsHex(c)
  }

  predicate NoDouble(s: string) { forall i :: 0 <= i < |s| - 1 ==> s[i] != ':' || s[i + 1] != ':' }

  // What a half looks like: groups separated by single colons.
  lemma {:induction false} HalfIsPlain(parts: seq<string>)
    requires AllGroups(parts) && parts != []
    ensures var s := Join(parts, ':'); s != "" && NoDouble(s) && s[0] != ':' && s[|s| - 1] != ':'
    ensures forall c :: c in Join(parts, ':') ==> c == ':' || IsHex(c)
  {
    var s, first := Join(parts, ':'), parts[0];
    assert first[0] in first && first[|first| - 1] in first;
    assert forall i :: 0 <= i < |first| ==> first[i] in first;
    if |parts| > 1 {
      HalfIsPlain(parts[1..]);
      var rest := Join(parts[1..], ':');
      assert s == first + [':'] + rest;
      forall i | 0 <= i < |s| - 1 ensures s[i] != ':' || s[i + 1] != ':' {
        if i > |first| { assert s[i] == rest[i - |first| - 1] && s[i + 1] == rest[i - |first|]; }
      }
    }
  }

  lemma NoDoubleTail(s: string)
    requires NoDouble(s) && s != ""
    ensures NoDouble(s[1..])
  {
    var t := s[1..];
    forall i | 0 <= i < |t| - 1 ensures t[i] != ':' || t[i + 1] != ':' {
      assert t[i] == s[i + 1] && t[i + 1] == s[i + 1 + 1];
    }
  }

  lemma {:induction false} HalvesWhole(s: string)
    requires NoDouble(s)
    ensures Halves(s) == [s]
  {
    if |s| >= 2 {
      NoDoubleTail(s);
      HalvesWhole(s[1..]);
      assert s == [s[0]] + s[1..];
    }
  }

  lemma {:induction false} HalvesSplit(left: string, right: string)
    requires NoDouble(left) && NoDouble(right) && (left != "" ==> left[|left| - 1] != ':')
    ensures Halves(left + "::" + right) == [left, right]
  {
    var s := left + "::" + right;
    if left == "" {
      HalvesWhole(right);
      assert s[2..] == right;
    } else {
      var rest := left[1..];
      NoDoubleTail(left);
      HalvesSplit(rest, right);
      assert s[1..] == rest + "::" + right;
      assert left == [left[0]] + rest;
    }
  }

  lemma GroupsReadBack(parts: seq<string>)
    requires AllGroups(parts)
    ensures Groups(Join(parts, ':')) == parts
  {
    if parts != [] {
      HalfIsPlain(parts);
      forall k | 0 <= k < |parts| ensures ':' !in parts[k] {}
      SplitJoin(parts, ':');
    }
  }

  lemma HalfIsNoDouble(parts: seq<string>)
    requires AllGroups(parts)
    ensures var s := Join(parts, ':'); NoDouble(s) && '.' !in s && (s != "" ==> s[|s| - 1] != ':')
  {
    if parts != [] { HalfIsPlain(parts); }
  }

  function Value(parts: seq<string>): nat { Fold(Numbers(parts, 16), 0x1_0000) }

  lemma EightGroups(parts: seq<string>)
    requires AllGroups(parts) && |parts| == 8
    ensures FromGroups(parts) == Some(Value(parts))
  {}

  // "::" stands for as many zero groups as are missing.
  lemma CompressedReads(left: seq<string>, missing: nat, right: seq<string>)
    requires AllGroups(left) && AllGroups(right) && |left| + missing + |right| == 8
    ensures FromHalves(Halves(Join(left, ':') + "::" + Join(right, ':'))) == Some(Value(left + Zeros(missing) + right))
  {
    HalfIsNoDouble(left);
    HalfIsNoDouble(right);
    HalvesSplit(Join(left, ':'), Join(right, ':'));
    GroupsReadBack(left);
    GroupsReadBack(right);
    TwoHalves(Join(left, ':'), Join(right, ':'), left, missing, right);
  }

  lemma TwoHalves(l: string, r: string, left: seq<string>, missing: nat, right: seq<string>)
    requires AllGroups(left) && AllGroups(right) && |left| + missing + |right| == 8
    requires Groups(l) == left && Groups(r) == right
    ensures FromHalves([l, r]) == Some(Value(left + Zeros(missing) + right))
  {
    FillReads(left, missing, right);
  }

  lemma FillReads(left: seq<string>, missing: nat, right: seq<string>)
    requires AllGroups(left) && AllGroups(right) && |left| + missing + |right| == 8
    ensures Filled(left, right, true) == Some(Value(left + Zeros(missing) + right))
  {
    EightGroups(left + Zeros(missing) + right);
  }

  lemma FullReads(parts: seq<string>)
    requires AllGroups(parts) && |parts| == 8
    ensures FromHalves(Halves(Join(parts, ':'))) == Some(Value(parts))
  {
    HalfIsNoDouble(parts);
    HalvesWhole(Join(parts, ':'));
    GroupsReadBack(parts);
    assert parts + Zeros(0) + [] == parts;
    EightGroups(parts);
  }

  lemma {:induction false} NoDots(s: string)
    requires '.' !in s
    ensures DottedAt(s) == |s|
  {
    if s != [] {
      SplitWhole(s, '.');
      NoDots(s[1..]);
    }
  }

  lemma ColonIsNotDotted(s: string)
    requires ':' in s
    ensures !Dotted(s)
  {
    InSomePart(s, '.', ':');
  }

  lemma {:induction false} InSomePart(s: string, sep: char, c: char)
    requires c in s && c != sep
    ensures exists k :: 0 <= k < |Split(s, sep)| && c in Split(s, sep)[k]
  {
    var r, all := Split(s[1..], sep), Split(s, sep);
    if s[0] == c {
      assert c in all[0];
    } else {
      assert s == [s[0]] + s[1..];
      InSomePart(s[1..], sep, c);
      var k :| 0 <= k < |r| && c in r[k];
      if s[0] == sep { assert all[k + 1] == r[k]; } else { assert c in all[k]; }
    }
  }

  // The dotted tail starts right after the last colon.
  lemma {:induction false} TailStarts(head: string, dotted: string)
    requires head != "" && head[|head| - 1] == ':' && Dotted(dotted)
    ensures DottedAt(head + dotted) == |head|
  {
    var s := head + dotted;
    assert s[|head| - 1] == ':';
    ColonIsNotDotted(s);
    if |head| == 1 {
      assert s[1..] == dotted;
    } else {
      TailStarts(head[1..], dotted);
      assert s[1..] == head[1..] + dotted;
    }
  }

  // Eight groups mean the number whose base-65536 digits they are.
  lemma Ipv6Full(parts: seq<string>)
    requires AllGroups(parts) && |parts| == 8
    ensures Ipv6Read(Join(parts, ':')) == Some(Value(parts))
  {
    HalfIsNoDouble(parts);
    NoDots(Join(parts, ':'));
    FullReads(parts);
  }

  lemma Ipv6Compressed(left: seq<string>, missing: nat, right: seq<string>)
    requires AllGroups(left) && AllGroups(right) && |left| + missing + |right| == 8
    ensures Ipv6Read(Join(left, ':') + "::" + Join(right, ':')) == Some(Value(left + Zeros(missing) + right))
  {
    HalfIsNoDouble(left);
    HalfIsNoDouble(right);
    NoDots(Join(left, ':') + "::" + Join(right, ':'));
    CompressedReads(left, missing, right);
  }

  lemma {:induction false} HalvesJoin(s: string)
    ensures |Halves(s)| == 1 ==> s == Halves(s)[0]
    ensures |Halves(s)| == 2 ==> s == Halves(s)[0] + "::" + Halves(s)[1]
  {
    if |s| >= 2 {
      if s[0] == ':' && s[1] == ':' {
        HalvesJoin(s[2..]);
        assert s == "::" + s[2..];
      } else {
        HalvesJoin(s[1..]);
        assert s == [s[0]] + s[1..];
      }
    }
  }

  lemma GroupsJoin(half: string)
    ensures Join(Groups(half), ':') == half
  {
    if half != "" { JoinSplit(half, ':'); }
  }

  lemma FilledWas(left: seq<string>, right: seq<string>, compressed: bool)
    requires Filled(left, right, compressed).Some?
    ensures AllGroups(left) && AllGroups(right) && |left| + |right| <= 8 && (compressed || |left| + |right| == 8)
  {
    var missing := 8 - |left| - |right|;
    var parts := left + Zeros(missing) + right;
    assert forall k :: 0 <= k < 8 ==> IsGroup(parts[k]);
    assert forall k :: 0 <= k < |left| ==> left[k] == parts[k];
    assert forall k :: 0 <= k < |right| ==> right[k] == parts[|left| + missing + k];
  }

  /** And nothing else is read: behind every accepted text are eight groups, or fewer around one "::". */
  lemma Ipv6ReadWas(text: string) returns (left: seq<string>, right: seq<string>)
    requires Ipv6Read(text).Some?
    ensures AllGroups(left) && AllGroups(right) && |left| + |right| <= 8
    ensures || (right == [] && |left| == 8 && Undotted(text) == Join(left, ':'))
            || Undotted(text) == Join(left, ':') + "::" + Join(right, ':')
  {
    var halves := Halves(Undotted(text));
    HalvesJoin(Undotted(text));
    left := Groups(halves[0]);
    right := if |halves| == 2 then Groups(halves[1]) else [];
    FilledWas(left, right, |halves| == 2);
    GroupsJoin(halves[0]);
    if |halves| == 2 { GroupsJoin(halves[1]); }
  }

  lemma {:induction false} JoinSnoc(parts: seq<string>, last: string, c: char)
    ensures Join(parts + [last], c) == (if parts == [] then "" else Join(parts, c) + [c]) + last
  {
    if parts != [] {
      JoinSnoc(parts[1..], last, c);
      assert (parts + [last])[1..] == parts[1..] + [last];
    }
  }

  function Head(left: seq<string>, right: seq<string>): (r: string)
    ensures r != "" && r[|r| - 1] == ':'
  {
    Join(left, ':') + "::" + (if right == [] then "" else Join(right, ':') + ":")
  }

  // The two groups of a dotted tail.
  function TailGroups(dotted: string): (r: seq<string>)
    ensures |r| == 2
  {
    var v := Ipv4Value(dotted);
    [Hex(v / 0x1_0000 % 0x1_0000), Hex(v % 0x1_0000)]
  }

  lemma TailAreGroups(dotted: string)
    ensures AllGroups(TailGroups(dotted))
  {
    var v := Ipv4Value(dotted);
    HexIsShort(v / 0x1_0000 % 0x1_0000);
    HexIsShort(v % 0x1_0000);
  }

  lemma HeadJoins(left: seq<string>, right: seq<string>, high: string, low: string)
    ensures Head(left, right) + (high + ":" + low) == Join(left, ':') + "::" + Join(right + [high, low], ':')
  {
    JoinSnoc(right, high, ':');
    JoinSnoc(right + [high], low, ':');
    assert right + [high] + [low] == right + [high, low];
  }

  lemma UndottedTail(head: string, dotted: string)
    requires head != "" && head[|head| - 1] == ':' && Dotted(dotted)
    ensures var t := TailGroups(dotted); Undotted(head + dotted) == head + (t[0] + ":" + t[1])
  {
    TailStarts(head, dotted);
    assert (head + dotted)[|head|..] == dotted && (head + dotted)[..|head|] == head;
    assert dotted != "";
  }

  lemma DottedText(left: seq<string>, right: seq<string>, dotted: string)
    requires Dotted(dotted)
    ensures Undotted(Head(left, right) + dotted) == Join(left, ':') + "::" + Join(right + TailGroups(dotted), ':')
  {
    var t := TailGroups(dotted);
    UndottedTail(Head(left, right), dotted);
    HeadJoins(left, right, t[0], t[1]);
    assert t == [t[0], t[1]];
  }

  // A dotted tail stands for the two groups of its 32 bits.
  lemma Ipv6Dotted(left: seq<string>, missing: nat, right: seq<string>, dotted: string)
    requires AllGroups(left) && AllGroups(right) && |left| + missing + |right| == 6 && Dotted(dotted)
    ensures Ipv6Read(Head(left, right) + dotted) == Some(Value(left + Zeros(missing) + (right + TailGroups(dotted))))
  {
    DottedText(left, right, dotted);
    TailAreGroups(dotted);
    CompressedReads(left, missing, right + TailGroups(dotted));
  }

  lemma JoinTwo(parts: seq<string>, high: string, low: string)
    requires parts != []
    ensures Join(parts, ':') + ":" + (high + ":" + low) == Join(parts + [high, low], ':')
  {
    JoinSnoc(parts, high, ':');
    JoinSnoc(parts + [high], low, ':');
    assert parts + [high] + [low] == parts + [high, low];
  }

  lemma SixDottedText(parts: seq<string>, dotted: string)
    requires parts != [] && Dotted(dotted)
    ensures Undotted(Join(parts, ':') + ":" + dotted) == Join(parts + TailGroups(dotted), ':')
  {
    var t := TailGroups(dotted);
    UndottedTail(Join(parts, ':') + ":", dotted);
    JoinTwo(parts, t[0], t[1]);
    assert t == [t[0], t[1]];
  }

  // The third form of RFC 4291 section 2.2: six groups and a dotted tail, nothing left out.
  lemma Ipv6SixDotted(parts: seq<string>, dotted: string)
    requires AllGroups(parts) && |parts| == 6 && Dotted(dotted)
    ensures Ipv6Read(Join(parts, ':') + ":" + dotted) == Some(Value(parts + TailGroups(dotted)))
  {
    SixDottedText(parts, dotted);
    TailAreGroups(dotted);
    FullReads(parts + TailGroups(dotted));
  }

  // Those two groups are the 32 bits of the dotted number.
  lemma TailKeepsBits(dotted: string, before: seq<string>)
    requires Ipv4Value(dotted) < 0x1_0000_0000
    ensures Value(before + TailGroups(dotted)) == Value(before) * 0x1_0000_0000 + Ipv4Value(dotted)
  {
    var v := Ipv4Value(dotted);
    HexReads(v / 0x1_0000 % 0x1_0000);
    HexReads(v % 0x1_0000);
    LastTwo(before, TailGroups(dotted));
    Recombine(Value(before), v);
  }

  lemma Recombine(b: nat, v: nat)
    requires v < 0x1_0000_0000
    ensures (b * 0x1_0000 + v / 0x1_0000 % 0x1_0000) * 0x1_0000 + v % 0x1_0000 == b * 0x1_0000_0000 + v
  {
    assert v / 0x1_0000 < 0x1_0000;
  }

  lemma LastTwo(before: seq<string>, t: seq<string>)
    requires |t| == 2
    ensures Value(before + t) == (Value(before) * 0x1_0000 + NumberOf(t[0], 16)) * 0x1_0000 + NumberOf(t[1], 16)
  {
    FoldSnoc(Numbers(before, 16), NumberOf(t[0], 16), 0x1_0000);
    FoldSnoc(Numbers(before, 16) + [NumberOf(t[0], 16)], NumberOf(t[1], 16), 0x1_0000);
    assert Numbers(before + t, 16) == Numbers(before, 16) + [NumberOf(t[0], 16)] + [NumberOf(t[1], 16)];
  }

  // ---------------------------------------------------------------- which peers are trusted

  predicate IsMapped(ip: string) { |ip| > 7 && Lower(ip[..7]) == "::ffff:" && Dotted(ip[7..]) }

  function Unbracketed(s: string): string {
    var t := if s != "" && s[0] == '[' then s[1..] else s;
    if t != "" && t[|t| - 1] == ']' then t[..|t| - 1] else t
  }

  // Without brackets and zone.
  function Bare(text: string): string { Split(Unbracketed(Trim(text)), '%')[0] }

  function Unmapped(bare: string): string { if IsMapped(bare) then bare[7..] else bare }

  function Taken(h: Host, ip: string): string { if h.family(ip) != 0 then Lower(ip) else "" }

  function Normalize(h: Host, text: string): string { Taken(h, Unmapped(Bare(text))) }

  function IpValue(h: Host, text: string): Option<Address> {
    var ip := Normalize(h, text);
    var family := h.family(ip);
    if family == 4 then Some(Address(4, 32, Ipv4Value(ip)))
    else if family == 6 then
      match Ipv6Value(ip)
      case Some(v) => Some(Address(6, 128, v))
      case None => None
    else None
  }

  datatype Entry = Blank | Invalid | Listed(range: Range)

  function EntryRange(a: Address, prefix: Option<int>): Entry {
    if prefix.None? || prefix.value < 0 || prefix.value > a.bits then Invalid
    else Listed(Range(a.family, a.bits, prefix.value, Network(a.value, a.bits - prefix.value)))
  }

  function PrefixOf(h: Host, raw: string, a: Address): Option<int> {
    var parts := Split(raw, '/');
    if |parts| == 1 then Some(a.bits) else h.integer(parts[1])
  }

  function ParseEntry(h: Host, entry: string): Entry {
    var raw := Trim(entry);
    if raw == "" then Blank
    else match IpValue(h, Split(raw, '/')[0])
      case None => Invalid
      case Some(a) => EntryRange(a, PrefixOf(h, raw, a))
  }

  // The parser of an entry is a parameter so that proofs need not look inside it.
  type Parser = string -> Entry

  function Entries(h: Host): Parser { (entry: string) => ParseEntry(h, entry) }

  // None is the error of the first entry that is not an address with a legal prefix.
  function Compile(parse: Parser, entries: seq<string>): Option<seq<Range>> {
    if entries == [] then Some([])
    else
      var first, rest := parse(entries[0]), Compile(parse, entries[1..]);
      if first.Invalid? || rest.None? then None
      else Some((if first.Listed? then [first.range] else []) + rest.value)
  }

  predicate Matches(a: Address, r: Range) {
    r.family == a.family && r.prefix <= r.bits && Network(a.value, r.bits - r.prefix) == r.network
  }

  predicate IsTrusted(h: Host, ip: string, ranges: seq<Range>) {
    var a := IpValue(h, ip);
    a.Some? && exists k :: 0 <= k < |ranges| && Matches(a.value, ranges[k])
  }

  function ClientIp(h: Host, peer: string, realIp: string, trusted: seq<Range>): string {
    var socketIp := Normalize(h, peer);
    if socketIp == "" then ""
    else if !IsTrusted(h, socketIp, trusted) then socketIp
    else OrElse(Normalize(h, realIp), socketIp)
  }

  // ---------------------------------------------------------------- which texts are addresses

  // A text that is already as `Normalize` leaves it, apart from its case.
  ghost predicate IsBare(ip: string) {
    ip != "" && Trimmed(ip) && '%' !in ip && ip[0] != '[' && ip[|ip| - 1] != ']'
  }

  lemma {:induction false} SplitAtFirst(s: string, rest: string, c: char)
    requires c !in s
    ensures Split(s, c)[0] == s && Split(s + [c] + rest, c)[0] == s
  {
    SplitWhole(s, c);
    SplitFirst(s, rest, c);
  }

  // What becomes of an address once it is freed from what is around it.
  ghost predicate IsRead(h: Host, r: string, ip: string) {
    var inner := if |ip| > 7 && Lower(ip[..7]) == "::ffff:" && Dotted(ip[7..]) then ip[7..] else ip;
    r == if h.family(inner) == 4 || h.family(inner) == 6 then Lower(inner) else ""
  }

  ghost predicate Families(h: Host) { forall s :: h.family(s) == 0 || h.family(s) == 4 || h.family(s) == 6 }

  lemma BareReads(ip: string)
    requires IsBare(ip)
    ensures Bare(ip) == ip
  {
    SplitAtFirst(ip, "", '%');
  }

  lemma BracketsAreDropped(ip: string)
    requires IsBare(ip)
    ensures Unbracketed("[" + ip + "]") == ip && Trimmed("[" + ip + "]")
  {
    var t := "[" + ip + "]";
    assert t[1..] == ip + "]" && (ip + "]")[..|ip|] == ip;
  }

  lemma BracketedReads(ip: string)
    requires IsBare(ip)
    ensures Bare("[" + ip + "]") == ip
  {
    BracketsAreDropped(ip);
    SplitAtFirst(ip, "", '%');
  }

  lemma ZonedReads(ip: string, zone: string)
    requires IsBare(ip) && zone != "" && Trimmed(ip + "%" + zone) && zone[|zone| - 1] != ']'
    ensures Bare(ip + "%" + zone) == ip
  {
    SplitAtFirst(ip, zone, '%');
    assert ip + "%" + zone == ip + ['%'] + zone;
  }

  /** An address is read with white space, brackets or a zone around it, and a mapped IPv4 address as what it
      maps; in lower case, and as nothing when Node does not take it for an address. */
  lemma NormalizeReads(h: Host, ip: string, zone: string)
    requires Families(h) && IsBare(ip)
    ensures IsRead(h, Normalize(h, ip), ip)
    ensures IsRead(h, Normalize(h, "[" + ip + "]"), ip)
    ensures zone != "" && Trimmed(ip + "%" + zone) && zone[|zone| - 1] != ']' ==>
              IsRead(h, Normalize(h, ip + "%" + zone), ip)
  {
    BareReads(ip);
    BracketedReads(ip);
    if zone != "" && Trimmed(ip + "%" + zone) && zone[|zone| - 1] != ']' { ZonedReads(ip, zone); }
    TakenIsRead(h, ip);
  }

  lemma TakenIsRead(h: Host, ip: string)
    requires Families(h)
    ensures IsRead(h, Taken(h, Unmapped(ip)), ip)
  {}

  lemma UnbracketedIsPart(t: string) returns (i: nat, j: nat)
    ensures i <= j <= |t| && Unbracketed(t) == t[i..j]
  {
    i, j := 0, |t|;
    if t != "" && t[0] == '[' { i := 1; }
    if i < j && t[j - 1] == ']' { j := j - 1; }
  }

  lemma PartOfPart(s: string, i: nat, j: nat, k: nat, l: nat)
    requires i <= j <= |s| && k <= l <= j - i
    ensures s[i..j][k..l] == s[i + k..i + l]
  {
    var part, whole := s[i..j][k..l], s[i + k..i + l];
    assert |part| == |whole| && forall x :: 0 <= x < |part| ==> part[x] == whole[x];
  }

  lemma BareIsPart(text: string) returns (i: nat, j: nat)
    ensures i <= j <= |text| && Bare(text) == text[i..j]
  {
    i, j := TrimIsInner(text);
    var k, l := UnbracketedIsPart(Trim(text));
    PartOfPart(text, i, j, k, l);
    var n := FirstPart(Unbracketed(Trim(text)), '%');
    PartOfPart(text, i + k, i + l, 0, n);
    i, j := i + k, i + k + n;
  }

  /** And only such a text is taken: what is read is the lower case of an address that stands in it. */
  lemma NormalizeFinds(h: Host, text: string)
    ensures var r := Normalize(h, text);
            r != "" ==> exists i, j :: 0 <= i <= j <= |text| && h.family(text[i..j]) != 0 && r == Lower(text[i..j])
  {
    var i, j := BareIsPart(text);
    var n := if IsMapped(text[i..j]) then 7 else 0;
    PartOfPart(text, i, j, n, j - i);
    assert Unmapped(Bare(text)) == text[i + n..j];
  }

  lemma {:induction false} FirstPart(s: string, c: char) returns (n: nat)
    ensures n <= |s| && Split(s, c)[0] == s[..n]
  {
    if s == [] || s[0] == c {
      n := 0;
    } else {
      n := FirstPart(s[1..], c);
      n := n + 1;
      assert s[..n] == [s[0]] + s[1..][..n - 1];
    }
  }

  /** An address has 32 bits or 128, as Node says which it is, and the number that its text denotes. */
  lemma IpValueIff(h: Host, text: string, a: Address)
    ensures var ip := Normalize(h, text);
            IpValue(h, text) == Some(a) <==>
            || (h.family(ip) == 4 && a == Address(4, 32, Ipv4Value(ip)))
            || (h.family(ip) == 6 && Ipv6Value(ip).Some? && a == Address(6, 128, Ipv6Value(ip).value))
  {}

  // So the canonical text of four octets is the address of those octets.
  lemma OctetsAreAddress(h: Host, o: seq<nat>)
    requires Families(h) && |o| == 4 && h.family(Join(Decimals(o), '.')) == 4
    ensures IpValue(h, Join(Decimals(o), '.')) == Some(Address(4, 32, Fold(o, 256)))
  {
    OctetsAreBare(Decimals(o), o);
    OctetsAreValue(Decimals(o), o);
    DigitsAreAddress(h, Join(Decimals(o), '.'), Fold(o, 256));
  }

  lemma OctetsAreBare(parts: seq<string>, o: seq<nat>)
    requires o != [] && parts == Decimals(o)
    ensures IsBare(Join(parts, '.')) && forall c :: c in Join(parts, '.') ==> IsDigit(c) || c == '.'
  {
    DecimalsAreBare(parts);
  }

  lemma OctetsAreValue(parts: seq<string>, o: seq<nat>)
    requires |o| == 4 && parts == Decimals(o)
    ensures Ipv4Value(Join(parts, '.')) == Fold(o, 256)
  {
    Ipv4Reads(o);
  }

  lemma DigitsAreAddress(h: Host, ip: string, value: nat)
    requires Families(h) && IsBare(ip) && h.family(ip) == 4 && Ipv4Value(ip) == value
    requires forall c :: c in ip ==> IsDigit(c) || c == '.'
    ensures IpValue(h, ip) == Some(Address(4, 32, value))
  {
    DigitsNormalize(h, ip);
  }

  lemma DigitsNormalize(h: Host, ip: string)
    requires Families(h) && IsBare(ip) && h.family(ip) != 0 && forall c :: c in ip ==> IsDigit(c) || c == '.'
    ensures Normalize(h, ip) == ip
  {
    NotMapped(ip);
    BareReads(ip);
    LowerStays(ip);
  }

  lemma NotMapped(ip: string)
    requires forall c :: c in ip ==> IsDigit(c) || c == '.'
    ensures !IsMapped(ip)
  {
    if |ip| > 7 { assert ip[0] in ip && Lower(ip[..7])[0] == LowerChar(ip[0]); }
  }

  lemma LowerStays(ip: string)
    requires forall c :: c in ip ==> IsHex(c) || c == '.' || c == ':'
    ensures Lower(ip) == ip
  {
    assert forall k :: 0 <= k < |ip| ==> ip[k] in ip;
  }

  lemma {:induction false} DecimalsAreBare(parts: seq<string>)
    requires parts != [] && forall k :: 0 <= k < |parts| ==> parts[k] != "" && forall c :: c in parts[k] ==> IsDigit(c)
    ensures var s := Join(parts, '.'); s != "" && IsDigit(s[0]) && IsDigit(s[|s| - 1])
    ensures forall c :: c in Join(parts, '.') ==> IsDigit(c) || c == '.'
    ensures IsBare(Join(parts, '.'))
  {
    assert parts[0][0] in parts[0] && parts[0][|parts[0]| - 1] in parts[0];
    if |parts| > 1 { DecimalsAreBare(parts[1..]); }
  }

  // ---------------------------------------------------------------- which configurations compile

  lemma {:induction false} SplitMoreIff(s: string, c: char)
    ensures |Split(s, c)| > 1 <==> c in s
  {
    if s != [] {
      SplitMoreIff(s[1..], c);
      assert s == [s[0]] + s[1..];
    }
  }

  // The prefix of an entry: what follows the slash, or all bits of the address without one.
  ghost function Prefix(h: Host, raw: string, bits: nat): Option<int> {
    if '/' in raw then (if |Split(raw, '/')| > 1 then h.integer(Split(raw, '/')[1]) else None) else Some(bits)
  }

  lemma PrefixIs(h: Host, raw: string, a: Address)
    ensures PrefixOf(h, raw, a) == Prefix(h, raw, a.bits)
  {
    SplitMoreIff(raw, '/');
  }

  // An entry is blank, or an address with a prefix from none to all of its bits.
  ghost predicate IsLegal(h: Host, entry: string) {
    var raw := Trim(entry);
    var base := IpValue(h, Split(raw, '/')[0]);
    raw != "" ==>
      && base.Some?
      && var prefix := Prefix(h, raw, base.value.bits); prefix.Some? && 0 <= prefix.value <= base.value.bits
  }

  lemma InvalidIff(h: Host, entry: string)
    ensures ParseEntry(h, entry).Invalid? <==> !IsLegal(h, entry)
    ensures ParseEntry(h, entry).Blank? <==> Trim(entry) == ""
  {
    var raw := Trim(entry);
    var base := IpValue(h, Split(raw, '/')[0]);
    if base.Some? { PrefixIs(h, raw, base.value); }
  }

  lemma {:induction false} NoneInvalidIff(parse: Parser, entries: seq<string>)
    ensures Compile(parse, entries).Some? <==> forall k :: 0 <= k < |entries| ==> !parse(entries[k]).Invalid?
  {
    if entries != [] {
      NoneInvalidIff(parse, entries[1..]);
      assert entries == [entries[0]] + entries[1..];
    }
  }

  /** A configuration compiles exactly when each of its entries is blank or an address with a legal prefix. */
  lemma CompilesIff(h: Host, config: string)
    ensures Compile(Entries(h), Split(config, ',')).Some? <==> forall e :: e in Split(config, ',') ==> IsLegal(h, e)
  {
    var entries := Split(config, ',');
    NoneInvalidIff(Entries(h), entries);
    forall k | 0 <= k < |entries| ensures Entries(h)(entries[k]).Invalid? <==> !IsLegal(h, entries[k]) {
      InvalidIff(h, entries[k]);
    }
  }

  // ---------------------------------------------------------------- which addresses are trusted

  // The two addresses have the same first `prefix` of `bits` bits.
  predicate SamePrefix(a: nat, b: nat, bits: nat, prefix: nat)
    requires prefix <= bits
  {
    a / Pow2(bits - prefix) == b / Pow2(bits - prefix)
  }

  lemma SameNetworkIff(a: nat, b: nat, host: nat)
    ensures Network(a, host) == Network(b, host) <==> a / Pow2(host) == b / Pow2(host)
    ensures Network(a, host) == Network(b, host) <==> Network(a, host) <= b < Network(a, host) + Pow2(host)
  {
    var p := Pow2(host);
    MulLess(a / p, b / p, p);
    MulLess(b / p, a / p, p);
    NetworkIsFloor(a, host);
    BlockIsInterval(b, Network(a, host), host);
  }

  // An address lies in an entry: same family, and the same leading bits as the entry's address.
  ghost predicate Lies(a: Address, base: Address, prefix: Option<int>) {
    prefix.Some? && 0 <= prefix.value <= base.bits && a.family == base.family &&
    SamePrefix(a.value, base.value, base.bits, prefix.value)
  }

  lemma MatchesIff(a: Address, base: Address, prefix: Option<int>)
    requires EntryRange(base, prefix).Listed?
    ensures Matches(a, EntryRange(base, prefix).range) <==> Lies(a, base, prefix)
  {
    SameNetworkIff(a.value, base.value, base.bits - prefix.value);
  }

  ghost predicate Covers(h: Host, entry: string, a: Address) {
    var raw := Trim(entry);
    var base := IpValue(h, Split(raw, '/')[0]);
    raw != "" && base.Some? && Lies(a, base.value, Prefix(h, raw, base.value.bits))
  }

  lemma EntryIff(h: Host, entry: string, a: Address)
    requires !ParseEntry(h, entry).Invalid?
    ensures Covers(h, entry, a) <==> MatchesEntry(a, ParseEntry(h, entry))
  {
    var raw := Trim(entry);
    if raw != "" {
      var base := IpValue(h, Split(raw, '/')[0]).value;
      PrefixIs(h, raw, base);
      MatchesIff(a, base, PrefixOf(h, raw, base));
    }
  }

  predicate MatchesEntry(a: Address, e: Entry) { e.Listed? && Matches(a, e.range) }

  ghost predicate CoveredBySome(h: Host, entries: seq<string>, a: Address) {
    exists k :: 0 <= k < |entries| && Covers(h, entries[k], a)
  }

  ghost predicate MatchedBySome(a: Address, ranges: seq<Range>) {
    exists k :: 0 <= k < |ranges| && Matches(a, ranges[k])
  }

  ghost predicate EntryMatches(parse: Parser, entries: seq<string>, a: Address) {
    exists k :: 0 <= k < |entries| && MatchesEntry(a, parse(entries[k]))
  }

  lemma MatchedByEither(a: Address, left: seq<Range>, right: seq<Range>)
    ensures MatchedBySome(a, left + right) <==> MatchedBySome(a, left) || MatchedBySome(a, right)
  {
    var all := left + right;
    if k :| 0 <= k < |left| && Matches(a, left[k]) { assert all[k] == left[k]; }
    if k :| 0 <= k < |right| && Matches(a, right[k]) { assert all[|left| + k] == right[k]; }
  }

  lemma FirstEntryMatches(parse: Parser, entries: seq<string>, a: Address)
    requires entries != []
    ensures EntryMatches(parse, entries, a) <==>
            MatchesEntry(a, parse(entries[0])) || EntryMatches(parse, entries[1..], a)
  {
    var rest := entries[1..];
    if k :| 0 <= k < |rest| && MatchesEntry(a, parse(rest[k])) { assert entries[k + 1] == rest[k]; }
    if k :| 1 <= k < |entries| && MatchesEntry(a, parse(entries[k])) { assert rest[k - 1] == entries[k]; }
  }

  lemma {:induction false} CompiledIff(parse: Parser, entries: seq<string>, a: Address)
    requires Compile(parse, entries).Some?
    ensures MatchedBySome(a, Compile(parse, entries).value) <==> EntryMatches(parse, entries, a)
  {
    if entries != [] {
      var first, rest := parse(entries[0]), Compile(parse, entries[1..]).value;
      CompiledIff(parse, entries[1..], a);
      FirstEntryMatches(parse, entries, a);
      if first.Listed? {
        MatchedByEither(a, [first.range], rest);
        assert MatchedBySome(a, [first.range]) <==> Matches(a, [first.range][0]);
      } else {
        assert Compile(parse, entries).value == rest;
      }
    }
  }

  lemma {:induction false} NoneInvalid(parse: Parser, entries: seq<string>)
    requires Compile(parse, entries).Some?
    ensures forall k :: 0 <= k < |entries| ==> !parse(entries[k]).Invalid?
  {
    if entries != [] { NoneInvalid(parse, entries[1..]); }
  }

  lemma CoveredIff(h: Host, entries: seq<string>, a: Address)
    requires forall k :: 0 <= k < |entries| ==> !ParseEntry(h, entries[k]).Invalid?
    ensures EntryMatches(Entries(h), entries, a) <==> CoveredBySome(h, entries, a)
  {
    forall k | 0 <= k < |entries| ensures Covers(h, entries[k], a) <==> MatchesEntry(a, Entries(h)(entries[k])) {
      EntryIff(h, entries[k], a);
    }
  }

  // With a configuration that compiles, an address is trusted exactly when it lies in one of the
  // entries: the same family (32 or 128 bits) and the same leading bits.
  lemma TrustedIff(h: Host, config: string, ip: string)
    requires Compile(Entries(h), Split(config, ',')).Some?
    ensures IsTrusted(h, ip, Compile(Entries(h), Split(config, ',')).value) <==>
            IpValue(h, ip).Some? && CoveredBySome(h, Split(config, ','), IpValue(h, ip).value)
  {
    if IpValue(h, ip).Some? { RangesIff(h, Split(config, ','), IpValue(h, ip).value); }
  }

  lemma RangesIff(h: Host, entries: seq<string>, a: Address)
    requires Compile(Entries(h), entries).Some?
    ensures MatchedBySome(a, Compile(Entries(h), entries).value) <==> CoveredBySome(h, entries, a)
  {
    CompiledIff(Entries(h), entries, a);
    NoneInvalid(Entries(h), entries);
    CoveredIff(h, entries, a);
  }

  // The header of a peer outside every entry has no influence; that of a listed peer replaces the
  // peer's address exactly when it is an address.
  lemma HeaderCountsIff(h: Host, config: string, peer: string, realIp: string)
    requires Compile(Entries(h), Split(config, ',')).Some?
    ensures var socketIp := Normalize(h, peer);
            var listed := IpValue(h, socketIp).Some?
                  && CoveredBySome(h, Split(config, ','), IpValue(h, socketIp).value);
            ClientIp(h, peer, realIp, Compile(Entries(h), Split(config, ',')).value) ==
            if socketIp != "" && listed && Normalize(h, realIp) != "" then Normalize(h, realIp) else socketIp
  {
    TrustedIff(h, config, Normalize(h, peer));
  }
}
