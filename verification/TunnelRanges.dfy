/** apps/central/src/faixas-de-rede.js: the IPv4 ranges of the VPN tunnels, and the refusal of a
    range that another tunnel already uses. */
module TunnelRanges {
  import opened Basics
  import opened Optional
  import opened Text
  import opened Prefixes
  import opened Numerals

  const BITS := 32
  const OCTETS := 4

  datatype Cidr = Cidr(base: nat, prefix: nat, mask: nat)

  // ---------------------------------------------------------------- reading one range

  function DigitRun(s: string): (n: nat)
    ensures n <= |s|
  {
    if s != [] && IsDigit(s[0]) then 1 + DigitRun(s[1..]) else 0
  }

  // A number of 1 to `width` digits, and what follows it.
  function ReadNumber(s: string, width: nat): Option<(nat, string)> {
    var n := DigitRun(s);
    if 1 <= n <= width then Some((NumberOf(s[..n], 10), s[n..])) else None
  }

  function ReadOctets(s: string, count: nat): (r: Option<(seq<nat>, string)>)
    requires count > 0
    ensures r.Some? ==> |r.value.0| == count
  {
    match ReadNumber(s, 3)
    case None => None
    case Some((n, rest)) =>
      if count == 1 then Some(([n], rest))
      else if rest == [] || rest[0] != '.' then None
      else match ReadOctets(rest[1..], count - 1)
        case None => None
        case Some((more, after)) => Some(([n] + more, after))
  }

  // `mascara` of lerCidr: ones above the host bits, and 0 for prefix 0.
  function Mask(prefix: nat): (m: nat)
    requires prefix <= BITS
  {
    Pow2Mono(BITS - prefix, BITS);
    if prefix == 0 then 0 else Pow2(BITS) - Pow2(BITS - prefix)
  }

  function Quad(o: seq<nat>): nat
    requires |o| == 4
  {
    o[0] * 0x100_0000 + o[1] * 0x1_0000 + o[2] * 0x100 + o[3]
  }

  // What follows the octets: a slash and one or two digits, with white space around them.
  function PrefixNumber(rest: string): Option<nat> { PrefixAtSlash(TrimLeft(rest)) }

  function PrefixAtSlash(r: string): Option<nat> {
    if r == [] || r[0] != '/' then None else PrefixAfterSlash(r[1..])
  }

  function PrefixAfterSlash(more: string): Option<nat> { PrefixDigits(TrimLeft(more)) }

  function PrefixDigits(number: string): Option<nat> {
    match ReadNumber(number, 2)
    case None => None
    case Some((prefix, after)) => if TrimLeft(after) != [] then None else Some(prefix)
  }

  function ReadPrefix(o: seq<nat>, rest: string): (r: Option<Cidr>)
    requires |o| == 4
    ensures r.Some? ==> r.value.prefix <= BITS
  {
    match PrefixNumber(rest)
    case None => None
    case Some(prefix) => Masking(o, prefix)
  }

  function Masking(o: seq<nat>, prefix: nat): (r: Option<Cidr>)
    requires |o| == 4
    ensures r.Some? ==> r.value.prefix <= BITS
  {
    if (exists k :: 0 <= k < 4 && o[k] > 255) || prefix > BITS then None
    else Some(Cidr(And(Quad(o), Mask(prefix)), prefix, Mask(prefix)))
  }

  function ReadCidr(text: string): (r: Option<Cidr>)
    ensures r.Some? ==> r.value.prefix <= BITS
  {
    match ReadOctets(TrimLeft(text), OCTETS)
    case None => None
    case Some((o, rest)) => ReadPrefix(o, rest)
  }

  // ---------------------------------------------------------------- text and meaning

  lemma {:induction false} DigitsRun(digits: string, rest: string)
    requires (forall c :: c in digits ==> IsDigit(c)) && (rest == [] || !IsDigit(rest[0]))
    ensures DigitRun(digits + rest) == |digits|
  {
    if digits == [] {
      assert digits + rest == rest;
    } else {
      DigitsRun(digits[1..], rest);
      assert digits[0] in digits && (digits + rest)[1..] == digits[1..] + rest;
    }
  }

  // One to `width` digits.
  ghost predicate IsNumeral(d: string, width: nat) { 1 <= |d| <= width && forall c :: c in d ==> IsDigit(c) }

  lemma NumeralReads(d: string, width: nat, rest: string)
    requires IsNumeral(d, width) && (rest == [] || !IsDigit(rest[0]))
    ensures ReadNumber(d + rest, width) == Some((NumberOf(d, 10), rest))
  {
    DigitsRun(d, rest);
    assert (d + rest)[..|d|] == d && (d + rest)[|d|..] == rest;
  }

  lemma {:induction false} RunIsDigits(s: string)
    ensures forall k :: 0 <= k < DigitRun(s) ==> IsDigit(s[k])
    ensures DigitRun(s) < |s| ==> !IsDigit(s[DigitRun(s)])
  {
    if s != [] && IsDigit(s[0]) {
      RunIsDigits(s[1..]);
      assert forall k :: 0 < k < |s| ==> s[k] == s[1..][k - 1];
    }
  }

  lemma NumeralWas(s: string, width: nat) returns (d: string)
    requires ReadNumber(s, width).Some?
    ensures var (n, rest) := ReadNumber(s, width).value;
            IsNumeral(d, width) && s == d + rest && n == NumberOf(d, 10) && (rest == [] || !IsDigit(rest[0]))
  {
    RunIsDigits(s);
    d := s[..DigitRun(s)];
    assert s == d + s[DigitRun(s)..];
  }

  ghost predicate AreNumerals(ds: seq<string>, width: nat) { forall k :: 0 <= k < |ds| ==> IsNumeral(ds[k], width) }

  lemma LastOctet(d: string, rest: string)
    requires IsNumeral(d, 3) && (rest == [] || !IsDigit(rest[0]))
    ensures ReadOctets(d + rest, 1) == Some(([NumberOf(d, 10)], rest))
  {
    NumeralReads(d, 3, rest);
  }

  lemma OctetThen(d: string, more: string, os: seq<nat>, rest: string)
    requires IsNumeral(d, 3) && os != [] && ReadOctets(more, |os|) == Some((os, rest))
    ensures ReadOctets(d + (['.'] + more), |os| + 1) == Some(([NumberOf(d, 10)] + os, rest))
  {
    NumeralReads(d, 3, ['.'] + more);
    assert (['.'] + more)[1..] == more;
  }

  lemma {:induction false} OctetsRead(ds: seq<string>, rest: string)
    requires ds != [] && AreNumerals(ds, 3) && (rest == [] || !IsDigit(rest[0]))
    ensures ReadOctets(Join(ds, '.') + rest, |ds|) == Some((Numbers(ds, 10), rest))
  {
    var d, more := ds[0], ds[1..];
    assert ds == [d] + more && IsNumeral(d, 3);
    if more == [] {
      assert ds == [d];
      OneOctetReads(d, rest);
    } else {
      OctetsRead(more, rest);
      OctetsReadMore(d, more, rest);
    }
  }

  lemma OneOctetReads(d: string, rest: string)
    requires IsNumeral(d, 3) && (rest == [] || !IsDigit(rest[0]))
    ensures ReadOctets(Join([d], '.') + rest, 1) == Some((Numbers([d], 10), rest))
  {
    LastOctet(d, rest);
    assert Numbers([d], 10) == [NumberOf(d, 10)];
  }

  lemma OctetsReadMore(d: string, ds: seq<string>, rest: string)
    requires IsNumeral(d, 3) && ds != [] && ReadOctets(Join(ds, '.') + rest, |ds|) == Some((Numbers(ds, 10), rest))
    ensures ReadOctets(Join([d] + ds, '.') + rest, |ds| + 1) == Some((Numbers([d] + ds, 10), rest))
  {
    var more := Join(ds, '.') + rest;
    OctetThen(d, more, Numbers(ds, 10), rest);
    OctetsJoin(d, ds, more, rest);
  }

  // The first octet of a text that is read, and what follows its dot.
  lemma FirstOctetWas(s: string, count: nat) returns (d: string, more: string)
    requires count > 1 && ReadOctets(s, count).Some?
    ensures IsNumeral(d, 3) && s == d + (['.'] + more) && ReadOctets(more, count - 1).Some?
    ensures ReadOctets(s, count).value.0 == [NumberOf(d, 10)] + ReadOctets(more, count - 1).value.0
    ensures ReadOctets(s, count).value.1 == ReadOctets(more, count - 1).value.1
  {
    d := NumeralWas(s, 3);
    var rest := ReadNumber(s, 3).value.1;
    more := rest[1..];
    assert rest == ['.'] + more;
  }

  lemma OnlyOctetWas(s: string) returns (d: string)
    requires ReadOctets(s, 1).Some?
    ensures var (o, rest) := ReadOctets(s, 1).value;
            IsNumeral(d, 3) && o == [NumberOf(d, 10)] && s == d + rest && (rest == [] || !IsDigit(rest[0]))
  {
    d := NumeralWas(s, 3);
  }

  // These numerals are the octets that are read.
  ghost predicate OctetsAre(s: string, count: nat, ds: seq<string>)
    requires count > 0
  {
    && ReadOctets(s, count).Some? && |ds| == count && AreNumerals(ds, 3)
    && var (o, rest) := ReadOctets(s, count).value;
       o == Numbers(ds, 10) && s == Join(ds, '.') + rest && (rest == [] || !IsDigit(rest[0]))
  }

  lemma OctetsAreMore(s: string, count: nat, d: string, more: string, ds: seq<string>)
    requires count > 1 && ReadOctets(s, count).Some? && IsNumeral(d, 3) && s == d + (['.'] + more)
    requires OctetsAre(more, count - 1, ds)
    requires ReadOctets(s, count).value.0 == [NumberOf(d, 10)] + ReadOctets(more, count - 1).value.0
    requires ReadOctets(s, count).value.1 == ReadOctets(more, count - 1).value.1
    ensures OctetsAre(s, count, [d] + ds)
  {
    OctetsJoin(d, ds, more, ReadOctets(more, count - 1).value.1);
  }

  lemma {:induction false} OctetsWere(s: string, count: nat) returns (ds: seq<string>)
    requires count > 0 && ReadOctets(s, count).Some?
    ensures OctetsAre(s, count, ds)
    decreases count
  {
    if count == 1 {
      var d := OnlyOctetWas(s);
      ds := [d];
      assert Numbers(ds, 10) == [NumberOf(d, 10)] && Join(ds, '.') == d;
    } else {
      var d, more := FirstOctetWas(s, count);
      var others := OctetsWere(more, count - 1);
      ds := [d] + others;
      OctetsAreMore(s, count, d, more, others);
    }
  }

  lemma OctetsJoin(d: string, more: seq<string>, text: string, rest: string)
    requires more != [] && text == Join(more, '.') + rest
    ensures d + (['.'] + text) == Join([d] + more, '.') + rest
    ensures Numbers([d] + more, 10) == [NumberOf(d, 10)] + Numbers(more, 10)
  {
    assert ([d] + more)[1..] == more;
  }

  // ---------------------------------------------------------------- the texts that are read

  ghost predicate IsBlank(s: string) { forall c :: c in s ==> IsSpace(c) }

  lemma TrimmedLeft(s: string) returns (blank: string)
    ensures IsBlank(blank) && s == blank + TrimLeft(s)
  {
    TrimLeftDrops(s);
    blank := s[..|s| - |TrimLeft(s)|];
  }

  lemma {:induction false} BlankIsDropped(blank: string, s: string)
    requires IsBlank(blank) && (s == [] || !IsSpace(s[0]))
    ensures TrimLeft(blank + s) == s
  {
    if blank == [] {
      assert blank + s == s;
    } else {
      assert blank[0] in blank && (blank + s)[1..] == blank[1..] + s;
      BlankIsDropped(blank[1..], s);
    }
  }

  // The parts of a text that is read: blanks at the ends and around the slash, four numerals of up to
  // three digits, and one of up to two.
  datatype Form = Form(before: string, octets: seq<string>, left: string, right: string, prefix: string, after: string)

  ghost predicate IsForm(f: Form) {
    && IsBlank(f.before) && IsBlank(f.left) && IsBlank(f.right) && IsBlank(f.after)
    && |f.octets| == 4 && AreNumerals(f.octets, 3) && IsNumeral(f.prefix, 2)
  }

  function TailOf(f: Form): string { f.left + (['/'] + (f.right + (f.prefix + f.after))) }

  function TextOf(f: Form): string { f.before + (Join(f.octets, '.') + TailOf(f)) }

  // The text has this form, with octets up to 255 and a prefix up to 32.
  ghost predicate Writes(f: Form, text: string) {
    && IsForm(f) && text == TextOf(f) && NumberOf(f.prefix, 10) <= 32
    && forall k :: 0 <= k < 4 ==> NumberOf(f.octets[k], 10) <= 255
  }

  lemma BlankStart(blank: string, s: string)
    requires IsBlank(blank) && s != [] && !IsDigit(s[0])
    ensures !IsDigit((blank + s)[0])
  {
    if blank != [] { assert blank[0] in blank; } else { assert blank + s == s; }
  }

  lemma DigitsRead(prefix: string, after: string)
    requires IsNumeral(prefix, 2) && IsBlank(after)
    ensures PrefixDigits(prefix + after) == Some(NumberOf(prefix, 10)) && IsDigit((prefix + after)[0])
  {
    assert prefix[0] in prefix;
    if after != [] { assert after[0] in after; }
    NumeralReads(prefix, 2, after);
    BlankIsDropped(after, []);
    assert after + [] == after;
  }

  lemma SlashReads(left: string, more: string)
    requires IsBlank(left)
    ensures var rest := left + (['/'] + more);
            PrefixNumber(rest) == PrefixAfterSlash(more) && rest != [] && !IsDigit(rest[0])
  {
    BlankStart(left, ['/'] + more);
    BlankIsDropped(left, ['/'] + more);
    assert (['/'] + more)[1..] == more;
  }

  lemma TailReads(f: Form)
    requires IsForm(f)
    ensures PrefixNumber(TailOf(f)) == Some(NumberOf(f.prefix, 10)) && TailOf(f) != [] && !IsDigit(TailOf(f)[0])
  {
    var number := f.prefix + f.after;
    DigitsRead(f.prefix, f.after);
    BlankIsDropped(f.right, number);
    SlashReads(f.left, f.right + number);
  }

  lemma OctetIsFirst(f: Form)
    requires IsForm(f)
    ensures TrimLeft(TextOf(f)) == Join(f.octets, '.') + TailOf(f)
  {
    var text := Join(f.octets, '.') + TailOf(f);
    JoinStarts(f.octets, '.');
    assert text[0] == f.octets[0][0] && f.octets[0][0] in f.octets[0];
    BlankIsDropped(f.before, text);
  }

  lemma FormReads(f: Form)
    requires IsForm(f)
    ensures ReadCidr(TextOf(f)) == Masking(Numbers(f.octets, 10), NumberOf(f.prefix, 10))
  {
    TailReads(f);
    OctetIsFirst(f);
    OctetsRead(f.octets, TailOf(f));
  }

  lemma AllBlank(s: string)
    requires TrimLeft(s) == []
    ensures IsBlank(s)
  {
    var blank := TrimmedLeft(s);
    assert blank + [] == blank;
  }

  lemma SlashWas(rest: string) returns (left: string, more: string)
    requires PrefixNumber(rest).Some?
    ensures IsBlank(left) && rest == left + (['/'] + more) && PrefixAfterSlash(more) == PrefixNumber(rest)
  {
    more := SlashFollows(TrimLeft(rest));
    left := TrimmedLeft(rest);
  }

  lemma SlashFollows(r: string) returns (more: string)
    requires PrefixAtSlash(r).Some?
    ensures r == ['/'] + more && PrefixAfterSlash(more) == PrefixAtSlash(r)
  {
    more := r[1..];
  }

  lemma DigitsWere(number: string) returns (prefix: string, after: string)
    requires PrefixDigits(number).Some?
    ensures IsNumeral(prefix, 2) && IsBlank(after) && number == prefix + after
  {
    prefix := NumeralWas(number, 2);
    after := ReadNumber(number, 2).value.1;
    AllBlank(after);
  }

  lemma TailWas(rest: string) returns (left: string, right: string, prefix: string, after: string)
    requires PrefixNumber(rest).Some?
    ensures IsBlank(left) && IsBlank(right) && IsBlank(after) && IsNumeral(prefix, 2)
    ensures rest == left + (['/'] + (right + (prefix + after)))
  {
    var more;
    left, more := SlashWas(rest);
    right := TrimmedLeft(more);
    prefix, after := DigitsWere(TrimLeft(more));
  }

  lemma FormWas(text: string) returns (f: Form)
    requires ReadCidr(text).Some?
    ensures IsForm(f) && text == TextOf(f)
  {
    var before := TrimmedLeft(text);
    var octets := OctetsWere(TrimLeft(text), OCTETS);
    var left, right, prefix, after := TailWas(ReadOctets(TrimLeft(text), OCTETS).value.1);
    f := Form(before, octets, left, right, prefix, after);
  }

  /** A text is a range exactly when it has the form a.b.c.d/p, with octets up to 255 in up to three digits, a
      prefix up to 32 in up to two, and white space only at the ends and around the slash.  It then denotes
      the network of the address a.b.c.d under the prefix p, whatever its host bits. */
  lemma RangeIff(text: string)
    ensures ReadCidr(text).Some? <==> exists f :: Writes(f, text)
    ensures forall f :: Writes(f, text) ==> ReadCidr(text) == Some(RangeOf(f))
  {
    if ReadCidr(text).Some? {
      var f := FormWas(text);
      FormInRange(f);
    }
    forall f | Writes(f, text) ensures ReadCidr(text) == Some(RangeOf(f)) { WrittenReads(f, text); }
  }

  // The network of the address that is written, under the prefix that is written.
  ghost function RangeOf(f: Form): Cidr
    requires IsForm(f) && NumberOf(f.prefix, 10) <= 32
  {
    var prefix := NumberOf(f.prefix, 10);
    Cidr(Network(Fold(Numbers(f.octets, 10), 256), 32 - prefix), prefix, Mask(prefix))
  }

  lemma FormInRange(f: Form)
    requires IsForm(f) && ReadCidr(TextOf(f)).Some?
    ensures Writes(f, TextOf(f))
  {
    FormReads(f);
    var o := Numbers(f.octets, 10);
    assert forall k :: 0 <= k < 4 ==> o[k] <= 255;
  }

  lemma WrittenReads(f: Form, text: string)
    requires Writes(f, text)
    ensures ReadCidr(text) == Some(RangeOf(f))
  {
    FormReads(f);
    MaskingIs(Numbers(f.octets, 10), NumberOf(f.prefix, 10));
  }

  // In particular in the canonical form.
  lemma CidrReads(o: seq<nat>, prefix: nat)
    requires |o| == OCTETS && (forall k :: 0 <= k < |o| ==> o[k] <= 255) && prefix <= BITS
    ensures ReadCidr(Join(Decimals(o), '.') + (['/'] + Decimal(prefix))) ==
            Some(Cidr(Network(Fold(o, 256), BITS - prefix), prefix, Mask(prefix)))
  {
    var f := Form("", Decimals(o), "", "", Decimal(prefix), "");
    CanonicalForm(o, prefix);
    FormReads(f);
    MaskingIs(o, prefix);
  }

  lemma DecimalIsNumeral(n: nat, width: nat)
    requires (width == 3 && n < 1000) || (width == 2 && n < 100)
    ensures IsNumeral(Decimal(n), width)
  {
    DecimalIsShort(n);
  }

  lemma CanonicalForm(o: seq<nat>, prefix: nat)
    requires |o| == OCTETS && (forall k :: 0 <= k < |o| ==> o[k] <= 255) && prefix <= BITS
    ensures var f := Form("", Decimals(o), "", "", Decimal(prefix), "");
            && IsForm(f) && TextOf(f) == Join(Decimals(o), '.') + (['/'] + Decimal(prefix))
            && Numbers(f.octets, 10) == o && NumberOf(f.prefix, 10) == prefix
  {
    var ds, d := Decimals(o), Decimal(prefix);
    forall k | 0 <= k < 4 ensures IsNumeral(ds[k], 3) { DecimalIsNumeral(o[k], 3); }
    DecimalIsNumeral(prefix, 2);
    DecimalReads(prefix);
    DecimalsRead(o);
    CanonicalText(Join(ds, '.'), d);
  }

  lemma CanonicalText(octets: string, d: string)
    ensures "" + (octets + ("" + (['/'] + ("" + (d + ""))))) == octets + (['/'] + d)
  {
    assert d + "" == d;
  }

  lemma JoinStarts(parts: seq<string>, c: char)
    requires parts != [] && parts[0] != ""
    ensures Join(parts, c) != "" && Join(parts, c)[0] == parts[0][0]
  {}

  lemma MaskingIs(o: seq<nat>, prefix: nat)
    requires |o| == 4 && (forall k :: 0 <= k < |o| ==> o[k] <= 255) && prefix <= BITS
    ensures Masking(o, prefix) == Some(Cidr(Network(Fold(o, 256), BITS - prefix), prefix, Mask(prefix)))
  {
    QuadFits(o);
    Masked(Quad(o), prefix);
    QuadIsFold(o);
  }

  lemma QuadIsFold(o: seq<nat>)
    requires |o| == 4
    ensures Quad(o) == Fold(o, 256)
  {
    assert o == [] + [o[0]] + [o[1]] + [o[2]] + [o[3]];
    FoldSnoc([], o[0], 256);
    FoldSnoc([] + [o[0]], o[1], 256);
    FoldSnoc([] + [o[0]] + [o[1]], o[2], 256);
    FoldSnoc([] + [o[0]] + [o[1]] + [o[2]], o[3], 256);
  }

  // ---------------------------------------------------------------- the addresses of a range

  predicate WellFormed(c: Cidr) {
    c.prefix <= BITS && c.mask == Mask(c.prefix) && Aligned(c.base, BITS - c.prefix) &&
    c.base + Pow2(BITS - c.prefix) <= Pow2(BITS)
  }

  predicate In(a: nat, c: Cidr)
    requires c.prefix <= BITS
  {
    c.base <= a < c.base + Pow2(BITS - c.prefix)
  }

  // The reader is a parameter from here on, so that proofs need not look inside it.
  type Reader = string -> Option<Cidr>

  ghost predicate Sound(read: Reader) { forall text :: read(text).Some? ==> WellFormed(read(text).value) }

  // The address is one of the range that the text denotes; a text that is no range has none.
  predicate Covers(read: Reader, text: string, a: nat) {
    var c := read(text);
    c.Some? && c.value.prefix <= BITS && In(a, c.value)
  }

  lemma Masked(x: nat, prefix: nat)
    requires x < Pow2(BITS) && prefix <= BITS
    ensures And(x, Mask(prefix)) == Network(x, BITS - prefix)
  {
    if prefix == 0 { NetworkOfSmall(x, BITS); } else { MaskedSome(x, prefix); }
  }

  lemma MaskedSome(x: nat, prefix: nat)
    requires x < Pow2(BITS) && 0 < prefix <= BITS
    ensures And(x, Mask(prefix)) == Network(x, BITS - prefix)
  {
    MaskedBy(x, BITS, BITS - prefix, Mask(prefix));
  }

  lemma MaskedBy(x: nat, width: nat, host: nat, mask: nat)
    requires x < Pow2(width) && host <= width && mask + Pow2(host) == Pow2(width)
    ensures And(x, mask) == Network(x, host)
  {
    NetworkIsFloor(x, host);
    MaskedFloor(x, width, host, mask);
  }

  lemma MaskedFloor(x: nat, width: nat, host: nat, mask: nat)
    requires x < Pow2(width) && host <= width && mask + Pow2(host) == Pow2(width)
    ensures And(x, mask) == x - x % Pow2(host)
  {
    assert mask == Pow2(width) - Pow2(host);
    MaskClearsHost(x, width, host);
  }

  lemma NetworkOfSmall(x: nat, host: nat)
    requires x < Pow2(host)
    ensures Network(x, host) == 0
  {
    DivOf(0, Pow2(host), x);
  }

  lemma QuadFits(o: seq<nat>)
    requires |o| == 4 && forall k :: 0 <= k < 4 ==> o[k] <= 255
    ensures Quad(o) < Pow2(BITS)
  {
    assert Pow2(8) == 0x100;
    assert Pow2(16) == 0x1_0000;
    assert Pow2(24) == 0x100_0000;
    assert Pow2(32) == 0x1_0000_0000;
  }

  // The network of an address is a block of addresses that fits into 32 bits.
  lemma BlockFits(x: nat, host: nat)
    requires x < Pow2(BITS) && host <= BITS
    ensures Aligned(Network(x, host), host) && Network(x, host) + Pow2(host) <= Pow2(BITS)
    ensures Network(x, host) <= x < Network(x, host) + Pow2(host)
  {
    NetworkIsFloor(x, host);
    BlockIsInterval(x, Network(x, host), host);
    StartsInside(0, BITS, Network(x, host), host);
  }

  lemma PrefixIsWellFormed(o: seq<nat>, rest: string)
    requires |o| == 4
    ensures var c := ReadPrefix(o, rest);
            c.Some? ==> WellFormed(c.value) && Quad(o) < Pow2(BITS) && In(Quad(o), c.value)
  {
    var c := ReadPrefix(o, rest);
    if c.Some? {
      QuadFits(o);
      Masked(Quad(o), c.value.prefix);
      BlockFits(Quad(o), BITS - c.value.prefix);
    }
  }

  lemma RangeIsWellFormed(text: string)
    ensures var c := ReadCidr(text); c.Some? ==> WellFormed(c.value)
  {
    var os := ReadOctets(TrimLeft(text), OCTETS);
    if os.Some? { PrefixIsWellFormed(os.value.0, os.value.1); }
  }

  // A range is an aligned block of 2^(BITS - prefix) addresses around the address written.
  lemma RangeIsBlock(text: string)
    ensures var c, os := ReadCidr(text), ReadOctets(TrimLeft(text), OCTETS);
            c.Some? ==>
              WellFormed(c.value) && os.Some? && Quad(os.value.0) < Pow2(BITS) && In(Quad(os.value.0), c.value)
  {
    var os := ReadOctets(TrimLeft(text), OCTETS);
    if os.Some? { PrefixIsWellFormed(os.value.0, os.value.1); }
  }

  lemma ReaderIsSound()
    ensures Sound(ReadCidr)
  {
    forall text | ReadCidr(text).Some? ensures WellFormed(ReadCidr(text).value) { RangeIsWellFormed(text); }
  }

  // ---------------------------------------------------------------- seSobrepoe

  // Both bases agree under the mask of the shorter prefix.
  predicate Agree(x: Cidr, y: Cidr)
    requires x.prefix <= BITS && y.prefix <= BITS
  {
    var mask := Mask(Min(x.prefix, y.prefix));
    And(x.base, mask) == And(y.base, mask)
  }

  predicate Overlap(read: Reader, a: string, b: string) {
    var x, y := read(a), read(b);
    x.Some? && y.Some? && x.value.prefix <= BITS && y.value.prefix <= BITS && Agree(x.value, y.value)
  }

  // With the wider range first: they agree exactly when the narrower one starts inside it.
  lemma AgreeIffInside(x: Cidr, y: Cidr)
    requires WellFormed(x) && WellFormed(y) && x.prefix <= y.prefix
    ensures Agree(x, y) <==> In(y.base, x)
    ensures Agree(y, x) <==> In(y.base, x)
  {
    AgreeIffNetwork(x, y);
    BaseOfBlock(x, x.base);
    BaseOfBlock(x, y.base);
  }

  // Masking with the shorter prefix compares networks.
  lemma AgreeIffNetwork(x: Cidr, y: Cidr)
    requires WellFormed(x) && WellFormed(y) && x.prefix <= y.prefix
    ensures Agree(x, y) <==> Network(y.base, BITS - x.prefix) == Network(x.base, BITS - x.prefix)
    ensures Agree(y, x) <==> Agree(x, y)
  {
    Fits(x);
    Fits(y);
    Masked(x.base, x.prefix);
    Masked(y.base, x.prefix);
  }

  lemma BaseOfBlock(x: Cidr, a: nat)
    requires WellFormed(x)
    ensures Network(a, BITS - x.prefix) == x.base <==> In(a, x)
    ensures In(x.base, x)
  {
    BlockIsInterval(a, x.base, BITS - x.prefix);
  }

  lemma Fits(x: Cidr)
    requires WellFormed(x)
    ensures x.base < Pow2(BITS)
  {}

  lemma InsideIffMeet(x: Cidr, y: Cidr)
    requires WellFormed(x) && WellFormed(y) && x.prefix <= y.prefix
    ensures In(y.base, x) ==> forall a: nat :: In(a, y) ==> In(a, x)
    ensures forall a: nat :: In(a, y) && In(a, x) ==> In(y.base, x)
  {
    if In(y.base, x) { InsideIsContained(x, y); }
    forall a: nat | In(a, y) && In(a, x) ensures In(y.base, x) { MeetsInside(x, y, a); }
  }

  lemma InsideIsContained(x: Cidr, y: Cidr)
    requires WellFormed(x) && WellFormed(y) && x.prefix <= y.prefix && In(y.base, x)
    ensures forall a: nat :: In(a, y) ==> In(a, x)
  {
    StartsInside(x.base, BITS - x.prefix, y.base, BITS - y.prefix);
    forall a: nat | In(a, y) ensures In(a, x) {}
  }

  lemma MeetsInside(x: Cidr, y: Cidr, a: nat)
    requires WellFormed(x) && WellFormed(y) && x.prefix <= y.prefix && In(a, y) && In(a, x)
    ensures In(y.base, x)
  {
    MeetsIsInside(a, x.base, BITS - x.prefix, y.base, BITS - y.prefix);
  }

  predicate Shares(read: Reader, a: string, b: string, at: nat) { Covers(read, a, at) && Covers(read, b, at) }

  ghost predicate Meet(read: Reader, a: string, b: string) { exists at: nat :: Shares(read, a, b, at) }

  ghost predicate Within(read: Reader, a: string, b: string) {
    read(a).Some? && forall at: nat :: Covers(read, a, at) ==> Covers(read, b, at)
  }

  // The wider range `a` and the narrower range `b`.
  predicate Wider(read: Reader, a: string, b: string) {
    read(a).Some? && read(b).Some? && read(a).value.prefix <= read(b).value.prefix
  }

  lemma Ordered(read: Reader, a: string, b: string)
    requires Sound(read) && Wider(read, a, b)
    ensures Overlap(read, a, b) <==> Meet(read, a, b)
    ensures Overlap(read, b, a) <==> Meet(read, a, b)
    ensures Meet(read, a, b) <==> Within(read, b, a)
  {
    var x, y := read(a).value, read(b).value;
    AgreeIffInside(x, y);
    InsideIffMeet(x, y);
    assert Covers(read, b, y.base);
    if In(y.base, x) { assert Shares(read, a, b, y.base); }
    if at: nat :| Shares(read, a, b, at) { assert In(at, y) && In(at, x); }
  }

  lemma MeetSwaps(read: Reader, a: string, b: string)
    ensures Meet(read, a, b) <==> Meet(read, b, a)
  {
    forall at: nat ensures Shares(read, a, b, at) <==> Shares(read, b, a, at) {}
  }

  // Two ranges overlap exactly when some address lies in both.
  lemma OverlapIffMeet(read: Reader, a: string, b: string)
    requires Sound(read)
    ensures Overlap(read, a, b) <==> Meet(read, a, b)
  {
    MeetSwaps(read, a, b);
    if Wider(read, a, b) { Ordered(read, a, b); }
    if Wider(read, b, a) { Ordered(read, b, a); }
  }

  lemma WithinMeets(read: Reader, a: string, b: string)
    requires Sound(read) && Within(read, a, b)
    ensures Meet(read, a, b)
  {
    assert Shares(read, a, b, read(a).value.base);
  }

  // Equivalently, exactly when one contains the other.
  lemma OverlapIffContained(read: Reader, a: string, b: string)
    requires Sound(read)
    ensures Overlap(read, a, b) <==> read(a).Some? && read(b).Some? && (Within(read, a, b) || Within(read, b, a))
  {
    OverlapIffMeet(read, a, b);
    MeetSwaps(read, a, b);
    if Within(read, a, b) { WithinMeets(read, a, b); }
    if Within(read, b, a) { WithinMeets(read, b, a); }
    if Wider(read, a, b) { Ordered(read, a, b); }
    if Wider(read, b, a) { Ordered(read, b, a); }
  }

  // ---------------------------------------------------------------- lists of ranges

  function Trims(parts: seq<string>): (r: seq<string>)
    ensures |r| == |parts| && forall k :: 0 <= k < |r| ==> r[k] == Trim(parts[k])
  {
    seq(|parts|, k requires 0 <= k < |parts| => Trim(parts[k]))
  }

  function NonEmpty(parts: seq<string>): seq<string> {
    if parts == [] then [] else (if parts[0] != "" then [parts[0]] else []) + NonEmpty(parts[1..])
  }

  function Parts(text: string): seq<string> { NonEmpty(Trims(Split(text, ','))) }

  function IsRange(read: Reader): string -> bool { (text: string) => read(text).Some? }

  // The parts that satisfy `test`, or that do not, in order.
  function Filter(test: string -> bool, parts: seq<string>, keep: bool): seq<string> {
    if parts == [] then []
    else Filter(test, parts[..|parts| - 1], keep) +
         (if test(parts[|parts| - 1]) == keep then [parts[|parts| - 1]] else [])
  }

  function ValidRanges(read: Reader, text: string): seq<string> { Filter(IsRange(read), Parts(text), true) }

  function InvalidRanges(read: Reader, text: string): seq<string> { Filter(IsRange(read), Parts(text), false) }

  method ReadList(read: Reader, text: string) returns (valid: seq<string>, invalid: seq<string>)
    ensures valid == ValidRanges(read, text) && invalid == InvalidRanges(read, text)
  {
    valid, invalid := Separate(IsRange(read), Parts(text));
  }

  method Separate(test: string -> bool, parts: seq<string>) returns (yes: seq<string>, no: seq<string>)
    ensures yes == Filter(test, parts, true) && no == Filter(test, parts, false)
  {
    yes, no := [], [];
    for k := 0 to |parts|
      invariant yes == Filter(test, parts[..k], true) && no == Filter(test, parts[..k], false)
    {
      assert parts[..k + 1][..k] == parts[..k];
      if test(parts[k]) { yes := yes + [parts[k]]; } else { no := no + [parts[k]]; }
    }
    assert parts[..|parts|] == parts;
  }

  lemma {:induction false} NothingRejected(test: string -> bool, parts: seq<string>)
    ensures Filter(test, parts, false) == [] <==> forall s :: s in parts ==> test(s)
    ensures Filter(test, parts, false) == [] ==> Filter(test, parts, true) == parts
  {
    if parts != [] {
      NothingRejected(test, parts[..|parts| - 1]);
      assert parts == parts[..|parts| - 1] + [parts[|parts| - 1]];
    }
  }

  lemma {:induction false} NonEmptyAre(parts: seq<string>)
    ensures forall s :: s in NonEmpty(parts) <==> s in parts && s != ""
  {
    if parts != [] {
      NonEmptyAre(parts[1..]);
      assert parts == [parts[0]] + parts[1..];
    }
  }

  // ---------------------------------------------------------------- validarFaixasDoTunel

  datatype Tunnel = Tunnel(name: string, ranges: string)

  datatype Verdict = Accepted(ranges: seq<string>)
                   | InvalidRange(invalid: seq<string>)
                   | MissingRange
                   | Conflict(mine: string, theirs: string, other: string)

  type Relation = (string, string) -> bool

  function FirstClash(clash: Relation, mine: string, theirs: seq<string>): Option<string> {
    if theirs == [] then None
    else if clash(mine, theirs[0]) then Some(theirs[0])
    else FirstClash(clash, mine, theirs[1..])
  }

  function FirstPair(clash: Relation, mine: seq<string>, theirs: seq<string>): Option<(string, string)> {
    if mine == [] then None
    else match FirstClash(clash, mine[0], theirs)
      case Some(t) => Some((mine[0], t))
      case None => FirstPair(clash, mine[1..], theirs)
  }

  // A tunnel never conflicts with its own earlier configuration.
  function PairWith(clash: Relation, list: string -> seq<string>, name: string, mine: seq<string>, other: Tunnel)
    : Option<(string, string)>
  {
    if other.name == name then None else FirstPair(clash, mine, list(other.ranges))
  }

  // The first conflict with a differently named tunnel, in the order of the lists.
  function FirstConflict(clash: Relation, list: string -> seq<string>, name: string, mine: seq<string>,
                         others: seq<Tunnel>)
    : (r: Option<Verdict>)
    ensures r.Some? ==> r.value.Conflict?
  {
    if others == [] then None
    else
      var pair := PairWith(clash, list, name, mine, others[0]);
      if pair.Some? then Some(Conflict(pair.value.0, pair.value.1, others[0].name))
      else FirstConflict(clash, list, name, mine, others[1..])
  }

  function Overlaps(read: Reader): Relation { (a: string, b: string) => Overlap(read, a, b) }

  function Lists(read: Reader): string -> seq<string> { (text: string) => ValidRanges(read, text) }

  function Decide(valid: seq<string>, invalid: seq<string>, conflict: Option<Verdict>): Verdict {
    if invalid != [] then InvalidRange(invalid)
    else if valid == [] then MissingRange
    else if conflict.Some? then conflict.value
    else Accepted(valid)
  }

  function Judge(read: Reader, name: string, ranges: string, others: seq<Tunnel>): Verdict {
    var valid := ValidRanges(read, ranges);
    Decide(valid, InvalidRanges(read, ranges), FirstConflict(Overlaps(read), Lists(read), name, valid, others))
  }

  method FindClash(clash: Relation, mine: string, theirs: seq<string>) returns (r: Option<string>)
    ensures r == FirstClash(clash, mine, theirs)
  {
    for k := 0 to |theirs|
      invariant FirstClash(clash, mine, theirs) == FirstClash(clash, mine, theirs[k..])
    {
      if clash(mine, theirs[k]) { return Some(theirs[k]); }
    }
    return None;
  }

  method FindPair(clash: Relation, mine: seq<string>, theirs: seq<string>) returns (r: Option<(string, string)>)
    ensures r == FirstPair(clash, mine, theirs)
  {
    for k := 0 to |mine|
      invariant FirstPair(clash, mine, theirs) == FirstPair(clash, mine[k..], theirs)
    {
      var t := FindClash(clash, mine[k], theirs);
      if t.Some? { return Some((mine[k], t.value)); }
    }
    return None;
  }

  method FindPairWith(read: Reader, name: string, mine: seq<string>, other: Tunnel)
    returns (r: Option<(string, string)>)
    ensures r == PairWith(Overlaps(read), Lists(read), name, mine, other)
  {
    if other.name == name { return None; }
    var theirs, _ := ReadList(read, other.ranges);
    r := FindPair(Overlaps(read), mine, theirs);
  }

  method FindConflict(read: Reader, name: string, mine: seq<string>, others: seq<Tunnel>) returns (r: Option<Verdict>)
    ensures r == FirstConflict(Overlaps(read), Lists(read), name, mine, others)
  {
    for k := 0 to |others|
      invariant FirstConflict(Overlaps(read), Lists(read), name, mine, others) ==
                FirstConflict(Overlaps(read), Lists(read), name, mine, others[k..])
    {
      var pair := FindPairWith(read, name, mine, others[k]);
      if pair.Some? { return Some(Conflict(pair.value.0, pair.value.1, others[k].name)); }
    }
    return None;
  }

  method ValidateTunnel(read: Reader, name: string, ranges: string, others: seq<Tunnel>) returns (r: Verdict)
    ensures r == Judge(read, name, ranges, others)
  {
    var valid, invalid := ReadList(read, ranges);
    if invalid != [] { return InvalidRange(invalid); }
    if valid == [] { return MissingRange; }
    var c := FindConflict(read, name, valid, others);
    return if c.Some? then c.value else Accepted(valid);
  }

  // ---------------------------------------------------------------- what acceptance means

  lemma {:induction false} FirstClashIff(clash: Relation, mine: string, theirs: seq<string>)
    ensures var r := FirstClash(clash, mine, theirs);
            if r.Some? then r.value in theirs && clash(mine, r.value) else forall t :: t in theirs ==> !clash(mine, t)
  {
    if theirs != [] {
      FirstClashIff(clash, mine, theirs[1..]);
      assert theirs == [theirs[0]] + theirs[1..];
    }
  }

  lemma {:induction false} FirstPairIff(clash: Relation, mine: seq<string>, theirs: seq<string>)
    ensures var r := FirstPair(clash, mine, theirs);
            if r.Some? then r.value.0 in mine && r.value.1 in theirs && clash(r.value.0, r.value.1)
            else forall m, t :: m in mine && t in theirs ==> !clash(m, t)
  {
    if mine != [] {
      FirstClashIff(clash, mine[0], theirs);
      FirstPairIff(clash, mine[1..], theirs);
      assert mine == [mine[0]] + mine[1..];
    }
  }

  lemma {:induction false} ConflictIff(clash: Relation, list: string -> seq<string>, name: string, mine: seq<string>,
                                       others: seq<Tunnel>)
    ensures FirstConflict(clash, list, name, mine, others).None? <==>
            forall o :: o in others ==> PairWith(clash, list, name, mine, o).None?
  {
    if others != [] {
      ConflictIff(clash, list, name, mine, others[1..]);
      assert others == [others[0]] + others[1..];
    }
  }

  lemma {:induction false} ConflictNames(clash: Relation, list: string -> seq<string>, name: string, mine: seq<string>,
                                         others: seq<Tunnel>)
    returns (o: Tunnel)
    requires FirstConflict(clash, list, name, mine, others).Some?
    ensures var v := FirstConflict(clash, list, name, mine, others).value;
            o in others && o.name == v.other != name && v.mine in mine && v.theirs in list(o.ranges)
                  && clash(v.mine, v.theirs)
  {
    var pair := PairWith(clash, list, name, mine, others[0]);
    if pair.Some? {
      FirstPairIff(clash, mine, list(others[0].ranges));
      o := others[0];
    } else {
      o := ConflictNames(clash, list, name, mine, others[1..]);
    }
  }

  // No address of `mine` is an address of `theirs`.
  ghost predicate Disjoint(read: Reader, mine: seq<string>, theirs: seq<string>) {
    forall m, t :: m in mine && t in theirs ==> !Meet(read, m, t)
  }

  lemma PairIff(read: Reader, mine: seq<string>, theirs: seq<string>)
    requires Sound(read)
    ensures FirstPair(Overlaps(read), mine, theirs).None? <==> Disjoint(read, mine, theirs)
  {
    FirstPairIff(Overlaps(read), mine, theirs);
    forall m, t ensures Overlap(read, m, t) <==> Meet(read, m, t) { OverlapIffMeet(read, m, t); }
  }

  ghost predicate Apart(read: Reader, name: string, mine: seq<string>, other: Tunnel) {
    other.name == name || Disjoint(read, mine, ValidRanges(read, other.ranges))
  }

  ghost predicate ApartFromAll(read: Reader, name: string, mine: seq<string>, others: seq<Tunnel>) {
    forall o :: o in others ==> Apart(read, name, mine, o)
  }

  lemma NoConflictIff(read: Reader, name: string, mine: seq<string>, others: seq<Tunnel>)
    requires Sound(read)
    ensures FirstConflict(Overlaps(read), Lists(read), name, mine, others).None? <==>
            ApartFromAll(read, name, mine, others)
  {
    ConflictIff(Overlaps(read), Lists(read), name, mine, others);
    forall o | o in others
      ensures PairWith(Overlaps(read), Lists(read), name, mine, o).None? <==> Apart(read, name, mine, o)
    {
      PairWithIff(read, name, mine, o);
    }
  }

  lemma PairWithIff(read: Reader, name: string, mine: seq<string>, o: Tunnel)
    requires Sound(read)
    ensures PairWith(Overlaps(read), Lists(read), name, mine, o).None? <==> Apart(read, name, mine, o)
  {
    PairIff(read, mine, ValidRanges(read, o.ranges));
  }

  ghost predicate AllRanges(read: Reader, parts: seq<string>) { forall p :: p in parts ==> read(p).Some? }

  lemma ListIff(read: Reader, ranges: string)
    ensures InvalidRanges(read, ranges) == [] <==> AllRanges(read, Parts(ranges))
    ensures InvalidRanges(read, ranges) == [] ==> ValidRanges(read, ranges) == Parts(ranges)
  {
    NothingRejected(IsRange(read), Parts(ranges));
  }

  // A configuration is accepted exactly when every part of its text is a range, there is at least
  // one, and no address of its ranges belongs to a differently named tunnel.
  lemma AcceptedIff(read: Reader, name: string, ranges: string, others: seq<Tunnel>)
    requires Sound(read)
    ensures Judge(read, name, ranges, others).Accepted? <==>
            Parts(ranges) != [] && AllRanges(read, Parts(ranges)) && ApartFromAll(read, name, Parts(ranges), others)
    ensures Judge(read, name, ranges, others).Accepted? ==> Judge(read, name, ranges, others).ranges == Parts(ranges)
  {
    ListIff(read, ranges);
    var parts, valid := Parts(ranges), ValidRanges(read, ranges);
    NoConflictIff(read, name, valid, others);
    DecideIff(parts, valid, InvalidRanges(read, ranges),
              FirstConflict(Overlaps(read), Lists(read), name, valid, others),
              AllRanges(read, parts), ApartFromAll(read, name, parts, others));
  }

  lemma DecideIff(parts: seq<string>, valid: seq<string>, invalid: seq<string>, conflict: Option<Verdict>, sound: bool,
                  apart: bool)
    requires conflict.Some? ==> conflict.value.Conflict?
    requires invalid == [] <==> sound
    requires invalid == [] ==> valid == parts && (conflict.None? <==> apart)
    ensures var v := Decide(valid, invalid, conflict);
            (v.Accepted? <==> parts != [] && sound && apart) && (v.Accepted? ==> v.ranges == parts)
  {}

  // A refusal for conflict names one of the new ranges, one range of a differently named tunnel,
  // and the two have an address in common.
  lemma ConflictIsReal(read: Reader, name: string, ranges: string, others: seq<Tunnel>)
    requires Sound(read)
    ensures var v := Judge(read, name, ranges, others);
            v.Conflict? ==>
              v.mine in Parts(ranges) && Meet(read, v.mine, v.theirs) && HasRange(read, others, v.other, v.theirs)
    ensures var v := Judge(read, name, ranges, others); v.Conflict? ==> v.other != name
  {
    var v := Judge(read, name, ranges, others);
    if v.Conflict? {
      ListIff(read, ranges);
      var o := ConflictNames(Overlaps(read), Lists(read), name, Parts(ranges), others);
      assert HasRange(read, others, o.name, v.theirs);
      OverlapIffMeet(read, v.mine, v.theirs);
    }
  }

  // A tunnel of that name uses the range.
  ghost predicate HasRange(read: Reader, others: seq<Tunnel>, name: string, range: string) {
    exists o :: o in others && o.name == name && range in ValidRanges(read, o.ranges)
  }

  // ---------------------------------------------------------------- any sequence of configurations

  // The list stored for an accepted tunnel, turned back into text, reads as the same list.
  lemma StoredListReadsBack(read: Reader, ranges: string)
    ensures Parts(ranges) != [] && AllRanges(read, Parts(ranges)) ==> Stored(read)(Parts(ranges))
  {
    PartsAreClean(ranges);
    if Parts(ranges) != [] && AllRanges(read, Parts(ranges)) { CleanListReadsBack(read, Parts(ranges)); }
  }

  lemma PartsOfJoined(parts: seq<string>)
    requires parts != [] && forall s :: s in parts ==> s != "" && Trimmed(s) && ',' !in s
    ensures Parts(Join(parts, ',')) == parts
  {
    forall k | 0 <= k < |parts| ensures ',' !in parts[k] && Trimmed(parts[k]) { assert parts[k] in parts; }
    SplitJoin(parts, ',');
    TrimsKeep(parts);
    NonEmptyKeeps(parts);
  }

  lemma TrimsKeep(parts: seq<string>)
    requires forall k :: 0 <= k < |parts| ==> Trimmed(parts[k])
    ensures Trims(parts) == parts
  {}

  lemma CleanListReadsBack(read: Reader, parts: seq<string>)
    requires parts != [] && AllRanges(read, parts)
    requires forall s :: s in parts ==> s != "" && Trimmed(s) && ',' !in s
    ensures Stored(read)(parts)
  {
    PartsOfJoined(parts);
    NothingRejected(IsRange(read), parts);
  }

  lemma PartsAreClean(text: string)
    ensures forall s :: s in Parts(text) ==> s != "" && Trimmed(s) && ',' !in s
  {
    var split := Split(text, ',');
    SplitHasNone(text, ',');
    NonEmptyAre(Trims(split));
    forall s | s in Parts(text) ensures s != "" && Trimmed(s) && ',' !in s {
      var k :| 0 <= k < |split| && s == Trim(split[k]);
      TrimHasNone(split[k], ',');
    }
  }

  lemma TrimHasNone(s: string, c: char)
    requires c !in s
    ensures c !in Trim(s)
  {
    var l := TrimLeft(s);
    TrimLeftDrops(s);
    assert c !in l;
  }

  lemma {:induction false} NonEmptyKeeps(parts: seq<string>)
    requires forall s :: s in parts ==> s != ""
    ensures NonEmpty(parts) == parts
  {
    if parts != [] {
      assert parts[0] in parts && forall s :: s in parts[1..] ==> s in parts;
      NonEmptyKeeps(parts[1..]);
    }
  }

  type Tunnels = map<string, seq<string>>

  // `others` lists the configured tunnels, in any order.
  ghost predicate Configures(others: seq<Tunnel>, s: Tunnels) {
    forall n :: n in s ==> Tunnel(n, Join(s[n], ',')) in others
  }

  ghost predicate Step(read: Reader, s: Tunnels, t: Tunnels) {
    exists name, ranges, others :: Configures(others, s) && t == Configured(read, s, name, ranges, others)
  }

  function Configured(read: Reader, s: Tunnels, name: string, ranges: string, others: seq<Tunnel>): Tunnels {
    var v := Judge(read, name, ranges, others);
    if v.Accepted? then s[name := v.ranges] else s
  }

  /** A configuration stores exactly the accepted ranges, and touches no other tunnel. */
  lemma ConfigureStoresIff(read: Reader, s: Tunnels, name: string, ranges: string, others: seq<Tunnel>)
    requires Sound(read)
    ensures Configured(read, s, name, ranges, others) ==
            if Parts(ranges) != [] && AllRanges(read, Parts(ranges)) && ApartFromAll(read, name, Parts(ranges), others)
            then s[name := Parts(ranges)] else s
  {
    AcceptedIff(read, name, ranges, others);
  }

  // The list, turned into text, reads as the same list.
  function Stored(read: Reader): seq<string> -> bool {
    (ranges: seq<string>) => ValidRanges(read, Join(ranges, ',')) == ranges
  }

  ghost function Separates(read: Reader): (seq<string>, seq<string>) -> bool {
    (a: seq<string>, b: seq<string>) => Disjoint(read, a, b)
  }

  ghost predicate Each(test: seq<string> -> bool, s: Tunnels) { forall n :: n in s ==> test(s[n]) }

  ghost predicate Pairwise(apart: (seq<string>, seq<string>) -> bool, s: Tunnels) {
    forall n, m :: n in s && m in s && n != m ==> apart(s[n], s[m])
  }

  // Every stored list reads back, and no address belongs to two tunnels.
  ghost predicate NeverShared(read: Reader, s: Tunnels) { Each(Stored(read), s) && Pairwise(Separates(read), s) }

  lemma DisjointSwaps(read: Reader, a: seq<string>, b: seq<string>)
    ensures Disjoint(read, a, b) ==> Disjoint(read, b, a)
  {
    forall m, t ensures Meet(read, m, t) <==> Meet(read, t, m) { MeetSwaps(read, m, t); }
  }

  lemma ConfigureKeepsApart(read: Reader, s: Tunnels, name: string, ranges: string, others: seq<Tunnel>)
    requires Sound(read) && NeverShared(read, s) && Configures(others, s)
    ensures NeverShared(read, Configured(read, s, name, ranges, others))
  {
    if Judge(read, name, ranges, others).Accepted? {
      AcceptedIff(read, name, ranges, others);
      StoredListReadsBack(read, ranges);
      AddTunnel(read, s, name, Parts(ranges), others);
    }
  }

  lemma AddTunnel(read: Reader, s: Tunnels, name: string, mine: seq<string>, others: seq<Tunnel>)
    requires NeverShared(read, s) && Configures(others, s) && Stored(read)(mine)
    requires ApartFromAll(read, name, mine, others)
    ensures NeverShared(read, s[name := mine])
  {
    forall n | n in s && n != name ensures Disjoint(read, mine, s[n]) && Disjoint(read, s[n], mine) {
      ApartFromStored(read, s, name, mine, others, n);
      DisjointSwaps(read, mine, s[n]);
    }
    AddToAll(Stored(read), Separates(read), s, name, mine);
  }

  lemma ApartFromStored(read: Reader, s: Tunnels, name: string, mine: seq<string>, others: seq<Tunnel>, n: string)
    requires Each(Stored(read), s) && Configures(others, s) && ApartFromAll(read, name, mine, others) && n in s
    requires n != name
    ensures Disjoint(read, mine, s[n])
  {
    var o := Tunnel(n, Join(s[n], ','));
    assert Stored(read)(s[n]);
    assert o in others && Apart(read, name, mine, o);
  }

  lemma AddToAll(test: seq<string> -> bool, apart: (seq<string>, seq<string>) -> bool, s: Tunnels, name: string,
                 mine: seq<string>)
    requires Each(test, s) && Pairwise(apart, s) && test(mine)
    requires forall n :: n in s && n != name ==> apart(mine, s[n]) && apart(s[n], mine)
    ensures Each(test, s[name := mine]) && Pairwise(apart, s[name := mine])
  {}

  // Whatever tunnels are configured and reconfigured, no address ever belongs to two of them.
  lemma {:induction false} TunnelsNeverShare(read: Reader, run: seq<Tunnels>, k: nat)
    requires Sound(read) && k < |run| && run[0] == map[]
    requires forall i :: 0 <= i < |run| - 1 ==> Step(read, run[i], run[i + 1])
    ensures NeverShared(read, run[k])
  {
    if k > 0 {
      TunnelsNeverShare(read, run, k - 1);
      var s, t := run[k - 1], run[k - 1 + 1];
      assert Step(read, s, t);
      var name, ranges, others :| Configures(others, s) && t == Configured(read, s, name, ranges, others);
      ConfigureKeepsApart(read, s, name, ranges, others);
    }
  }
}
