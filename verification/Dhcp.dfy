/** The dnsmasq configuration files: what is printed, what is read back. */
module Dhcp {
  import opened Common
  import opened Text

  datatype ReadError = NotDeclaredOnce(key: string) | WrongArity(key: string) | MissingOption(name: string)
                     | BadAddress | BadSettings | BadReservation | UnsupportedDirective

  // ---------------------------------------------------------------- addresses

  type Octet = x: int | 0 <= x < 256

  datatype IPv4 = IPv4(a: Octet, b: Octet, c: Octet, d: Octet)

  function AddressText(ip: IPv4): string { Join([Decimal(ip.a), Decimal(ip.b), Decimal(ip.c), Decimal(ip.d)], '.') }

  function AddressNumber(ip: IPv4): nat { ((ip.a * 256 + ip.b) * 256 + ip.c) * 256 + ip.d }

  // One to three ASCII digits, without a leading zero, up to 255.
  function ParseOctet(s: string): Option<Octet> {
    if s == "" || |s| > 3 || !AllDigits(s) || (|s| > 1 && s[0] == '0') then None
    else
      var n := ParseDigits(s);
      if n.Some? && n.value < 256 then Some(n.value) else None
  }

  predicate AllDigits(s: string) { forall c :: c in s ==> IsDigit(c) }

  function ParseAddress(s: string): Option<IPv4> {
    var parts := Split(s, '.');
    if |parts| != 4 then None
    else
      match (ParseOctet(parts[0]), ParseOctet(parts[1]), ParseOctet(parts[2]), ParseOctet(parts[3]))
      case (Some(a), Some(b), Some(c), Some(d)) => Some(IPv4(a, b, c, d))
      case _ => None
  }

  lemma OctetReadsBack(n: Octet)
    ensures ParseOctet(Decimal(n)) == Some(n) && '.' !in Decimal(n)
  {
    DecimalDigits(n);
    ParseDecimal(n);
    if n >= 10 { DecimalDigits(n / 10); }
  }

  predicate AddressChar(c: char) { IsDigit(c) || c == '.' }

  lemma JoinFour(a: string, b: string, c: string, d: string, sep: char)
    ensures Join([a, b, c, d], sep) == a + [sep] + (b + [sep] + (c + [sep] + d))
  {
    var parts := [a, b, c, d];
    assert parts[1..] == [b, c, d] && [b, c, d][1..] == [c, d] && [c, d][1..] == [d];
    assert Join([d], sep) == d;
    assert Join([c, d], sep) == c + [sep] + d;
  }

  lemma AddressReadsBack(ip: IPv4)
    ensures ParseAddress(AddressText(ip)) == Some(ip)
    ensures forall c :: c in AddressText(ip) ==> AddressChar(c)
  {
    OctetReadsBack(ip.a);
    OctetReadsBack(ip.b);
    OctetReadsBack(ip.c);
    OctetReadsBack(ip.d);
    PartsReadBack(Decimal(ip.a), Decimal(ip.b), Decimal(ip.c), Decimal(ip.d));
    AddressChars(ip);
  }

  lemma PartsReadBack(a: string, b: string, c: string, d: string)
    requires '.' !in a && '.' !in b && '.' !in c && '.' !in d
    ensures Split(Join([a, b, c, d], '.'), '.') == [a, b, c, d]
  {
    SplitJoin([a, b, c, d], '.');
  }

  lemma AddressChars(ip: IPv4)
    ensures forall c :: c in AddressText(ip) ==> AddressChar(c)
  {
    DecimalDigits(ip.a);
    DecimalDigits(ip.b);
    DecimalDigits(ip.c);
    DecimalDigits(ip.d);
    JoinFour(Decimal(ip.a), Decimal(ip.b), Decimal(ip.c), Decimal(ip.d), '.');
  }

  // An octet is read from exactly its decimal digits, an address from exactly its dotted form.
  lemma OctetsAre(s: string, n: Octet)
    ensures ParseOctet(s) == Some(n) <==> s == Decimal(n)
  {
    OctetReadsBack(n);
    if ParseOctet(s) == Some(n) { CanonicalDigits(s); }
  }

  lemma AddressesAre(s: string, ip: IPv4)
    ensures ParseAddress(s) == Some(ip) <==> s == AddressText(ip)
  {
    AddressReadsBack(ip);
    if ParseAddress(s) == Some(ip) {
      var parts := Split(s, '.');
      JoinSplit(s, '.');
      OctetsAre(parts[0], ip.a);
      OctetsAre(parts[1], ip.b);
      OctetsAre(parts[2], ip.c);
      OctetsAre(parts[3], ip.d);
      assert parts == [Decimal(ip.a), Decimal(ip.b), Decimal(ip.c), Decimal(ip.d)];
    }
  }

  // ----------------------------------------------------------------- settings

  datatype Settings = Settings(
    iface: string, rangeStart: IPv4, rangeEnd: IPv4, mask: IPv4, lease: string, gateway: IPv4,
    dns: seq<IPv4>, ntp: seq<IPv4>, domain: string)

  function BitAnd(a: nat, b: nat): nat {
    if a == 0 || b == 0 then 0 else 2 * BitAnd(a / 2, b / 2) + (a % 2) * (b % 2)
  }

  function Network(ip: IPv4, mask: IPv4): nat { BitAnd(AddressNumber(ip), AddressNumber(mask)) }

  predicate HostChar(c: char) { IsDigit(c) || 'a' <= c <= 'z' || 'A' <= c <= 'Z' || c == '-' }

  predicate HostLabel(l: string) { l != "" && l[0] != '-' && forall c :: c in l ==> HostChar(c) }

  predicate HostName(s: string) { 1 <= |s| <= 253 && forall l :: l in Split(s, '.') ==> HostLabel(l) }

  function LowerChar(c: char): char { if 'A' <= c <= 'Z' then c + ' ' else c }

  function Lower(s: string): string { if s == "" then "" else [LowerChar(s[0])] + Lower(s[1..]) }

  predicate LeaseText(s: string) {
    && |s| >= 2 && '1' <= s[0] <= '9'
    && (forall i :: 0 <= i < |s| - 1 ==> IsDigit(s[i]))
    && s[|s| - 1] in "mhdw"
  }

  // What a document strips from its strings: Unicode white space, which spares the four separators
  // U+001C to U+001F that the parser strips from a line.
  predicate IsWhite(c: char) { IsSpace(c) && !('\U{1c}' <= c <= '\U{1f}') }

  predicate Stripped(s: string) { s == "" || (!IsWhite(s[0]) && !IsWhite(s[|s| - 1])) }

  // What the settings model demands beside its domain.
  predicate Consistent(s: Settings) {
    && s.iface != "" && Stripped(s.iface)
    && LeaseText(s.lease)
    && s.dns != [] && s.ntp != []
    && AddressNumber(s.rangeStart) <= AddressNumber(s.rangeEnd)
    && Network(s.rangeStart, s.mask) == Network(s.rangeEnd, s.mask) == Network(s.gateway, s.mask)
  }

  // A settings document: its strings are stripped and its domain is in lower case.
  predicate Valid(s: Settings) { Consistent(s) && HostName(s.domain) && Lower(s.domain) == s.domain }

  // Constructing the document from what a file says. The parser has stripped it, so that the
  // document finds nothing more to strip.
  function Build(s: Settings): Result<Settings, ReadError> {
    var t := s.(iface := Strip(s.iface), lease := Strip(s.lease), domain := Lower(Strip(s.domain)));
    if HostName(Strip(s.domain)) && Consistent(t) then Ok(t) else Err(BadSettings)
  }

  // What a file must say to be a document: an interface, a lease of a positive number of minutes, hours,
  // days or weeks, servers of both kinds, an ordered range, one network, and a host name as domain.
  lemma DocumentsAreChecked(s: Settings)
    requires Trimmed(s.iface) && Trimmed(s.lease) && Trimmed(s.domain)
    ensures Build(s).Ok? <==>
              && s.iface != "" && s.dns != [] && s.ntp != []
              && |s.lease| >= 2 && '1' <= s.lease[0] <= '9' && s.lease[|s.lease| - 1] in ['m', 'h', 'd', 'w']
              && (forall i :: 0 < i < |s.lease| - 1 ==> '0' <= s.lease[i] <= '9')
              && AddressNumber(s.rangeStart) <= AddressNumber(s.rangeEnd)
              && BitAnd(AddressNumber(s.rangeStart), AddressNumber(s.mask))
                   == BitAnd(AddressNumber(s.rangeEnd), AddressNumber(s.mask))
                   == BitAnd(AddressNumber(s.gateway), AddressNumber(s.mask))
              && HostName(s.domain)
    ensures Build(s).Ok? ==> Build(s).value == s.(domain := Lower(s.domain))
  {
    StripTrimmed(s.iface);
    StripTrimmed(s.lease);
    StripTrimmed(s.domain);
    assert forall c :: c in "mhdw" <==> c in ['m', 'h', 'd', 'w'];
  }

  predicate LetterOrDigit(c: char) { 'a' <= c <= 'z' || 'A' <= c <= 'Z' || '0' <= c <= '9' }

  // A host name read by position: letters, digits and hyphens, with dots between; neither a dot nor a
  // hyphen at the beginning or after a dot, and no dot at the end.
  ghost predicate Positioned(s: string) {
    && s != "" && s[|s| - 1] != '.'
    && forall i :: 0 <= i < |s| ==> PlacedAt(s, i)
  }

  predicate PlacedAt(s: string, i: nat)
    requires i < |s|
  {
    && (LetterOrDigit(s[i]) || s[i] == '-' || s[i] == '.')
    && (i == 0 || s[i - 1] == '.' ==> s[i] != '-' && s[i] != '.')
  }

  lemma HostNamesAre(s: string)
    ensures HostName(s) <==> |s| <= 253 && Positioned(s)
  {
    if s != "" { LabelsArePlaced(s); }
  }

  lemma {:induction false} LabelsArePlaced(s: string)
    ensures (forall l :: l in Split(s, '.') ==> HostLabel(l)) <==> Positioned(s)
    decreases |s|
  {
    var i := Find(s, '.');
    if i == |s| {
      assert Split(s, '.') == [s];
      OneLabel(s);
    } else {
      LabelsArePlaced(s[i + 1..]);
      assert Split(s, '.') == [s[..i]] + Split(s[i + 1..], '.');
      OneLabel(s[..i]);
      LabelThenRest(s, i);
    }
  }

  lemma OneLabel(l: string)
    requires '.' !in l
    ensures HostLabel(l) <==> Positioned(l)
  {
    if HostLabel(l) {
      forall i | 0 <= i < |l| ensures PlacedAt(l, i) { assert l[i] in l; }
    }
    if Positioned(l) {
      assert PlacedAt(l, 0);
      forall c | c in l ensures HostChar(c) {
        var i :| 0 <= i < |l| && l[i] == c;
        assert PlacedAt(l, i);
      }
    }
  }

  lemma LabelThenRest(s: string, i: nat)
    requires i < |s| && s[i] == '.' && '.' !in s[..i]
    ensures Positioned(s) <==> Positioned(s[..i]) && Positioned(s[i + 1..])
  {
    var l, rest := s[..i], s[i + 1..];
    forall k | 0 <= k < i ensures PlacedAt(l, k) <==> PlacedAt(s, k) {}
    forall k | 0 <= k < |rest| ensures PlacedAt(rest, k) <==> PlacedAt(s, i + 1 + k) {}
    if Positioned(s) {
      assert PlacedAt(s, i);
      forall k | 0 <= k < |rest| ensures PlacedAt(rest, k) { assert PlacedAt(s, i + 1 + k); }
    }
    if Positioned(l) && Positioned(rest) {
      assert l[i - 1] in l;
      forall k | 0 <= k < |s| ensures PlacedAt(s, k) {
        if k < i { assert PlacedAt(l, k); }
        if k > i { assert PlacedAt(rest, k - i - 1); }
      }
    }
  }

  // Under the mask 255.255.255.0 two addresses share a network exactly when their first three octets
  // agree.
  lemma SameNetwork(x: IPv4, y: IPv4, mask: IPv4)
    requires mask == IPv4(255, 255, 255, 0)
    ensures Network(x, mask) == Network(y, mask) <==> x.a == y.a && x.b == y.b && x.c == y.c
  {
    FirstThreeOctets(x, mask);
    FirstThreeOctets(y, mask);
    SameOctets(x.a, x.b, x.c, y.a, y.b, y.c);
  }

  lemma SameOctets(a: Octet, b: Octet, c: Octet, d: Octet, e: Octet, f: Octet)
    ensures (a * 256 + b) * 256 + c == (d * 256 + e) * 256 + f <==> a == d && b == e && c == f
  {
  }

  lemma FirstThreeOctets(ip: IPv4, mask: IPv4)
    requires mask == IPv4(255, 255, 255, 0)
    ensures Network(ip, mask) == 256 * ((ip.a * 256 + ip.b) * 256 + ip.c)
  {
    LowOctetIsCleared((ip.a * 256 + ip.b) * 256 + ip.c, ip.d, 16_777_215);
    OnesInBytes(0);
    OnesInBytes(255);
    OnesInBytes(65_535);
    OnesKeep((ip.a * 256 + ip.b) * 256 + ip.c, 16_777_215);
  }

  lemma ZeroBit(high: nat, bit: nat, m: nat)
    requires bit < 2
    ensures BitAnd(2 * high + bit, 2 * m) == 2 * BitAnd(high, m)
  {
  }

  lemma TwoZeroBits(high: nat, low: nat, m: nat)
    requires low < 4
    ensures BitAnd(4 * high + low, 4 * m) == 4 * BitAnd(high, m)
  {
    ZeroBit(2 * high + low / 2, low % 2, 2 * m);
    ZeroBit(high, low / 2, m);
  }

  lemma FourZeroBits(high: nat, low: nat, m: nat)
    requires low < 16
    ensures BitAnd(16 * high + low, 16 * m) == 16 * BitAnd(high, m)
  {
    TwoZeroBits(4 * high + low / 4, low % 4, 4 * m);
    TwoZeroBits(high, low / 4, m);
  }

  lemma LowOctetIsCleared(high: nat, low: nat, m: nat)
    requires low < 256
    ensures BitAnd(256 * high + low, 256 * m) == 256 * BitAnd(high, m)
  {
    FourZeroBits(16 * high + low / 16, low % 16, 16 * m);
    FourZeroBits(high, low / 16, m);
  }

  // Ones in every binary place.
  predicate Ones(m: nat) { m == 0 || (m % 2 == 1 && Ones(m / 2)) }

  lemma OnesInBytes(m: nat)
    requires Ones(m)
    ensures Ones(256 * m + 255)
  {
    OneMore(m);
    OneMore(2 * m + 1);
    OneMore(4 * m + 3);
    OneMore(8 * m + 7);
    OneMore(16 * m + 15);
    OneMore(32 * m + 31);
    OneMore(64 * m + 63);
    OneMore(128 * m + 127);
  }

  lemma OneMore(m: nat)
    requires Ones(m)
    ensures Ones(2 * m + 1)
  {
    assert (2 * m + 1) / 2 == m;
  }

  lemma {:induction false} OnesKeep(x: nat, m: nat)
    requires Ones(m) && x <= m
    ensures BitAnd(x, m) == x
  {
    if x > 0 { OnesKeep(x / 2, m / 2); }
  }

  // ----------------------------------------------------------------- printing

  function AddressTexts(ips: seq<IPv4>): seq<string> {
    if ips == [] then [] else [AddressText(ips[0])] + AddressTexts(ips[1..])
  }

  function Addresses(ips: seq<IPv4>): string { Join(AddressTexts(ips), ',') }

  // The line of number signs that frames a heading.
  function Rule(): string { seq(49, i => '#') }

  function Entry(key: string, value: string): string { key + ['='] + value }

  function RangeValue(s: Settings): string {
    Join([AddressText(s.rangeStart), AddressText(s.rangeEnd), AddressText(s.mask), s.lease], ',')
  }

  function HeadLines(s: Settings): seq<string> {
    [Rule(), "# Ohana-House", "# Configuration DHCP gérée par Ohana-Agent", Rule(), "", Entry("interface", s.iface)]
  }

  function ModeLines(): seq<string> { ["bind-interfaces", "", "domain-needed", "bogus-priv", "", "dhcp-authoritative", ""] }

  function OptionLines(s: Settings): seq<string> {
    [Entry("dhcp-range", RangeValue(s)), "",
     Entry("dhcp-option", "option:router," + AddressText(s.gateway)),
     Entry("dhcp-option", "option:dns-server," + Addresses(s.dns)),
     Entry("dhcp-option", "option:ntp-server," + Addresses(s.ntp)), ""]
  }

  function TailLines(s: Settings, node: string): seq<string> {
    [Entry("domain", s.domain), Entry("local", "/" + s.domain + "/"), "expand-hosts", "", "no-hosts",
     Entry("interface-name", node + "." + s.domain + "," + s.iface + "/4")]
  }

  function MainLines(s: Settings, node: string): seq<string> {
    HeadLines(s) + ModeLines() + OptionLines(s) + TailLines(s, node)
  }

  function RenderMain(s: Settings, node: string): string { Join(MainLines(s, node) + [""], '\n') }

  // ------------------------------------------------------------------ reading

  function ParseLine(raw: string): Option<(string, string)> {
    var line := Strip(raw);
    if line == "" || line[0] == '#' || '=' !in line then None
    else var (key, value) := SplitOnce(line, '='); Some((Strip(key), Strip(value)))
  }

  // What one line declares for a key.
  function ValueOf(line: string, key: string): seq<string> {
    var entry := ParseLine(line);
    if entry.Some? && entry.value.0 == key then [entry.value.1] else []
  }

  function Collect<A, B>(items: seq<A>, f: A -> seq<B>): seq<B> {
    if items == [] then [] else f(items[0]) + Collect(items[1..], f)
  }

  // The values declared for a key, in file order.
  function Values(lines: seq<string>, key: string): seq<string> { Collect(lines, ValuesFor(key)) }

  function ValuesFor(key: string): string -> seq<string> { line => ValueOf(line, key) }

  function Single(lines: seq<string>, key: string): Result<string, ReadError> {
    var values := Values(lines, key);
    if |values| == 1 then Ok(values[0]) else Err(NotDeclaredOnce(key))
  }

  function ParseAddresses(texts: seq<string>): Option<seq<IPv4>> {
    if texts == [] then Some([]) else
    match (ParseAddress(Strip(texts[0])), ParseAddresses(texts[1..]))
    case (Some(ip), Some(rest)) => Some([ip] + rest)
    case _ => None
  }

  // The addresses of the first option of that name.
  function OptionValues(options: seq<string>, prefix: string): Result<seq<IPv4>, ReadError> {
    if options == [] then Err(MissingOption(prefix))
    else if prefix <= options[0] then
      var ips := ParseAddresses(Split(options[0][|prefix|..], ','));
      if ips.Some? then Ok(ips.value) else Err(BadAddress)
    else OptionValues(options[1..], prefix)
  }

  // What the file says, before the document checks it.
  function Gather(lines: seq<string>): Result<Settings, ReadError> {
    var range := Single(lines, "dhcp-range");
    if range.Err? then Err(range.error) else
    var parts := Split(range.value, ',');
    if |parts| != 4 then Err(WrongArity("dhcp-range")) else
    var options := Values(lines, "dhcp-option");
    var gateway := OptionValues(options, "option:router,");
    if gateway.Err? then Err(gateway.error) else
    var dns := OptionValues(options, "option:dns-server,");
    if dns.Err? then Err(dns.error) else
    var ntp := OptionValues(options, "option:ntp-server,");
    if ntp.Err? then Err(ntp.error) else
    var iface := Single(lines, "interface");
    if iface.Err? then Err(iface.error) else
    var domain := Single(lines, "domain");
    if domain.Err? then Err(domain.error) else
    match (ParseAddress(Strip(parts[0])), ParseAddress(Strip(parts[1])), ParseAddress(Strip(parts[2])))
    case (Some(start), Some(end), Some(mask)) =>
      if gateway.value == [] then Err(BadSettings) else
      Ok(Settings(iface.value, start, end, mask, Strip(parts[3]), gateway.value[0], dns.value, ntp.value, domain.value))
    case _ => Err(BadSettings)
  }

  function SettingsOfLines(lines: seq<string>): Result<Settings, ReadError> {
    var said := Gather(lines);
    if said.Err? then said else Build(said.value)
  }

  function ReadSettings(text: string): Result<Settings, ReadError> { SettingsOfLines(SplitLines(text)) }

  // The addresses of an option are read from exactly their dotted forms, up to white space.
  ghost predicate Spells(texts: seq<string>, ips: seq<IPv4>) {
    |texts| == |ips| && forall i :: 0 <= i < |ips| ==> Strip(texts[i]) == AddressText(ips[i])
  }

  lemma SpellsNext(text: string, texts: seq<string>, ip: IPv4, ips: seq<IPv4>)
    ensures Spells([text] + texts, [ip] + ips) <==> Strip(text) == AddressText(ip) && Spells(texts, ips)
  {
    var all, addresses := [text] + texts, [ip] + ips;
    assert all[0] == text && addresses[0] == ip;
    assert forall i :: 0 <= i < |texts| ==> all[i + 1] == texts[i];
    assert forall i :: 0 <= i < |ips| ==> addresses[i + 1] == ips[i];
    if Spells(texts, ips) && Strip(text) == AddressText(ip) {
      forall i | 0 <= i < |addresses| ensures Strip(all[i]) == AddressText(addresses[i]) {
        if i > 0 { assert all[i] == texts[i - 1] && addresses[i] == ips[i - 1]; }
      }
    }
  }

  lemma {:induction false} AddressListsAre(texts: seq<string>, ips: seq<IPv4>)
    ensures ParseAddresses(texts) == Some(ips) <==> Spells(texts, ips)
  {
    if texts != [] && ips != [] {
      assert texts == [texts[0]] + texts[1..] && ips == [ips[0]] + ips[1..];
      AddressesAre(Strip(texts[0]), ips[0]);
      AddressListsAre(texts[1..], ips[1..]);
      SpellsNext(texts[0], texts[1..], ips[0], ips[1..]);
    }
  }

  // An option's addresses come from the first option of that name.
  lemma {:induction false} OptionsSay(options: seq<string>, prefix: string, ips: seq<IPv4>)
    ensures OptionValues(options, prefix) == Ok(ips) <==>
              exists i :: 0 <= i < |options| && FirstNamed(options, prefix, i)
                          && Spells(Split(options[i][|prefix|..], ','), ips)
  {
    if options != [] {
      if prefix <= options[0] {
        AddressListsAre(Split(options[0][|prefix|..], ','), ips);
        assert FirstNamed(options, prefix, 0);
        assert forall i :: 0 < i < |options| ==> !FirstNamed(options, prefix, i);
      } else {
        OptionsSay(options[1..], prefix, ips);
        forall i | 0 < i < |options| ensures FirstNamed(options, prefix, i) <==> FirstNamed(options[1..], prefix, i - 1) {
          assert forall j :: 0 <= j < i - 1 ==> options[1..][j] == options[j + 1];
        }
      }
    }
  }

  predicate FirstNamed(options: seq<string>, prefix: string, i: nat)
    requires i < |options|
  {
    prefix <= options[i] && forall j :: 0 <= j < i ==> !(prefix <= options[j])
  }

  lemma RangeIsParsed(lines: seq<string>, s: Settings, parts: seq<string>)
    requires Gather(lines) == Ok(s) && parts == Split(Single(lines, "dhcp-range").value, ',')
    ensures Single(lines, "dhcp-range").Ok? && |parts| == 4 && Strip(parts[3]) == s.lease
    ensures ParseAddress(Strip(parts[0])) == Some(s.rangeStart) && ParseAddress(Strip(parts[1])) == Some(s.rangeEnd)
    ensures ParseAddress(Strip(parts[2])) == Some(s.mask)
  {
  }

  lemma DeclaredOnce(lines: seq<string>, key: string)
    ensures Single(lines, key).Ok? <==> |Values(lines, key)| == 1
    ensures Single(lines, key).Ok? ==> Values(lines, key) == [Single(lines, key).value]
  {
  }

  // What a file says that can be read: each key once, a range of exactly four parts with its addresses
  // in dotted form, the servers of the first option of their kind, the first router as gateway.
  lemma GatheredRange(lines: seq<string>, s: Settings)
    requires Gather(lines) == Ok(s)
    ensures |Values(lines, "dhcp-range")| == 1
    ensures var parts := Split(Values(lines, "dhcp-range")[0], ',');
            && |parts| == 4 && Strip(parts[3]) == s.lease
            && Strip(parts[0]) == AddressText(s.rangeStart) && Strip(parts[1]) == AddressText(s.rangeEnd)
            && Strip(parts[2]) == AddressText(s.mask)
  {
    DeclaredOnce(lines, "dhcp-range");
    var parts := Split(Single(lines, "dhcp-range").value, ',');
    RangeIsParsed(lines, s, parts);
    AddressesAre(Strip(parts[0]), s.rangeStart);
    AddressesAre(Strip(parts[1]), s.rangeEnd);
    AddressesAre(Strip(parts[2]), s.mask);
  }

  lemma GatheredKeys(lines: seq<string>, s: Settings)
    requires Gather(lines) == Ok(s)
    ensures Single(lines, "interface") == Ok(s.iface) && Single(lines, "domain") == Ok(s.domain)
  {
  }

  lemma GatheredServers(lines: seq<string>, s: Settings)
    requires Gather(lines) == Ok(s)
    ensures var options := Values(lines, "dhcp-option");
            OptionValues(options, "option:dns-server,") == Ok(s.dns) && OptionValues(options, "option:ntp-server,") == Ok(s.ntp)
  {
  }

  lemma GatheredGateway(lines: seq<string>, s: Settings)
    requires Gather(lines) == Ok(s)
    ensures var router := OptionValues(Values(lines, "dhcp-option"), "option:router,");
            router.Ok? && router.value != [] && router.value[0] == s.gateway
  {
  }

  function Filed(m: map<string, seq<string>>, key: string): seq<string> { if key in m then m[key] else [] }

  ghost predicate Files(m: map<string, seq<string>>, lines: seq<string>) {
    forall key :: Filed(m, key) == Values(lines, key)
  }

  // The parser of the repository: one pass over the lines, filing each value under its key.
  method ReadDirectives(text: string) returns (directives: map<string, seq<string>>)
    ensures forall key :: Filed(directives, key) == Values(SplitLines(text), key)
  {
    directives := FileLines(SplitLines(text));
  }

  method FileLines(lines: seq<string>) returns (directives: map<string, seq<string>>)
    ensures Files(directives, lines)
  {
    directives := map[];
    assert lines[..0] == [];
    for i := 0 to |lines|
      invariant Files(directives, lines[..i])
    {
      assert lines[..i + 1] == lines[..i] + [lines[i]];
      FilingStep(directives, lines[..i], lines[i]);
      directives := FileLine(directives, lines[i]);
    }
    assert lines[..|lines|] == lines;
  }

  // The value of a line joins those of its key.
  function Filing(m: map<string, seq<string>>, raw: string): map<string, seq<string>> {
    var entry := ParseLine(raw);
    if entry.None? then m else m[entry.value.0 := Filed(m, entry.value.0) + [entry.value.1]]
  }

  method FileLine(directives: map<string, seq<string>>, raw: string) returns (more: map<string, seq<string>>)
    ensures more == Filing(directives, raw)
  {
    more := directives;
    var line := Strip(raw);
    if line != "" && line[0] != '#' && '=' in line {
      var (k, v) := SplitOnce(line, '=');
      var key, value := Strip(k), Strip(v);
      more := more[key := Filed(more, key) + [value]];
    }
  }

  lemma FilingStep(before: map<string, seq<string>>, lines: seq<string>, line: string)
    requires Files(before, lines)
    ensures Files(Filing(before, line), lines + [line])
  {
    var after := Filing(before, line);
    forall key ensures Filed(after, key) == Values(lines + [line], key) {
      ValuesConcat(lines, [line], key);
      ValuesOfOne(line, key);
      assert Filed(before, key) == Values(lines, key);
    }
  }

  lemma ValuesOfOne(line: string, key: string)
    ensures Values([line], key) == ValueOf(line, key)
  {
    CollectOne(line, ValuesFor(key));
  }

  lemma CollectOne<A, B>(item: A, f: A -> seq<B>)
    ensures Collect([item], f) == f(item)
  {
    assert [item][1..] == [];
  }

  lemma {:induction false} CollectConcat<A, B>(a: seq<A>, b: seq<A>, f: A -> seq<B>)
    ensures Collect(a + b, f) == Collect(a, f) + Collect(b, f)
  {
    if a == [] {
      assert a + b == b;
    } else {
      CollectConcat(a[1..], b, f);
      assert (a + b)[1..] == a[1..] + b;
    }
  }

  lemma ValuesConcat(a: seq<string>, b: seq<string>, key: string)
    ensures Values(a + b, key) == Values(a, key) + Values(b, key)
  {
    CollectConcat(a, b, ValuesFor(key));
  }
}
